/**
 * The sparepart registry: SparepartsService with its repository folded in.
 * The spareparts table is a sequence in insertion order; since every row is
 * stamped with a strictly increasing logical time, insertion order is
 * createdAt order.
 */
module Spareparts {
  import opened Common
  import opened SparepartDto

  datatype Sparepart = Sparepart(id: Id, name: string, sku: string, createdAt: nat, updatedAt: nat)

  datatype SparepartError = AlreadyExists(sku: string) | NotFound(id: Id)

  /** The repository's findBySku: the row with that SKU, if any. */
  function FindBySku(rows: seq<Sparepart>, sku: string): (r: Option<Sparepart>)
    ensures r.Some? ==> r.value in rows && r.value.sku == sku
    ensures r.None? <==> forall p :: p in rows ==> p.sku != sku
  {
    if rows == [] then None
    else if rows[0].sku == sku then Some(rows[0])
    else FindBySku(rows[1..], sku)
  }

  /** The repository's findById: the row with that id, if any. */
  function FindById(rows: seq<Sparepart>, id: Id): (r: Option<Sparepart>)
    ensures r.Some? ==> r.value in rows && r.value.id == id
    ensures r.None? <==> forall p :: p in rows ==> p.id != id
  {
    if rows == [] then None
    else if rows[0].id == id then Some(rows[0])
    else FindById(rows[1..], id)
  }

  class SparepartsService {
    /** The spareparts table, oldest first. */
    var rows: seq<Sparepart>
    /** Logical clock: the createdAt of the next row; its id is IdOf(tick). */
    var tick: nat

    ghost predicate Valid()
      reads this
    {
      && (forall i, j :: 0 <= i < j < |rows| ==> rows[i].createdAt < rows[j].createdAt)
      && (forall i :: 0 <= i < |rows| ==> rows[i].createdAt < tick)
      && (forall i :: 0 <= i < |rows| ==> rows[i].id == IdOf(rows[i].createdAt))
      && (forall i, j :: 0 <= i < j < |rows| ==> rows[i].id != rows[j].id)
      && (forall i, j :: 0 <= i < j < |rows| ==> rows[i].sku != rows[j].sku)
    }

    /** The ids of all stored spareparts. */
    ghost function Ids(): set<Id>
      reads this
    {
      set p | p in rows :: p.id
    }

    constructor ()
      ensures Valid() && rows == []
    {
      rows := [];
      tick := 0;
    }

    /**
     * create: an SKU that is already stored is a conflict and stores
     * nothing; otherwise one sparepart with a fresh id and the requested
     * name and SKU is appended and returned.
     */
    method Create(dto: CreateSparepartDto) returns (r: Result<Sparepart, SparepartError>)
      requires Valid()
      modifies this
      ensures Valid()
      ensures (exists p :: p in old(rows) && p.sku == dto.sku) ==>
        r == Err(AlreadyExists(dto.sku)) && rows == old(rows)
      ensures (forall p :: p in old(rows) ==> p.sku != dto.sku) ==>
        && r.Ok? && r.value.name == dto.name && r.value.sku == dto.sku
        && r.value.id !in old(Ids())
        && rows == old(rows) + [r.value]
    {
      var existing := FindBySku(rows, dto.sku);
      if existing.Some? {
        return Err(AlreadyExists(dto.sku));
      }
      var p := Sparepart(IdOf(tick), dto.name, dto.sku, tick, tick);
      forall i | 0 <= i < |rows| ensures rows[i].id != p.id {
        IdOfInjective(rows[i].createdAt, tick);
      }
      rows := rows + [p];
      tick := tick + 1;
      r := Ok(p);
    }

    /** findAll: every stored sparepart once, newest first. */
    function FindAll(): (r: seq<Sparepart>)
      reads this
      requires Valid()
      ensures multiset(r) == multiset(rows)
      ensures forall i, j :: 0 <= i < j < |r| ==> r[i].createdAt > r[j].createdAt
    {
      Reverse(rows)
    }

    /** findOne: the sparepart with that id, or NotFound(id). */
    function FindOne(id: Id): (r: Result<Sparepart, SparepartError>)
      reads this
      requires Valid()
      ensures r.Ok? <==> id in Ids()
      ensures forall p :: p in rows && p.id == id ==> r == Ok(p)
      ensures r.Err? ==> r.error == NotFound(id)
    {
      match FindById(rows, id)
      case Some(p) => Ok(p)
      case None => Err(NotFound(id))
    }
  }
}
