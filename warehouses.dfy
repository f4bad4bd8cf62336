/**
 * The warehouse registry: WarehousesService with its repository folded in.
 * The warehouses table is a sequence in insertion order; since every row is
 * stamped with a strictly increasing logical time, insertion order is
 * createdAt order.
 */
module Warehouses {
  import opened Common
  import opened WarehouseDto

  datatype Warehouse = Warehouse(id: Id, name: string, code: string, createdAt: nat)

  datatype WarehouseError = AlreadyExists(code: string) | NotFound(id: Id)

  /** The repository's findByCode: the row with that code, if any. */
  function FindByCode(rows: seq<Warehouse>, code: string): (r: Option<Warehouse>)
    ensures r.Some? ==> r.value in rows && r.value.code == code
    ensures r.None? <==> forall w :: w in rows ==> w.code != code
  {
    if rows == [] then None
    else if rows[0].code == code then Some(rows[0])
    else FindByCode(rows[1..], code)
  }

  /** The repository's findById: the row with that id, if any. */
  function FindById(rows: seq<Warehouse>, id: Id): (r: Option<Warehouse>)
    ensures r.Some? ==> r.value in rows && r.value.id == id
    ensures r.None? <==> forall w :: w in rows ==> w.id != id
  {
    if rows == [] then None
    else if rows[0].id == id then Some(rows[0])
    else FindById(rows[1..], id)
  }

  class WarehousesService {
    /** The warehouses table, oldest first. */
    var rows: seq<Warehouse>
    /** Logical clock: the createdAt of the next row; its id is IdOf(tick). */
    var tick: nat

    ghost predicate Valid()
      reads this
    {
      && (forall i, j :: 0 <= i < j < |rows| ==> rows[i].createdAt < rows[j].createdAt)
      && (forall i :: 0 <= i < |rows| ==> rows[i].createdAt < tick)
      && (forall i :: 0 <= i < |rows| ==> rows[i].id == IdOf(rows[i].createdAt))
      && (forall i, j :: 0 <= i < j < |rows| ==> rows[i].id != rows[j].id)
      && (forall i, j :: 0 <= i < j < |rows| ==> rows[i].code != rows[j].code)
    }

    /** The ids of all stored warehouses. */
    ghost function Ids(): set<Id>
      reads this
    {
      set w | w in rows :: w.id
    }

    constructor ()
      ensures Valid() && rows == []
    {
      rows := [];
      tick := 0;
    }

    /**
     * create: a code that is already stored is a conflict and stores
     * nothing; otherwise one warehouse with a fresh id and the requested
     * name and code is appended and returned.
     */
    method Create(dto: CreateWarehouseDto) returns (r: Result<Warehouse, WarehouseError>)
      requires Valid()
      modifies this
      ensures Valid()
      ensures (exists w :: w in old(rows) && w.code == dto.code) ==>
        r == Err(AlreadyExists(dto.code)) && rows == old(rows)
      ensures (forall w :: w in old(rows) ==> w.code != dto.code) ==>
        && r.Ok? && r.value.name == dto.name && r.value.code == dto.code
        && r.value.id !in old(Ids())
        && rows == old(rows) + [r.value]
    {
      var existing := FindByCode(rows, dto.code);
      if existing.Some? {
        return Err(AlreadyExists(dto.code));
      }
      var w := Warehouse(IdOf(tick), dto.name, dto.code, tick);
      forall i | 0 <= i < |rows| ensures rows[i].id != w.id {
        IdOfInjective(rows[i].createdAt, tick);
      }
      rows := rows + [w];
      tick := tick + 1;
      r := Ok(w);
    }

    /** findAll: every stored warehouse once, newest first. */
    function FindAll(): (r: seq<Warehouse>)
      reads this
      requires Valid()
      ensures multiset(r) == multiset(rows)
      ensures forall i, j :: 0 <= i < j < |r| ==> r[i].createdAt > r[j].createdAt
    {
      Reverse(rows)
    }

    /** findOne: the warehouse with that id, or NotFound(id). */
    function FindOne(id: Id): (r: Result<Warehouse, WarehouseError>)
      reads this
      requires Valid()
      ensures r.Ok? <==> id in Ids()
      ensures forall w :: w in rows && w.id == id ==> r == Ok(w)
      ensures r.Err? ==> r.error == NotFound(id)
    {
      match FindById(rows, id)
      case Some(w) => Ok(w)
      case None => Err(NotFound(id))
    }
  }
}
