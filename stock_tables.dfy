/**
 * The two tables the stock engine owns, as a value: one balance row per
 * (warehouseId, sparepartId) pair and the append-only list of IN/OUT
 * transactions. The functions here are what StockRepository's queries and
 * writes do to that value.
 *
 * Every created record (balance row or transaction) is stamped with the
 * logical clock `tick`, which then advances: `tick` is its createdAt and
 * IdOf(tick) its id. So ids never repeat and the ledger is in createdAt order.
 */
module StockTables {
  import opened Common

  datatype TransactionType = IN | OUT

  /** The balance a row holds after a movement: IN adds the quantity, OUT takes it away. */
  function Moved(current: int, kind: TransactionType, quantity: int): int
  {
    if kind == IN then current + quantity else current - quantity
  }

  /** The natural key of a balance row. */
  datatype Pair = Pair(warehouseId: Id, sparepartId: Id)

  /** A warehouse_stocks row. */
  datatype StockRow = StockRow(id: Id, warehouseId: Id, sparepartId: Id, currentStock: int, createdAt: nat)

  /** A stock_transactions row. */
  datatype Transaction = Transaction(
    id: Id, warehouseId: Id, sparepartId: Id, kind: TransactionType, quantity: int, createdAt: nat)

  /** The errors the database raises on a write that breaks a key. */
  datatype DbError =
    | UniqueViolation   // a second row for the same (warehouseId, sparepartId)
    | RecordNotFound    // an update of an id no row has

  datatype Tables = Tables(stocks: map<Pair, StockRow>, ledger: seq<Transaction>, tick: nat)

  /** Ledger rows in strictly increasing createdAt order. */
  ghost predicate Chronological(l: seq<Transaction>)
  {
    forall i, j :: 0 <= i < j < |l| ==> l[i].createdAt < l[j].createdAt
  }

  /**
   * The table invariants the database and the clock maintain: each row sits
   * under its own pair, row ids are a primary key, nothing stored was
   * created at or after `tick`, and no stored id is one the clock has yet
   * to issue.
   */
  ghost predicate Wf(t: Tables)
  {
    && (forall pr :: pr in t.stocks ==>
          && t.stocks[pr].warehouseId == pr.warehouseId
          && t.stocks[pr].sparepartId == pr.sparepartId
          && t.stocks[pr].createdAt < t.tick)
    && (forall pr, pr' :: pr in t.stocks && pr' in t.stocks && pr != pr' ==>
          t.stocks[pr].id != t.stocks[pr'].id)
    && (forall i :: 0 <= i < |t.ledger| ==> t.ledger[i].createdAt < t.tick)
    && Chronological(t.ledger)
    && Unissued(t, t.tick)
  }

  /** No stored id is IdOf(n) for any n from `from` on. */
  ghost predicate Unissued(t: Tables, from: nat)
  {
    && (forall pr, n: nat :: pr in t.stocks && from <= n ==> t.stocks[pr].id != IdOf(n))
    && (forall i, n: nat :: 0 <= i < |t.ledger| && from <= n ==> t.ledger[i].id != IdOf(n))
  }

  /** The tables of a fresh database. */
  function Empty(): (t: Tables)
    ensures Wf(t) && t.stocks == map[] && t.ledger == []
  {
    Tables(map[], [], 0)
  }

  /** The clock issues each id once: no later tick issues it again. */
  lemma IssuedOnce(n: nat)
    ensures forall m: nat :: n < m ==> IdOf(n) != IdOf(m)
  {
    forall m: nat | n < m ensures IdOf(n) != IdOf(m) {
      IdOfInjective(n, m);
    }
  }

  // ---------------------------------------------------------------- queries

  /** findStock: the unique row for the pair, or null. */
  function FindStock(t: Tables, warehouseId: Id, sparepartId: Id): (r: Option<StockRow>)
    requires Wf(t)
    ensures r.Some? ==> r.value in t.stocks.Values
    ensures r.Some? ==> r.value.warehouseId == warehouseId && r.value.sparepartId == sparepartId
    ensures forall row :: (row in t.stocks.Values && row.warehouseId == warehouseId
      && row.sparepartId == sparepartId) ==> r == Some(row)
  {
    var key := Pair(warehouseId, sparepartId);
    if key in t.stocks then Some(t.stocks[key]) else None
  }

  /**
   * SELECT * FROM warehouse_stocks WHERE warehouse_id = $1 AND
   * sparepart_id = $2 FOR UPDATE: every row of the pair, which the unique
   * key makes at most one.
   */
  function LockedRows(t: Tables, warehouseId: Id, sparepartId: Id): (rows: seq<StockRow>)
    requires Wf(t)
    ensures |rows| <= 1
    ensures forall i :: 0 <= i < |rows| ==> rows[i].warehouseId == warehouseId && rows[i].sparepartId == sparepartId
  {
    var key := Pair(warehouseId, sparepartId);
    if key in t.stocks then [t.stocks[key]] else []
  }

  /** The locking query returns every stored row of the pair and nothing else. */
  lemma LockedRowsExact(t: Tables, warehouseId: Id, sparepartId: Id)
    requires Wf(t)
    ensures forall row :: row in LockedRows(t, warehouseId, sparepartId) <==>
      row in t.stocks.Values && row.warehouseId == warehouseId && row.sparepartId == sparepartId
  {
  }

  /**
   * findStockWithLock: null when the locking query returns nothing,
   * otherwise its first row with the snake_case columns carried over to the
   * record's fields and createdAt replaced by the current time `now`.
   */
  function FindStockWithLock(t: Tables, warehouseId: Id, sparepartId: Id, now: nat): (r: Option<StockRow>)
    requires Wf(t)
    ensures r.None? <==> FindStock(t, warehouseId, sparepartId).None?
    ensures r.Some? ==> r.value == FindStock(t, warehouseId, sparepartId).value.(createdAt := now)
  {
    var rows := LockedRows(t, warehouseId, sparepartId);
    if |rows| == 0 then None
    else
      var row := rows[0];
      Some(StockRow(row.id, row.warehouseId, row.sparepartId, row.currentStock, now))
  }

  // ----------------------------------------------------------------- writes

  /**
   * createStock: inserts a row with exactly the given fields and a fresh
   * id; a second row for an existing pair breaks the unique key.
   */
  function CreateStock(t: Tables, warehouseId: Id, sparepartId: Id, currentStock: int)
    : (o: (Tables, Result<StockRow, DbError>))
    requires Wf(t)
    ensures Wf(o.0)
    ensures Pair(warehouseId, sparepartId) in t.stocks ==> o == (t, Err(UniqueViolation))
    ensures Pair(warehouseId, sparepartId) !in t.stocks ==>
      && o.1.Ok?
      && o.1.value.warehouseId == warehouseId && o.1.value.sparepartId == sparepartId
      && o.1.value.currentStock == currentStock
      && (forall row :: row in t.stocks.Values ==> row.id != o.1.value.id)
      && o.0.stocks == t.stocks[Pair(warehouseId, sparepartId) := o.1.value]
      && o.0.ledger == t.ledger
  {
    var key := Pair(warehouseId, sparepartId);
    if key in t.stocks then (t, Err(UniqueViolation))
    else
      var row := StockRow(IdOf(t.tick), warehouseId, sparepartId, currentStock, t.tick);
      IssuedOnce(t.tick);
      (Tables(t.stocks[key := row], t.ledger, t.tick + 1), Ok(row))
  }

  /** updateStock: sets currentStock of the row with that id. */
  function UpdateStock(t: Tables, id: Id, currentStock: int): (o: (Tables, Result<StockRow, DbError>))
    requires Wf(t)
    ensures Wf(o.0)
    ensures (forall pr :: pr in t.stocks ==> t.stocks[pr].id != id) ==> o == (t, Err(RecordNotFound))
    ensures forall pr :: pr in t.stocks && t.stocks[pr].id == id ==>
      && o.1 == Ok(t.stocks[pr].(currentStock := currentStock))
      && o.0 == t.(stocks := t.stocks[pr := t.stocks[pr].(currentStock := currentStock)])
  {
    if forall pr :: pr in t.stocks ==> t.stocks[pr].id != id then (t, Err(RecordNotFound))
    else
      var pr :| pr in t.stocks && t.stocks[pr].id == id;
      assert forall pr' :: pr' in t.stocks && t.stocks[pr'].id == id ==> pr' == pr;
      var row := t.stocks[pr].(currentStock := currentStock);
      (t.(stocks := t.stocks[pr := row]), Ok(row))
  }

  /** createTransaction: appends a record with exactly the given fields and a fresh id. */
  function CreateTransaction(t: Tables, warehouseId: Id, sparepartId: Id, kind: TransactionType, quantity: int)
    : (o: (Tables, Transaction))
    requires Wf(t)
    ensures Wf(o.0)
    ensures o.1.warehouseId == warehouseId && o.1.sparepartId == sparepartId
    ensures o.1.kind == kind && o.1.quantity == quantity
    ensures forall tx :: tx in t.ledger ==> tx.id != o.1.id && tx.createdAt < o.1.createdAt
    ensures o.0.ledger == t.ledger + [o.1] && o.0.stocks == t.stocks
  {
    var tx := Transaction(IdOf(t.tick), warehouseId, sparepartId, kind, quantity, t.tick);
    IssuedOnce(t.tick);
    (Tables(t.stocks, t.ledger + [tx], t.tick + 1), tx)
  }

  // ---------------------------------------------------------------- history

  /** JavaScript truthiness of an optional string filter: set and not ''. */
  predicate Active(filter: Option<Id>)
  {
    filter.Some? && filter.value != ""
  }

  /** The where-clause of getStockHistory: every active filter must match. */
  predicate Selected(tx: Transaction, warehouseId: Option<Id>, sparepartId: Option<Id>)
  {
    && (Active(warehouseId) ==> tx.warehouseId == warehouseId.value)
    && (Active(sparepartId) ==> tx.sparepartId == sparepartId.value)
  }

  /** The ledger rows the where-clause selects, in ledger order. */
  function Select(l: seq<Transaction>, warehouseId: Option<Id>, sparepartId: Option<Id>): (r: seq<Transaction>)
    ensures forall tx :: tx in r <==> tx in l && Selected(tx, warehouseId, sparepartId)
    ensures Chronological(l) ==> Chronological(r)
  {
    if l == [] then []
    else
      var rest := Select(l[1..], warehouseId, sparepartId);
      assert forall tx :: tx in l <==> tx == l[0] || tx in l[1..];
      assert Chronological(l) ==> Chronological([l[0]] + rest) by {
        if Chronological(l) {
          assert Chronological(l[1..]);
          forall j | 0 <= j < |rest| ensures l[0].createdAt < rest[j].createdAt {
            assert rest[j] in rest;
            var k :| 0 <= k < |l[1..]| && l[1..][k] == rest[j];
            assert l[k + 1] == rest[j];
          }
        }
      }
      if Selected(l[0], warehouseId, sparepartId) then [l[0]] + rest else rest
  }

  /**
   * getStockHistory: exactly the transactions matching every active filter,
   * newest first.
   */
  function GetStockHistory(l: seq<Transaction>, warehouseId: Option<Id>, sparepartId: Option<Id>)
    : (r: seq<Transaction>)
    requires Chronological(l)
    ensures forall tx :: tx in r <==> tx in l && Selected(tx, warehouseId, sparepartId)
    ensures forall i, j :: 0 <= i < j < |r| ==> r[i].createdAt > r[j].createdAt
  {
    var s := Select(l, warehouseId, sparepartId);
    var r := Reverse(s);
    assert forall tx :: tx in r <==> tx in s by {
      assert multiset(r) == multiset(s);
      forall tx ensures tx in r <==> tx in s {
        assert tx in r <==> tx in multiset(r);
        assert tx in s <==> tx in multiset(s);
      }
    }
    r
  }

  /** Without filters the history is the whole ledger, newest first. */
  lemma {:induction false} HistoryUnfiltered(l: seq<Transaction>)
    requires Chronological(l)
    ensures GetStockHistory(l, None, None) == Reverse(l)
  {
    SelectAll(l);
  }

  lemma {:induction false} SelectAll(l: seq<Transaction>)
    ensures Select(l, None, None) == l
  {
    if l != [] {
      SelectAll(l[1..]);
    }
  }

  /** A falsy filter ('' as much as an absent one) filters nothing. */
  lemma EmptyFilterIgnored(l: seq<Transaction>, warehouseId: Option<Id>, sparepartId: Option<Id>)
    requires Chronological(l)
    ensures GetStockHistory(l, Some(""), sparepartId) == GetStockHistory(l, None, sparepartId)
    ensures GetStockHistory(l, warehouseId, Some("")) == GetStockHistory(l, warehouseId, None)
  {
    SelectSameFilter(l, Some(""), sparepartId, None, sparepartId);
    SelectSameFilter(l, warehouseId, Some(""), warehouseId, None);
  }

  /** Two where-clauses that select the same rows give the same selection. */
  lemma {:induction false} SelectSameFilter(l: seq<Transaction>, w: Option<Id>, p: Option<Id>, w': Option<Id>, p': Option<Id>)
    requires forall tx :: Selected(tx, w, p) == Selected(tx, w', p')
    ensures Select(l, w, p) == Select(l, w', p')
  {
    if l != [] {
      SelectSameFilter(l[1..], w, p, w', p');
    }
  }
}
