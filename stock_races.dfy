/**
 * The one interleaving the row lock does not serialize. `SELECT ... FOR
 * UPDATE` locks the rows it returns, so when a pair has no row yet it locks
 * nothing: two concurrent first stockIns on that pair can both see no row
 * and both take the create branch, and the second insert then breaks the
 * (warehouseId, sparepartId) unique key. Here stockIn's writes are split
 * from its locking select to show that, and the serial semantics that the
 * rest of the model uses (StockEngine.InTransaction) is shown to give the
 * intended outcome.
 */
module StockRaces {
  import opened Common
  import opened StockTables
  import opened StockEngine
  import opened StockRuns

  /**
   * stockIn's writes as the code issues them, after its locking select
   * returned `seen`, applied to the tables as they are when the writes run:
   * the row it saw is set to that row's balance plus the quantity, or a row
   * is inserted when it saw none; then the record is appended. A failed
   * write throws, and the call is rolled back.
   */
  function InWrites(t: Tables, seen: seq<StockRow>, warehouseId: Id, sparepartId: Id, quantity: int)
    : (r: Result<(Tables, Transaction), DbError>)
    requires Wf(t)
    ensures |seen| == 0 ==> (r.Err? <==> Pair(warehouseId, sparepartId) in t.stocks)
    ensures |seen| == 0 && r.Err? ==> r.error == UniqueViolation
    ensures r.Ok? ==> r.value.0.ledger == t.ledger + [r.value.1] && Wf(r.value.0)
  {
    if |seen| > 0 then
      var u := UpdateStock(t, seen[0].id, Moved(seen[0].currentStock, IN, quantity));
      if u.1.Err? then Err(u.1.error)
      else Ok(CreateTransaction(u.0, warehouseId, sparepartId, IN, quantity))
    else
      var c := CreateStock(t, warehouseId, sparepartId, quantity);
      if c.1.Err? then Err(c.1.error)
      else Ok(CreateTransaction(c.0, warehouseId, sparepartId, IN, quantity))
  }

  /** With nothing between its select and its writes, stockIn's writes are its atomic transaction. */
  lemma InWritesAtomic(t: Tables, warehouseId: Id, sparepartId: Id, quantity: int)
    requires Wf(t)
    ensures InWrites(t, LockedRows(t, warehouseId, sparepartId), warehouseId, sparepartId, quantity)
         == Ok(InTransaction(t, warehouseId, sparepartId, quantity))
  {
    var key := Pair(warehouseId, sparepartId);
    var rows := LockedRows(t, warehouseId, sparepartId);
    assert rows == if key in t.stocks then [t.stocks[key]] else [];
    if key in t.stocks {
      assert rows[0] == t.stocks[key];
      var row := t.stocks[key];
      var u := UpdateStock(t, row.id, Moved(row.currentStock, IN, quantity));
      assert u.1 == Ok(row.(currentStock := Moved(row.currentStock, IN, quantity)));
    }
  }

  /**
   * Two first stockIns on a pair with no row, both selects before either
   * insert: both selects see no row, the first call inserts the row with
   * its quantity, and the second call's insert fails with a unique-key
   * violation, so that call throws.
   */
  lemma FirstInsertRace(t: Tables, w: Id, p: Id, q1: int, q2: int)
    requires Wf(t) && Pair(w, p) !in t.stocks
    ensures LockedRows(t, w, p) == []
    ensures var first := InWrites(t, LockedRows(t, w, p), w, p, q1);
      && first.Ok?
      && Level(first.value.0, Pair(w, p)) == Some(q1)
      && InWrites(first.value.0, LockedRows(t, w, p), w, p, q2) == Err(UniqueViolation)
  {
    var first := InWrites(t, [], w, p, q1);
    var c := CreateStock(t, w, p, q1);
    assert first == Ok(CreateTransaction(c.0, w, p, IN, q1));
  }

  /** On the per-pair machine, two stockIns from no row both pass and leave the sum. */
  lemma {:induction false} FirstInsMachine(cat: Catalog, w: Id, p: Id, q1: int, q2: int)
    requires w in cat.warehouses && p in cat.spareparts && q1 > 0 && q2 > 0
    ensures PairRun(cat, None, [In(w, p, q1), In(w, p, q2)]) == (Some(q1 + q2), [None, None])
  {
    var ops := [In(w, p, q1), In(w, p, q2)];
    assert ops[1..] == [In(w, p, q2)];
    var tail := [In(w, p, q2)];
    assert tail[1..] == [];
    assert PairStep(cat, Some(q1), tail[0]) == (Some(q1 + q2), None);
    assert PairRun(cat, Some(q1 + q2), tail[1..]) == (Some(q1 + q2), []);
    var empty: seq<Option<StockError>> := [];
    assert [None] + empty == [None];
    assert PairRun(cat, Some(q1), tail) == (Some(q1 + q2), [None]);
    var one: seq<Option<StockError>> := [None];
    assert [None] + one == [None, None];
    assert PairStep(cat, None, ops[0]) == (Some(q1), None);
  }

  /**
   * The intended outcome, which every serial order gives: two first
   * stockIns with positive quantities on a pair of registered ids both
   * succeed, and the row ends at the sum of their quantities.
   */
  lemma {:induction false} SerialFirstStockIns(t: Tables, cat: Catalog, w: Id, p: Id, q1: int, q2: int)
    requires Wf(t) && Pair(w, p) !in t.stocks
    requires w in cat.warehouses && p in cat.spareparts && q1 > 0 && q2 > 0
    ensures var r := Run(t, cat, [In(w, p, q1), In(w, p, q2)]);
      && r.results[0].Ok? && r.results[1].Ok?
      && Level(r.final, Pair(w, p)) == Some(q1 + q2)
  {
    var ops := [In(w, p, q1), In(w, p, q2)];
    OnePairRun(t, cat, ops, Pair(w, p));
    FirstInsMachine(cat, w, p, q1, q2);
    var r := Run(t, cat, ops);
    assert Statuses(r.results) == [None, None];
    assert Status(r.results[0]) == None && Status(r.results[1]) == None;
  }
}
