/**
 * What StockService's stockIn and stockOut do, as functions from the tables
 * before the call to the tables after it and the call's result. Each call
 * runs inside one database transaction and is one atomic step here; a
 * thrown error rolls the transaction back, so a failed call leaves the
 * tables as they were. Atomicity is assumed: the row lock taken by the
 * locking select holds only once the pair's row exists (see StockRaces).
 */
module StockEngine {
  import opened Common
  import opened StockTables

  /** The service's errors, with the arguments their messages are built from. */
  datatype StockError =
    | WarehouseNotFound(warehouseId: Id)
    | SparepartNotFound(sparepartId: Id)
    | InvalidQuantity
    | StockNotFound(warehouseId: Id, sparepartId: Id)
    | InsufficientStock(available: int, requested: int)

  datatype ExceptionClass = NotFoundException | BadRequestException

  /** The exception class each error is thrown as. */
  function ClassOf(e: StockError): ExceptionClass
  {
    match e
    case WarehouseNotFound(_) => NotFoundException
    case SparepartNotFound(_) => NotFoundException
    case StockNotFound(_, _) => NotFoundException
    case InvalidQuantity => BadRequestException
    case InsufficientStock(_, _) => BadRequestException
  }

  /** The ids the warehouse and sparepart registries hold (what findById finds). */
  datatype Catalog = Catalog(warehouses: set<Id>, spareparts: set<Id>)

  /** The tables after a call, and what the call returned or threw. */
  datatype Outcome = Outcome(tables: Tables, result: Result<Transaction, StockError>)

  /** The stock a pair holds: its row's currentStock, or 0 without a row. */
  function Balance(t: Tables, pr: Pair): int
  {
    if pr in t.stocks then t.stocks[pr].currentStock else 0
  }

  /** Every balance row is non-negative. */
  ghost predicate NonNegative(t: Tables)
  {
    forall pr :: pr in t.stocks ==> t.stocks[pr].currentStock >= 0
  }

  /** The checks both mutations make before opening the transaction, in order. */
  function Precheck(cat: Catalog, warehouseId: Id, sparepartId: Id, quantity: int): (e: Option<StockError>)
    ensures e.None? <==> warehouseId in cat.warehouses && sparepartId in cat.spareparts && quantity > 0
    ensures warehouseId !in cat.warehouses ==> e == Some(WarehouseNotFound(warehouseId))
    ensures warehouseId in cat.warehouses && sparepartId !in cat.spareparts ==>
      e == Some(SparepartNotFound(sparepartId))
    ensures warehouseId in cat.warehouses && sparepartId in cat.spareparts && quantity <= 0 ==>
      e == Some(InvalidQuantity)
  {
    if warehouseId !in cat.warehouses then Some(WarehouseNotFound(warehouseId))
    else if sparepartId !in cat.spareparts then Some(SparepartNotFound(sparepartId))
    else if quantity <= 0 then Some(InvalidQuantity)
    else None
  }

  /**
   * The transaction stockIn runs once its checks pass: lock the pair's row;
   * increment it, or create it with the quantity when the pair has none;
   * then record one IN transaction and return it.
   */
  function InTransaction(t: Tables, warehouseId: Id, sparepartId: Id, quantity: int): (o: (Tables, Transaction))
    requires Wf(t)
    ensures Wf(o.0)
    ensures var key := Pair(warehouseId, sparepartId);
      && o.1 == Transaction(o.1.id, warehouseId, sparepartId, IN, quantity, o.1.createdAt)
      && o.0.ledger == t.ledger + [o.1]
      && key in o.0.stocks
      && o.0.stocks[key].currentStock == Balance(t, key) + quantity
      && (key in t.stocks ==> o.0.stocks[key] == t.stocks[key].(currentStock := Balance(t, key) + quantity))
      && (forall pr :: pr != key ==> (pr in o.0.stocks <==> pr in t.stocks))
      && (forall pr :: pr != key && pr in t.stocks ==> o.0.stocks[pr] == t.stocks[pr])
  {
    var key := Pair(warehouseId, sparepartId);
    var rows := LockedRows(t, warehouseId, sparepartId);
    assert rows == if key in t.stocks then [t.stocks[key]] else [];
    if |rows| > 0 then
      var newStock := Moved(rows[0].currentStock, IN, quantity);
      var t1 := UpdateStock(t, rows[0].id, newStock).0;
      CreateTransaction(t1, warehouseId, sparepartId, IN, quantity)
    else
      var t1 := CreateStock(t, warehouseId, sparepartId, quantity).0;
      CreateTransaction(t1, warehouseId, sparepartId, IN, quantity)
  }

  /**
   * stockIn: the warehouse, sparepart and quantity checks, then its
   * transaction.
   */
  function StockIn(t: Tables, cat: Catalog, warehouseId: Id, sparepartId: Id, quantity: int): (o: Outcome)
    requires Wf(t)
    ensures Wf(o.tables)
    ensures o.result.Err? <==> Precheck(cat, warehouseId, sparepartId, quantity).Some?
    ensures o.result.Err? ==>
      o.result.error == Precheck(cat, warehouseId, sparepartId, quantity).value && o.tables == t
    ensures o.result.Ok? ==>
      var key := Pair(warehouseId, sparepartId);
      && o.result.value == Transaction(o.result.value.id, warehouseId, sparepartId, IN, quantity,
                                       o.result.value.createdAt)
      && o.tables.ledger == t.ledger + [o.result.value]
      && key in o.tables.stocks
      && o.tables.stocks[key].currentStock == Balance(t, key) + quantity
      && (key in t.stocks ==> o.tables.stocks[key] == t.stocks[key].(currentStock := Balance(t, key) + quantity))
      && (forall pr :: pr != key ==> (pr in o.tables.stocks <==> pr in t.stocks))
      && (forall pr :: pr != key && pr in t.stocks ==> o.tables.stocks[pr] == t.stocks[pr])
  {
    var pre := Precheck(cat, warehouseId, sparepartId, quantity);
    if pre.Some? then Outcome(t, Err(pre.value))
    else
      var (t2, tx) := InTransaction(t, warehouseId, sparepartId, quantity);
      Outcome(t2, Ok(tx))
  }

  /**
   * The transaction stockOut runs once its checks pass: lock the pair's
   * row; a pair without a row is StockNotFound, a balance below the quantity
   * is InsufficientStock(available, requested), and both leave the tables
   * as they were; otherwise decrement the row, record one OUT transaction
   * and return it.
   */
  function OutTransaction(t: Tables, warehouseId: Id, sparepartId: Id, quantity: int): (o: Outcome)
    requires Wf(t)
    ensures Wf(o.tables)
    ensures var key := Pair(warehouseId, sparepartId);
      o.result.Err? <==> key !in t.stocks || t.stocks[key].currentStock < quantity
    ensures o.result.Err? ==> o.tables == t
    ensures var key := Pair(warehouseId, sparepartId);
      && (key !in t.stocks ==> o.result == Err(StockNotFound(warehouseId, sparepartId)))
      && (key in t.stocks && t.stocks[key].currentStock < quantity ==>
            o.result == Err(InsufficientStock(t.stocks[key].currentStock, quantity)))
    ensures o.result.Ok? ==>
      var key := Pair(warehouseId, sparepartId);
      && o.result.value == Transaction(o.result.value.id, warehouseId, sparepartId, OUT, quantity,
                                       o.result.value.createdAt)
      && o.tables.ledger == t.ledger + [o.result.value]
      && key in t.stocks
      && o.tables.stocks == t.stocks[key := t.stocks[key].(currentStock := Moved(t.stocks[key].currentStock, OUT, quantity))]
  {
    var key := Pair(warehouseId, sparepartId);
    var rows := LockedRows(t, warehouseId, sparepartId);
    assert rows == if key in t.stocks then [t.stocks[key]] else [];
    if |rows| == 0 then Outcome(t, Err(StockNotFound(warehouseId, sparepartId)))
    else
      assert rows[0] == t.stocks[key];
      var current := rows[0].currentStock;
      if current < quantity then Outcome(t, Err(InsufficientStock(current, quantity)))
      else
        var newStock := Moved(current, OUT, quantity);
        var t1 := UpdateStock(t, rows[0].id, newStock).0;
        var c := CreateTransaction(t1, warehouseId, sparepartId, OUT, quantity);
        Outcome(c.0, Ok(c.1))
  }

  /**
   * stockOut: the warehouse, sparepart and quantity checks, then its
   * transaction; the balance never goes below zero.
   */
  function StockOut(t: Tables, cat: Catalog, warehouseId: Id, sparepartId: Id, quantity: int): (o: Outcome)
    requires Wf(t)
    ensures Wf(o.tables)
    ensures o.result.Err? <==>
      || Precheck(cat, warehouseId, sparepartId, quantity).Some?
      || Pair(warehouseId, sparepartId) !in t.stocks
      || t.stocks[Pair(warehouseId, sparepartId)].currentStock < quantity
    ensures o.result.Err? ==> o.tables == t
    ensures Precheck(cat, warehouseId, sparepartId, quantity).Some? ==>
      o.result == Err(Precheck(cat, warehouseId, sparepartId, quantity).value)
    ensures Precheck(cat, warehouseId, sparepartId, quantity).None? ==>
      var key := Pair(warehouseId, sparepartId);
      && (key !in t.stocks ==> o.result == Err(StockNotFound(warehouseId, sparepartId)))
      && (key in t.stocks && t.stocks[key].currentStock < quantity ==>
            o.result == Err(InsufficientStock(t.stocks[key].currentStock, quantity)))
    ensures o.result.Ok? ==>
      var key := Pair(warehouseId, sparepartId);
      && o.result.value == Transaction(o.result.value.id, warehouseId, sparepartId, OUT, quantity,
                                       o.result.value.createdAt)
      && o.tables.ledger == t.ledger + [o.result.value]
      && key in t.stocks
      && o.tables.stocks == t.stocks[key := t.stocks[key].(currentStock := Moved(t.stocks[key].currentStock, OUT, quantity))]
      && o.tables.stocks[key].currentStock >= 0
  {
    var pre := Precheck(cat, warehouseId, sparepartId, quantity);
    if pre.Some? then Outcome(t, Err(pre.value))
    else OutTransaction(t, warehouseId, sparepartId, quantity)
  }

  /** getStock: the pair's row, or StockNotFound even when both ids are registered. */
  function GetStock(t: Tables, warehouseId: Id, sparepartId: Id): (r: Result<StockRow, StockError>)
    requires Wf(t)
    ensures r.Ok? <==> Pair(warehouseId, sparepartId) in t.stocks
    ensures r.Ok? ==>
      && r.value.warehouseId == warehouseId && r.value.sparepartId == sparepartId
      && r.value.currentStock == Balance(t, Pair(warehouseId, sparepartId))
    ensures r.Ok? ==> r.value == t.stocks[Pair(warehouseId, sparepartId)]
    ensures r.Err? ==> r.error == StockNotFound(warehouseId, sparepartId)
  {
    match FindStock(t, warehouseId, sparepartId)
    case Some(row) => Ok(row)
    case None => Err(StockNotFound(warehouseId, sparepartId))
  }

  /**
   * The exception class a failed stockIn throws: NotFoundException exactly
   * when the warehouse or the sparepart is unknown, BadRequestException
   * otherwise.
   */
  lemma StockInErrorClass(t: Tables, cat: Catalog, warehouseId: Id, sparepartId: Id, quantity: int)
    requires Wf(t)
    ensures var o := StockIn(t, cat, warehouseId, sparepartId, quantity);
      o.result.Err? ==>
        (ClassOf(o.result.error) == NotFoundException <==>
           warehouseId !in cat.warehouses || sparepartId !in cat.spareparts)
  {
  }

  /**
   * The exception class a failed stockOut throws: NotFoundException exactly
   * when the warehouse or the sparepart is unknown, or the quantity is
   * positive and the pair has no row; BadRequestException for a quantity
   * <= 0 or a balance below the quantity.
   */
  lemma StockOutErrorClass(t: Tables, cat: Catalog, warehouseId: Id, sparepartId: Id, quantity: int)
    requires Wf(t)
    ensures var o := StockOut(t, cat, warehouseId, sparepartId, quantity);
      o.result.Err? ==>
        (ClassOf(o.result.error) == NotFoundException <==>
           || warehouseId !in cat.warehouses || sparepartId !in cat.spareparts
           || (quantity > 0 && Pair(warehouseId, sparepartId) !in t.stocks))
  {
  }
}
