/**
 * StockService: stockIn and stockOut as the step-by-step sequences they are,
 * over the stock repository's fields, with the warehouse and sparepart
 * registries for the existence checks. Each method is proved to leave the
 * tables, and return the result, that StockEngine's function of the same
 * name gives for the tables before the call; what those functions promise
 * (the error order, the balances, the ledger) is proved there and in
 * StockRuns.
 */
module StockServices {
  import opened Common
  import opened StockTables
  import opened StockEngine
  import opened Repositories
  import Warehouses
  import Spareparts

  class StockService {
    const repo: StockRepository
    const warehouses: Warehouses.WarehousesService
    const spareparts: Spareparts.SparepartsService

    /** The registered ids, as the existence checks see them. */
    ghost function Cat(): Catalog
      reads warehouses, spareparts
    {
      Catalog(warehouses.Ids(), spareparts.Ids())
    }

    ghost predicate Valid()
      reads this, repo, warehouses, spareparts
    {
      repo.Valid() && warehouses.Valid() && spareparts.Valid()
    }

    constructor (repo: StockRepository, warehouses: Warehouses.WarehousesService,
                 spareparts: Spareparts.SparepartsService)
      ensures this.repo == repo && this.warehouses == warehouses && this.spareparts == spareparts
    {
      this.repo := repo;
      this.warehouses := warehouses;
      this.spareparts := spareparts;
    }

    /** The checks before the transaction: the warehouse, then the sparepart, then the quantity. */
    method Check(warehouseId: Id, sparepartId: Id, quantity: int) returns (e: Option<StockError>)
      requires Valid()
      ensures e == Precheck(Cat(), warehouseId, sparepartId, quantity)
    {
      var warehouse := Warehouses.FindById(warehouses.rows, warehouseId);
      if warehouse.None? {
        return Some(WarehouseNotFound(warehouseId));
      }
      var sparepart := Spareparts.FindById(spareparts.rows, sparepartId);
      if sparepart.None? {
        assert warehouse.value in warehouses.rows;
        return Some(SparepartNotFound(sparepartId));
      }
      assert warehouse.value in warehouses.rows && sparepart.value in spareparts.rows;
      if quantity <= 0 {
        return Some(InvalidQuantity);
      }
      e := None;
    }

    /**
     * stockIn's transaction: with the pair's row locked, increment it, or
     * create it with the quantity when the pair has none; then append one
     * IN transaction and return it.
     */
    method InTransaction(warehouseId: Id, sparepartId: Id, quantity: int) returns (tx: Transaction)
      requires repo.Valid()
      modifies repo
      ensures repo.Valid()
      ensures var o := StockEngine.InTransaction(old(repo.Snapshot()), warehouseId, sparepartId, quantity);
        repo.Snapshot() == o.0 && tx == o.1
    {
      ghost var t := repo.Snapshot();
      var key := Pair(warehouseId, sparepartId);
      var rows := LockedRows(repo.Snapshot(), warehouseId, sparepartId);
      assert rows == if key in t.stocks then [t.stocks[key]] else [];
      if |rows| > 0 {
        var newStock := Moved(rows[0].currentStock, IN, quantity);
        var _ := repo.UpdateStock(rows[0].id, newStock);
        tx := repo.CreateTransaction(warehouseId, sparepartId, IN, quantity);
      } else {
        var _ := repo.CreateStock(warehouseId, sparepartId, quantity);
        tx := repo.CreateTransaction(warehouseId, sparepartId, IN, quantity);
      }
    }

    /** stockIn: the checks, then the transaction; the transaction is returned. */
    method StockIn(warehouseId: Id, sparepartId: Id, quantity: int) returns (r: Result<Transaction, StockError>)
      requires Valid()
      modifies repo
      ensures Valid()
      ensures Outcome(repo.Snapshot(), r) == StockEngine.StockIn(old(repo.Snapshot()), Cat(), warehouseId, sparepartId, quantity)
    {
      var e := Check(warehouseId, sparepartId, quantity);
      if e.Some? {
        return Err(e.value);
      }
      var tx := InTransaction(warehouseId, sparepartId, quantity);
      r := Ok(tx);
    }

    /**
     * stockOut's transaction: with the pair's row locked, throw
     * StockNotFound when the pair has no row and InsufficientStock when its
     * balance is below the quantity, writing nothing; otherwise decrement
     * the row, append one OUT transaction and return it.
     */
    method OutTransaction(warehouseId: Id, sparepartId: Id, quantity: int) returns (r: Result<Transaction, StockError>)
      requires repo.Valid()
      modifies repo
      ensures repo.Valid()
      ensures Outcome(repo.Snapshot(), r) == StockEngine.OutTransaction(old(repo.Snapshot()), warehouseId, sparepartId, quantity)
    {
      ghost var t := repo.Snapshot();
      var key := Pair(warehouseId, sparepartId);
      var rows := LockedRows(repo.Snapshot(), warehouseId, sparepartId);
      assert rows == if key in t.stocks then [t.stocks[key]] else [];
      if |rows| == 0 {
        return Err(StockNotFound(warehouseId, sparepartId));
      }
      var currentStock := rows[0].currentStock;
      if currentStock < quantity {
        return Err(InsufficientStock(currentStock, quantity));
      }
      var newStock := Moved(currentStock, OUT, quantity);
      var _ := repo.UpdateStock(rows[0].id, newStock);
      var tx := repo.CreateTransaction(warehouseId, sparepartId, OUT, quantity);
      r := Ok(tx);
    }

    /** stockOut: the checks, then the transaction. */
    method StockOut(warehouseId: Id, sparepartId: Id, quantity: int) returns (r: Result<Transaction, StockError>)
      requires Valid()
      modifies repo
      ensures Valid()
      ensures Outcome(repo.Snapshot(), r) == StockEngine.StockOut(old(repo.Snapshot()), Cat(), warehouseId, sparepartId, quantity)
    {
      var e := Check(warehouseId, sparepartId, quantity);
      if e.Some? {
        return Err(e.value);
      }
      r := OutTransaction(warehouseId, sparepartId, quantity);
    }
  }
}
