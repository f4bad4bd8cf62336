/**
 * StockRepository: the warehouse_stocks and stock_transactions tables as
 * fields updated in place by its write methods. Each write is proved to
 * leave exactly the tables, and return exactly the result, that the
 * matching function of StockTables gives; the read queries are those
 * functions applied to Snapshot().
 */
module Repositories {
  import opened Common
  import opened StockTables

  class StockRepository {
    /** warehouse_stocks, keyed by its unique (warehouseId, sparepartId). */
    var stocks: map<Pair, StockRow>
    /** stock_transactions in insertion order. */
    var ledger: seq<Transaction>
    /** Logical clock: the createdAt of the next record; its id is IdOf(tick). */
    var tick: nat

    /** The tables as one value. */
    function Snapshot(): Tables
      reads this
    {
      Tables(stocks, ledger, tick)
    }

    ghost predicate Valid()
      reads this
    {
      Wf(Snapshot())
    }

    constructor ()
      ensures Valid() && Snapshot() == Empty()
    {
      stocks := map[];
      ledger := [];
      tick := 0;
    }

    /** createStock: insert a row for a pair that has none. */
    method CreateStock(warehouseId: Id, sparepartId: Id, currentStock: int) returns (r: Result<StockRow, DbError>)
      requires Valid()
      modifies this
      ensures Valid()
      ensures var o := StockTables.CreateStock(old(Snapshot()), warehouseId, sparepartId, currentStock);
        Snapshot() == o.0 && r == o.1
    {
      ghost var spec := StockTables.CreateStock(Snapshot(), warehouseId, sparepartId, currentStock);
      var key := Pair(warehouseId, sparepartId);
      if key in stocks {
        return Err(UniqueViolation);
      }
      var row := StockRow(IdOf(tick), warehouseId, sparepartId, currentStock, tick);
      stocks := stocks[key := row];
      tick := tick + 1;
      r := Ok(row);
    }

    /** updateStock: set currentStock of the row with that id. */
    method UpdateStock(id: Id, currentStock: int) returns (r: Result<StockRow, DbError>)
      requires Valid()
      modifies this
      ensures Valid()
      ensures var o := StockTables.UpdateStock(old(Snapshot()), id, currentStock);
        Snapshot() == o.0 && r == o.1
    {
      if forall pr :: pr in stocks ==> stocks[pr].id != id {
        return Err(RecordNotFound);
      }
      var pr :| pr in stocks && stocks[pr].id == id;
      var row := stocks[pr].(currentStock := currentStock);
      stocks := stocks[pr := row];
      r := Ok(row);
    }

    /** createTransaction: append one record. */
    method CreateTransaction(warehouseId: Id, sparepartId: Id, kind: TransactionType, quantity: int)
      returns (tx: Transaction)
      requires Valid()
      modifies this
      ensures Valid()
      ensures var o := StockTables.CreateTransaction(old(Snapshot()), warehouseId, sparepartId, kind, quantity);
        Snapshot() == o.0 && tx == o.1
    {
      ghost var spec := StockTables.CreateTransaction(Snapshot(), warehouseId, sparepartId, kind, quantity);
      tx := Transaction(IdOf(tick), warehouseId, sparepartId, kind, quantity, tick);
      ledger := ledger + [tx];
      tick := tick + 1;
    }
  }
}
