# Stock mutation engine of the warehouse inventory service

The system is a NestJS service over a PostgreSQL database (through Prisma). It keeps:

- a registry of warehouses and a registry of spareparts;
- a `warehouse_stocks` table, with one balance row per (warehouse, sparepart) pair;
- a `stock_transactions` ledger, which is append-only.

Its core is `StockService`:

- `stockIn` adds a quantity to a pair's row, creating the row on the first stock-in.
- `stockOut` removes a quantity from an existing row, and refuses when the row holds less.

Each call checks that the warehouse and the sparepart exist and that the quantity is positive. It then opens one database transaction. Inside it, the call:

1. locks the pair's row with `SELECT ... FOR UPDATE`;
2. updates or creates the row;
3. appends one IN or OUT transaction;
4. commits.

A thrown error rolls everything back. Once a pair's row exists, the lock makes concurrent calls on that pair commit one at a time, in some order. The lock does not cover the first stock-in of a pair, because before that there is no row to lock (see Findings). Calls on different pairs do not interact.

This project models that core and proves what it promises:

- the checks and their order;
- the exact new balances and the appended ledger record;
- that failures write nothing;
- that the ledger reconciles with every balance;
- that balances stay non-negative;
- how many of n equal debits succeed;
- that every ordering of calls covered by the stock succeeds and ends at the same balance;
- that pairs are isolated from each other.

The service writes the stock tables inline, through the transaction client. The model expresses those writes as the repository's write operations (`createStock`, `updateStock`, `createTransaction`), which have the same effect on the tables. It also models the registry operations `create`/`findAll`/`findOne`, and the request validators of the three DTOs.

Modules, one per file:

- `Common` (common.dfy): ids, `Option`/`Result`, and the decimal rendering behind generated ids.
- `Validators`, `WarehouseDto`, `SparepartDto`, `StockOutDto`: the class-validator decorators as lists of constraint violations. Each is proved equal to a closed-form acceptance condition.
- `Warehouses`, `Spareparts`: each registry is a class whose `rows` field `create` appends to. `findAll` is newest first and `findOne` returns the row or `NotFound`.
- `StockTables`: the two stock tables as one value `Tables`, and the repository's reads and writes as functions on it.
- `Repositories`: `StockRepository`, a class whose fields are the two tables. Its write methods are proved to do exactly what the `StockTables` functions say.
- `StockEngine`: `stockIn`, `stockOut` and `getStock` as functions from the tables before a call to the tables after it and the call's result.
- `StockServices`: `StockService`, a class whose `stockIn` and `stockOut` methods run the same steps against the repository. Each is proved to end in the state, and return the result, that `StockEngine` gives.
- `StockRuns`: serial runs of calls (`Run`). Serial commits are assumed here; the row lock gives them once a pair's row exists. Proved about them:
  - ledger reconciliation;
  - non-negativity;
  - the per-pair machine `PairRun`, to which a run projects for each pair;
  - the closed form of repeated debits;
  - order-independence of the totals.
- `StockScenarios`: the behaviours the concurrency tests check, stated for every serial order.
- `StockRaces`: the first-insert race. stockIn's writes are split from its locking select to show two first stock-ins colliding on the unique key, next to the outcome every serial order gives.

Generated ids are `IdOf(n)`, where `n` is a logical clock that advances with every insert. The same clock gives `createdAt`, so "newest first" means "largest clock first".

Two behaviours of the code are worth stating outright:

- The service rejects only `quantity <= 0` (src/stock/stock.service.ts:48 and 124). It has no upper bound. The ceiling of 999999 exists only in `StockOutDto`'s validation (`StockOutDto.ValidateAccepts`), not in the service (`StockEngine.Precheck`).
- `StockNotFound` is thrown only when the pair has no row (src/stock/stock.service.ts:144-149). A debit against a row holding 0 is not "not found": it fails with `InsufficientStock(0, quantity)` (src/stock/stock.service.ts:154-159, `StockEngine.StockOut`).

## Model

| member | source | states |
|---|---|---|
| Validators.MatchesCodePatternIff | src/warehouses/constants/warehouse.constants.ts:14 | the anchored pattern `^[A-Z0-9-]+$` accepts a string exactly when it is non-empty and every character is an upper-case letter, a digit or a hyphen |
| Validators.LowercaseRejected | src/spareparts/constants/sparepart.constants.ts:13 | a string with any lower-case letter does not match the code/SKU pattern |
| WarehouseDto.ValidateAccepts | src/warehouses/dto/create-warehouse.dto.ts:10-25 | a CreateWarehouseDto passes validation exactly when its name has 3..100 characters and its code has 2..20 characters, all from `[A-Z0-9-]` (both directions) |
| WarehouseDto.LowercaseCodeRejected | src/warehouses/dto/create-warehouse.dto.ts:21-23 | a code with a lower-case letter is reported as a `Matches` violation on `code` |
| SparepartDto.ValidateAccepts | src/spareparts/dto/create-sparepart.dto.ts:10-25 | a CreateSparepartDto passes exactly when its name has 3..200 characters and its SKU has 2..50 characters, all from `[A-Z0-9-]` |
| SparepartDto.LowercaseSkuRejected | src/spareparts/dto/create-sparepart.dto.ts:21-23 | an SKU with a lower-case letter is reported as a `Matches` violation on `sku` |
| StockOutDto.ValidateAccepts | src/stock/dto/stock-out.dto.ts:4-18 | a StockOutDto passes exactly when both ids are non-empty and the quantity is an integer from 1 to 999999 |
| StockOutDto.Quantity | src/stock/constants/stock.constants.ts:11-14 | a validated DTO's quantity is an integer equal to the number sent, within MIN_QUANTITY..MAX_QUANTITY |
| StockOutDto.AcceptedQuantityPassesPrecheck | src/stock/stock.service.ts:123-126 | the quantity of a DTO that passed validation never trips the service's `quantity <= 0` check (no `InvalidQuantity`) |
| Warehouses.FindByCode | src/warehouses/warehouses.repository.ts:34-39 | finds the warehouse with that code if there is one; none exactly when no row has that code |
| Warehouses.FindById | src/warehouses/warehouses.repository.ts:27-32 | finds the warehouse with that id if there is one; none exactly when no row has that id |
| Warehouses.WarehousesService.constructor | src/warehouses/warehouses.service.ts:14 | an empty, valid registry |
| Warehouses.WarehousesService.Create | src/warehouses/warehouses.service.ts:16-32 | an existing code gives `AlreadyExists(code)` and changes nothing; otherwise exactly one row with the DTO's name and code and a never-used id is appended; uniqueness of codes and ids is kept |
| Warehouses.WarehousesService.FindAll | src/warehouses/warehouses.repository.ts:20-25 | every stored warehouse exactly once, in strictly decreasing createdAt |
| Warehouses.WarehousesService.FindOne | src/warehouses/warehouses.service.ts:40-48 | the warehouse with that id, or `NotFound(id)` exactly when there is none |
| Spareparts.FindBySku | src/spareparts/spareparts.repository.ts:34-39 | finds the sparepart with that SKU if there is one; none exactly when no row has it |
| Spareparts.FindById | src/spareparts/spareparts.repository.ts:27-32 | finds the sparepart with that id if there is one; none exactly when no row has it |
| Spareparts.SparepartsService.constructor | src/spareparts/spareparts.service.ts:14 | an empty, valid registry |
| Spareparts.SparepartsService.Create | src/spareparts/spareparts.service.ts:16-32 | an existing SKU gives `AlreadyExists(sku)` and changes nothing; otherwise exactly one row with the DTO's name and SKU and a never-used id is appended |
| Spareparts.SparepartsService.FindAll | src/spareparts/spareparts.repository.ts:20-25 | every stored sparepart exactly once, in strictly decreasing createdAt |
| Spareparts.SparepartsService.FindOne | src/spareparts/spareparts.service.ts:40-48 | the sparepart with that id, or `NotFound(id)` exactly when there is none |
| StockTables.Empty | src/stock/stock.repository.ts:10-12 | the empty tables are well-formed: no rows, no transactions |
| StockTables.IssuedOnce | src/stock/stock.repository.ts:55-64 | an id generated at one clock value is never generated again later |
| StockTables.FindStock | src/stock/stock.repository.ts:14-27 | the unique row of the pair when there is one, and none otherwise |
| StockTables.LockedRows | src/stock/stock.service.ts:53-65 | the rows the locking select returns: at most one, all of that pair |
| StockTables.LockedRowsExact | src/stock/stock.service.ts:62 | a row is returned by the locking select exactly when it is stored and belongs to the pair |
| StockTables.FindStockWithLock | src/stock/stock.repository.ts:29-53 | none exactly when findStock finds none; otherwise the pair's row, with createdAt replaced by the time of the call as the code builds it |
| StockTables.CreateStock | src/stock/stock.repository.ts:55-64 | a pair that has a row gives a unique-key violation and no change; otherwise one new row with the pair, the balance and a fresh id is inserted and nothing else changes |
| StockTables.UpdateStock | src/stock/stock.repository.ts:66-75 | an unknown id gives record-not-found and no change; otherwise only that row's currentStock is set, and the updated row is returned |
| StockTables.CreateTransaction | src/stock/stock.repository.ts:77-87 | exactly one record with the given pair, type and quantity, a fresh id and a createdAt later than every earlier record, is appended; balances do not change |
| StockTables.Select | src/stock/stock.repository.ts:93-97 | the records kept are exactly those matching every non-empty filter, in ledger order |
| StockTables.GetStockHistory | src/stock/stock.repository.ts:89-101 | exactly the records matching the filters, newest first (strictly decreasing createdAt) |
| StockTables.HistoryUnfiltered | src/stock/stock.service.ts:201-213 | without filters the history is the whole ledger, reversed |
| StockTables.SelectAll | src/stock/stock.repository.ts:94-97 | no filter keeps every record |
| StockTables.EmptyFilterIgnored | src/stock/stock.repository.ts:95-96 | an empty-string filter is ignored, like an absent one (both filters) |
| StockTables.SelectSameFilter | src/stock/stock.repository.ts:94-97 | filters that select the same records give the same history |
| Repositories.StockRepository.constructor | src/stock/stock.repository.ts:12 | the repository starts with empty, well-formed tables |
| Repositories.StockRepository.CreateStock | src/stock/stock.repository.ts:55-64 | the new fields and the result are exactly those of `StockTables.CreateStock` on the old fields; well-formedness is kept |
| Repositories.StockRepository.UpdateStock | src/stock/stock.repository.ts:66-75 | the new fields and the result are exactly those of `StockTables.UpdateStock` on the old fields |
| Repositories.StockRepository.CreateTransaction | src/stock/stock.repository.ts:77-87 | the new fields and the record are exactly those of `StockTables.CreateTransaction` on the old fields |
| StockEngine.Precheck | src/stock/stock.service.ts:31-50 | an unknown warehouse fails first with WarehouseNotFound, then an unknown sparepart with SparepartNotFound, then a quantity <= 0 with InvalidQuantity; no error exactly when all three pass |
| StockEngine.InTransaction | src/stock/stock.service.ts:52-97 | the pair's balance becomes old balance + quantity (its row created with the quantity when absent); one IN record with the pair and quantity is appended; every other pair's row is untouched |
| StockEngine.StockIn | src/stock/stock.service.ts:28-100 | fails exactly when a check fails, with that check's error and no change; otherwise the transaction's effect and the IN record as result |
| StockEngine.OutTransaction | src/stock/stock.service.ts:129-178 | fails exactly when the pair has no row (StockNotFound) or its balance is below the quantity (InsufficientStock(balance, quantity)), then with no change; otherwise only that row drops by the quantity and one OUT record is appended |
| StockEngine.StockOut | src/stock/stock.service.ts:102-181 | fails exactly when a check fails, the row is missing or the balance is short, with the error of the first failing one and no change; on success the row is decremented and stays >= 0, and one OUT record is appended |
| StockEngine.GetStock | src/stock/stock.service.ts:183-199 | the pair's stored row itself (its id, pair, balance and createdAt), or StockNotFound exactly when the pair has no row |
| StockEngine.StockInErrorClass | src/stock/stock.service.ts:31-50 | a failed stockIn is thrown as a NotFoundException (`ClassOf`) exactly when the warehouse or the sparepart is unknown; otherwise as a BadRequestException |
| StockEngine.StockOutErrorClass | src/stock/stock.service.ts:107-159 | a failed stockOut is thrown as a NotFoundException (`ClassOf`) exactly when the warehouse or the sparepart is unknown, or the quantity is positive and the pair has no row; otherwise as a BadRequestException |
| StockServices.StockService.constructor | src/stock/stock.service.ts:19-26 | the service holds the given repository and registries |
| StockServices.StockService.Check | src/stock/stock.service.ts:31-50 | the checks run through the registries return `StockEngine.Precheck` on the registered ids |
| StockServices.StockService.InTransaction | src/stock/stock.service.ts:52-97 | locking select, update-or-create, then append, leave the repository exactly as `StockEngine.InTransaction` says and return its record |
| StockServices.StockService.StockIn | src/stock/stock.service.ts:28-100 | the repository and the result are exactly `StockEngine.StockIn`'s, so all its guarantees hold for the method |
| StockServices.StockService.OutTransaction | src/stock/stock.service.ts:129-178 | locking select, the two throws, decrement, append, leave the repository and result exactly as `StockEngine.OutTransaction` says |
| StockServices.StockService.StockOut | src/stock/stock.service.ts:102-181 | the repository and the result are exactly `StockEngine.StockOut`'s |
| StockRuns.Run | src/stock/stock.service.ts:52-65 | calls committed one at a time keep the tables well-formed, with one result per call |
| StockRuns.InBalances | src/stock/stock.service.ts:67-94 | after a stockIn every pair's balance equals the old one plus the signed quantity of the record it appended (none on failure) |
| StockRuns.InLedgerAndLevels | src/stock/stock.service.ts:52-97 | a stockIn appends exactly its own record and leaves every other pair's row as it was |
| StockRuns.InEffect | src/stock/stock.service.ts:28-100 | the ledger, balance and other-pairs guarantees of one stockIn together |
| StockRuns.OutBalances | src/stock/stock.service.ts:151-175 | after a stockOut every balance equals the old one plus the signed quantity of the record it appended (none on failure) |
| StockRuns.OutLedgerAndLevels | src/stock/stock.service.ts:129-178 | a stockOut appends exactly its own record and leaves every other pair's row as it was |
| StockRuns.OutEffect | src/stock/stock.service.ts:102-181 | the ledger, balance and other-pairs guarantees of one stockOut together |
| StockRuns.StepEffects | src/stock/stock.service.ts:28-181 | either call keeps those guarantees |
| StockRuns.StepNonNegative | src/stock/stock.service.ts:154-159 | no call makes a non-negative balance negative |
| StockRuns.NetAppend | src/stock/stock.repository.ts:77-87 | the signed ledger sum of a pair is additive over appended records |
| StockRuns.RunLedger | src/stock/stock.service.ts:86-94 | after a run the ledger is the old one followed by the records of the successful calls, in commit order |
| StockRuns.Reconciliation | src/stock/stock.service.ts:67-84 | after a run each pair's balance is its old balance plus the signed sum of the committed records for it |
| StockRuns.ReconciledRun | test/stock.concurrency.spec.ts:362-423 | if every balance equals its pair's IN minus OUT ledger sum, that stays true after any run |
| StockRuns.EmptyReconciled | src/stock/stock.repository.ts:10-12 | an empty database is reconciled |
| StockRuns.RunNonNegative | test/stock.concurrency.spec.ts:314-360 | non-negative balances stay non-negative through any run of calls |
| StockRuns.PairRun | src/stock/stock.service.ts:28-181 | the one-pair reference machine: one status per call |
| StockRuns.InOnPair | src/stock/stock.service.ts:28-100 | a stockIn moves its pair's level and reports its status exactly as the one-pair machine does |
| StockRuns.OutOnPair | src/stock/stock.service.ts:102-181 | a stockOut moves its pair's level and reports its status exactly as the one-pair machine does |
| StockRuns.StepOnPair | src/stock/stock.service.ts:28-181 | either call agrees with the one-pair machine on its pair |
| StockRuns.PairProjection | src/stock/stock.service.ts:62 | in any run a pair's final level and the statuses of its calls are those of the machine run on that pair's calls alone |
| StockRuns.OnePairRun | src/stock/stock.service.ts:139 | a run whose calls are all on one pair is that pair's machine run |
| StockRuns.PairIsolation | test/stock.concurrency.spec.ts:244-312 | interleaved calls on other pairs, and their other rows, change neither a pair's final row nor any of its calls' outcomes |
| StockRuns.Repeat | test/stock.concurrency.spec.ts:324-330 | n copies of one call |
| StockRuns.DebitsClosedForm | test/stock.concurrency.spec.ts:314-360 | of n debits of q from s >= 0, min(n, s / q) succeed and s - that many times q remains |
| StockRuns.MachineDebits | src/stock/stock.service.ts:154-165 | n debits of q from s: the first Debits(s, q, n) succeed, each later one fails with InsufficientStock(Leftover, q), and the level ends at Leftover |
| StockRuns.OutTotalNonNegative | test/stock.concurrency.spec.ts:235-237 | the `totalOut` reduction over calls with positive quantities is >= 0 |
| StockRuns.TotalsAppend | test/stock.concurrency.spec.ts:231-240 | the `totalOut` reduction and the IN-minus-OUT net are additive over concatenation of call lists |
| StockRuns.TotalsPermutation | test/stock.concurrency.spec.ts:174-242 | any rearrangement of the calls has the same OUT total and net quantity |
| StockRuns.MachineCovered | src/stock/stock.service.ts:154-165 | when s covers all OUT quantities, every call succeeds and the level ends at s plus the net quantity |
| StockRuns.MachineCoveredAmong | src/stock/stock.service.ts:154-165 | the same for a pair's calls picked out of a longer list |
| StockScenarios.RepeatedDebits | test/stock.concurrency.spec.ts:119-171 | n equal debits against a registered pair holding s: exactly the first Debits(s, q, n) succeed, the rest fail with InsufficientStock(Leftover, q), and the row ends at Leftover |
| StockScenarios.CoveredRunSucceeds | test/stock.concurrency.spec.ts:67-117 | calls on one registered pair whose stock covers their OUT total all succeed and leave the row at s plus their net quantity |
| StockScenarios.Rearranged | test/stock.concurrency.spec.ts:174-242 | a rearrangement of positive calls on one pair stays on that pair with the same totals |
| StockScenarios.CoveredInAnyOrder | test/stock.concurrency.spec.ts:174-242 | whichever serial order covered calls commit in, all succeed and the row ends at s plus their net quantity, which is the same for every order |
| StockScenarios.CoveredPairAmongOthers | test/stock.concurrency.spec.ts:244-312 | a pair's covered calls all succeed and end at s plus their net quantity whatever calls on other pairs are interleaved |
| StockRaces.InWrites | src/stock/stock.service.ts:67-94 | stockIn's writes after a select that saw no row fail exactly when the pair's row exists by then, with a unique-key violation; on success exactly one record is appended and the tables stay well-formed |
| StockRaces.InWritesAtomic | src/stock/stock.service.ts:52-97 | with nothing between the locking select and the writes, they are exactly `StockEngine.InTransaction` |
| StockRaces.FirstInsertRace | src/stock/stock.service.ts:53-84 | two first stockIns whose selects both run before either insert: both see no row, the first inserts the row with its quantity, the second fails with a unique-key violation |
| StockRaces.SerialFirstStockIns | src/stock/stock.service.ts:67-84 | committed serially, two first stockIns with positive quantities on registered ids both succeed and the row ends at their sum |

## Left out

- Row locking, transactions and concurrency are modelled by their effect. A run of calls is a serial `Run`. Blocking, deadlocks, lock timeouts and transaction retries are not modelled.
- StockEngine.InTransaction: each call is one atomic step, and StockRuns.Run commits calls one at a time. This is an assumption. The locking select serializes calls on a pair only once its row exists. The first-insert race, where it does not hold, is modelled separately in `StockRaces` and listed under Findings.
- StockEngine.InTransaction: the balance is an unbounded integer. The `current_stock` column is a 32-bit Int, so a stockIn taking it past 2147483647 fails in the database. That failure is not modelled.
- Database and driver errors other than the unique-key and record-not-found outcomes of the repository writes are not modelled. This covers connection loss, serialization failures, and the `::uuid` cast error of `findStockWithLock` on a malformed id.
- Ids: Prisma's generated UUIDs are replaced by `IdOf(n)` over a logical clock. Only their uniqueness is modelled.
- Timestamps: `createdAt` is the logical clock. `updatedAt` is not modelled, and `new Date()` in `findStockWithLock` is the parameter `now`.
- The HTTP layer is not part of this model: controllers, the exception filter, status codes, response DTOs and message texts. `StockEngine.ClassOf` only records which exception class each error is thrown as.
- Validation covers strings and numbers as the decorators see them. Non-string JSON values, NaN and infinities, column widths and 32-bit integer overflow of the quantity columns are not modelled. Lengths count Unicode characters, so a surrogate pair counts as one, as in validator.js. validator.js also leaves the variation selectors U+FE0E and U+FE0F out of the count; the model counts them.
- Foreign keys between the stock tables and the registries are not modelled. The registries are only read, through their ids (`StockEngine.Catalog`).
- StockInDto is not part of this model. `stockIn` is modelled on the quantity it receives, checked only by the service's `quantity <= 0` test.
- The repository's read queries (`findStock`, `findStockWithLock`, `getStockHistory`) are functions over `StockRepository.Snapshot()`, not methods of the class. They change nothing.
- `findStockWithLock` is modelled as written, but the service does not call it. The service issues its own locking select (`StockTables.LockedRows`).
- StockRuns.Run: the registries are fixed for the duration of a run. Warehouses or spareparts created between calls are not interleaved with stock calls.
- The repositories' `create` for warehouses and spareparts is folded into each registry's `Create` method. Their spec tests, and the service and controller unit tests with mocks, are not modelled.

## Findings

| source | as written | input that shows it | evidently intended | confidence | as-written member | corrected member |
|---|---|---|---|---|---|---|
| src/stock/stock.service.ts:53-84 | `SELECT ... FOR UPDATE` locks only the rows it returns. When a pair has no row, two concurrent stockIns both see none, both take the create branch, and the second insert violates the (warehouseId, sparepartId) unique key (src/stock/stock.repository.ts:19-24), so that call fails | a registered pair with no row; stockIn(q1) and stockIn(q2) with q1, q2 > 0 run concurrently, both selects before either insert | both calls succeed and the row ends at q1 + q2, as in every serial order | not executed | StockRaces.FirstInsertRace | StockRaces.SerialFirstStockIns |
