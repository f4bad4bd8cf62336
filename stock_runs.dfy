/**
 * Serial runs of stockIn/stockOut calls. Once a pair's row exists, the row
 * lock taken by both mutations makes concurrent calls on it commit in some
 * serial order of the same calls; this module assumes serial commits (the
 * one interleaving where that fails, two first stockIns on a pair with no
 * row, is in StockRaces) and proves what holds for EVERY serial order: balances never go negative, every balance equals
 * its starting value plus the IN quantities minus the OUT quantities the
 * run committed, repeated debits succeed exactly floor(S / q) times, and
 * a pair's outcome does not depend on calls to other pairs.
 */
module StockRuns {
  import opened Common
  import opened StockTables
  import opened StockEngine

  datatype Op =
    | In(warehouseId: Id, sparepartId: Id, quantity: int)
    | Out(warehouseId: Id, sparepartId: Id, quantity: int)

  function PairOf(op: Op): Pair
  {
    Pair(op.warehouseId, op.sparepartId)
  }

  /** One call, as the service runs it. */
  function Step(t: Tables, cat: Catalog, op: Op): (o: Outcome)
    requires Wf(t)
    ensures Wf(o.tables)
  {
    match op
    case In(w, p, q) => StockIn(t, cat, w, p, q)
    case Out(w, p, q) => StockOut(t, cat, w, p, q)
  }

  datatype Trace = Trace(final: Tables, results: seq<Result<Transaction, StockError>>)

  /** The calls one after another; the registries do not change meanwhile. */
  function Run(t: Tables, cat: Catalog, ops: seq<Op>): (r: Trace)
    requires Wf(t)
    ensures Wf(r.final) && |r.results| == |ops|
    decreases |ops|
  {
    if ops == [] then Trace(t, [])
    else
      var o := Step(t, cat, ops[0]);
      var rest := Run(o.tables, cat, ops[1..]);
      Trace(rest.final, [o.result] + rest.results)
  }

  /** The transaction a call appended to the ledger: the one it returned, or none. */
  function Appended(r: Result<Transaction, StockError>): seq<Transaction>
  {
    if r.Ok? then [r.value] else []
  }

  /** The transactions the successful calls returned, in call order. */
  function Committed(results: seq<Result<Transaction, StockError>>): seq<Transaction>
  {
    if results == [] then [] else Appended(results[0]) + Committed(results[1..])
  }

  /** What one transaction does to a pair's balance. */
  function Signed(tx: Transaction, pr: Pair): int
  {
    if Pair(tx.warehouseId, tx.sparepartId) != pr then 0
    else if tx.kind == IN then tx.quantity
    else -tx.quantity
  }

  /** The IN quantities minus the OUT quantities of a pair in l. */
  function Net(l: seq<Transaction>, pr: Pair): int
  {
    if l == [] then 0 else Signed(l[0], pr) + Net(l[1..], pr)
  }

  lemma {:induction false} NetAppend(a: seq<Transaction>, b: seq<Transaction>, pr: Pair)
    ensures Net(a + b, pr) == Net(a, pr) + Net(b, pr)
  {
    if a != [] {
      assert (a + b)[0] == a[0];
      assert (a + b)[1..] == a[1..] + b;
      NetAppend(a[1..], b, pr);
    } else {
      assert a + b == b;
    }
  }

  lemma NetSingle(tx: Transaction, pr: Pair)
    ensures Net([tx], pr) == Signed(tx, pr)
  {
    assert [tx][1..] == [];
  }

  /** A pair's row as far as the mutations can tell: its stock, or no row. */
  function Level(t: Tables, pr: Pair): Option<int>
  {
    if pr in t.stocks then Some(t.stocks[pr].currentStock) else None
  }

  // ------------------------------------------------------------ one step

  /**
   * What one call on key does: the ledger grows by exactly the transaction
   * it returned (nothing when it failed), every balance moves by that
   * transaction, and the rows of the other pairs stay as they were.
   */
  ghost predicate StepEffect(t: Tables, o: Outcome, key: Pair)
  {
    && o.tables.ledger == t.ledger + Appended(o.result)
    && (forall pr :: Balance(o.tables, pr) == Balance(t, pr) + Net(Appended(o.result), pr))
    && (forall pr :: pr != key ==> Level(o.tables, pr) == Level(t, pr))
  }

  /** A stockIn call moves every balance by the transaction it returned. */
  lemma InBalances(t: Tables, cat: Catalog, w: Id, p: Id, q: int)
    requires Wf(t)
    ensures var o := StockIn(t, cat, w, p, q);
      forall pr :: Balance(o.tables, pr) == Balance(t, pr) + Net(Appended(o.result), pr)
  {
    var o := StockIn(t, cat, w, p, q);
    forall pr ensures Balance(o.tables, pr) == Balance(t, pr) + Net(Appended(o.result), pr) {
      if o.result.Ok? { NetSingle(o.result.value, pr); }
    }
  }

  /** A stockIn call appends only what it returned and leaves other pairs alone. */
  lemma InLedgerAndLevels(t: Tables, cat: Catalog, w: Id, p: Id, q: int)
    requires Wf(t)
    ensures var o := StockIn(t, cat, w, p, q);
      && o.tables.ledger == t.ledger + Appended(o.result)
      && forall pr :: pr != Pair(w, p) ==> Level(o.tables, pr) == Level(t, pr)
  {
  }

  lemma InEffect(t: Tables, cat: Catalog, w: Id, p: Id, q: int)
    requires Wf(t)
    ensures StepEffect(t, StockIn(t, cat, w, p, q), Pair(w, p))
  {
    InBalances(t, cat, w, p, q);
    InLedgerAndLevels(t, cat, w, p, q);
  }

  /** A stockOut call moves every balance by the transaction it returned. */
  lemma OutBalances(t: Tables, cat: Catalog, w: Id, p: Id, q: int)
    requires Wf(t)
    ensures var o := StockOut(t, cat, w, p, q);
      forall pr :: Balance(o.tables, pr) == Balance(t, pr) + Net(Appended(o.result), pr)
  {
    var o := StockOut(t, cat, w, p, q);
    forall pr ensures Balance(o.tables, pr) == Balance(t, pr) + Net(Appended(o.result), pr) {
      if o.result.Ok? { NetSingle(o.result.value, pr); }
    }
  }

  /** A stockOut call appends only what it returned and leaves other pairs alone. */
  lemma OutLedgerAndLevels(t: Tables, cat: Catalog, w: Id, p: Id, q: int)
    requires Wf(t)
    ensures var o := StockOut(t, cat, w, p, q);
      && o.tables.ledger == t.ledger + Appended(o.result)
      && forall pr :: pr != Pair(w, p) ==> Level(o.tables, pr) == Level(t, pr)
  {
  }

  lemma OutEffect(t: Tables, cat: Catalog, w: Id, p: Id, q: int)
    requires Wf(t)
    ensures StepEffect(t, StockOut(t, cat, w, p, q), Pair(w, p))
  {
    OutBalances(t, cat, w, p, q);
    OutLedgerAndLevels(t, cat, w, p, q);
  }

  lemma StepEffects(t: Tables, cat: Catalog, op: Op)
    requires Wf(t)
    ensures StepEffect(t, Step(t, cat, op), PairOf(op))
  {
    match op
    case In(w, p, q) => InEffect(t, cat, w, p, q);
    case Out(w, p, q) => OutEffect(t, cat, w, p, q);
  }

  lemma StepNonNegative(t: Tables, cat: Catalog, op: Op)
    requires Wf(t) && NonNegative(t)
    ensures NonNegative(Step(t, cat, op).tables)
  {
    var o := Step(t, cat, op);
    StepEffects(t, cat, op);
    forall pr | pr in o.tables.stocks ensures o.tables.stocks[pr].currentStock >= 0 {
      if pr != PairOf(op) {
        assert Level(o.tables, pr) == Level(t, pr);
      }
    }
  }

  // ------------------------------------------------------------ whole runs

  lemma ConcatAssoc<T>(a: seq<T>, b: seq<T>, c: seq<T>)
    ensures (a + b) + c == a + (b + c)
  {
  }

  lemma CommittedCons(r: Result<Transaction, StockError>, rest: seq<Result<Transaction, StockError>>)
    ensures Committed([r] + rest) == Appended(r) + Committed(rest)
  {
    assert ([r] + rest)[1..] == rest;
  }

  /** The ledger only grows, by exactly the committed transactions. */
  lemma {:induction false} RunLedger(t: Tables, cat: Catalog, ops: seq<Op>)
    requires Wf(t)
    ensures Run(t, cat, ops).final.ledger == t.ledger + Committed(Run(t, cat, ops).results)
    decreases |ops|
  {
    if ops != [] {
      var o := Step(t, cat, ops[0]);
      var rest := Run(o.tables, cat, ops[1..]);
      StepEffects(t, cat, ops[0]);
      RunLedger(o.tables, cat, ops[1..]);
      CommittedCons(o.result, rest.results);
      ConcatAssoc(t.ledger, Appended(o.result), Committed(rest.results));
    }
  }

  /**
   * Reconciliation: after any serial run, each pair's balance is its
   * starting balance plus the IN minus the OUT quantities committed for it.
   */
  lemma {:induction false} Reconciliation(t: Tables, cat: Catalog, ops: seq<Op>, pr: Pair)
    requires Wf(t)
    ensures Balance(Run(t, cat, ops).final, pr) == Balance(t, pr) + Net(Committed(Run(t, cat, ops).results), pr)
    decreases |ops|
  {
    if ops != [] {
      var o := Step(t, cat, ops[0]);
      var rest := Run(o.tables, cat, ops[1..]);
      StepEffects(t, cat, ops[0]);
      Reconciliation(o.tables, cat, ops[1..], pr);
      CommittedCons(o.result, rest.results);
      NetAppend(Appended(o.result), Committed(rest.results), pr);
    }
  }

  /** Every balance is the sum over the ledger: IN quantities minus OUT quantities. */
  ghost predicate Reconciled(t: Tables)
  {
    forall pr :: Balance(t, pr) == Net(t.ledger, pr)
  }

  /** Tables that are reconciled (a fresh database is) stay reconciled. */
  lemma ReconciledRun(t: Tables, cat: Catalog, ops: seq<Op>)
    requires Wf(t) && Reconciled(t)
    ensures Reconciled(Run(t, cat, ops).final)
  {
    var r := Run(t, cat, ops);
    RunLedger(t, cat, ops);
    forall pr ensures Balance(r.final, pr) == Net(r.final.ledger, pr) {
      Reconciliation(t, cat, ops, pr);
      NetAppend(t.ledger, Committed(r.results), pr);
    }
  }

  lemma EmptyReconciled()
    ensures Reconciled(Empty())
  {
  }

  /** Non-negativity: no serial run drives any balance below zero. */
  lemma {:induction false} RunNonNegative(t: Tables, cat: Catalog, ops: seq<Op>)
    requires Wf(t) && NonNegative(t)
    ensures NonNegative(Run(t, cat, ops).final)
    decreases |ops|
  {
    if ops != [] {
      StepNonNegative(t, cat, ops[0]);
      RunNonNegative(Step(t, cat, ops[0]).tables, cat, ops[1..]);
    }
  }

  // ------------------------------------------------ the per-pair machine

  /** The calls on one pair, in their original order. */
  function Only(ops: seq<Op>, pr: Pair): (r: seq<Op>)
    ensures forall op :: op in r ==> op in ops && PairOf(op) == pr
  {
    if ops == [] then []
    else (if PairOf(ops[0]) == pr then [ops[0]] else []) + Only(ops[1..], pr)
  }

  /** Success, or the error thrown: what a call reports apart from generated ids. */
  function Status(r: Result<Transaction, StockError>): (s: Option<StockError>)
    ensures s.None? <==> r.Ok?
  {
    if r.Ok? then None else Some(r.error)
  }

  /** The statuses of the calls on one pair, in call order. */
  function StatusesOn(ops: seq<Op>, results: seq<Result<Transaction, StockError>>, pr: Pair)
    : seq<Option<StockError>>
    requires |results| == |ops|
  {
    if ops == [] then []
    else (if PairOf(ops[0]) == pr then [Status(results[0])] else []) + StatusesOn(ops[1..], results[1..], pr)
  }

  /**
   * The reference machine for one pair: from the pair's level (its stock,
   * or no row) and one call on it, the next level and the call's status.
   */
  function PairStep(cat: Catalog, level: Option<int>, op: Op): (Option<int>, Option<StockError>)
  {
    var pre := Precheck(cat, op.warehouseId, op.sparepartId, op.quantity);
    if pre.Some? then (level, pre)
    else if op.In? then (Some((if level.Some? then level.value else 0) + op.quantity), None)
    else if level.None? then (None, Some(StockNotFound(op.warehouseId, op.sparepartId)))
    else if level.value < op.quantity then (level, Some(InsufficientStock(level.value, op.quantity)))
    else (Some(level.value - op.quantity), None)
  }

  /** The machine over a list of calls: the final level and every call's status. */
  function PairRun(cat: Catalog, level: Option<int>, ops: seq<Op>): (r: (Option<int>, seq<Option<StockError>>))
    ensures |r.1| == |ops|
    decreases |ops|
  {
    if ops == [] then (level, [])
    else
      var (next, status) := PairStep(cat, level, ops[0]);
      var rest := PairRun(cat, next, ops[1..]);
      (rest.0, [status] + rest.1)
  }

  lemma InOnPair(t: Tables, cat: Catalog, w: Id, p: Id, q: int)
    requires Wf(t)
    ensures var o := StockIn(t, cat, w, p, q);
      (Level(o.tables, Pair(w, p)), Status(o.result)) == PairStep(cat, Level(t, Pair(w, p)), In(w, p, q))
  {
    var o := StockIn(t, cat, w, p, q);
    if o.result.Ok? {
      assert o.tables.stocks[Pair(w, p)].currentStock == Balance(t, Pair(w, p)) + q;
    }
  }

  lemma OutOnPair(t: Tables, cat: Catalog, w: Id, p: Id, q: int)
    requires Wf(t)
    ensures var o := StockOut(t, cat, w, p, q);
      (Level(o.tables, Pair(w, p)), Status(o.result)) == PairStep(cat, Level(t, Pair(w, p)), Out(w, p, q))
  {
  }

  /** A call's effect on its own pair is the machine's step: it depends on that row alone. */
  lemma StepOnPair(t: Tables, cat: Catalog, op: Op)
    requires Wf(t)
    ensures var o := Step(t, cat, op);
      (Level(o.tables, PairOf(op)), Status(o.result)) == PairStep(cat, Level(t, PairOf(op)), op)
  {
    match op
    case In(w, p, q) => InOnPair(t, cat, w, p, q);
    case Out(w, p, q) => OutOnPair(t, cat, w, p, q);
  }

  /**
   * Pair projection: in any serial run, a pair's final row and the
   * statuses of the calls on it are what the machine computes from the
   * pair's starting row and those calls alone; calls on other pairs,
   * wherever they are interleaved, make no difference.
   */
  lemma {:induction false} PairProjection(t: Tables, cat: Catalog, ops: seq<Op>, pr: Pair)
    requires Wf(t)
    ensures var r := Run(t, cat, ops);
      var m := PairRun(cat, Level(t, pr), Only(ops, pr));
      Level(r.final, pr) == m.0 && StatusesOn(ops, r.results, pr) == m.1
    decreases |ops|
  {
    if ops != [] {
      var o := Step(t, cat, ops[0]);
      var rest := Run(o.tables, cat, ops[1..]);
      assert Run(t, cat, ops).results[1..] == rest.results;
      PairProjection(o.tables, cat, ops[1..], pr);
      if PairOf(ops[0]) == pr {
        var only := Only(ops, pr);
        assert only == [ops[0]] + Only(ops[1..], pr);
        assert only[0] == ops[0] && only[1..] == Only(ops[1..], pr);
        StepOnPair(t, cat, ops[0]);
      } else {
        assert Only(ops, pr) == Only(ops[1..], pr);
        StepEffects(t, cat, ops[0]);
      }
    }
  }

  lemma {:induction false} OnlyAll(ops: seq<Op>, pr: Pair)
    requires forall i :: 0 <= i < |ops| ==> PairOf(ops[i]) == pr
    ensures Only(ops, pr) == ops
  {
    if ops != [] {
      OnlyAll(ops[1..], pr);
    }
  }

  /** Every call's status, in call order. */
  function Statuses(results: seq<Result<Transaction, StockError>>): (r: seq<Option<StockError>>)
    ensures |r| == |results| && forall i :: 0 <= i < |results| ==> r[i] == Status(results[i])
  {
    if results == [] then [] else [Status(results[0])] + Statuses(results[1..])
  }

  lemma {:induction false} StatusesAll(ops: seq<Op>, results: seq<Result<Transaction, StockError>>, pr: Pair)
    requires |results| == |ops|
    requires forall i :: 0 <= i < |ops| ==> PairOf(ops[i]) == pr
    ensures StatusesOn(ops, results, pr) == Statuses(results)
  {
    if ops != [] {
      StatusesAll(ops[1..], results[1..], pr);
    }
  }

  /** Pair projection for a run whose calls are all on one pair. */
  lemma OnePairRun(t: Tables, cat: Catalog, ops: seq<Op>, pr: Pair)
    requires Wf(t)
    requires forall i :: 0 <= i < |ops| ==> PairOf(ops[i]) == pr
    ensures var r := Run(t, cat, ops);
      var m := PairRun(cat, Level(t, pr), ops);
      Level(r.final, pr) == m.0 && Statuses(r.results) == m.1
  {
    var r := Run(t, cat, ops);
    OnlyAll(ops, pr);
    PairProjection(t, cat, ops, pr);
    StatusesAll(ops, r.results, pr);
  }

  /**
   * Pair isolation: starting from the same row, a run with calls on other
   * pairs interleaved leaves the pair's row, and the success or error of
   * every call on it, as running only that pair's calls does.
   */
  lemma PairIsolation(t: Tables, t': Tables, cat: Catalog, ops: seq<Op>, pr: Pair)
    requires Wf(t) && Wf(t') && Level(t, pr) == Level(t', pr)
    ensures Level(Run(t, cat, ops).final, pr) == Level(Run(t', cat, Only(ops, pr)).final, pr)
    ensures StatusesOn(ops, Run(t, cat, ops).results, pr)
         == StatusesOn(Only(ops, pr), Run(t', cat, Only(ops, pr)).results, pr)
  {
    PairProjection(t, cat, ops, pr);
    PairProjection(t', cat, Only(ops, pr), pr);
    OnlyAll(Only(ops, pr), pr);
  }

  // ------------------------------------------------------ repeated debits

  function Repeat(op: Op, n: nat): (ops: seq<Op>)
    ensures |ops| == n && forall i :: 0 <= i < n ==> ops[i] == op
  {
    if n == 0 then [] else [op] + Repeat(op, n - 1)
  }

  function Min(a: int, b: int): int { if a <= b then a else b }

  lemma MulAtLeast(x: int, q: int)
    requires x >= 1 && q > 0
    ensures x * q >= q
  {
  }

  lemma DivUnique(x: int, q: int, d: int, m: int)
    requires q > 0 && 0 <= m < q && x == d * q + m
    ensures x / q == d
  {
    var d0, m0 := x / q, x % q;
    assert x == d0 * q + m0 && 0 <= m0 < q;
    assert (d - d0) * q == m0 - m;
    if d - d0 >= 1 {
      MulAtLeast(d - d0, q);
    } else if d0 - d >= 1 {
      MulAtLeast(d0 - d, q);
    }
  }

  lemma DivDown(s: int, q: int)
    requires q > 0 && s >= q
    ensures (s - q) / q == s / q - 1
  {
    var d, m := s / q, s % q;
    assert s == d * q + m;
    assert s - q == (d - 1) * q + m;
    DivUnique(s - q, q, d - 1, m);
  }

  /** How many of n debits of q a stock of s serves, one after another. */
  function Debits(s: int, q: int, n: nat): nat
    requires q > 0
  {
    if n == 0 || s < q then 0 else 1 + Debits(s - q, q, n - 1)
  }

  /** The stock left after those debits. */
  function Leftover(s: int, q: int, n: nat): int
    requires q > 0
  {
    if n == 0 || s < q then s else Leftover(s - q, q, n - 1)
  }

  /** Closed form: min(n, s / q) debits are served and s - k * q is left. */
  lemma {:induction false} DebitsClosedForm(s: int, q: int, n: nat)
    requires q > 0 && s >= 0
    ensures Debits(s, q, n) == Min(n, s / q)
    ensures Leftover(s, q, n) == s - Debits(s, q, n) * q
  {
    if n == 0 || s < q {
      if s < q { DivUnique(s, q, 0, s); }
    } else {
      DebitsClosedForm(s - q, q, n - 1);
      DivDown(s, q);
      var k' := Debits(s - q, q, n - 1);
      assert (s - q) - k' * q == s - (1 + k') * q;
    }
  }

  /**
   * On the machine, n debits of q of registered ids against a stock of s:
   * the first Debits(s, q, n) succeed, the rest fail with
   * InsufficientStock(Leftover(s, q, n), q), and the leftover remains.
   */
  lemma {:induction false} MachineDebits(cat: Catalog, w: Id, p: Id, q: int, s: int, n: nat)
    requires w in cat.warehouses && p in cat.spareparts && q > 0
    ensures var m := PairRun(cat, Some(s), Repeat(Out(w, p, q), n));
      && m.0 == Some(Leftover(s, q, n))
      && forall i :: 0 <= i < n ==>
           m.1[i] == if i < Debits(s, q, n) then None else Some(InsufficientStock(Leftover(s, q, n), q))
    decreases n
  {
    if n > 0 {
      var ops := Repeat(Out(w, p, q), n);
      assert ops[1..] == Repeat(Out(w, p, q), n - 1);
      var m := PairRun(cat, Some(s), ops);
      if s >= q {
        MachineDebits(cat, w, p, q, s - q, n - 1);
        assert forall i :: 1 <= i < n ==> m.1[i] == PairRun(cat, Some(s - q), ops[1..]).1[i - 1];
      } else {
        MachineDebits(cat, w, p, q, s, n - 1);
        assert forall i :: 1 <= i < n ==> m.1[i] == PairRun(cat, Some(s), ops[1..]).1[i - 1];
      }
    }
  }

  // ----------------------------------------------- debits the stock covers

  /** The OUT quantities of a list of calls. */
  function OutTotal(ops: seq<Op>): int
  {
    if ops == [] then 0 else (if ops[0].Out? then ops[0].quantity else 0) + OutTotal(ops[1..])
  }

  /** The IN quantities minus the OUT quantities of a list of calls. */
  function NetRequested(ops: seq<Op>): int
  {
    if ops == [] then 0
    else (if ops[0].In? then ops[0].quantity else -ops[0].quantity) + NetRequested(ops[1..])
  }

  lemma {:induction false} OutTotalNonNegative(ops: seq<Op>)
    requires forall i :: 0 <= i < |ops| ==> ops[i].quantity > 0
    ensures OutTotal(ops) >= 0
  {
    if ops != [] {
      OutTotalNonNegative(ops[1..]);
    }
  }

  lemma {:induction false} TotalsAppend(u: seq<Op>, v: seq<Op>)
    ensures OutTotal(u + v) == OutTotal(u) + OutTotal(v)
    ensures NetRequested(u + v) == NetRequested(u) + NetRequested(v)
    decreases |u|
  {
    if u == [] {
      assert u + v == v;
    } else {
      assert (u + v)[0] == u[0] && (u + v)[1..] == u[1..] + v;
      TotalsAppend(u[1..], v);
    }
  }

  /** Taking the j-th call out of b takes its share out of both totals. */
  lemma {:induction false} TotalsRemoveAt(b: seq<Op>, j: nat)
    requires j < |b|
    ensures OutTotal(b) == OutTotal([b[j]]) + OutTotal(b[..j] + b[j + 1..])
    ensures NetRequested(b) == NetRequested([b[j]]) + NetRequested(b[..j] + b[j + 1..])
  {
    var before, after := b[..j], b[j + 1..];
    assert b == (before + [b[j]]) + after;
    TotalsAppend(before + [b[j]], after);
    TotalsAppend(before, [b[j]]);
    TotalsAppend(before, after);
  }

  /** One copy of x taken out of b: the calls left and their totals. */
  lemma {:induction false} Remove(b: seq<Op>, x: Op) returns (rest: seq<Op>)
    requires x in multiset(b)
    ensures multiset(rest) == multiset(b) - multiset{x}
    ensures OutTotal(b) == OutTotal([x]) + OutTotal(rest)
    ensures NetRequested(b) == NetRequested([x]) + NetRequested(rest)
  {
    var j :| 0 <= j < |b| && b[j] == x;
    rest := b[..j] + b[j + 1..];
    assert b == b[..j] + [x] + b[j + 1..];
    TotalsRemoveAt(b, j);
  }

  /**
   * The OUT total and the net quantity of a set of calls do not depend on
   * the order the calls are in.
   */
  lemma {:induction false} TotalsPermutation(a: seq<Op>, b: seq<Op>)
    requires multiset(a) == multiset(b)
    ensures OutTotal(a) == OutTotal(b) && NetRequested(a) == NetRequested(b)
    decreases |a|
  {
    if a == [] {
      assert |b| == |multiset(b)| == 0;
    } else {
      var x := a[0];
      var rest := Remove(b, x);
      assert a == [x] + a[1..];
      TotalsAppend([x], a[1..]);
      TotalsPermutation(a[1..], rest);
    }
  }

  /**
   * On the machine, calls of registered ids with positive quantities from
   * a stock covering all of their OUT quantities together all succeed, in
   * any order, and end at the stock plus the net quantity.
   */
  lemma {:induction false} MachineCovered(cat: Catalog, s: int, ops: seq<Op>)
    requires forall i :: 0 <= i < |ops| ==>
      ops[i].warehouseId in cat.warehouses && ops[i].sparepartId in cat.spareparts && ops[i].quantity > 0
    requires s >= OutTotal(ops)
    ensures var m := PairRun(cat, Some(s), ops);
      m.0 == Some(s + NetRequested(ops)) && forall i :: 0 <= i < |ops| ==> m.1[i].None?
    decreases |ops|
  {
    if ops != [] {
      OutTotalNonNegative(ops[1..]);
      var next := if ops[0].In? then s + ops[0].quantity else s - ops[0].quantity;
      MachineCovered(cat, next, ops[1..]);
      var m := PairRun(cat, Some(s), ops);
      assert forall i :: 1 <= i < |ops| ==> m.1[i] == PairRun(cat, Some(next), ops[1..]).1[i - 1];
    }
  }

  /**
   * The reference machine on the calls on one pair taken out of a longer
   * run: when they have registered ids and positive quantities and s covers
   * their OUT quantities, every one succeeds and the level ends at s plus
   * their net quantity.
   */
  lemma {:induction false} MachineCoveredAmong(cat: Catalog, s: int, ops: seq<Op>, pr: Pair)
    requires pr.warehouseId in cat.warehouses && pr.sparepartId in cat.spareparts
    requires forall i :: 0 <= i < |ops| && PairOf(ops[i]) == pr ==> ops[i].quantity > 0
    requires s >= OutTotal(Only(ops, pr))
    ensures var m := PairRun(cat, Some(s), Only(ops, pr));
      m.0 == Some(s + NetRequested(Only(ops, pr))) && forall i :: 0 <= i < |m.1| ==> m.1[i].None?
  {
    var mine := Only(ops, pr);
    forall i | 0 <= i < |mine|
      ensures mine[i].warehouseId in cat.warehouses && mine[i].sparepartId in cat.spareparts
      ensures mine[i].quantity > 0
    {
      assert mine[i] in mine;
    }
    MachineCovered(cat, s, mine);
  }
}
