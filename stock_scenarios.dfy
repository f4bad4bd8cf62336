/**
 * The concurrency scenarios of the stock service, stated over serial runs:
 * once a pair's row exists, every mutation on it holds the row lock for the
 * whole of its transaction, so concurrent calls on it commit like some
 * serial order of them, and each lemma here holds for every such order.
 */
module StockScenarios {
  import opened Common
  import opened StockTables
  import opened StockEngine
  import opened StockRuns

  /**
   * n debits of q against a pair whose row holds s, both ids registered:
   * the first Debits(s, q, n) succeed, every later one fails with
   * InsufficientStock(Leftover(s, q, n), q), and the row ends at
   * Leftover(s, q, n). DebitsClosedForm gives these as min(n, s / q) and
   * s - min(n, s / q) * q when s >= 0.
   */
  lemma RepeatedDebits(t: Tables, cat: Catalog, w: Id, p: Id, q: int, s: int, n: nat)
    requires Wf(t) && w in cat.warehouses && p in cat.spareparts && q > 0
    requires Level(t, Pair(w, p)) == Some(s)
    ensures var r := Run(t, cat, Repeat(Out(w, p, q), n));
      && Level(r.final, Pair(w, p)) == Some(Leftover(s, q, n))
      && forall i :: 0 <= i < n ==>
           Status(r.results[i]) == if i < Debits(s, q, n) then None else Some(InsufficientStock(Leftover(s, q, n), q))
  {
    var ops := Repeat(Out(w, p, q), n);
    OnePairRun(t, cat, ops, Pair(w, p));
    MachineDebits(cat, w, p, q, s, n);
    forall i | 0 <= i < n
      ensures Status(Run(t, cat, ops).results[i])
        == if i < Debits(s, q, n) then None else Some(InsufficientStock(Leftover(s, q, n), q))
    {
      assert Statuses(Run(t, cat, ops).results)[i] == PairRun(cat, Some(s), ops).1[i];
    }
  }

  /**
   * Calls on one pair of registered ids with positive quantities, whose
   * row holds s covering all of their OUT quantities together, all succeed
   * and leave the row at s plus the net quantity.
   */
  lemma CoveredRunSucceeds(t: Tables, cat: Catalog, key: Pair, s: int, ops: seq<Op>)
    requires Wf(t) && Level(t, key) == Some(s)
    requires key.warehouseId in cat.warehouses && key.sparepartId in cat.spareparts
    requires forall i :: 0 <= i < |ops| ==> PairOf(ops[i]) == key && ops[i].quantity > 0
    requires s >= OutTotal(ops)
    ensures Level(Run(t, cat, ops).final, key) == Some(s + NetRequested(ops))
    ensures forall i :: 0 <= i < |ops| ==> Run(t, cat, ops).results[i].Ok?
  {
    OnePairRun(t, cat, ops, key);
    MachineCovered(cat, s, ops);
    forall i | 0 <= i < |ops| ensures Run(t, cat, ops).results[i].Ok? {
      assert Statuses(Run(t, cat, ops).results)[i] == PairRun(cat, Some(s), ops).1[i];
    }
  }

  /** A rearrangement of calls on key with positive quantities: the same, with the same totals. */
  lemma Rearranged(calls: seq<Op>, order: seq<Op>, key: Pair)
    requires forall i :: 0 <= i < |calls| ==> PairOf(calls[i]) == key && calls[i].quantity > 0
    requires multiset(order) == multiset(calls)
    ensures forall i :: 0 <= i < |order| ==> PairOf(order[i]) == key && order[i].quantity > 0
    ensures OutTotal(order) == OutTotal(calls) && NetRequested(order) == NetRequested(calls)
  {
    TotalsPermutation(calls, order);
    forall i | 0 <= i < |order| ensures PairOf(order[i]) == key && order[i].quantity > 0 {
      assert order[i] in multiset(calls);
    }
  }

  /**
   * Concurrent calls on one pair whose row exists are committed by the row
   * lock in some serial order, and whichever order that is, the outcome is
   * the same:
   * when the row's stock s covers all of their OUT quantities together,
   * every call succeeds and the row ends at s plus the net quantity, which
   * is the same in every order.
   */
  lemma {:induction false} CoveredInAnyOrder(t: Tables, cat: Catalog, key: Pair, s: int, calls: seq<Op>, order: seq<Op>)
    requires Wf(t) && Level(t, key) == Some(s)
    requires key.warehouseId in cat.warehouses && key.sparepartId in cat.spareparts
    requires forall i :: 0 <= i < |calls| ==> PairOf(calls[i]) == key && calls[i].quantity > 0
    requires s >= OutTotal(calls)
    requires multiset(order) == multiset(calls)
    ensures NetRequested(order) == NetRequested(calls)
    ensures Level(Run(t, cat, order).final, key) == Some(s + NetRequested(order))
    ensures forall i :: 0 <= i < |order| ==> Run(t, cat, order).results[i].Ok?
  {
    Rearranged(calls, order, key);
    CoveredRunSucceeds(t, cat, key, s, order);
  }

  /**
   * Calls on different pairs do not affect each other: in a run that
   * interleaves calls on many pairs, the calls on a pair whose stock s
   * covers their OUT quantities all succeed and leave that row at s plus
   * their net quantity, whatever the calls on the other pairs do.
   */
  lemma {:induction false} CoveredPairAmongOthers(t: Tables, cat: Catalog, key: Pair, s: int, ops: seq<Op>)
    requires Wf(t) && Level(t, key) == Some(s)
    requires key.warehouseId in cat.warehouses && key.sparepartId in cat.spareparts
    requires forall i :: 0 <= i < |ops| && PairOf(ops[i]) == key ==> ops[i].quantity > 0
    requires s >= OutTotal(Only(ops, key))
    ensures Level(Run(t, cat, ops).final, key) == Some(s + NetRequested(Only(ops, key)))
    ensures var st := StatusesOn(ops, Run(t, cat, ops).results, key);
      forall i :: 0 <= i < |st| ==> st[i].None?
  {
    MachineCoveredAmong(cat, s, ops, key);
    PairProjection(t, cat, ops, key);
  }
}
