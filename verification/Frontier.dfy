/** Solver frontiers (repogauge/runner/analyze.py): dominance, the Pareto frontier and the budget frontier.
    A solver row holds exactly the values its sort keys read; a missing per-issue cost or latency is infinite. */
module Frontier {
  import opened Text
  import opened Sorting

  datatype Metric = Finite(value: real) | Infinite

  datatype Solver = Solver(id: string, rate: real, resolved: nat, cost: Metric, latency: Metric, total: real)

  predicate Below(a: Metric, b: Metric) {
    a.Finite? && (b.Infinite? || a.value < b.value)
  }

  predicate AtMost(a: Metric, b: Metric) {
    a == b || Below(a, b)
  }

  // ---------- the two sort keys ----------

  /** `_solver_ranking_key(a) < _solver_ranking_key(b)` */
  predicate RankLess(a: Solver, b: Solver) {
    || a.rate > b.rate
    || (a.rate == b.rate &&
        (|| a.resolved > b.resolved
         || (a.resolved == b.resolved &&
             (|| Below(a.cost, b.cost)
              || (a.cost == b.cost &&
                  (|| Below(a.latency, b.latency)
                   || (a.latency == b.latency &&
                       (a.total < b.total || (a.total == b.total && Less(a.id, b.id))))))))))
  }

  /** `_solver_cost_key(a) < _solver_cost_key(b)` */
  predicate CostLess(a: Solver, b: Solver) {
    || Below(a.cost, b.cost)
    || (a.cost == b.cost &&
        (|| a.rate > b.rate
         || (a.rate == b.rate &&
             (Below(a.latency, b.latency) || (a.latency == b.latency && Less(a.id, b.id))))))
  }

  predicate CostLe(a: Solver, b: Solver) {
    !CostLess(b, a)
  }

  lemma CostLeIsPreorder()
    ensures TotalPreorder(CostLe)
  {
    forall x, y ensures CostLe(x, y) || CostLe(y, x) {
      LessTotal(x.id, y.id);
    }
    forall x, y, z | CostLe(x, y) && CostLe(y, z) ensures CostLe(x, z) {
      LessTotal(x.id, y.id);
      LessTotal(y.id, z.id);
      if CostLess(z, x) {
        LessTotal(x.id, z.id);
        if Less(x.id, y.id) && Less(y.id, z.id) {
          LessTransitive(x.id, y.id, z.id);
        }
      }
    }
  }

  /** The ranking key orders solver rows strictly and totally: there is always one best row. */
  lemma RankLessIsStrictTotal()
    ensures StrictTotal(RankLess)
  {
    forall x ensures !RankLess(x, x) {
      LessTotal(x.id, x.id);
    }
    forall x, y | x != y ensures RankLess(x, y) || RankLess(y, x) {
      LessTotal(x.id, y.id);
    }
    forall x, y, z | RankLess(x, y) && RankLess(y, z) ensures RankLess(x, z) {
      if Less(x.id, y.id) && Less(y.id, z.id) {
        LessTransitive(x.id, y.id, z.id);
      }
    }
  }

  // ---------- dominance and the Pareto frontier ----------

  predicate Dominates(a: Solver, b: Solver) {
    && a.rate >= b.rate && AtMost(a.cost, b.cost) && AtMost(a.latency, b.latency)
    && (a.rate > b.rate || Below(a.cost, b.cost) || Below(a.latency, b.latency))
  }

  lemma DominanceIsStrictOrder(a: Solver, b: Solver, c: Solver)
    ensures !Dominates(a, a)
    ensures Dominates(a, b) ==> !Dominates(b, a)
    ensures Dominates(a, b) && Dominates(b, c) ==> Dominates(a, c)
  {
  }

  predicate Dominated(row: Solver, rows: seq<Solver>) {
    exists i | 0 <= i < |rows| :: Dominates(rows[i], row)
  }

  /** Those of `some` that no row of `rows` dominates, in order. */
  function Undominated(some: seq<Solver>, rows: seq<Solver>): seq<Solver> {
    if some == [] then []
    else
      var before := Undominated(some[..|some| - 1], rows);
      if Dominated(some[|some| - 1], rows) then before else before + [some[|some| - 1]]
  }

  function Pareto(rows: seq<Solver>): seq<Solver> {
    Sort(Undominated(rows, rows), CostLe)
  }

  /** `_build_pareto_frontier` */
  method BuildPareto(rows: seq<Solver>) returns (frontier: seq<Solver>)
    ensures frontier == Pareto(rows)
  {
    frontier := [];
    for i := 0 to |rows|
      invariant frontier == Undominated(rows[..i], rows)
    {
      assert rows[..i + 1][..i] == rows[..i];
      var dominated := false;
      var k := 0;
      while k < |rows|
        invariant 0 <= k <= |rows|
        invariant !dominated ==> forall j | 0 <= j < k :: !Dominates(rows[j], rows[i])
        invariant dominated ==> Dominated(rows[i], rows)
      {
        if k != i && Dominates(rows[k], rows[i]) {
          dominated := true;
          break;
        }
        k := k + 1;
      }
      if !dominated {
        frontier := frontier + [rows[i]];
      }
    }
    assert rows[..|rows|] == rows;
    frontier := Sort(frontier, CostLe);
  }

  lemma {:induction false} UndominatedContents(some: seq<Solver>, rows: seq<Solver>)
    ensures forall r :: multiset(Undominated(some, rows))[r] == if Dominated(r, rows) then 0 else multiset(some)[r]
  {
    if some != [] {
      var n := |some| - 1;
      UndominatedContents(some[..n], rows);
      assert some == some[..n] + [some[n]];
    }
  }

  /** The frontier is exactly the undominated rows, each as often as it was given, in cost order. */
  lemma ParetoIsExact(rows: seq<Solver>)
    ensures forall r :: multiset(Pareto(rows))[r] == if Dominated(r, rows) then 0 else multiset(rows)[r]
    ensures Ordered(Pareto(rows), CostLe)
  {
    UndominatedContents(rows, rows);
    SortContents(Undominated(rows, rows), CostLe);
    CostLeIsPreorder();
    SortOrdered(Undominated(rows, rows), CostLe);
  }

  lemma InPareto(rows: seq<Solver>, r: Solver)
    ensures r in Pareto(rows) <==> r in rows && !Dominated(r, rows)
  {
    ParetoIsExact(rows);
    assert r in Pareto(rows) <==> r in multiset(Pareto(rows));
    assert r in rows <==> r in multiset(rows);
  }

  /** Every row is on the frontier or dominated by a row that is. */
  lemma {:induction false} ParetoCovers(rows: seq<Solver>, r: Solver) returns (f: Solver)
    requires r in rows
    ensures f in Pareto(rows) && (f == r || Dominates(f, r))
    decreases set i | 0 <= i < |rows| && Dominates(rows[i], r)
  {
    InPareto(rows, r);
    f := r;
    if Dominated(r, rows) {
      var k :| 0 <= k < |rows| && Dominates(rows[k], r);
      var next := rows[k];
      var above := set i | 0 <= i < |rows| && Dominates(rows[i], r);
      var aboveNext := set i | 0 <= i < |rows| && Dominates(rows[i], next);
      assert k in above && k !in aboveNext;
      forall i | i in aboveNext ensures i in above {
        DominanceIsStrictOrder(rows[i], next, r);
      }
      f := ParetoCovers(rows, next);
      DominanceIsStrictOrder(f, next, r);
    }
  }

  lemma ParetoNonEmpty(rows: seq<Solver>)
    ensures Pareto(rows) == [] <==> rows == []
  {
    if rows != [] {
      var f := ParetoCovers(rows, rows[0]);
    }
  }

  lemma {:induction false} UndominatedAll(some: seq<Solver>, rows: seq<Solver>)
    requires forall r | r in some :: !Dominated(r, rows)
    ensures Undominated(some, rows) == some
  {
    if some != [] {
      UndominatedAll(some[..|some| - 1], rows);
    }
  }

  /** The frontier of a frontier is itself, row by row. */
  lemma ParetoIdempotent(rows: seq<Solver>)
    ensures Pareto(Pareto(rows)) == Pareto(rows)
  {
    var f := Pareto(rows);
    ParetoIsExact(rows);
    forall r | r in f ensures !Dominated(r, f) {
      InPareto(rows, r);
      forall i | 0 <= i < |f| ensures !Dominates(f[i], r) {
        InPareto(rows, f[i]);
      }
    }
    UndominatedAll(f, f);
    SortFixed(f, CostLe);
  }

  // ---------- the budget frontier ----------

  datatype Entry = Entry(budget: Metric, best: Solver, affordable: seq<string>)

  predicate Eligible(r: Solver) {
    r.cost.Finite? && r.resolved > 0
  }

  function EligibleRows(rows: seq<Solver>): seq<Solver> {
    if rows == [] then []
    else
      var before := EligibleRows(rows[..|rows| - 1]);
      if Eligible(rows[|rows| - 1]) then before + [rows[|rows| - 1]] else before
  }

  function IdsAtCost(ordered: seq<Solver>, cost: Metric): seq<string> {
    if ordered == [] then []
    else
      var before := IdsAtCost(ordered[..|ordered| - 1], cost);
      if ordered[|ordered| - 1].cost == cost then before + [ordered[|ordered| - 1].id] else before
  }

  /** `best` is the one best-ranked eligible row whose cost is within the budget. */
  ghost predicate WinsAt(rows: seq<Solver>, budget: Metric, best: Solver) {
    && best in rows && Eligible(best) && AtMost(best.cost, budget)
    && forall r | r in rows && Eligible(r) && AtMost(r.cost, budget) && r != best :: RankLess(best, r)
  }

  /** One entry per distinct cost of an eligible row, in increasing order, each naming the winner at that budget
      and the rows of exactly that cost. */
  ghost predicate IsBudgetFrontier(rows: seq<Solver>, frontier: seq<Entry>) {
    && BudgetsIncrease(frontier)
    && (forall r | r in rows && Eligible(r) :: HasBudget(frontier, r.cost))
    && (forall i | 0 <= i < |frontier| :: IsEntry(rows, frontier[i]))
  }

  ghost predicate BudgetsIncrease(frontier: seq<Entry>) {
    forall i, j | 0 <= i < j < |frontier| :: Below(frontier[i].budget, frontier[j].budget)
  }

  ghost predicate HasBudget(frontier: seq<Entry>, budget: Metric) {
    exists i :: 0 <= i < |frontier| && frontier[i].budget == budget
  }

  ghost predicate IsEntry(rows: seq<Solver>, e: Entry) {
    && (exists r :: r in rows && Eligible(r) && r.cost == e.budget)
    && WinsAt(rows, e.budget, e.best)
    && e.affordable == IdsAtCost(Sort(EligibleRows(rows), CostLe), e.budget)
  }

  lemma {:induction false} EligibleContents(rows: seq<Solver>)
    ensures forall r :: r in EligibleRows(rows) <==> r in rows && Eligible(r)
  {
    if rows != [] {
      EligibleContents(rows[..|rows| - 1]);
      assert rows == rows[..|rows| - 1] + [rows[|rows| - 1]];
    }
  }

  /** The frontier of the part of the ordered rows seen so far. */
  ghost predicate FrontierOfPrefix(ordered: seq<Solver>, n: nat, frontier: seq<Entry>)
    requires n <= |ordered|
  {
    && BudgetsIncrease(frontier)
    && (forall i | 0 <= i < |frontier| :: PrefixEntry(ordered, n, frontier[i]))
    && (forall k | 0 <= k < n :: HasBudget(frontier, ordered[k].cost))
  }

  ghost predicate PrefixEntry(ordered: seq<Solver>, n: nat, e: Entry)
    requires n <= |ordered|
  {
    && (exists k :: 0 <= k < n && ordered[k].cost == e.budget)
    && WinsAt(ordered, e.budget, e.best)
    && e.affordable == IdsAtCost(ordered, e.budget)
  }

  /** Best of the first `n` ordered rows. */
  ghost predicate BestOf(ordered: seq<Solver>, n: nat, best: Solver)
    requires n <= |ordered|
  {
    best in ordered[..n] && forall k | 0 <= k < n && ordered[k] != best :: RankLess(best, ordered[k])
  }

  lemma {:induction false} IdsOfBucket(ordered: seq<Solver>, from: nat, to: nat)
    requires from <= to <= |ordered|
    requires from < |ordered|
    requires forall k | 0 <= k < |ordered| :: ordered[k].cost == ordered[from].cost <==> from <= k < to
    ensures IdsAtCost(ordered, ordered[from].cost)
        == seq(to - from, i requires 0 <= i < to - from => ordered[from + i].id)
  {
    IdsOfPrefix(ordered, |ordered|, from, to);
    assert ordered[..|ordered|] == ordered;
  }

  lemma {:induction false} IdsOfPrefix(ordered: seq<Solver>, n: nat, from: nat, to: nat)
    requires from <= to <= |ordered| && n <= |ordered| && from < |ordered|
    requires forall k | 0 <= k < |ordered| :: ordered[k].cost == ordered[from].cost <==> from <= k < to
    ensures
      var m := if n < from then 0 else if n < to then n - from else to - from;
      IdsAtCost(ordered[..n], ordered[from].cost) == seq(m, i requires 0 <= i < m => ordered[from + i].id)
  {
    if n > 0 {
      IdsOfPrefix(ordered, n - 1, from, to);
      assert ordered[..n][..n - 1] == ordered[..n - 1];
    }
  }

  /** A winner among the first `to` rows wins at the cost of row `to - 1`, if the next row costs more. */
  lemma BestOfPrefixWins(ordered: seq<Solver>, to: nat, best: Solver)
    requires Ordered(ordered, CostLe) && 0 < to <= |ordered|
    requires forall k | 0 <= k < |ordered| :: Eligible(ordered[k])
    requires to < |ordered| ==> ordered[to].cost != ordered[to - 1].cost
    requires BestOf(ordered, to, best)
    ensures WinsAt(ordered, ordered[to - 1].cost, best)
  {
    var budget := ordered[to - 1].cost;
    forall k | 0 <= k < |ordered| ensures AtMost(ordered[k].cost, budget) <==> k < to {
      if k < to - 1 {
        assert CostLe(ordered[k], ordered[to - 1]);
      } else if k >= to {
        assert CostLe(ordered[to - 1], ordered[to]);
        if k > to {
          assert CostLe(ordered[to], ordered[k]);
        }
      }
    }
    var b :| 0 <= b < to && ordered[..to][b] == best;
    assert ordered[b] == best;
  }

  /** `_build_budget_frontier`: one pass over the rows in cost order with a running best row. */
  method BuildBudgetFrontier(rows: seq<Solver>) returns (frontier: seq<Entry>)
    ensures IsBudgetFrontier(rows, frontier)
  {
    var eligible := EligibleRows(rows);
    var ordered := Sort(eligible, CostLe);
    EligibleContents(rows);
    SortContents(eligible, CostLe);
    CostLeIsPreorder();
    SortOrdered(eligible, CostLe);
    assert forall k | 0 <= k < |ordered| :: ordered[k] in ordered;
    frontier := [];
    if ordered != [] {
      frontier := Sweep(ordered);
    }
    FrontierOfAll(rows, ordered, frontier);
  }

  method Sweep(ordered: seq<Solver>) returns (frontier: seq<Entry>)
    requires ordered != [] && Ordered(ordered, CostLe) && forall k | 0 <= k < |ordered| :: Eligible(ordered[k])
    ensures FrontierOfPrefix(ordered, |ordered|, frontier)
  {
    frontier := [];
    var best := ordered[0];
    var i := 0;
    while i < |ordered|
      invariant 0 <= i <= |ordered|
      invariant RunningBest(ordered, i, best)
      invariant 0 < i < |ordered| ==> ordered[i].cost != ordered[i - 1].cost
      invariant FrontierOfPrefix(ordered, i, frontier)
    {
      var to, winner, bucket := TakeBucket(ordered, i, best);
      assert BucketReady(ordered, i, to);
      CloseBucket(ordered, i, to, winner, bucket, frontier);
      frontier := frontier + [Entry(ordered[i].cost, winner, bucket)];
      i, best := to, winner;
    }
  }

  /** The running best row before row `n` is looked at. */
  ghost predicate RunningBest(ordered: seq<Solver>, n: nat, best: Solver)
    requires n <= |ordered|
  {
    if n == 0 then ordered != [] && best == ordered[0] else BestOf(ordered, n, best)
  }

  /** One group of the `groupby`: its ids, and the best row after it. */
  method TakeBucket(ordered: seq<Solver>, from: nat, best0: Solver) returns (to: nat, best: Solver, bucket: seq<string>)
    requires from < |ordered| && RunningBest(ordered, from, best0)
    requires 0 < from ==> ordered[from].cost != ordered[from - 1].cost
    ensures IsBucket(ordered, from, to) && BestOf(ordered, to, best)
    ensures bucket == seq(to - from, k requires 0 <= k < to - from => ordered[from + k].id)
  {
    to, best, bucket := from, best0, [];
    while to < |ordered| && ordered[to].cost == ordered[from].cost
      invariant from <= to <= |ordered|
      invariant forall k | from <= k < to :: ordered[k].cost == ordered[from].cost
      invariant bucket == seq(to - from, k requires 0 <= k < to - from => ordered[from + k].id)
      invariant RunningBest(ordered, to, best)
    {
      bucket := bucket + [ordered[to].id];
      best := Better(ordered, to, best);
      to := to + 1;
    }
  }

  lemma FrontierOfAll(rows: seq<Solver>, ordered: seq<Solver>, frontier: seq<Entry>)
    requires ordered == Sort(EligibleRows(rows), CostLe)
    requires FrontierOfPrefix(ordered, |ordered|, frontier)
    ensures IsBudgetFrontier(rows, frontier)
  {
    EligibleContents(rows);
    SortContents(EligibleRows(rows), CostLe);
    forall r | r in rows && Eligible(r) ensures HasBudget(frontier, r.cost) {
      assert r in ordered;
      var k :| 0 <= k < |ordered| && ordered[k] == r;
    }
    forall i | 0 <= i < |frontier| ensures IsEntry(rows, frontier[i]) {
      var e := frontier[i];
      assert PrefixEntry(ordered, |ordered|, e);
      var j :| 0 <= j < |ordered| && ordered[j].cost == e.budget;
      assert ordered[j] in ordered;
      assert WinsAt(rows, e.budget, e.best) by {
        assert forall r | r in rows && Eligible(r) :: r in ordered;
      }
    }
  }

  /** The running comparison: keep the best row unless the next one ranks strictly before it. */
  function Better(ordered: seq<Solver>, i: nat, best: Solver): (r: Solver)
    requires i < |ordered|
    requires RunningBest(ordered, i, best)
    ensures BestOf(ordered, i + 1, r)
  {
    RankLessIsStrictTotal();
    assert ordered[..i + 1] == ordered[..i] + [ordered[i]];
    if RankLess(ordered[i], best) then ordered[i] else best
  }

  /** Rows `from` to `to - 1` are the rows of one cost. */
  ghost predicate IsBucket(ordered: seq<Solver>, from: nat, to: nat) {
    && from < to <= |ordered|
    && (0 < from ==> ordered[from].cost != ordered[from - 1].cost)
    && (forall k | from <= k < to :: ordered[k].cost == ordered[from].cost)
    && (to < |ordered| ==> ordered[to].cost != ordered[from].cost)
  }

  lemma BucketBounds(ordered: seq<Solver>, from: nat, to: nat, k: nat)
    requires Ordered(ordered, CostLe) && IsBucket(ordered, from, to) && k < |ordered|
    requires forall j | 0 <= j < |ordered| :: Eligible(ordered[j])
    ensures k < from ==> Below(ordered[k].cost, ordered[from].cost)
    ensures k >= to ==> Below(ordered[from].cost, ordered[k].cost)
  {
    if k < from {
      assert CostLe(ordered[from - 1], ordered[from]);
      assert k < from - 1 ==> CostLe(ordered[k], ordered[from - 1]);
    } else if k >= to {
      assert CostLe(ordered[from], ordered[to]);
      assert k > to ==> CostLe(ordered[to], ordered[k]);
    }
  }

  ghost predicate BucketReady(ordered: seq<Solver>, from: nat, to: nat) {
    Ordered(ordered, CostLe) && IsBucket(ordered, from, to) && forall k | 0 <= k < |ordered| :: Eligible(ordered[k])
  }

  lemma BucketEntry(ordered: seq<Solver>, from: nat, to: nat, best: Solver, bucket: seq<string>)
    requires BucketReady(ordered, from, to)
    requires bucket == seq(to - from, k requires 0 <= k < to - from => ordered[from + k].id)
    requires BestOf(ordered, to, best)
    ensures PrefixEntry(ordered, to, Entry(ordered[from].cost, best, bucket))
  {
    forall k | 0 <= k < |ordered| ensures ordered[k].cost == ordered[from].cost <==> from <= k < to {
      BucketBounds(ordered, from, to, k);
    }
    IdsOfBucket(ordered, from, to);
    BestOfPrefixWins(ordered, to, best);
  }

  lemma EarlierEntry(ordered: seq<Solver>, from: nat, to: nat, e: Entry)
    requires BucketReady(ordered, from, to) && PrefixEntry(ordered, from, e)
    ensures PrefixEntry(ordered, to, e) && Below(e.budget, ordered[from].cost)
  {
    var k :| 0 <= k < from && ordered[k].cost == e.budget;
    BucketBounds(ordered, from, to, k);
  }

  lemma CloseBucket(ordered: seq<Solver>, from: nat, to: nat, best: Solver, bucket: seq<string>, frontier: seq<Entry>)
    requires BucketReady(ordered, from, to)
    requires bucket == seq(to - from, k requires 0 <= k < to - from => ordered[from + k].id)
    requires BestOf(ordered, to, best)
    requires FrontierOfPrefix(ordered, from, frontier)
    ensures FrontierOfPrefix(ordered, to, frontier + [Entry(ordered[from].cost, best, bucket)])
  {
    var e := Entry(ordered[from].cost, best, bucket);
    BucketEntry(ordered, from, to, best, bucket);
    EarlierEntries(ordered, from, to, frontier);
    BudgetsGrow(frontier, e);
    BudgetsCovered(ordered, from, to, frontier, e);
  }

  lemma EarlierEntries(ordered: seq<Solver>, from: nat, to: nat, frontier: seq<Entry>)
    requires BucketReady(ordered, from, to) && FrontierOfPrefix(ordered, from, frontier)
    ensures forall i | 0 <= i < |frontier| ::
        PrefixEntry(ordered, to, frontier[i]) && Below(frontier[i].budget, ordered[from].cost)
  {
    forall i | 0 <= i < |frontier|
      ensures PrefixEntry(ordered, to, frontier[i]) && Below(frontier[i].budget, ordered[from].cost)
    {
      EarlierEntry(ordered, from, to, frontier[i]);
    }
  }

  lemma BudgetsGrow(frontier: seq<Entry>, e: Entry)
    requires BudgetsIncrease(frontier) && forall i | 0 <= i < |frontier| :: Below(frontier[i].budget, e.budget)
    ensures BudgetsIncrease(frontier + [e])
  {
    var all := frontier + [e];
    assert all[|frontier|] == e && forall i | 0 <= i < |frontier| :: all[i] == frontier[i];
  }

  lemma BudgetsCovered(ordered: seq<Solver>, from: nat, to: nat, frontier: seq<Entry>, e: Entry)
    requires BucketReady(ordered, from, to) && FrontierOfPrefix(ordered, from, frontier)
    requires e.budget == ordered[from].cost
    ensures forall k | 0 <= k < to :: HasBudget(frontier + [e], ordered[k].cost)
  {
    forall k | 0 <= k < to ensures HasBudget(frontier + [e], ordered[k].cost) {
      assert k < from ==> HasBudget(frontier, ordered[k].cost);
      BudgetAdded(frontier, e, ordered[k].cost);
    }
  }

  lemma BudgetAdded(frontier: seq<Entry>, e: Entry, budget: Metric)
    ensures HasBudget(frontier, budget) || budget == e.budget ==> HasBudget(frontier + [e], budget)
  {
    var all := frontier + [e];
    assert all[|frontier|] == e;
    if HasBudget(frontier, budget) {
      var i :| 0 <= i < |frontier| && frontier[i].budget == budget;
      assert all[i] == frontier[i];
    }
  }

  // ---------- what the budget frontier is good for ----------

  lemma HigherBudget(rows: seq<Solver>, low: Metric, best: Solver, high: Metric, better: Solver)
    requires WinsAt(rows, low, best) && WinsAt(rows, high, better) && Below(low, high)
    ensures best.rate <= better.rate
  {
    assert AtMost(best.cost, high);
  }

  /** A bigger budget never buys a lower winning resolution rate. */
  lemma RateNeverFalls(rows: seq<Solver>, frontier: seq<Entry>, i: nat, j: nat)
    requires IsBudgetFrontier(rows, frontier) && i < j < |frontier|
    ensures frontier[i].best.rate <= frontier[j].best.rate
  {
    assert IsEntry(rows, frontier[i]) && IsEntry(rows, frontier[j]);
    assert Below(frontier[i].budget, frontier[j].budget);
    HigherBudget(rows, frontier[i].budget, frontier[i].best, frontier[j].budget, frontier[j].best);
  }

  /** The winners do not depend on the order in which the rows are listed: two listings of the same rows have
      the same budgets with the same winners. */
  lemma WinnersAreDetermined(rows1: seq<Solver>, f1: seq<Entry>, rows2: seq<Solver>, f2: seq<Entry>, i: nat, j: nat)
    requires forall r :: r in rows1 <==> r in rows2
    requires IsBudgetFrontier(rows1, f1) && IsBudgetFrontier(rows2, f2)
    requires i < |f1|
    ensures HasBudget(f2, f1[i].budget)
    ensures j < |f2| && f2[j].budget == f1[i].budget ==> f2[j].best == f1[i].best
  {
    assert IsEntry(rows1, f1[i]);
    var r :| r in rows1 && Eligible(r) && r.cost == f1[i].budget;
    assert r in rows2;
    if j < |f2| && f2[j].budget == f1[i].budget {
      assert IsEntry(rows2, f2[j]);
      NoTie(f1[i].best, f2[j].best);
    }
  }

  lemma NoTie(a: Solver, b: Solver)
    ensures !(RankLess(a, b) && RankLess(b, a))
  {
    RankLessIsStrictTotal();
    assert RankLess(a, b) && RankLess(b, a) ==> RankLess(a, a);
  }

  /** Only a row that resolved strictly fewer instances can dominate a winner. */
  lemma WinnerDominators(rows: seq<Solver>, budget: Metric, best: Solver, other: Solver)
    requires WinsAt(rows, budget, best) && other in rows && Dominates(other, best)
    ensures other.resolved < best.resolved
  {
    NoTie(best, other);
    assert other.resolved >= best.resolved ==> RankLess(other, best);
    assert other.resolved >= best.resolved ==> Eligible(other) && AtMost(other.cost, budget);
  }

  /** At the winner's own rate, from fewer instances: no dearer, no slower, and one of the two strictly better. */
  predicate Undercuts(r: Solver, best: Solver) {
    && r.rate == best.rate && r.resolved < best.resolved
    && AtMost(r.cost, best.cost) && AtMost(r.latency, best.latency)
    && (Below(r.cost, best.cost) || Below(r.latency, best.latency))
  }

  /** A row without a resolved instance has no cost per issue; this is all that is needed of it. */
  predicate NothingForFree(r: Solver, best: Solver) {
    r.resolved > 0 || r.cost.Infinite? || r.rate <= best.rate
  }

  lemma DominatorUndercuts(rows: seq<Solver>, budget: Metric, best: Solver, other: Solver)
    requires WinsAt(rows, budget, best) && other in rows && NothingForFree(other, best)
    ensures Dominates(other, best) <==> Undercuts(other, best)
  {
    if Dominates(other, best) {
      WinnerDominators(rows, budget, best, other);
      NoTie(best, other);
      assert other.rate > best.rate ==> RankLess(other, best);
      assert other.rate > best.rate ==> Eligible(other) && AtMost(other.cost, budget);
    }
  }

  /** The exact condition for a winner to be on the Pareto frontier: no row undercuts it. */
  lemma WinnerIsParetoIff(rows: seq<Solver>, budget: Metric, best: Solver)
    requires WinsAt(rows, budget, best) && forall r | r in rows :: NothingForFree(r, best)
    ensures best in Pareto(rows) <==> forall r | r in rows :: !Undercuts(r, best)
  {
    InPareto(rows, best);
    forall i | 0 <= i < |rows| ensures Dominates(rows[i], best) <==> Undercuts(rows[i], best) {
      assert rows[i] in rows;
      DominatorUndercuts(rows, budget, best, rows[i]);
    }
    if r :| r in rows && Undercuts(r, best) {
      var i :| 0 <= i < |rows| && rows[i] == r;
      assert Dominates(rows[i], best);
    }
  }

  /** The resolution rate is the resolved count over this many instances. */
  ghost predicate RateOver(r: Solver, instances: nat) {
    r.rate * instances as real == r.resolved as real
  }

  /** When all solvers were run on the same number of instances, nothing undercuts a winner: every winner is on the
      Pareto frontier. */
  lemma WinnersArePareto(rows: seq<Solver>, frontier: seq<Entry>, instances: nat, i: nat)
    requires IsBudgetFrontier(rows, frontier) && i < |frontier|
    requires forall r | r in rows :: RateOver(r, instances)
    ensures frontier[i].best in Pareto(rows)
  {
    var best := frontier[i].best;
    assert IsEntry(rows, frontier[i]);
    forall r | r in rows ensures NothingForFree(r, best) && !Undercuts(r, best) {
      RatesCompare(best, r, instances);
    }
    WinnerIsParetoIff(rows, frontier[i].budget, best);
  }

  lemma RatesCompare(best: Solver, r: Solver, instances: nat)
    requires RateOver(best, instances) && RateOver(r, instances)
    ensures r.rate == best.rate ==> r.resolved == best.resolved
    ensures r.resolved == 0 && best.resolved > 0 ==> r.rate <= best.rate
  {
    var n, gap := instances as real, r.rate - best.rate;
    assert gap * n == r.rate * n - best.rate * n;
    assert gap >= 0.0 ==> gap * n >= 0.0;
  }

  /** With differing instance counts a winner can be dominated: 10 of 20 at cost 5 outranks 1 of 2 at cost 1. */
  lemma WinnerCanBeDominated() returns (rows: seq<Solver>, budget: Metric, best: Solver)
    ensures WinsAt(rows, budget, best) && best !in Pareto(rows)
    ensures forall r | r in rows :: NothingForFree(r, best)
  {
    best := Solver("a", 0.5, 10, Finite(5.0), Finite(1.0), 50.0);
    var small := Solver("b", 0.5, 1, Finite(1.0), Finite(1.0), 1.0);
    rows, budget := [best, small], best.cost;
    InPareto(rows, best);
    assert Dominates(rows[1], best);
  }
}
