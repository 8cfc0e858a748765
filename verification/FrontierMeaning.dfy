/** The frontiers in terms of the figures of the rows (repogauge/runner/analyze.py): who is on the Pareto frontier and
    in which order, who wins at a budget, and which solvers an entry lists. */
module FrontierMeaning {
  import opened Text
  import opened Sorting
  import opened Frontier

  /** `a <= b` of figures, where a missing one is infinite. */
  predicate NoMore(a: Metric, b: Metric) {
    b.Infinite? || (a.Finite? && a.value <= b.value)
  }

  /** A row is on the Pareto frontier iff it is listed and every row that is at least as good in rate, cost and latency
      has the very same three figures. */
  lemma ParetoMeans(rows: seq<Solver>, f: Solver)
    ensures f in Pareto(rows) <==>
      && f in rows
      && forall r | r in rows && r.rate >= f.rate && NoMore(r.cost, f.cost) && NoMore(r.latency, f.latency) ::
           r.rate == f.rate && r.cost == f.cost && r.latency == f.latency
  {
    InPareto(rows, f);
    forall i | 0 <= i < |rows|
      ensures Dominates(rows[i], f) <==>
        && rows[i].rate >= f.rate && NoMore(rows[i].cost, f.cost) && NoMore(rows[i].latency, f.latency)
        && !(rows[i].rate == f.rate && rows[i].cost == f.cost && rows[i].latency == f.latency)
    {
    }
    if Dominated(f, rows) {
      var i :| 0 <= i < |rows| && Dominates(rows[i], f);
      assert rows[i] in rows;
    }
  }

  /** Cheapest first; at equal cost the better rate, then the lower latency, then the smaller id. */
  predicate InCostOrder(a: Solver, b: Solver) {
    && NoMore(a.cost, b.cost)
    && (a.cost == b.cost ==> a.rate >= b.rate)
    && (a.cost == b.cost && a.rate == b.rate ==> NoMore(a.latency, b.latency))
    && (a.cost == b.cost && a.rate == b.rate && a.latency == b.latency ==> !Less(b.id, a.id))
  }

  lemma ParetoOrder(rows: seq<Solver>, i: nat, j: nat)
    requires i < j < |Pareto(rows)|
    ensures InCostOrder(Pareto(rows)[i], Pareto(rows)[j])
  {
    ParetoIsExact(rows);
    assert CostLe(Pareto(rows)[i], Pareto(rows)[j]);
  }

  /** Resolved something at a known cost per issue that is within the budget. */
  predicate Affordable(r: Solver, budget: Metric) {
    r.cost.Finite? && r.resolved > 0 && NoMore(r.cost, budget)
  }

  /** The winner ranks first by rate, then resolved instances, cost, latency, total cost and id. */
  predicate RanksFirst(best: Solver, r: Solver) {
    && best.rate >= r.rate
    && (best.rate == r.rate ==> best.resolved >= r.resolved)
    && (best.rate == r.rate && best.resolved == r.resolved ==> NoMore(best.cost, r.cost))
    && (best.rate == r.rate && best.resolved == r.resolved && best.cost == r.cost ==> NoMore(best.latency, r.latency))
    && (best.rate == r.rate && best.resolved == r.resolved && best.cost == r.cost && best.latency == r.latency ==>
          best.total <= r.total && (best.total == r.total ==> !Less(r.id, best.id)))
  }

  lemma WinnerMeans(rows: seq<Solver>, frontier: seq<Entry>, i: nat)
    requires IsBudgetFrontier(rows, frontier) && i < |frontier|
    ensures var e := frontier[i];
      && e.best in rows && Affordable(e.best, e.budget)
      && forall r | r in rows && Affordable(r, e.budget) :: RanksFirst(e.best, r)
  {
    var e := frontier[i];
    assert IsEntry(rows, e);
    forall r | r in rows && Affordable(r, e.budget) ensures RanksFirst(e.best, r) {
      LessTotal(r.id, e.best.id);
      LessTotal(r.id, r.id);
      assert r != e.best ==> RankLess(e.best, r);
    }
  }

  lemma {:induction false} IdsAtCostContents(ordered: seq<Solver>, cost: Metric, id: string)
    ensures id in IdsAtCost(ordered, cost) <==> exists r :: r in ordered && r.cost == cost && r.id == id
  {
    if ordered != [] {
      IdsAtCostContents(ordered[..|ordered| - 1], cost, id);
      assert ordered == ordered[..|ordered| - 1] + [ordered[|ordered| - 1]];
    }
  }

  /** The budgets are exactly the costs of rows that resolved something at a known cost, and an entry lists exactly the
      solvers with such a row at exactly its budget. */
  lemma BudgetMeans(rows: seq<Solver>, frontier: seq<Entry>, budget: Metric, id: string)
    requires IsBudgetFrontier(rows, frontier)
    ensures (exists i :: 0 <= i < |frontier| && frontier[i].budget == budget)
            <==> exists r :: r in rows && r.cost.Finite? && r.resolved > 0 && r.cost == budget
    ensures forall i | 0 <= i < |frontier| && frontier[i].budget == budget :: id in frontier[i].affordable
              <==> exists r :: r in rows && r.cost.Finite? && r.resolved > 0 && r.cost == budget && r.id == id
  {
    EligibleContents(rows);
    SortContents(EligibleRows(rows), CostLe);
    IdsAtCostContents(Sort(EligibleRows(rows), CostLe), budget, id);
    assert forall i | 0 <= i < |frontier| :: IsEntry(rows, frontier[i]);
    if r :| r in rows && r.cost.Finite? && r.resolved > 0 && r.cost == budget {
      assert HasBudget(frontier, r.cost);
    }
  }
}
