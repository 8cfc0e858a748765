/** The cost floor in terms of the attempts (`_build_cost_opportunity_report` in repogauge/runner/analyze.py). */
module CostMeaning {
  import opened Wrappers
  import opened Text
  import opened CostFloor

  /** A resolved attempt of a named solver on the instance, at a positive price. */
  ghost predicate Success(rows: seq<Attempt>, id: string, r: Attempt) {
    r in rows && r.resolved && r.instance == id && id != "" && r.solver != "" && r.cost.Some? && r.cost.value > 0.0
  }

  /** Cheapest first; at equal cost the faster, then the smaller solver id. */
  predicate NoBetter(r: Attempt, best: Attempt)
    requires r.cost.Some? && best.cost.Some?
  {
    && best.cost.value <= r.cost.value
    && (best.cost.value == r.cost.value ==> best.duration <= r.duration)
    && (best.cost.value == r.cost.value && best.duration == r.duration ==> !Less(r.solver, best.solver))
  }

  /** An instance has a cheapest success iff it has a success, and then it is one that no success betters. */
  lemma CheapestMeans(rows: seq<Attempt>, cheapest: map<string, Attempt>, id: string)
    requires IsCheapest(rows, cheapest)
    ensures id in cheapest <==> exists r :: Success(rows, id, r)
    ensures id in cheapest ==>
      && Success(rows, id, cheapest[id])
      && forall r | Success(rows, id, r) :: NoBetter(r, cheapest[id])
  {
    if id in cheapest {
      assert Success(rows, id, cheapest[id]);
      forall r | Success(rows, id, r) ensures NoBetter(r, cheapest[id]) {
        assert !OfferLess(r, cheapest[id]);
      }
    }
  }

  /** The avoidable spend is the share of the spend. */
  ghost predicate ShareOfSpend(row: SolverRow) {
    row.share * row.spend == row.avoidable
  }

  lemma MakeRowMeans(solver: string, spend: real, compatible: real)
    requires 0.0 <= spend && compatible <= spend && (spend == 0.0 ==> compatible == 0.0)
    ensures var row := MakeRow(solver, spend, compatible);
      row.avoidable == spend - compatible && ShareOfSpend(row)
  {
  }

  /** A solver's row: what it paid for its own cheapest successes, what the cheapest successes of anyone on the same
      instances cost, and the difference, also as a share of the former. */
  lemma SolverRowMeans(rows: seq<Attempt>, cheapest: map<string, Attempt>, own: map<string, Attempt>, row: SolverRow)
    requires FiguresFor(rows, cheapest, own, row)
    ensures row.spend == Sum(own.Keys, own) && row.compatible == Sum(own.Keys, cheapest)
    ensures row.avoidable == row.spend - row.compatible && ShareOfSpend(row)
  {
    OwnWithin(rows, cheapest, row.solver, own);
    SumMonotone(own.Keys, cheapest, own);
    SumMonotone(own.Keys, own, own);
    MakeRowMeans(row.solver, Sum(own.Keys, own), Sum(own.Keys, cheapest));
  }

  /** A solver's own successes are just its attempts among all. */
  lemma OwnSuccesses(rows: seq<Attempt>, solver: string, id: string, r: Attempt)
    ensures Success(OfSolver(rows, solver), id, r) <==> Success(rows, id, r) && r.solver == solver
  {
    OfSolverContents(rows, solver);
  }

  /** A solver is reported iff it is listed and has a success. */
  lemma {:induction false} ReportedIff(rows: seq<Attempt>, solvers: seq<string>, solver: string)
    ensures solver in Reported(rows, solvers)
            <==> solver in solvers && exists id, r :: Success(rows, id, r) && r.solver == solver
  {
    if solvers != [] {
      ReportedIff(rows, solvers[..|solvers| - 1], solver);
      assert solvers == solvers[..|solvers| - 1] + [solvers[|solvers| - 1]];
      if r :| r in rows && Priced(r) && r.solver == solver {
        assert Success(rows, r.instance, r);
      }
      if id, r :| Success(rows, id, r) && r.solver == solver {
        assert Priced(r);
      }
    }
  }
}
