/** The cost-opportunity report (`_build_cost_opportunity_report` in repogauge/runner/analyze.py), in exact reals:
    the cheapest success per instance, the portfolio cost floor, and each solver's avoidable spend. */
module CostFloor {
  import opened Wrappers
  import opened Text

  /** One joined attempt; `cost` is what `attempt_cost_usd` holds when it is a number. */
  datatype Attempt = Attempt(instance: string, solver: string, resolved: bool, cost: Option<real>, duration: nat)

  /** A success with a usable price. */
  predicate Priced(a: Attempt) {
    a.resolved && a.instance != "" && a.solver != "" && a.cost.Some? && a.cost.value > 0.0
  }

  /** The (cost, duration, solver) comparison of two offers. */
  predicate OfferLess(a: Attempt, b: Attempt)
    requires Priced(a) && Priced(b)
  {
    || a.cost.value < b.cost.value
    || (a.cost.value == b.cost.value &&
        (a.duration < b.duration || (a.duration == b.duration && Less(a.solver, b.solver))))
  }

  function OfSolver(rows: seq<Attempt>, solver: string): seq<Attempt> {
    if rows == [] then []
    else
      var before := OfSolver(rows[..|rows| - 1], solver);
      if rows[|rows| - 1].solver == solver then before + [rows[|rows| - 1]] else before
  }

  /** `m` holds, for every instance with a priced success, one that no other priced success undercuts. */
  ghost predicate IsCheapest(rows: seq<Attempt>, m: map<string, Attempt>) {
    && (forall r | r in rows && Priced(r) :: r.instance in m)
    && (forall id | id in m :: m[id] in rows && Priced(m[id]) && m[id].instance == id)
    && (forall id, r | id in m && r in rows && Priced(r) && r.instance == id :: !OfferLess(r, m[id]))
  }

  function Offer(m: map<string, Attempt>, r: Attempt): map<string, Attempt>
    requires forall id | id in m :: Priced(m[id])
  {
    if Priced(r) && (r.instance !in m || OfferLess(r, m[r.instance])) then m[r.instance := r] else m
  }

  lemma OfferKeepsCheapest(rows: seq<Attempt>, m: map<string, Attempt>, r: Attempt)
    requires IsCheapest(rows, m)
    ensures IsCheapest(rows + [r], Offer(m, r))
  {
    var m' := Offer(m, r);
    forall id, x | id in m' && x in rows + [r] && Priced(x) && x.instance == id ensures !OfferLess(x, m'[id]) {
      LessTotal(x.solver, x.solver);
      LessTotal(x.solver, m'[id].solver);
      if id in m && m'[id] == r && x in rows && r != m[id] {
        LessTotal(x.solver, r.solver);
        LessTotal(m[id].solver, r.solver);
        if Less(x.solver, r.solver) && Less(r.solver, m[id].solver) {
          LessTransitive(x.solver, r.solver, m[id].solver);
        }
      }
    }
  }

  lemma OwnTableStep(rows: seq<Attempt>, own: map<string, map<string, Attempt>>, row: Attempt)
    requires OwnTable(rows, own)
    ensures IsCheapest(OfSolver(rows, row.solver), Get(own, row.solver))
    ensures OwnTable(rows + [row], own[row.solver := Offer(Get(own, row.solver), row)])
  {
    assert (rows + [row])[..|rows|] == rows;
    assert IsCheapest(OfSolver(rows, row.solver), Get(own, row.solver));
    OfferKeepsCheapest(OfSolver(rows, row.solver), Get(own, row.solver), row);
    var next := own[row.solver := Offer(Get(own, row.solver), row)];
    forall solver: string ensures IsCheapest(OfSolver(rows + [row], solver), Get(next, solver)) {
      assert IsCheapest(OfSolver(rows, solver), Get(own, solver));
    }
  }

  /** The loop over the joined rows: cheapest success per instance, and per (solver, instance). */
  method CollectOffers(rows: seq<Attempt>)
    returns (cheapest: map<string, Attempt>, own: map<string, map<string, Attempt>>)
    ensures IsCheapest(rows, cheapest)
    ensures OwnTable(rows, own)
  {
    cheapest, own := map[], map[];
    for i := 0 to |rows|
      invariant IsCheapest(rows[..i], cheapest)
      invariant OwnTable(rows[..i], own)
    {
      var row := rows[i];
      assert rows[..i + 1] == rows[..i] + [row];
      OfferKeepsCheapest(rows[..i], cheapest, row);
      OwnTableStep(rows[..i], own, row);
      cheapest := Offer(cheapest, row);
      own := own[row.solver := Offer(Get(own, row.solver), row)];
    }
    assert rows[..|rows|] == rows;
  }

  /** Each solver's own cheapest successes. */
  ghost predicate OwnTable(rows: seq<Attempt>, own: map<string, map<string, Attempt>>) {
    forall solver: string {:trigger Get(own, solver)} :: IsCheapest(OfSolver(rows, solver), Get(own, solver))
  }

  function Get(own: map<string, map<string, Attempt>>, solver: string): map<string, Attempt> {
    if solver in own then own[solver] else map[]
  }

  // ---------- sums over dictionaries ----------

  ghost function Sum(keys: set<string>, m: map<string, Attempt>): real
    requires forall k | k in keys :: k in m && Priced(m[k])
  {
    if keys == {} then 0.0
    else
      var k :| k in keys;
      assert Priced(m[k]);
      m[k].cost.value + Sum(keys - {k}, m)
  }

  /** The sum does not depend on the order in which the values are added. */
  lemma {:induction false} SumPick(keys: set<string>, m: map<string, Attempt>, k: string)
    requires k in keys && forall k | k in keys :: k in m && Priced(m[k])
    ensures Sum(keys, m) == m[k].cost.value + Sum(keys - {k}, m)
  {
    var x :| x in keys && Sum(keys, m) == m[x].cost.value + Sum(keys - {x}, m);
    if x != k {
      SumPick(keys - {x}, m, k);
      SumPick(keys - {k}, m, x);
      assert keys - {x} - {k} == keys - {k} - {x};
    }
  }

  lemma {:induction false} SumMonotone(keys: set<string>, a: map<string, Attempt>, b: map<string, Attempt>)
    requires forall k | k in keys ::
        k in a && Priced(a[k]) && k in b && Priced(b[k]) && a[k].cost.value <= b[k].cost.value
    ensures Sum(keys, a) <= Sum(keys, b)
    ensures keys != {} ==> Sum(keys, a) > 0.0
    ensures keys == {} ==> Sum(keys, a) == 0.0
  {
    if keys != {} {
      var k :| k in keys;
      SumPick(keys, a, k);
      SumPick(keys, b, k);
      SumMonotone(keys - {k}, a, b);
    }
  }

  lemma {:induction false} SumSubset(small: set<string>, big: set<string>, m: map<string, Attempt>)
    requires small <= big && forall k | k in big :: k in m && Priced(m[k])
    ensures Sum(small, m) <= Sum(big, m)
  {
    if small == {} {
      SumMonotone(big, m, m);
    } else {
      var k :| k in small;
      SumPick(small, m, k);
      SumPick(big, m, k);
      SumSubset(small - {k}, big - {k}, m);
    }
  }

  method AddUp(keys: set<string>, m: map<string, Attempt>) returns (total: real)
    requires forall k | k in keys :: k in m && Priced(m[k])
    ensures total == Sum(keys, m)
  {
    total := 0.0;
    var rest := keys;
    while rest != {}
      invariant rest <= keys && total + Sum(rest, m) == Sum(keys, m)
      decreases rest
    {
      var k :| k in rest;
      SumPick(rest, m, k);
      total := total + m[k].cost.value;
      rest := rest - {k};
    }
  }

  // ---------- the report ----------

  datatype SolverRow = SolverRow(solver: string, spend: real, compatible: real, avoidable: real, share: real)

  function Max(a: real, b: real): real {
    if a >= b then a else b
  }

  /** A report row computed from the cheapest successes overall and from the solver's own. */
  ghost predicate Figures(rows: seq<Attempt>, cheapest: map<string, Attempt>, row: SolverRow) {
    exists own :: FiguresFor(rows, cheapest, own, row)
  }

  ghost predicate FiguresFor(rows: seq<Attempt>, cheapest: map<string, Attempt>, own: map<string, Attempt>,
                             row: SolverRow) {
    && IsCheapest(rows, cheapest) && IsCheapest(OfSolver(rows, row.solver), own)
    && own.Keys <= cheapest.Keys
    && row == MakeRow(row.solver, Sum(own.Keys, own), Sum(own.Keys, cheapest))
  }

  function MakeRow(solver: string, spend: real, compatible: real): SolverRow {
    var avoidable := Max(0.0, spend - compatible);
    SolverRow(solver, spend, compatible, avoidable, if spend > 0.0 then avoidable / spend else 0.0)
  }

  lemma {:induction false} OfSolverContents(rows: seq<Attempt>, solver: string)
    ensures forall r :: r in OfSolver(rows, solver) <==> r in rows && r.solver == solver
  {
    if rows != [] {
      OfSolverContents(rows[..|rows| - 1], solver);
      assert rows == rows[..|rows| - 1] + [rows[|rows| - 1]];
    }
  }

  lemma OwnWithin(rows: seq<Attempt>, cheapest: map<string, Attempt>, solver: string, own: map<string, Attempt>)
    requires IsCheapest(rows, cheapest) && IsCheapest(OfSolver(rows, solver), own)
    ensures own.Keys <= cheapest.Keys
    ensures forall id | id in own :: cheapest[id].cost.value <= own[id].cost.value
  {
    OfSolverContents(rows, solver);
    forall id | id in own ensures id in cheapest && cheapest[id].cost.value <= own[id].cost.value {
      assert own[id] in rows && own[id].instance in cheapest;
      assert !OfferLess(own[id], cheapest[id]);
    }
  }

  method SolverFigures(ghost rows: seq<Attempt>, cheapest: map<string, Attempt>, solver: string,
                       own: map<string, Attempt>)
    returns (row: SolverRow)
    requires IsCheapest(rows, cheapest) && IsCheapest(OfSolver(rows, solver), own)
    ensures FiguresFor(rows, cheapest, own, row) && row.solver == solver
  {
    OwnWithin(rows, cheapest, solver, own);
    var spend := AddUp(own.Keys, own);
    var compatible := AddUp(own.Keys, cheapest);
    row := MakeRow(solver, spend, compatible);
  }

  /** The solvers with at least one priced success, in the order listed. */
  ghost function Reported(rows: seq<Attempt>, solvers: seq<string>): seq<string> {
    if solvers == [] then []
    else
      var before := Reported(rows, solvers[..|solvers| - 1]);
      if HasPriced(rows, solvers[|solvers| - 1]) then before + [solvers[|solvers| - 1]] else before
  }

  ghost predicate IsReport(rows: seq<Attempt>, cheapest: map<string, Attempt>, names: seq<string>,
                           report: seq<SolverRow>) {
    && |report| == |names|
    && forall i | 0 <= i < |report| :: report[i].solver == names[i] && Figures(rows, cheapest, report[i])
  }

  /** The report: the floor, and one row for every listed solver with at least one priced success. */
  method BuildReport(rows: seq<Attempt>, solvers: seq<string>)
    returns (cheapest: map<string, Attempt>, floor: real, report: seq<SolverRow>)
    ensures IsCheapest(rows, cheapest) && floor == Sum(cheapest.Keys, cheapest)
    ensures IsReport(rows, cheapest, Reported(rows, solvers), report)
  {
    var own;
    cheapest, own := CollectOffers(rows);
    report := ReportRows(rows, cheapest, own, solvers);
    floor := AddUp(cheapest.Keys, cheapest);
  }

  method ReportRows(ghost rows: seq<Attempt>, cheapest: map<string, Attempt>, own: map<string, map<string, Attempt>>,
                    solvers: seq<string>) returns (report: seq<SolverRow>)
    requires IsCheapest(rows, cheapest) && OwnTable(rows, own)
    ensures IsReport(rows, cheapest, Reported(rows, solvers), report)
  {
    report := [];
    for n := 0 to |solvers|
      invariant IsReport(rows, cheapest, Reported(rows, solvers[..n]), report)
    {
      assert solvers[..n + 1][..n] == solvers[..n];
      var offers := Get(own, solvers[n]);
      HasPricedIff(rows, solvers[n], offers);
      if offers != map[] {
        var row := SolverFigures(rows, cheapest, solvers[n], offers);
        report := report + [row];
      }
    }
    assert solvers[..|solvers|] == solvers;
  }

  ghost predicate HasPriced(rows: seq<Attempt>, solver: string) {
    exists r :: r in rows && Priced(r) && r.solver == solver
  }

  lemma HasPricedIff(rows: seq<Attempt>, solver: string, own: map<string, Attempt>)
    requires IsCheapest(OfSolver(rows, solver), own)
    ensures HasPriced(rows, solver) <==> own != map[]
  {
    OfSolverContents(rows, solver);
    if own != map[] {
      var id :| id in own;
      assert own[id] in rows;
    }
  }

  // ---------- main results ----------

  /** One priced success chosen for every solved instance. */
  ghost predicate IsPick(rows: seq<Attempt>, pick: map<string, Attempt>) {
    && (forall r | r in rows && Priced(r) :: r.instance in pick)
    && (forall id | id in pick :: pick[id] in rows && Priced(pick[id]) && pick[id].instance == id)
  }

  /** The floor is the least total over all ways of picking one priced success per solved instance, and it is
      the total of such a pick. */
  lemma FloorIsLeast(rows: seq<Attempt>, cheapest: map<string, Attempt>, pick: map<string, Attempt>)
    requires IsCheapest(rows, cheapest) && IsPick(rows, pick)
    ensures IsPick(rows, cheapest)
    ensures pick.Keys == cheapest.Keys && Sum(cheapest.Keys, cheapest) <= Sum(pick.Keys, pick)
  {
    PicksSolved(rows, cheapest, pick);
    SumMonotone(cheapest.Keys, cheapest, pick);
  }

  lemma PicksSolved(rows: seq<Attempt>, cheapest: map<string, Attempt>, pick: map<string, Attempt>)
    requires IsCheapest(rows, cheapest) && IsPick(rows, pick)
    ensures pick.Keys == cheapest.Keys
    ensures forall id | id in cheapest :: cheapest[id].cost.value <= pick[id].cost.value
  {
    assert forall id | id in pick :: pick[id].instance in cheapest;
    assert forall id | id in cheapest :: cheapest[id].instance in pick;
    assert forall id | id in pick :: !OfferLess(pick[id], cheapest[id]);
  }

  /** For each solver, the cheapest-compatible spend is at most its own spend and at most the floor; so the clamp
      at zero never acts, and the avoidable share lies in [0, 1). */
  lemma SpendBounds(rows: seq<Attempt>, cheapest: map<string, Attempt>, row: SolverRow)
    requires Figures(rows, cheapest, row)
    ensures row.compatible <= row.spend && row.compatible <= Sum(cheapest.Keys, cheapest)
    ensures row.avoidable == row.spend - row.compatible
    ensures 0.0 <= row.share < 1.0
  {
    var own :| FiguresFor(rows, cheapest, own, row);
    OwnWithin(rows, cheapest, row.solver, own);
    SumMonotone(own.Keys, cheapest, own);
    SumSubset(own.Keys, cheapest.Keys, cheapest);
    SumMonotone(own.Keys, own, own);
    if row.spend > 0.0 {
      assert 0.0 <= row.avoidable < row.spend;
      QuotientBelowOne(row.avoidable, row.spend);
    }
  }

  lemma QuotientBelowOne(a: real, b: real)
    requires 0.0 <= a < b
    ensures 0.0 <= a / b < 1.0
  {
    var q := a / b;
    assert q * b == a;
    assert q < 0.0 ==> q * b < 0.0;
    assert q >= 1.0 ==> (q - 1.0) * b >= 0.0;
  }

  /** The figures do not depend on the order of the rows: any two listings of the same attempts give every
      solver the same spend, compatible spend and share, and the same floor. */
  lemma OrderIrrelevant(rows1: seq<Attempt>, c1: map<string, Attempt>, row1: SolverRow,
                        rows2: seq<Attempt>, c2: map<string, Attempt>, row2: SolverRow)
    requires forall r :: r in rows1 <==> r in rows2
    requires Figures(rows1, c1, row1) && Figures(rows2, c2, row2) && row1.solver == row2.solver
    ensures row1 == row2 && Sum(c1.Keys, c1) == Sum(c2.Keys, c2)
  {
    var own1 :| FiguresFor(rows1, c1, own1, row1);
    var own2 :| FiguresFor(rows2, c2, own2, row2);
    SameSums(rows1, c1, own1, rows2, c2, own2, row1.solver);
    SameFloor(rows1, c1, rows2, c2);
  }

  lemma SameSums(rows1: seq<Attempt>, c1: map<string, Attempt>, own1: map<string, Attempt>,
                 rows2: seq<Attempt>, c2: map<string, Attempt>, own2: map<string, Attempt>, solver: string)
    requires forall r :: r in rows1 <==> r in rows2
    requires IsCheapest(rows1, c1) && IsCheapest(OfSolver(rows1, solver), own1) && own1.Keys <= c1.Keys
    requires IsCheapest(rows2, c2) && IsCheapest(OfSolver(rows2, solver), own2)
    ensures own1.Keys == own2.Keys <= c2.Keys
    ensures Sum(own1.Keys, own1) == Sum(own2.Keys, own2) && Sum(own1.Keys, c1) == Sum(own2.Keys, c2)
  {
    SameOwnCosts(rows1, own1, rows2, own2, solver);
    CompatibleSum(rows1, c1, rows2, c2, own1.Keys);
  }

  lemma SameOwnCosts(rows1: seq<Attempt>, own1: map<string, Attempt>, rows2: seq<Attempt>,
                     own2: map<string, Attempt>, solver: string)
    requires forall r :: r in rows1 <==> r in rows2
    requires IsCheapest(OfSolver(rows1, solver), own1) && IsCheapest(OfSolver(rows2, solver), own2)
    ensures own1.Keys == own2.Keys && Sum(own1.Keys, own1) == Sum(own2.Keys, own2)
  {
    OfSolverContents(rows1, solver);
    OfSolverContents(rows2, solver);
    SameFloor(OfSolver(rows1, solver), own1, OfSolver(rows2, solver), own2);
  }

  lemma CompatibleSum(rows1: seq<Attempt>, c1: map<string, Attempt>, rows2: seq<Attempt>, c2: map<string, Attempt>,
                      keys: set<string>)
    requires forall r :: r in rows1 <==> r in rows2
    requires IsCheapest(rows1, c1) && IsCheapest(rows2, c2) && keys <= c1.Keys
    ensures keys <= c2.Keys && Sum(keys, c1) == Sum(keys, c2)
  {
    SameCosts(rows1, c1, rows2, c2);
    SameSum(keys, c1, c2);
  }

  lemma SameFloor(rows1: seq<Attempt>, c1: map<string, Attempt>, rows2: seq<Attempt>, c2: map<string, Attempt>)
    requires forall r :: r in rows1 <==> r in rows2
    requires IsCheapest(rows1, c1) && IsCheapest(rows2, c2)
    ensures c1.Keys == c2.Keys && Sum(c1.Keys, c1) == Sum(c2.Keys, c2)
  {
    SameCosts(rows1, c1, rows2, c2);
    SameSum(c1.Keys, c1, c2);
  }

  lemma SameSum(keys: set<string>, a: map<string, Attempt>, b: map<string, Attempt>)
    requires forall k | k in keys :: k in a && Priced(a[k]) && k in b && Priced(b[k]) && a[k].cost == b[k].cost
    ensures Sum(keys, a) == Sum(keys, b)
  {
    SumMonotone(keys, a, b);
    SumMonotone(keys, b, a);
  }

  lemma SameCosts(rows1: seq<Attempt>, m1: map<string, Attempt>, rows2: seq<Attempt>, m2: map<string, Attempt>)
    requires forall r :: r in rows1 <==> r in rows2
    requires IsCheapest(rows1, m1) && IsCheapest(rows2, m2)
    ensures m1.Keys == m2.Keys
    ensures forall id | id in m1 :: m1[id].cost == m2[id].cost
  {
    assert forall id | id in m1 :: m1[id].instance in m2;
    assert forall id | id in m2 :: m2[id].instance in m1;
    forall id | id in m1 ensures m1[id].cost == m2[id].cost {
      assert !OfferLess(m1[id], m2[id]) && !OfferLess(m2[id], m1[id]);
    }
  }
}
