/** The metrics of one group of attempts (`_percentile` and the loop body of `summarize_attempt_metrics` in
    repogauge/runner/analyze.py), in exact reals. */
module Metrics {
  import opened Wrappers
  import opened Sorting

  /** Input, output and total tokens, and tool calls. */
  datatype Counts = Counts(input: nat, output: nat, tokens: nat, tools: nat)

  /** A joined attempt row: its fields and its metadata as the text grouping reads, and the values that are counted. */
  datatype Row = Row(fields: map<string, string>, metadata: map<string, string>, instance: string, resolved: bool,
                     cost: Option<real>, duration: nat, counts: Counts)

  // ---------- sums ----------

  function SumSeq(s: seq<real>): real {
    if s == [] then 0.0 else SumSeq(s[..|s| - 1]) + s[|s| - 1]
  }

  /** The total of a measure over rows. */
  function SumBy(rows: seq<Row>, f: Row -> real): real {
    if rows == [] then 0.0 else SumBy(rows[..|rows| - 1], f) + f(rows[|rows| - 1])
  }

  /** The sum of a dictionary's values. */
  ghost function SumMap<K(!new)>(m: map<K, real>): real {
    if m == map[] then 0.0
    else
      var k :| k in m;
      m[k] + SumMap(m - {k})
  }

  lemma {:induction false} SumMapPick<K(!new)>(m: map<K, real>, k: K)
    requires k in m
    ensures SumMap(m) == m[k] + SumMap(m - {k})
  {
    var x :| x in m && SumMap(m) == m[x] + SumMap(m - {x});
    if x != k {
      SumMapPick(m - {x}, k);
      SumMapPick(m - {k}, x);
      assert m - {x} - {k} == m - {k} - {x};
    }
  }

  /** Fewer keys and smaller non-negative values give a smaller sum. */
  lemma {:induction false} SumMapAtMost<K(!new)>(small: map<K, real>, big: map<K, real>)
    requires small.Keys <= big.Keys && forall k | k in big :: 0.0 <= big[k]
    requires forall k | k in small :: small[k] <= big[k]
    ensures SumMap(small) <= SumMap(big)
    decreases |big|
  {
    if big != map[] {
      var k :| k in big;
      SumMapPick(big, k);
      if k in small {
        SumMapPick(small, k);
        SumMapAtMost(small - {k}, big - {k});
      } else {
        SumMapAtMost(small, big - {k});
      }
    }
  }

  /** Dropping keys with value zero leaves the sum. */
  lemma {:induction false} SumMapSkipZeros<K(!new)>(small: map<K, real>, big: map<K, real>)
    requires small.Keys <= big.Keys && forall k | k in big :: big[k] == if k in small then small[k] else 0.0
    ensures SumMap(small) == SumMap(big)
    decreases |big|
  {
    if forall k | k in big :: k in small {
      assert small == big;
    } else {
      var k :| k in big && k !in small;
      SumMapPick(big, k);
      SumMapSkipZeros(small, big - {k});
    }
  }

  /** Two dictionaries that differ at most at `k`. */
  lemma SumMapReplace<K(!new)>(a: map<K, real>, b: map<K, real>, k: K)
    requires k in b && a - {k} == b - {k}
    ensures SumMap(b) == SumMap(a) - (if k in a then a[k] else 0.0) + b[k]
  {
    SumMapPick(b, k);
    if k in a {
      SumMapPick(a, k);
    } else {
      assert a - {k} == a;
    }
  }

  // ---------- one group ----------

  function CostList(rows: seq<Row>, id: string): seq<real> {
    if rows == [] then []
    else
      var before := CostList(rows[..|rows| - 1], id);
      var last := rows[|rows| - 1];
      if last.instance == id && Positive(last.cost) then before + [last.cost.value] else before
  }

  predicate Positive(cost: Option<real>) {
    cost.Some? && cost.value > 0.0
  }

  ghost function Instances(rows: seq<Row>): set<string> {
    set i | 0 <= i < |rows| && rows[i].instance != "" :: rows[i].instance
  }

  ghost function ResolvedIds(rows: seq<Row>): set<string> {
    set i | 0 <= i < |rows| && rows[i].instance != "" && rows[i].resolved :: rows[i].instance
  }

  ghost function ExpensiveIds(rows: seq<Row>, threshold: real): set<string> {
    set i | 0 <= i < |rows| && rows[i].instance != "" && rows[i].resolved
            && rows[i].cost.Some? && rows[i].cost.value >= threshold :: rows[i].instance
  }

  /** Counted rows are those with an instance id. */
  function DurationOf(r: Row): real {
    if r.instance == "" then 0.0 else r.duration as real
  }

  function InputOf(r: Row): real {
    if r.instance == "" then 0.0 else r.counts.input as real
  }

  function OutputOf(r: Row): real {
    if r.instance == "" then 0.0 else r.counts.output as real
  }

  function TokensOf(r: Row): real {
    if r.instance == "" then 0.0 else r.counts.tokens as real
  }

  function ToolsOf(r: Row): real {
    if r.instance == "" then 0.0 else r.counts.tools as real
  }

  function CostOf(r: Row): real {
    if r.instance == "" || !Positive(r.cost) then 0.0 else r.cost.value
  }

  function ResolvedDurationOf(r: Row): real {
    if r.instance == "" || !r.resolved then 0.0 else r.duration as real
  }

  function Min(s: seq<real>): real
    requires s != []
  {
    if |s| == 1 then s[0]
    else
      var m := Min(s[..|s| - 1]);
      if s[|s| - 1] < m then s[|s| - 1] else m
  }

  /** The durations of the counted rows, in order. */
  function Durations(rows: seq<Row>): seq<int> {
    if rows == [] then []
    else
      var before := Durations(rows[..|rows| - 1]);
      if rows[|rows| - 1].instance == "" then before else before + [rows[|rows| - 1].duration]
  }

  /** The state of the accumulator loop. */
  datatype Tally = Tally(instances: set<string>, resolved: set<string>, expensive: set<string>,
                         costs: map<string, seq<real>>, durations: seq<int>, duration: real, resolvedDuration: real,
                         input: real, output: real, tokens: real, tools: real)

  ghost predicate SetsTallied(rows: seq<Row>, threshold: real, t: Tally) {
    t.instances == Instances(rows) && t.resolved == ResolvedIds(rows) && t.expensive == ExpensiveIds(rows, threshold)
  }

  ghost predicate CostsTallied(rows: seq<Row>, t: Tally) {
    && (forall id | id in t.costs :: id != "" && t.costs[id] == CostList(rows, id) && t.costs[id] != [])
    && (forall id: string | id != "" && CostList(rows, id) != [] :: id in t.costs)
  }

  ghost predicate CountsTallied(rows: seq<Row>, t: Tally) {
    && t.input == SumBy(rows, InputOf) && t.output == SumBy(rows, OutputOf)
    && t.tokens == SumBy(rows, TokensOf) && t.tools == SumBy(rows, ToolsOf)
  }

  ghost predicate SumsTallied(rows: seq<Row>, t: Tally) {
    && t.durations == Durations(rows) && t.duration == SumBy(rows, DurationOf)
    && t.resolvedDuration == SumBy(rows, ResolvedDurationOf) && CountsTallied(rows, t)
  }

  ghost predicate IsTally(rows: seq<Row>, threshold: real, t: Tally) {
    SetsTallied(rows, threshold, t) && CostsTallied(rows, t) && SumsTallied(rows, t)
  }

  lemma SetsAppend(rows: seq<Row>, threshold: real)
    requires rows != []
    ensures
      var n := |rows| - 1; var r := rows[n]; var ids := if r.instance != "" then {r.instance} else {};
      && Instances(rows) == Instances(rows[..n]) + ids
      && ResolvedIds(rows) == ResolvedIds(rows[..n]) + (if r.resolved then ids else {})
      && ExpensiveIds(rows, threshold)
         == ExpensiveIds(rows[..n], threshold)
          + (if r.resolved && r.cost.Some? && r.cost.value >= threshold then ids else {})
  {
    var n := |rows| - 1;
    assert forall i | 0 <= i < n :: rows[..n][i] == rows[i];
  }

  function Step(t: Tally, row: Row, threshold: real): Tally {
    if row.instance == "" then t
    else
      var id := row.instance;
      Tally(
        t.instances + {id},
        if row.resolved then t.resolved + {id} else t.resolved,
        if row.resolved && row.cost.Some? && row.cost.value >= threshold then t.expensive + {id} else t.expensive,
        if Positive(row.cost) then t.costs[id := (if id in t.costs then t.costs[id] else []) + [row.cost.value]]
        else t.costs,
        t.durations + [row.duration],
        t.duration + row.duration as real,
        if row.resolved then t.resolvedDuration + row.duration as real else t.resolvedDuration,
        t.input + row.counts.input as real,
        t.output + row.counts.output as real,
        t.tokens + row.counts.tokens as real,
        t.tools + row.counts.tools as real)
  }

  lemma StepTallies(rows: seq<Row>, threshold: real, t: Tally)
    requires rows != [] && IsTally(rows[..|rows| - 1], threshold, t)
    ensures IsTally(rows, threshold, Step(t, rows[|rows| - 1], threshold))
  {
    StepSets(rows, threshold, t);
    StepCosts(rows, threshold, t);
    StepSums(rows, threshold, t);
  }

  lemma StepSets(rows: seq<Row>, threshold: real, t: Tally)
    requires rows != [] && SetsTallied(rows[..|rows| - 1], threshold, t)
    ensures SetsTallied(rows, threshold, Step(t, rows[|rows| - 1], threshold))
  {
    SetsAppend(rows, threshold);
  }

  lemma StepCosts(rows: seq<Row>, threshold: real, t: Tally)
    requires rows != [] && CostsTallied(rows[..|rows| - 1], t)
    ensures CostsTallied(rows, Step(t, rows[|rows| - 1], threshold))
  {
  }

  lemma StepSums(rows: seq<Row>, threshold: real, t: Tally)
    requires rows != [] && SumsTallied(rows[..|rows| - 1], t)
    ensures SumsTallied(rows, Step(t, rows[|rows| - 1], threshold))
  {
  }

  /** The accumulator loop over the rows of one group. */
  method TallyRows(rows: seq<Row>, threshold: real) returns (t: Tally)
    ensures IsTally(rows, threshold, t)
  {
    t := Tally({}, {}, {}, map[], [], 0.0, 0.0, 0.0, 0.0, 0.0, 0.0);
    for i := 0 to |rows|
      invariant IsTally(rows[..i], threshold, t)
    {
      assert rows[..i + 1][..i] == rows[..i];
      StepTallies(rows[..i + 1], threshold, t);
      t := Step(t, rows[i], threshold);
    }
    assert rows[..|rows|] == rows;
  }

  lemma {:induction false} CostListPositive(rows: seq<Row>, id: string)
    ensures forall i | 0 <= i < |CostList(rows, id)| :: CostList(rows, id)[i] > 0.0
    ensures id != "" && CostList(rows, id) != [] ==> id in Instances(rows)
  {
    if rows != [] {
      CostListPositive(rows[..|rows| - 1], id);
      SetsAppend(rows, 0.0);
    }
  }

  lemma {:induction false} MinBounds(s: seq<real>)
    requires s != [] && forall i | 0 <= i < |s| :: s[i] > 0.0
    ensures 0.0 < Min(s) <= SumSeq(s)
    ensures Min(s) in s && forall x | x in s :: Min(s) <= x
  {
    var n := |s| - 1;
    if n > 0 {
      MinBounds(s[..n]);
      assert s == s[..n] + [s[n]];
    } else {
      assert SumSeq(s[..0]) == 0.0;
    }
  }

  lemma {:induction false} SumSeqNonNegative(s: seq<real>)
    requires forall i | 0 <= i < |s| :: s[i] > 0.0
    ensures SumSeq(s) >= 0.0
  {
    if s != [] {
      SumSeqNonNegative(s[..|s| - 1]);
    }
  }

  ghost function CostTotals(rows: seq<Row>): map<string, real> {
    map id | id in Instances(rows) :: SumSeq(CostList(rows, id))
  }

  /** `all_total_cost`: every listed cost of every instance. */
  ghost function TotalCost(rows: seq<Row>): real {
    SumMap(CostTotals(rows))
  }

  /** The cheapest listed cost of every resolved instance that has one. */
  ghost function LeastCosts(rows: seq<Row>): map<string, real> {
    map id | id in ResolvedIds(rows) && CostList(rows, id) != [] :: Min(CostList(rows, id))
  }

  /** `resolved_total_cost` */
  ghost function ResolvedCost(rows: seq<Row>): real {
    SumMap(LeastCosts(rows))
  }

  /** The per-instance cost lists hold every counted cost once: their total is the total of the measure
      `CostOf`, so it is conserved by grouping like the others. */
  lemma {:induction false} TotalCostIsMeasure(rows: seq<Row>)
    ensures TotalCost(rows) == SumBy(rows, CostOf)
  {
    if rows != [] {
      var n := |rows| - 1;
      TotalCostIsMeasure(rows[..n]);
      SetsAppend(rows, 0.0);
      if rows[n].instance == "" {
        forall id | id in Instances(rows) ensures CostList(rows, id) == CostList(rows[..n], id) {
        }
        assert CostTotals(rows) == CostTotals(rows[..n]);
      } else {
        CostStep(rows);
      }
    }
  }

  lemma CostStep(rows: seq<Row>)
    requires rows != [] && rows[|rows| - 1].instance != ""
    ensures TotalCost(rows) == TotalCost(rows[..|rows| - 1]) + CostOf(rows[|rows| - 1])
  {
    var n := |rows| - 1;
    var id := rows[n].instance;
    var now, earlier := CostTotals(rows), CostTotals(rows[..n]);
    SetsAppend(rows, 0.0);
    CostListPositive(rows[..n], id);
    GrownList(rows);
    assert now - {id} == earlier - {id};
    SumMapReplace(earlier, now, id);
  }

  lemma GrownList(rows: seq<Row>)
    requires rows != [] && rows[|rows| - 1].instance != ""
    ensures
      var n := |rows| - 1; var id := rows[n].instance;
      SumSeq(CostList(rows, id)) == SumSeq(CostList(rows[..n], id)) + CostOf(rows[n])
  {
    var row := rows[|rows| - 1];
    var earlier := CostList(rows[..|rows| - 1], row.instance);
    if Positive(row.cost) {
      var grown := earlier + [row.cost.value];
      assert grown[..|grown| - 1] == earlier;
    }
  }

  /** In every group the resolved cost is at most the total cost. */
  lemma ResolvedCostAtMostTotal(rows: seq<Row>)
    ensures 0.0 <= ResolvedCost(rows) <= TotalCost(rows)
  {
    forall id | id in Instances(rows)
      ensures 0.0 <= CostTotals(rows)[id]
      ensures id in LeastCosts(rows) ==> 0.0 <= LeastCosts(rows)[id] <= CostTotals(rows)[id]
    {
      CostListPositive(rows, id);
      SumSeqNonNegative(CostList(rows, id));
      if CostList(rows, id) != [] {
        MinBounds(CostList(rows, id));
      }
    }
    assert LeastCosts(rows).Keys <= Instances(rows);
    SumMapAtMost(LeastCosts(rows), CostTotals(rows));
    SumMapAtMost(map[], LeastCosts(rows));
  }

  /** Resolved instances whose cheapest attempt is already expensive. */
  ghost function ExclusiveIds(rows: seq<Row>, threshold: real): set<string> {
    set id | id in LeastCosts(rows) && LeastCosts(rows)[id] >= threshold && id in ExpensiveIds(rows, threshold)
  }

  function Rate(numerator: nat, denominator: nat): real {
    if denominator == 0 then 0.0 else numerator as real / denominator as real
  }

  lemma RateMonotone(a: nat, b: nat, n: nat)
    requires a <= b <= n
    ensures 0.0 <= Rate(a, n) <= Rate(b, n) <= 1.0
  {
    if n > 0 {
      var x, y := Rate(a, n), Rate(b, n);
      assert x * n as real == a as real && y * n as real == b as real;
      assert x < 0.0 ==> x * n as real < 0.0;
      assert x > y ==> (x - y) * n as real > 0.0;
      assert y > 1.0 ==> (y - 1.0) * n as real > 0.0;
    }
  }

  lemma SubsetSize(a: set<string>, b: set<string>)
    requires a <= b
    ensures |a| <= |b|
  {
    if a != {} {
      var x :| x in a;
      SubsetSize(a - {x}, b - {x});
    }
  }

  /** Exclusive-expensive win rate <= expensive coverage <= 1, and the resolution rate is at most 1. */
  lemma RatesAreOrdered(rows: seq<Row>, threshold: real)
    ensures
      var resolved := |ResolvedIds(rows)|;
      0.0 <= Rate(|ExclusiveIds(rows, threshold)|, resolved) <= Rate(|ExpensiveIds(rows, threshold)|, resolved) <= 1.0
    ensures 0.0 <= Rate(|ResolvedIds(rows)|, |Instances(rows)|) <= 1.0
  {
    SubsetSize(ExclusiveIds(rows, threshold), ExpensiveIds(rows, threshold));
    SubsetSize(ExpensiveIds(rows, threshold), ResolvedIds(rows));
    SubsetSize(ResolvedIds(rows), Instances(rows));
    RateMonotone(|ExclusiveIds(rows, threshold)|, |ExpensiveIds(rows, threshold)|, |ResolvedIds(rows)|);
    RateMonotone(|ResolvedIds(rows)|, |ResolvedIds(rows)|, |Instances(rows)|);
  }

  // ---------- the figures drawn from a tally ----------

  /** Adding up a dictionary's values one by one, in any order. */
  method AddValues(m: map<string, real>) returns (total: real)
    ensures total == SumMap(m)
  {
    total := 0.0;
    var rest := m;
    while rest != map[]
      invariant total + SumMap(rest) == SumMap(m)
      decreases |rest|
    {
      var k :| k in rest;
      SumMapPick(rest, k);
      total := total + rest[k];
      rest := rest - {k};
    }
  }

  method ListValues(m: map<string, real>) returns (values: seq<real>)
    ensures |values| == |m|
    ensures forall x | x in values :: exists k :: k in m && m[k] == x
    ensures forall k | k in m :: m[k] in values
  {
    values := [];
    var rest := m.Keys;
    while rest != {}
      invariant rest <= m.Keys && |values| + |rest| == |m|
      invariant forall x | x in values :: exists k :: k in m && m[k] == x
      invariant forall k | k in m && k !in rest :: m[k] in values
      decreases rest
    {
      var k :| k in rest;
      values := values + [m[k]];
      rest := rest - {k};
    }
  }

  function Listed(t: Tally): map<string, real> {
    map id | id in t.costs :: SumSeq(t.costs[id])
  }

  function Cheapest(t: Tally): map<string, real>
    requires forall id | id in t.costs :: t.costs[id] != []
  {
    map id | id in t.resolved && id in t.costs :: Min(t.costs[id])
  }

  lemma CheapestIsLeast(t: Tally, rows: seq<Row>, threshold: real)
    requires IsTally(rows, threshold, t)
    ensures Cheapest(t) == LeastCosts(rows)
  {
    forall id | id in LeastCosts(rows) ensures id in t.costs {
      assert id != "";
    }
  }

  lemma ListedIsTotal(t: Tally, rows: seq<Row>, threshold: real)
    requires IsTally(rows, threshold, t)
    ensures SumMap(Listed(t)) == TotalCost(rows)
  {
    forall id | id in t.costs ensures id in Instances(rows) {
      CostListPositive(rows, id);
    }
    forall id | id in Instances(rows)
      ensures CostTotals(rows)[id] == if id in Listed(t) then Listed(t)[id] else 0.0
    {
    }
    SumMapSkipZeros(Listed(t), CostTotals(rows));
  }

  // ---------- marginal cost ----------

  function Deltas(s: seq<real>): seq<real> {
    if |s| < 2 then [] else Deltas(s[..|s| - 1]) + [s[|s| - 1] - s[|s| - 2]]
  }

  /** The differences telescope. */
  lemma {:induction false} DeltasTelescope(s: seq<real>)
    requires |s| >= 1
    ensures |Deltas(s)| == |s| - 1 && SumSeq(Deltas(s)) == s[|s| - 1] - s[0]
  {
    if |s| >= 2 {
      DeltasTelescope(s[..|s| - 1]);
      var d := Deltas(s);
      assert d[..|d| - 1] == Deltas(s[..|s| - 1]);
    }
  }

  predicate Le(a: real, b: real) {
    a <= b
  }

  ghost predicate Extremes(xs: seq<real>, lo: real, hi: real) {
    lo in xs && hi in xs && forall x | x in xs :: lo <= x <= hi
  }

  function Slope(lo: real, hi: real, n: nat): Option<real>
    requires n >= 2
  {
    Some((hi - lo) / (n - 1) as real)
  }

  lemma SortedExtremes(xs: seq<real>)
    requires xs != []
    ensures var sorted := Sort(xs, Le); |sorted| == |xs| && Extremes(xs, sorted[0], sorted[|sorted| - 1])
  {
    var sorted := Sort(xs, Le);
    SortContents(xs, Le);
    SortOrdered(xs, Le);
    assert sorted[0] in sorted && sorted[|sorted| - 1] in sorted;
    forall x | x in xs ensures sorted[0] <= x <= sorted[|sorted| - 1] {
      assert x in sorted;
      var i :| 0 <= i < |sorted| && sorted[i] == x;
      assert i > 0 ==> Le(sorted[0], sorted[i]);
      assert i < |sorted| - 1 ==> Le(sorted[i], sorted[|sorted| - 1]);
    }
  }

  /** The marginal cost per extra resolve: the mean step between the sorted per-instance minima. */
  method MarginalCost(minima: seq<real>) returns (marginal: Option<real>)
    ensures marginal == None <==> |minima| < 2
    ensures |minima| >= 2 ==> exists lo, hi :: Extremes(minima, lo, hi) && marginal == Slope(lo, hi, |minima|)
  {
    if |minima| < 2 {
      return None;
    }
    var sorted := Sort(minima, Le);
    SortedExtremes(minima);
    var deltas := Deltas(sorted);
    DeltasTelescope(sorted);
    marginal := Some(SumSeq(deltas) / |deltas| as real);
    assert marginal == Slope(sorted[0], sorted[|sorted| - 1], |minima|);
  }

  /** The figures of one group; the averages per attempt are over all its rows, counted or not. */
  datatype Figures = Figures(attempts: nat, instances: nat, resolved: nat, rate: real, duration: real,
                             resolvedDuration: real, input: real, output: real, tokens: real, tools: real,
                             totalCost: real, resolvedCost: real, costPerResolved: Option<real>,
                             latencyPerResolved: Option<real>, tokensPerResolved: Option<real>,
                             toolsPerResolved: Option<real>, avgDuration: real, avgTokens: real, avgTools: real,
                             p50: Option<int>, p95: Option<int>, coverage: real, exclusive: real,
                             marginal: Option<real>)

  function PerResolved(total: real, resolved: nat): Option<real> {
    if resolved > 0 then Some(total / resolved as real) else None
  }

  function PerAttempt(total: real, attempts: nat): real {
    if attempts > 0 then total / attempts as real else 0.0
  }

  ghost predicate CountsOf(rows: seq<Row>, threshold: real, m: Figures) {
    && m.attempts == |rows| && m.instances == |Instances(rows)| && m.resolved == |ResolvedIds(rows)|
    && m.rate == Rate(m.resolved, m.instances)
    && m.coverage == Rate(|ExpensiveIds(rows, threshold)|, m.resolved)
    && m.exclusive == Rate(|ExclusiveIds(rows, threshold)|, m.resolved)
  }

  ghost predicate LoadsOf(rows: seq<Row>, m: Figures) {
    && m.duration == SumBy(rows, DurationOf) && m.resolvedDuration == SumBy(rows, ResolvedDurationOf)
    && m.input == SumBy(rows, InputOf) && m.output == SumBy(rows, OutputOf)
    && m.tokens == SumBy(rows, TokensOf) && m.tools == SumBy(rows, ToolsOf)
    && m.latencyPerResolved == PerResolved(m.resolvedDuration, m.resolved)
    && m.tokensPerResolved == PerResolved(m.tokens, m.resolved) && m.avgTokens == PerAttempt(m.tokens, m.attempts)
    && m.toolsPerResolved == PerResolved(m.tools, m.resolved) && m.avgTools == PerAttempt(m.tools, m.attempts)
    && m.avgDuration == PerAttempt(m.duration, m.attempts)
    && m.p50 == Percentile(Durations(rows), 50) && m.p95 == Percentile(Durations(rows), 95)
  }

  ghost predicate CostsOf(rows: seq<Row>, m: Figures) {
    && m.totalCost == TotalCost(rows) && m.resolvedCost == ResolvedCost(rows)
    && m.costPerResolved == PerResolved(m.resolvedCost, m.resolved)
    && IsMarginal(LeastCosts(rows), m.marginal)
  }

  /** What the figures of a group are, in terms of its rows. */
  ghost predicate AreFigures(rows: seq<Row>, threshold: real, m: Figures) {
    CountsOf(rows, threshold, m) && LoadsOf(rows, m) && CostsOf(rows, m)
  }

  /** `summarize_attempt_metrics` for one group of rows. */
  method Summarize(rows: seq<Row>, threshold: real) returns (m: Figures)
    ensures AreFigures(rows, threshold, m)
  {
    var t := TallyRows(rows, threshold);
    var totalCost, resolvedCost, marginal, exclusive := CostFigures(t, rows, threshold);
    var attempts, resolved := |rows|, |t.resolved|;
    m := Figures(attempts, |t.instances|, resolved, Rate(resolved, |t.instances|), t.duration, t.resolvedDuration,
                 t.input, t.output, t.tokens, t.tools, totalCost, resolvedCost, PerResolved(resolvedCost, resolved),
                 PerResolved(t.resolvedDuration, resolved), PerResolved(t.tokens, resolved),
                 PerResolved(t.tools, resolved), PerAttempt(t.duration, attempts), PerAttempt(t.tokens, attempts),
                 PerAttempt(t.tools, attempts), Percentile(t.durations, 50), Percentile(t.durations, 95),
                 Rate(|t.expensive|, resolved), Rate(exclusive, resolved), marginal);
  }

  method CostFigures(t: Tally, ghost rows: seq<Row>, threshold: real)
    returns (totalCost: real, resolvedCost: real, marginal: Option<real>, exclusive: nat)
    requires IsTally(rows, threshold, t)
    ensures totalCost == TotalCost(rows) && resolvedCost == ResolvedCost(rows)
    ensures IsMarginal(LeastCosts(rows), marginal) && exclusive == |ExclusiveIds(rows, threshold)|
  {
    ListedIsTotal(t, rows, threshold);
    CheapestIsLeast(t, rows, threshold);
    totalCost := AddValues(Listed(t));
    var least := Cheapest(t);
    resolvedCost := AddValues(least);
    exclusive := |set id | id in least && least[id] >= threshold && id in t.expensive|;
    marginal := None;
    KeysBound(rows);
    if |t.resolved| >= 2 {
      marginal := Marginal(least);
    }
  }

  method Marginal(least: map<string, real>) returns (marginal: Option<real>)
    ensures IsMarginal(least, marginal)
  {
    var minima := ListValues(least);
    marginal := MarginalCost(minima);
    if |least| >= 2 {
      ghost var lo, hi :| Extremes(minima, lo, hi) && marginal == Slope(lo, hi, |minima|);
      ValueExtremes(least, minima, lo, hi);
    }
  }

  lemma ValueExtremes(least: map<string, real>, minima: seq<real>, lo: real, hi: real)
    requires Extremes(minima, lo, hi)
    requires forall x | x in minima :: exists k :: k in least && least[k] == x
    requires forall k | k in least :: least[k] in minima
    ensures MapExtremes(least, lo, hi)
  {
  }

  ghost predicate MapExtremes(least: map<string, real>, lo: real, hi: real) {
    && (exists k :: k in least && least[k] == lo) && (exists k :: k in least && least[k] == hi)
    && forall k | k in least :: lo <= least[k] <= hi
  }

  lemma KeysBound(rows: seq<Row>)
    ensures |LeastCosts(rows)| <= |ResolvedIds(rows)|
  {
    SubsetSize(LeastCosts(rows).Keys, ResolvedIds(rows));
    assert |LeastCosts(rows)| == |LeastCosts(rows).Keys|;
  }

  /** (max - min) / (n - 1) over the per-instance minima, when there are at least two. */
  ghost predicate IsMarginal(least: map<string, real>, marginal: Option<real>) {
    if |least| < 2 then marginal == None
    else exists lo, hi :: MapExtremes(least, lo, hi) && marginal == Slope(lo, hi, |least|)
  }

  // ---------- percentiles ----------

  predicate LeInt(a: int, b: int) {
    a <= b
  }

  /** `int(percentile / 100 * (n - 1) + 0.5)`, clamped */
  function Rank(percentile: nat, n: nat): (i: nat)
    requires n > 0
    ensures i < n
  {
    var index := Position(percentile, n).Floor;
    if index < 0 then 0 else if index >= n then n - 1 else index
  }

  function Percentile(values: seq<int>, percentile: nat): Option<int> {
    if values == [] then None
    else
      var ordered := Sort(values, LeInt);
      assert |ordered| == |values| by { SortContents(values, LeInt); }
      if |ordered| == 1 then Some(ordered[0]) else Some(ordered[Rank(percentile, |ordered|)])
  }

  /** Where a percentile falls among n values, before rounding down. */
  function Position(percentile: nat, n: nat): real
    requires n > 0
  {
    (percentile as real / 100.0) * (n - 1) as real + 0.5
  }

  lemma PositionMonotone(p: nat, q: nat, n: nat)
    requires p <= q && n > 0
    ensures Position(p, n) <= Position(q, n)
  {
    var m := (n - 1) as real;
    var a, b := p as real / 100.0, q as real / 100.0;
    assert (b - a) * m >= 0.0;
    assert b * m == a * m + (b - a) * m;
  }

  lemma PositionEnds(n: nat)
    requires n > 0
    ensures Position(0, n) == 0.5 && Position(100, n) == (n - 1) as real + 0.5
  {
    var m := (n - 1) as real;
    assert 0.0 * m == 0.0 && 1.0 * m == m;
  }

  lemma FloorMonotone(x: real, y: real)
    requires x <= y
    ensures x.Floor <= y.Floor
  {
    assert x.Floor as real <= x && y < y.Floor as real + 1.0;
  }

  lemma RankMonotone(p: nat, q: nat, n: nat)
    requires p <= q && n > 0
    ensures Rank(p, n) <= Rank(q, n)
  {
    PositionMonotone(p, q, n);
    FloorMonotone(Position(p, n), Position(q, n));
  }

  lemma RankEnds(q: nat, n: nat)
    requires n > 0
    ensures Rank(0, n) == 0 && (q >= 100 ==> Rank(q, n) == n - 1)
  {
    PositionEnds(n);
    if q >= 100 {
      PositionMonotone(100, q, n);
      FloorMonotone(Position(100, n), Position(q, n));
    }
  }

  lemma SortedInts(values: seq<int>)
    ensures var ordered := Sort(values, LeInt);
      && |ordered| == |values| && (forall x :: x in ordered <==> x in values)
      && forall i, j | 0 <= i <= j < |ordered| :: ordered[i] <= ordered[j]
  {
    var ordered := Sort(values, LeInt);
    SortContents(values, LeInt);
    SortOrdered(values, LeInt);
    forall i, j | 0 <= i <= j < |ordered| ensures ordered[i] <= ordered[j] {
      assert i < j ==> LeInt(ordered[i], ordered[j]);
    }
  }

  /** Percentiles are input elements and grow with the percentile, so p50 <= p95. */
  lemma PercentilesAreOrderStatistics(values: seq<int>, p: nat, q: nat)
    requires values != [] && p <= q
    ensures Percentile(values, p).Some? && Percentile(values, q).Some?
    ensures Percentile(values, p).value in values
    ensures Percentile(values, p).value <= Percentile(values, q).value
  {
    var ordered := Sort(values, LeInt);
    SortedInts(values);
    RankMonotone(p, q, |values|);
    assert ordered[Rank(p, |values|)] in ordered;
    assert |values| == 1 ==> ordered[0] in ordered;
  }

  /** They range from the least to the greatest value. */
  lemma PercentileRange(values: seq<int>, q: nat)
    requires values != []
    ensures forall x | x in values :: Percentile(values, 0).value <= x
    ensures q >= 100 ==> forall x | x in values :: x <= Percentile(values, q).value
  {
    var ordered := Sort(values, LeInt);
    SortedInts(values);
    RankEnds(q, |values|);
    forall x | x in values ensures ordered[0] <= x <= ordered[|ordered| - 1] {
      assert x in ordered;
      var k :| 0 <= k < |ordered| && ordered[k] == x;
    }
  }

  /** Input order does not matter. */
  lemma PercentileIgnoresOrder(values: seq<int>, other: seq<int>, p: nat)
    requires multiset(other) == multiset(values)
    ensures Percentile(other, p) == Percentile(values, p)
  {
    SortContents(values, LeInt);
    SortOrdered(values, LeInt);
    SortContents(other, LeInt);
    SortOrdered(other, LeInt);
    assert |multiset(other)| == |multiset(values)|;
    OrderedUnique(Sort(other, LeInt), Sort(values, LeInt), LeInt);
    assert values == [] <==> other == [];
  }
}
