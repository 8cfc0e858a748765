/** What the figures of a summary say about its attempts (repogauge/runner/analyze.py). */
module MetricsMeaning {
  import opened Wrappers
  import opened Sorting
  import opened Metrics
  import opened Groups
  import opened MetricsReport
  import opened MetricsOrder

  // ---------- which attempts count ----------

  /** An attempt without an instance id adds to no column but the number of attempts; any other adds what its fields
      say, its duration to the resolved ones only if it resolved, its cost only if that is positive. */
  lemma WhatCounts(r: Row)
    ensures Measure(Attempts)(r) == 1.0
    ensures r.instance == "" ==> forall column :: column != Attempts ==> Measure(column)(r) == 0.0
    ensures r.instance != "" ==>
      && Measure(Duration)(r) == r.duration as real
      && Measure(ResolvedDuration)(r) == (if r.resolved then r.duration else 0) as real
      && Measure(Input)(r) == r.counts.input as real && Measure(Output)(r) == r.counts.output as real
      && Measure(Tokens)(r) == r.counts.tokens as real && Measure(Tools)(r) == r.counts.tools as real
      && Measure(Cost)(r) == if r.cost.Some? && r.cost.value > 0.0 then r.cost.value else 0.0
  {
  }

  /** The columns of the report are those of its summaries. */
  lemma WhichColumn(m: Figures)
    ensures Cell(m, Attempts) == m.attempts as real && Cell(m, Cost) == m.totalCost
    ensures Cell(m, Duration) == m.duration && Cell(m, ResolvedDuration) == m.resolvedDuration
    ensures Cell(m, Input) == m.input && Cell(m, Output) == m.output
    ensures Cell(m, Tokens) == m.tokens && Cell(m, Tools) == m.tools
  {
  }

  function Total(values: seq<int>): int {
    if values == [] then 0 else Total(values[..|values| - 1]) + values[|values| - 1]
  }

  /** The durations that the percentiles are taken of add up to the total duration. */
  lemma {:induction false} DurationsAddUp(rows: seq<Row>)
    ensures SumBy(rows, DurationOf) == Total(Durations(rows)) as real
  {
    if rows != [] {
      var n := |rows| - 1;
      DurationsAddUp(rows[..n]);
      var before := Durations(rows[..n]);
      assert (before + [rows[n].duration])[..|before|] == before;
    }
  }

  // ---------- instances ----------

  ghost predicate AttemptOn(rows: seq<Row>, id: string, r: Row) {
    r in rows && r.instance == id && id != ""
  }

  /** An instance is counted if it has an attempt, resolved if it has a resolved one, and an expensive win if it has a
      resolved one at or above the threshold. */
  lemma InstancesMean(rows: seq<Row>, threshold: real, id: string)
    ensures id in Instances(rows) <==> exists r :: AttemptOn(rows, id, r)
    ensures id in ResolvedIds(rows) <==> exists r :: AttemptOn(rows, id, r) && r.resolved
    ensures id in ExpensiveIds(rows, threshold)
            <==> exists r :: AttemptOn(rows, id, r) && r.resolved && r.cost.Some? && r.cost.value >= threshold
  {
    if r :| AttemptOn(rows, id, r) {
      var i :| 0 <= i < |rows| && rows[i] == r;
    }
    assert forall i | 0 <= i < |rows| && rows[i].instance == id && id != "" :: AttemptOn(rows, id, rows[i]);
  }

  /** A resolved instance with a priced attempt is charged the least positive cost of any of its attempts. */
  lemma LeastCostMeans(rows: seq<Row>, id: string)
    ensures id in LeastCosts(rows) <==>
      && (exists r :: AttemptOn(rows, id, r) && r.resolved)
      && (exists r :: AttemptOn(rows, id, r) && r.cost.Some? && r.cost.value > 0.0)
    ensures id in LeastCosts(rows) ==>
      && (exists r :: AttemptOn(rows, id, r) && r.cost == Some(LeastCosts(rows)[id]) && r.cost.value > 0.0)
      && forall r | AttemptOn(rows, id, r) && r.cost.Some? && r.cost.value > 0.0 :: LeastCosts(rows)[id] <= r.cost.value
  {
    var costs := CostList(rows, id);
    InstancesMean(rows, 0.0, id);
    forall x ensures x in costs <==> exists r :: r in rows && r.instance == id && r.cost == Some(x) && x > 0.0 {
      CostListContents(rows, id, x);
    }
    CostListPositive(rows, id);
    if costs != [] {
      assert costs[0] in costs;
      MinBounds(costs);
    }
    if r :| AttemptOn(rows, id, r) && r.cost.Some? && r.cost.value > 0.0 {
      assert r.cost.value in costs;
    }
  }

  /** An exclusive expensive win: resolved at or above the threshold, and no attempt on it had a positive cost below. */
  lemma ExclusiveMeans(rows: seq<Row>, threshold: real, id: string)
    ensures id in ExclusiveIds(rows, threshold) <==>
      && (exists r :: AttemptOn(rows, id, r) && r.resolved && r.cost.Some? && r.cost.value >= threshold)
      && (exists r :: AttemptOn(rows, id, r) && r.cost.Some? && r.cost.value > 0.0)
      && forall r | AttemptOn(rows, id, r) && r.cost.Some? && r.cost.value > 0.0 :: r.cost.value >= threshold
  {
    InstancesMean(rows, threshold, id);
    LeastCostMeans(rows, id);
  }

  // ---------- averages and rates ----------

  /** `mean` times `n` is the total; over nothing it is zero. */
  ghost predicate IsMean(mean: real, total: real, n: nat) {
    if n == 0 then mean == 0.0 else mean * n as real == total
  }

  /** The same where a mean over nothing is missing. */
  ghost predicate IsMeanIfAny(mean: Option<real>, total: real, n: nat) {
    (mean == None <==> n == 0) && (mean.Some? ==> IsMean(mean.value, total, n))
  }

  lemma PerAttemptIsMean(total: real, n: nat)
    ensures IsMean(PerAttempt(total, n), total, n)
  {
  }

  lemma PerResolvedIsMean(total: real, n: nat)
    ensures IsMeanIfAny(PerResolved(total, n), total, n)
  {
  }

  lemma RateIsMean(a: nat, n: nat)
    ensures IsMean(Rate(a, n), a as real, n)
  {
  }

  /** Averages per attempt times the attempts give back the totals. */
  lemma AveragesGiveBack(rows: seq<Row>, m: Figures)
    requires LoadsOf(rows, m)
    ensures IsMean(m.avgDuration, m.duration, m.attempts)
    ensures IsMean(m.avgTokens, m.tokens, m.attempts) && IsMean(m.avgTools, m.tools, m.attempts)
  {
    PerAttemptIsMean(m.duration, m.attempts);
    PerAttemptIsMean(m.tokens, m.attempts);
    PerAttemptIsMean(m.tools, m.attempts);
  }

  /** Figures per resolved instance times these give back the totals, and are missing iff nothing is resolved. */
  lemma PerResolvedGiveBack(rows: seq<Row>, m: Figures)
    requires LoadsOf(rows, m) && CostsOf(rows, m)
    ensures IsMeanIfAny(m.costPerResolved, m.resolvedCost, m.resolved)
    ensures IsMeanIfAny(m.latencyPerResolved, m.resolvedDuration, m.resolved)
    ensures IsMeanIfAny(m.tokensPerResolved, m.tokens, m.resolved)
    ensures IsMeanIfAny(m.toolsPerResolved, m.tools, m.resolved)
  {
    PerResolvedIsMean(m.resolvedCost, m.resolved);
    PerResolvedIsMean(m.resolvedDuration, m.resolved);
    PerResolvedIsMean(m.tokens, m.resolved);
    PerResolvedIsMean(m.tools, m.resolved);
  }

  /** Rates times what they are taken over give back the counts. */
  lemma RatesGiveBack(rows: seq<Row>, threshold: real, m: Figures)
    requires CountsOf(rows, threshold, m)
    ensures m.attempts == |rows| && m.instances == |Instances(rows)| && m.resolved == |ResolvedIds(rows)|
    ensures IsMean(m.rate, m.resolved as real, m.instances)
    ensures IsMean(m.coverage, |ExpensiveIds(rows, threshold)| as real, m.resolved)
    ensures IsMean(m.exclusive, |ExclusiveIds(rows, threshold)| as real, m.resolved)
  {
    RateIsMean(m.resolved, m.instances);
    RateIsMean(|ExpensiveIds(rows, threshold)|, m.resolved);
    RateIsMean(|ExclusiveIds(rows, threshold)|, m.resolved);
  }

  // ---------- groups ----------

  /** A dimension reads the row's own field, else its metadata, else "unknown". */
  lemma GroupReads(r: Row, dims: seq<string>, i: nat)
    requires i < |dims|
    ensures |GroupKey(r, dims)| == |dims| && GroupKey(r, dims)[i].0 == dims[i]
    ensures dims[i] in r.fields ==> GroupKey(r, dims)[i].1 == r.fields[dims[i]]
    ensures dims[i] !in r.fields && dims[i] in r.metadata ==> GroupKey(r, dims)[i].1 == r.metadata[dims[i]]
    ensures dims[i] !in r.fields && dims[i] !in r.metadata ==> GroupKey(r, dims)[i].1 == "unknown"
  {
  }
}
