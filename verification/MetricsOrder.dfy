/** The report does not depend on the order of the attempts (`summarize_attempt_metrics` in
    repogauge/runner/analyze.py promises deterministic rows; sums are exact here). */
module MetricsOrder {
  import opened Wrappers
  import opened Sorting
  import opened Metrics
  import opened Groups
  import opened MetricsReport

  ghost predicate Rearranged(a: seq<Row>, b: seq<Row>) {
    multiset(a) == multiset(b)
  }

  lemma RearrangedContents(a: seq<Row>, b: seq<Row>)
    requires Rearranged(a, b)
    ensures |a| == |b| && forall r :: r in a <==> r in b
  {
    Rearrangement(a, b);
  }

  lemma TakenOut(rows: seq<Row>, i: nat)
    requires i < |rows|
    ensures multiset(rows[..i] + rows[i + 1..]) == multiset(rows) - multiset{rows[i]}
  {
    assert rows == rows[..i] + [rows[i]] + rows[i + 1..];
  }

  // ---------- sums ----------

  /** The total without the row at `i`. */
  lemma {:induction false} SumByWithout(rows: seq<Row>, f: Row -> real, i: nat)
    requires i < |rows|
    ensures SumBy(rows, f) == SumBy(rows[..i] + rows[i + 1..], f) + f(rows[i])
  {
    var n := |rows| - 1;
    if i == n {
      assert rows[..i] + rows[i + 1..] == rows[..n];
    } else {
      SumByWithout(rows[..n], f, i);
      var left := rows[..i] + rows[i + 1..];
      assert left[..n - 1] == rows[..n][..i] + rows[..n][i + 1..];
    }
  }

  lemma {:induction false} SumByRearranged(a: seq<Row>, b: seq<Row>, f: Row -> real)
    requires Rearranged(a, b)
    ensures SumBy(a, f) == SumBy(b, f)
    decreases |a|
  {
    RearrangedContents(a, b);
    if a != [] {
      var n := |a| - 1;
      assert a[n] in a;
      var i :| 0 <= i < |b| && b[i] == a[n];
      SumByWithout(b, f, i);
      TakenOut(a, n);
      TakenOut(b, i);
      assert a[..n] + a[n + 1..] == a[..n];
      SumByRearranged(a[..n], b[..i] + b[i + 1..], f);
    }
  }

  // ---------- groups ----------

  lemma {:induction false} MembersCount(rows: seq<Row>, dims: seq<string>, key: Key, r: Row)
    ensures multiset(Members(rows, dims, key))[r] == if GroupKey(r, dims) == key then multiset(rows)[r] else 0
  {
    if rows != [] {
      MembersCount(rows[..|rows| - 1], dims, key, r);
      assert rows == rows[..|rows| - 1] + [rows[|rows| - 1]];
    }
  }

  lemma MembersRearranged(a: seq<Row>, b: seq<Row>, dims: seq<string>, key: Key)
    requires Rearranged(a, b)
    ensures Rearranged(Members(a, dims, key), Members(b, dims, key))
  {
    forall r ensures multiset(Members(a, dims, key))[r] == multiset(Members(b, dims, key))[r] {
      MembersCount(a, dims, key, r);
      MembersCount(b, dims, key, r);
    }
  }

  // ---------- durations ----------

  function Lasts(x: int): Row -> real {
    (r: Row) => if r.instance != "" && r.duration == x then 1.0 else 0.0
  }

  lemma {:induction false} DurationCount(rows: seq<Row>, x: int)
    ensures multiset(Durations(rows))[x] as real == SumBy(rows, Lasts(x))
  {
    if rows != [] {
      DurationCount(rows[..|rows| - 1], x);
    }
  }

  lemma PercentilesRearranged(a: seq<Row>, b: seq<Row>, p: nat)
    requires Rearranged(a, b)
    ensures Percentile(Durations(a), p) == Percentile(Durations(b), p)
  {
    forall x ensures multiset(Durations(a))[x] == multiset(Durations(b))[x] {
      DurationCount(a, x);
      DurationCount(b, x);
      SumByRearranged(a, b, Lasts(x));
    }
    PercentileIgnoresOrder(Durations(a), Durations(b), p);
  }

  // ---------- costs ----------

  lemma {:induction false} CostListContents(rows: seq<Row>, id: string, x: real)
    ensures x in CostList(rows, id) <==> exists r :: r in rows && r.instance == id && r.cost == Some(x) && x > 0.0
  {
    if rows != [] {
      var n := |rows| - 1;
      CostListContents(rows[..n], id, x);
      assert forall r :: r in rows <==> r in rows[..n] || r == rows[n];
    }
  }

  lemma LeastRearranged(a: seq<Row>, b: seq<Row>, id: string)
    requires Rearranged(a, b)
    ensures CostList(a, id) == [] <==> CostList(b, id) == []
    ensures CostList(a, id) != [] ==> Min(CostList(a, id)) == Min(CostList(b, id))
  {
    RearrangedContents(a, b);
    var s, t := CostList(a, id), CostList(b, id);
    forall x ensures x in s <==> x in t {
      CostListContents(a, id, x);
      CostListContents(b, id, x);
    }
    assert s != [] ==> s[0] in t;
    assert t != [] ==> t[0] in s;
    CostListPositive(a, id);
    CostListPositive(b, id);
    if s != [] {
      MinBounds(s);
      MinBounds(t);
    }
  }

  lemma SetsRearranged(a: seq<Row>, b: seq<Row>, threshold: real)
    requires Rearranged(a, b)
    ensures Instances(a) == Instances(b) && ResolvedIds(a) == ResolvedIds(b)
    ensures ExpensiveIds(a, threshold) == ExpensiveIds(b, threshold)
  {
    SetsWithin(a, b, threshold);
    SetsWithin(b, a, threshold);
  }

  lemma SetsWithin(a: seq<Row>, b: seq<Row>, threshold: real)
    requires Rearranged(a, b)
    ensures Instances(a) <= Instances(b) && ResolvedIds(a) <= ResolvedIds(b)
    ensures ExpensiveIds(a, threshold) <= ExpensiveIds(b, threshold)
  {
    RearrangedContents(a, b);
    forall i | 0 <= i < |a| ensures exists j :: 0 <= j < |b| && b[j] == a[i] {
      assert a[i] in a;
    }
  }

  lemma LeastCostsRearranged(a: seq<Row>, b: seq<Row>)
    requires Rearranged(a, b)
    ensures LeastCosts(a) == LeastCosts(b)
  {
    SetsRearranged(a, b, 0.0);
    forall id: string
      ensures CostList(a, id) == [] <==> CostList(b, id) == []
      ensures CostList(a, id) != [] ==> Min(CostList(a, id)) == Min(CostList(b, id))
    {
      LeastRearranged(a, b, id);
    }
  }

  // ---------- the figures ----------

  lemma MarginalUnique(least: map<string, real>, m1: Option<real>, m2: Option<real>)
    requires IsMarginal(least, m1) && IsMarginal(least, m2)
    ensures m1 == m2
  {
  }

  lemma CountsRearranged(a: seq<Row>, b: seq<Row>, threshold: real, m1: Figures, m2: Figures)
    requires Rearranged(a, b) && CountsOf(a, threshold, m1) && CountsOf(b, threshold, m2)
    ensures m1.attempts == m2.attempts && m1.instances == m2.instances && m1.resolved == m2.resolved
    ensures m1.rate == m2.rate && m1.coverage == m2.coverage && m1.exclusive == m2.exclusive
  {
    RearrangedContents(a, b);
    SetsRearranged(a, b, threshold);
    LeastCostsRearranged(a, b);
    assert ExclusiveIds(a, threshold) == ExclusiveIds(b, threshold);
  }

  /** The figures of a group are determined by its rows, in any order. */
  lemma FiguresRearranged(a: seq<Row>, b: seq<Row>, threshold: real, m1: Figures, m2: Figures)
    requires Rearranged(a, b) && AreFigures(a, threshold, m1) && AreFigures(b, threshold, m2)
    ensures m1 == m2
  {
    CountsRearranged(a, b, threshold, m1, m2);
    forall column ensures Cell(m1, column) == Cell(m2, column) {
      CellRearranged(a, b, threshold, m1, m2, column);
    }
    CellsDetermine(m1, m2);
    PercentilesRearranged(a, b, 50);
    PercentilesRearranged(a, b, 95);
    LeastCostsRearranged(a, b);
    MarginalUnique(LeastCosts(a), m1.marginal, m2.marginal);
  }

  lemma CellRearranged(a: seq<Row>, b: seq<Row>, threshold: real, m1: Figures, m2: Figures, column: Column)
    requires Rearranged(a, b) && AreFigures(a, threshold, m1) && AreFigures(b, threshold, m2)
    ensures Cell(m1, column) == Cell(m2, column)
  {
    SumByRearranged(a, b, Measure(column));
    CellIsMeasure(a, threshold, m1, column);
    CellIsMeasure(b, threshold, m2, column);
  }

  lemma CellsDetermine(m1: Figures, m2: Figures)
    requires forall column :: Cell(m1, column) == Cell(m2, column)
    ensures m1.totalCost == m2.totalCost && m1.duration == m2.duration && m1.resolvedDuration == m2.resolvedDuration
    ensures m1.input == m2.input && m1.output == m2.output && m1.tokens == m2.tokens && m1.tools == m2.tools
  {
    assert Cell(m1, Cost) == Cell(m2, Cost) && Cell(m1, Duration) == Cell(m2, Duration);
    assert Cell(m1, ResolvedDuration) == Cell(m2, ResolvedDuration) && Cell(m1, Input) == Cell(m2, Input);
    assert Cell(m1, Output) == Cell(m2, Output) && Cell(m1, Tokens) == Cell(m2, Tokens);
    assert Cell(m1, Tools) == Cell(m2, Tools);
  }

  lemma SameGroups(a: seq<Row>, b: seq<Row>, dims: seq<string>, threshold: real, r1: seq<Summary>, r2: seq<Summary>)
    requires Rearranged(a, b)
    requires IsReport(a, dims, threshold, r1) && IsReport(b, dims, threshold, r2)
    ensures GroupsOf(r1) == GroupsOf(r2)
  {
    RearrangedContents(a, b);
    KeyLessStrict();
    forall key ensures key in GroupsOf(r1) <==> key in GroupsOf(r2) {
      KeyInGroups(a, dims, key);
      KeyInGroups(b, dims, key);
    }
    StrictlyOrderedUnique(GroupsOf(r1), GroupsOf(r2), KeyLess);
  }

  /** The report is determined by the attempts and the dimensions: whatever order the attempts come in, every group,
      every figure and the order of the summaries are the same. */
  lemma ReportIgnoresOrder(a: seq<Row>, b: seq<Row>, dims: seq<string>, threshold: real, r1: seq<Summary>,
                           r2: seq<Summary>)
    requires Rearranged(a, b)
    requires IsReport(a, dims, threshold, r1) && IsReport(b, dims, threshold, r2)
    ensures r1 == r2
  {
    SameGroups(a, b, dims, threshold, r1, r2);
    assert |r1| == |GroupsOf(r1)| == |r2|;
    forall i | 0 <= i < |r1| ensures r1[i] == r2[i] {
      assert GroupsOf(r1)[i] == GroupsOf(r2)[i];
      assert r1[i] in r1 && r2[i] in r2;
      var key := r1[i].group;
      MembersRearranged(a, b, dims, key);
      FiguresRearranged(Members(a, dims, key), Members(b, dims, key), threshold, r1[i].figures, r2[i].figures);
    }
  }
}
