/** The report of all groups (`summarize_attempt_metrics` in repogauge/runner/analyze.py): one summary per group in the
    order of the group keys, and what the summaries add up to. */
module MetricsReport {
  import opened Wrappers
  import opened Text
  import opened Sorting
  import opened Metrics
  import opened Groups

  // ---------- the order of group keys ----------

  /** Python's order of tuples of (dimension, value) tuples. */
  predicate PairLess(a: (string, string), b: (string, string)) {
    Less(a.0, b.0) || (a.0 == b.0 && Less(a.1, b.1))
  }

  predicate KeyLess(a: Key, b: Key) {
    b != [] && (a == [] || PairLess(a[0], b[0]) || (a[0] == b[0] && KeyLess(a[1..], b[1..])))
  }

  lemma PairLessTotal(a: (string, string), b: (string, string))
    ensures !PairLess(a, a)
    ensures a != b ==> PairLess(a, b) != PairLess(b, a)
  {
    LessTotal(a.0, b.0);
    LessTotal(a.1, b.1);
  }

  lemma PairLessTransitive(a: (string, string), b: (string, string), c: (string, string))
    requires PairLess(a, b) && PairLess(b, c)
    ensures PairLess(a, c)
  {
    if Less(a.0, b.0) && Less(b.0, c.0) {
      LessTransitive(a.0, b.0, c.0);
    }
    if Less(a.1, b.1) && Less(b.1, c.1) {
      LessTransitive(a.1, b.1, c.1);
    }
  }

  lemma {:induction false} KeyLessTotal(a: Key, b: Key)
    ensures !KeyLess(a, a)
    ensures a != b ==> KeyLess(a, b) != KeyLess(b, a)
  {
    if a != [] {
      PairLessTotal(a[0], a[0]);
      KeyLessTotal(a[1..], if b != [] then b[1..] else []);
      if b != [] {
        PairLessTotal(a[0], b[0]);
        assert a[0] == b[0] && a[1..] == b[1..] ==> a == [a[0]] + a[1..] == b;
      }
    }
  }

  lemma {:induction false} KeyLessTransitive(a: Key, b: Key, c: Key)
    requires KeyLess(a, b) && KeyLess(b, c)
    ensures KeyLess(a, c)
  {
    if a != [] {
      if PairLess(a[0], b[0]) && PairLess(b[0], c[0]) {
        PairLessTransitive(a[0], b[0], c[0]);
      }
      if a[0] == b[0] && b[0] == c[0] {
        PairLessTotal(a[0], a[0]);
        KeyLessTransitive(a[1..], b[1..], c[1..]);
      }
    }
  }

  lemma KeyLessStrict()
    ensures StrictTotal(KeyLess)
  {
    forall a, b ensures !KeyLess(a, a) && (a != b ==> KeyLess(a, b) || KeyLess(b, a)) {
      KeyLessTotal(a, b);
    }
    forall a, b, c | KeyLess(a, b) && KeyLess(b, c) ensures KeyLess(a, c) {
      KeyLessTransitive(a, b, c);
    }
  }

  // ---------- the report ----------

  datatype Summary = Summary(group: Key, figures: Figures)

  function GroupOf(s: Summary): Key {
    s.group
  }

  predicate SummaryLe(x: Summary, y: Summary) {
    !KeyLess(y.group, x.group)
  }

  function GroupsOf(report: seq<Summary>): (groups: seq<Key>)
    ensures |groups| == |report| && forall i | 0 <= i < |report| :: groups[i] == report[i].group
  {
    if report == [] then [] else GroupsOf(report[..|report| - 1]) + [report[|report| - 1].group]
  }

  /** One summary per group, in increasing order of the keys, with the figures of just that group's rows. */
  ghost predicate IsReport(rows: seq<Row>, dims: seq<string>, threshold: real, report: seq<Summary>) {
    && StrictlyOrdered(GroupsOf(report), KeyLess)
    && (forall key :: key in GroupsOf(report) <==> key in GroupKeys(rows, dims))
    && forall s | s in report :: AreFigures(Members(rows, dims, s.group), threshold, s.figures)
  }

  ghost predicate Summarizes(grouped: map<Key, seq<Row>>, threshold: real, s: Summary) {
    s.group in grouped && AreFigures(grouped[s.group], threshold, s.figures)
  }

  /** The summaries of some groups, in any order. */
  ghost predicate AreSummaries(grouped: map<Key, seq<Row>>, threshold: real, listed: seq<Summary>, keys: set<Key>) {
    && Distinct(GroupsOf(listed))
    && (forall key :: key in GroupsOf(listed) <==> key in keys)
    && forall s | s in listed :: Summarizes(grouped, threshold, s)
  }

  lemma SummaryAdded(grouped: map<Key, seq<Row>>, threshold: real, listed: seq<Summary>, keys: set<Key>, s: Summary)
    requires AreSummaries(grouped, threshold, listed, keys) && s.group !in keys && Summarizes(grouped, threshold, s)
    ensures AreSummaries(grouped, threshold, listed + [s], keys + {s.group})
  {
    assert (listed + [s])[..|listed|] == listed;
    assert GroupsOf(listed + [s]) == GroupsOf(listed) + [s.group];
    DistinctAppended(GroupsOf(listed), s.group);
  }

  lemma OneLess(all: set<Key>, rest: set<Key>, key: Key)
    requires key in rest && rest <= all
    ensures all - (rest - {key}) == all - rest + {key}
  {
  }

  method SummarizeEach(grouped: map<Key, seq<Row>>, threshold: real) returns (listed: seq<Summary>)
    ensures AreSummaries(grouped, threshold, listed, grouped.Keys)
  {
    listed := [];
    var rest := grouped.Keys;
    while rest != {}
      invariant rest <= grouped.Keys
      invariant AreSummaries(grouped, threshold, listed, grouped.Keys - rest)
    {
      var key :| key in rest;
      var figures := Summarize(grouped[key], threshold);
      SummaryAdded(grouped, threshold, listed, grouped.Keys - rest, Summary(key, figures));
      OneLess(grouped.Keys, rest, key);
      listed, rest := listed + [Summary(key, figures)], rest - {key};
    }
    assert grouped.Keys - {} == grouped.Keys;
  }

  lemma GroupListed(a: seq<Summary>, key: Key)
    ensures key in GroupsOf(a) <==> exists s :: s in a && s.group == key
  {
    if key in GroupsOf(a) {
      var i :| 0 <= i < |a| && GroupsOf(a)[i] == key;
      assert a[i] in a;
    }
    if s :| s in a && s.group == key {
      var i :| 0 <= i < |a| && a[i] == s;
      assert GroupsOf(a)[i] == key;
    }
  }

  /** Sorting the summaries by group makes the report. */
  lemma SortedSummaries(listed: seq<Summary>)
    requires Distinct(GroupsOf(listed))
    ensures var report := Sort(listed, SummaryLe);
      && StrictlyOrdered(GroupsOf(report), KeyLess)
      && (forall key :: key in GroupsOf(report) <==> key in GroupsOf(listed))
      && (forall s :: s in report <==> s in listed)
  {
    var report := Sort(listed, SummaryLe);
    SortContents(listed, SummaryLe);
    SummaryOrder();
    SortOrdered(listed, SummaryLe);
    forall key ensures key in GroupsOf(report) <==> key in GroupsOf(listed) {
      GroupListed(report, key);
      GroupListed(listed, key);
    }
    assert DistinctBy(listed, GroupOf) by {
      assert forall i | 0 <= i < |listed| :: GroupsOf(listed)[i] == GroupOf(listed[i]);
    }
    DistinctByPermuted(listed, report, GroupOf);
    forall i, j | 0 <= i < j < |report| ensures KeyLess(GroupsOf(report)[i], GroupsOf(report)[j]) {
      assert SummaryLe(report[i], report[j]) && GroupOf(report[i]) != GroupOf(report[j]);
      KeyLessTotal(report[i].group, report[j].group);
    }
  }

  lemma SummaryOrder()
    ensures TotalPreorder(SummaryLe)
  {
    KeyLessStrict();
    forall x, y, z | SummaryLe(x, y) && SummaryLe(y, z) ensures SummaryLe(x, z) {
      assert x.group == y.group || KeyLess(x.group, y.group);
      assert y.group == z.group || KeyLess(y.group, z.group);
    }
    forall x, y ensures SummaryLe(x, y) || SummaryLe(y, x) {
      KeyLessTotal(x.group, y.group);
    }
  }

  /** `summarize_attempt_metrics` on joined rows. */
  method SummarizeAttempts(rows: seq<Row>, dims: seq<string>, threshold: real) returns (report: seq<Summary>)
    ensures IsReport(rows, dims, threshold, report)
  {
    var grouped := GroupRows(rows, dims);
    var listed := SummarizeEach(grouped, threshold);
    SortedSummaries(listed);
    report := Sort(listed, SummaryLe);
  }

  // ---------- conservation over the report ----------

  function One(r: Row): real {
    1.0
  }

  lemma {:induction false} CountIsMeasure(rows: seq<Row>)
    ensures SumBy(rows, One) == |rows| as real
  {
    if rows != [] {
      CountIsMeasure(rows[..|rows| - 1]);
    }
  }

  /** The columns that count something. */
  datatype Column = Attempts | Duration | ResolvedDuration | Input | Output | Tokens | Tools | Cost

  function Cell(m: Figures, column: Column): real {
    match column
    case Attempts => m.attempts as real
    case Duration => m.duration
    case ResolvedDuration => m.resolvedDuration
    case Input => m.input
    case Output => m.output
    case Tokens => m.tokens
    case Tools => m.tools
    case Cost => m.totalCost
  }

  /** What a row contributes to a column. */
  function Measure(column: Column): Row -> real {
    match column
    case Attempts => One
    case Duration => DurationOf
    case ResolvedDuration => ResolvedDurationOf
    case Input => InputOf
    case Output => OutputOf
    case Tokens => TokensOf
    case Tools => ToolsOf
    case Cost => CostOf
  }

  function SumColumn(report: seq<Summary>, column: Column): real {
    if report == [] then 0.0
    else SumColumn(report[..|report| - 1], column) + Cell(report[|report| - 1].figures, column)
  }

  lemma CellIsMeasure(rows: seq<Row>, threshold: real, m: Figures, column: Column)
    requires AreFigures(rows, threshold, m)
    ensures Cell(m, column) == SumBy(rows, Measure(column))
  {
    CountIsMeasure(rows);
    TotalCostIsMeasure(rows);
  }

  lemma {:induction false} ColumnIsMap(report: seq<Summary>, column: Column, totals: map<Key, real>)
    requires Distinct(GroupsOf(report)) && forall key :: key in totals <==> key in GroupsOf(report)
    requires forall i | 0 <= i < |report| :: totals[GroupsOf(report)[i]] == Cell(report[i].figures, column)
    ensures SumColumn(report, column) == SumMap(totals)
  {
    if report == [] {
      assert totals == map[];
    } else {
      var n := |report| - 1;
      var last := report[n].group;
      LastGroup(report);
      SumMapPick(totals, last);
      ColumnIsMap(report[..n], column, totals - {last});
    }
  }

  lemma LastGroup(report: seq<Summary>)
    requires report != [] && Distinct(GroupsOf(report))
    ensures var before := GroupsOf(report[..|report| - 1]); var last := report[|report| - 1].group;
      && last in GroupsOf(report) && last !in before && Distinct(before)
      && forall key :: key in GroupsOf(report) && key != last <==> key in before
  {
    LastOfDistinct(GroupsOf(report[..|report| - 1]), report[|report| - 1].group);
  }

  /** The report conserves attempts, durations, tokens, tool calls and costs: for every `group_by` each column adds up
      to what all the rows together contribute. */
  lemma ReportConserves(rows: seq<Row>, dims: seq<string>, threshold: real, report: seq<Summary>, column: Column)
    requires IsReport(rows, dims, threshold, report)
    ensures SumColumn(report, column) == SumBy(rows, Measure(column))
    ensures column == Attempts ==> SumColumn(report, column) == |rows| as real
    ensures column == Cost ==> SumColumn(report, column) == TotalCost(rows)
  {
    var totals := GroupTotals(rows, dims, Measure(column));
    assert Distinct(GroupsOf(report)) by {
      KeyLessStrict();
    }
    forall i | 0 <= i < |report|
      ensures report[i].group in totals && totals[report[i].group] == Cell(report[i].figures, column)
    {
      assert report[i] in report && GroupsOf(report)[i] in GroupsOf(report);
      CellIsMeasure(Members(rows, dims, report[i].group), threshold, report[i].figures, column);
    }
    ColumnIsMap(report, column, totals);
    GroupingConserves(rows, dims, Measure(column));
    CountIsMeasure(rows);
    TotalCostIsMeasure(rows);
  }

  // ---------- within one summary ----------

  lemma {:induction false} DurationsContents(rows: seq<Row>)
    ensures Durations(rows) == [] <==> Instances(rows) == {}
    ensures forall x | x in Durations(rows) :: exists r :: r in rows && r.instance != "" && r.duration == x
  {
    if rows != [] {
      var n := |rows| - 1;
      DurationsContents(rows[..n]);
      SetsAppend(rows, 0.0);
      assert rows[n] in rows;
    }
  }

  /** In every summary p50 <= p95, both are durations of its attempts, and they are missing only if none is counted. */
  lemma SummaryPercentiles(rows: seq<Row>, threshold: real, m: Figures)
    requires AreFigures(rows, threshold, m)
    ensures (m.p50 == None <==> m.instances == 0) && (m.p95 == None <==> m.instances == 0)
    ensures m.instances > 0 ==>
      && m.p50.value <= m.p95.value
      && (exists r :: r in rows && r.instance != "" && r.duration == m.p50.value)
      && (exists r :: r in rows && r.instance != "" && r.duration == m.p95.value)
  {
    DurationsContents(rows);
    if Durations(rows) != [] {
      PercentilesAreOrderStatistics(Durations(rows), 50, 95);
      PercentilesAreOrderStatistics(Durations(rows), 95, 95);
    }
  }
}
