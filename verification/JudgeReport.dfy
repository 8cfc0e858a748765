/** Scores and the report of the diff judge (repogauge/runner/diff_judge.py): reading the dimensions of an answer, the
    weighted overall score in hundredths (exact, since every weight is a multiple of 0.05), its label, and the one row
    per job that the report counts. */
module JudgeReport {
  import opened Wrappers
  import opened Text
  import opened Sorting
  import opened DiffJudge

  datatype Label = MuchWorse | Worse | Same | Better | MuchBetter

  /** One dimension of an answer: stripped name, recognised label if any, and the delta if it reads as an integer. */
  datatype Item = Item(name: string, word: Option<Label>, delta: Option<int>)

  const DIMENSIONS: seq<(string, int)> :=
    [("task_fit", 30), ("correctness_safety", 25), ("maintainability", 20), ("test_quality", 15), ("change_focus", 10)]

  function DeltaOf(l: Label): (d: int)
    ensures -2 <= d <= 2 && LabelOf(d) == l
  {
    match l
    case MuchWorse => -2
    case Worse => -1
    case Same => 0
    case Better => 1
    case MuchBetter => 2
  }

  function LabelOf(delta: int): Label
    requires -2 <= delta <= 2
  {
    if delta == -2 then MuchWorse else if delta == -1 then Worse else if delta == 0 then Same
    else if delta == 1 then Better else MuchBetter
  }

  /** `_label_from_overall_delta`, on hundredths. */
  function OverallLabel(hundredths: int): Label {
    if hundredths <= -125 then MuchWorse
    else if hundredths <= -35 then Worse
    else if hundredths < 35 then Same
    else if hundredths < 125 then Better
    else MuchBetter
  }

  // ---------- reading an answer ----------

  /** `_parse_dimension`: a recognised label wins over the number. */
  function ParseDelta(item: Item): Option<int> {
    match item.word
    case Some(l) => Some(DeltaOf(l))
    case None => if item.delta.Some? && -2 <= item.delta.value <= 2 then item.delta else None
  }

  /** The last item of a name. */
  function Named(items: seq<Item>, name: string): Option<Item> {
    if items == [] then None
    else if items[|items| - 1].name == name then Some(items[|items| - 1])
    else Named(items[..|items| - 1], name)
  }

  predicate Parsable(items: seq<Item>, name: string) {
    Named(items, name).Some? && ParseDelta(Named(items, name).value).Some?
  }

  /** `_parse_dimensions`: one delta per dimension of the rubric, in the rubric's order; extra items are ignored, and
      a missing or unreadable one spoils the whole answer. */
  method ParseDimensions(items: seq<Item>) returns (deltas: Option<seq<int>>)
    ensures deltas.Some? <==> forall k | 0 <= k < |DIMENSIONS| :: Parsable(items, DIMENSIONS[k].0)
    ensures deltas.Some? ==> |deltas.value| == |DIMENSIONS| && forall k | 0 <= k < |DIMENSIONS| ::
      Parsable(items, DIMENSIONS[k].0) && Some(deltas.value[k]) == ParseDelta(Named(items, DIMENSIONS[k].0).value)
  {
    var byName: map<string, Item> := map[];
    for i := 0 to |items|
      invariant forall name :: Named(items[..i], name) == if name in byName then Some(byName[name]) else None
    {
      assert items[..i + 1][..i] == items[..i];
      byName := byName[items[i].name := items[i]];
    }
    assert items[..|items|] == items;
    var parsed: seq<int> := [];
    for k := 0 to |DIMENSIONS|
      invariant |parsed| == k
      invariant forall m | 0 <= m < k :: Parsable(items, DIMENSIONS[m].0)
                                         && Some(parsed[m]) == ParseDelta(Named(items, DIMENSIONS[m].0).value)
    {
      var name := DIMENSIONS[k].0;
      assert Named(items, name) == if name in byName then Some(byName[name]) else None;
      if name !in byName {
        assert !Parsable(items, DIMENSIONS[k].0);
        return None;
      }
      var delta := ParseDelta(byName[name]);
      if delta == None {
        assert !Parsable(items, DIMENSIONS[k].0);
        return None;
      }
      parsed := parsed + [delta.value];
    }
    deltas := Some(parsed);
  }

  // ---------- the overall score ----------

  predicate Deltas(deltas: seq<int>) {
    |deltas| == |DIMENSIONS| && forall k | 0 <= k < |deltas| :: -2 <= deltas[k] <= 2
  }

  function WeightedSum(deltas: seq<int>, n: nat): int
    requires n <= |deltas| && n <= |DIMENSIONS|
  {
    if n == 0 then 0 else WeightedSum(deltas, n - 1) + DIMENSIONS[n - 1].1 * deltas[n - 1]
  }

  /** `_overall_delta` */
  method OverallDelta(deltas: seq<int>) returns (total: int)
    requires Deltas(deltas)
    ensures total == WeightedSum(deltas, |deltas|)
  {
    total := 0;
    for k := 0 to |deltas|
      invariant total == WeightedSum(deltas, k)
    {
      total := total + DIMENSIONS[k].1 * deltas[k];
    }
  }

  lemma WeightedSumIs(d: seq<int>)
    requires Deltas(d)
    ensures WeightedSum(d, |d|) == 30 * d[0] + 25 * d[1] + 20 * d[2] + 15 * d[3] + 10 * d[4]
  {
    assert WeightedSum(d, 1) == 30 * d[0];
    assert WeightedSum(d, 2) == 30 * d[0] + 25 * d[1];
    assert WeightedSum(d, 4) == WeightedSum(d, 2) + 20 * d[2] + 15 * d[3];
  }

  /** The overall label is never worse than the worst dimension nor better than the best; so five equal labels give
      that label. */
  lemma LabelWithinDimensions(deltas: seq<int>, lo: int, hi: int)
    requires Deltas(deltas) && -2 <= lo <= hi <= 2
    requires forall k | 0 <= k < |deltas| :: lo <= deltas[k] <= hi
    ensures lo <= DeltaOf(OverallLabel(WeightedSum(deltas, |deltas|))) <= hi
  {
    WeightedSumIs(deltas);
    assert 100 * lo <= WeightedSum(deltas, |deltas|) <= 100 * hi;
  }

  /** Raising dimensions never lowers the label. */
  lemma LabelMonotone(a: seq<int>, b: seq<int>)
    requires Deltas(a) && Deltas(b) && forall k | 0 <= k < |a| :: a[k] <= b[k]
    ensures DeltaOf(OverallLabel(WeightedSum(a, |a|))) <= DeltaOf(OverallLabel(WeightedSum(b, |b|)))
  {
    WeightedSumIs(a);
    WeightedSumIs(b);
    assert WeightedSum(a, |a|) <= WeightedSum(b, |b|);
  }

  /** The bands are symmetric: judging the other way round mirrors the label. */
  lemma LabelMirrors(a: seq<int>, b: seq<int>)
    requires Deltas(a) && Deltas(b) && forall k | 0 <= k < |a| :: b[k] == -a[k]
    ensures DeltaOf(OverallLabel(WeightedSum(b, |b|))) == -DeltaOf(OverallLabel(WeightedSum(a, |a|)))
  {
    WeightedSumIs(a);
    WeightedSumIs(b);
    assert WeightedSum(b, |b|) == -WeightedSum(a, |a|);
  }

  /** What an answer comes to: a delta per dimension, their weighted sum and its label. */
  datatype Score = Score(deltas: seq<int>, total: int, verdict: Label)

  ghost predicate Scores(items: seq<Item>, score: Score) {
    && Deltas(score.deltas)
    && (forall k | 0 <= k < |DIMENSIONS| ::
          Parsable(items, DIMENSIONS[k].0) && Some(score.deltas[k]) == ParseDelta(Named(items, DIMENSIONS[k].0).value))
    && score.total == WeightedSum(score.deltas, |score.deltas|)
    && score.verdict == OverallLabel(score.total)
  }

  /** The scoring in `_judge_row_from_response`. */
  method ScoreAnswer(items: seq<Item>) returns (score: Option<Score>)
    ensures score.Some? <==> forall k | 0 <= k < |DIMENSIONS| :: Parsable(items, DIMENSIONS[k].0)
    ensures score.Some? ==> Scores(items, score.value)
  {
    var deltas := ParseDimensions(items);
    if deltas == None {
      return None;
    }
    var total := OverallDelta(deltas.value);
    score := Some(Score(deltas.value, total, OverallLabel(total)));
  }

  /** Every scored answer is labelled within the range of its dimensions. */
  lemma ScoreWithinDimensions(items: seq<Item>, score: Score, lo: int, hi: int)
    requires Scores(items, score) && -2 <= lo <= hi <= 2
    requires forall k | 0 <= k < |DIMENSIONS| && Parsable(items, DIMENSIONS[k].0) ::
      lo <= ParseDelta(Named(items, DIMENSIONS[k].0).value).value <= hi
    ensures lo <= DeltaOf(score.verdict) <= hi
  {
    forall k | 0 <= k < |score.deltas| ensures lo <= score.deltas[k] <= hi {
      assert Parsable(items, DIMENSIONS[k].0);
    }
    LabelWithinDimensions(score.deltas, lo, hi);
  }

  // ---------- one row per job ----------

  function JobName(row: JudgeRow): string {
    if row.job != "" then row.job else row.solver + ":" + row.instance
  }

  /** (attempt index, attempt id), the index being read off the id. */
  predicate KeyLe(indexOf: string -> nat, a: JudgeRow, b: JudgeRow) {
    indexOf(a.attempt) < indexOf(b.attempt)
    || (indexOf(a.attempt) == indexOf(b.attempt) && !Less(b.attempt, a.attempt))
  }

  lemma KeyLeTotal(indexOf: string -> nat, a: JudgeRow, b: JudgeRow)
    ensures KeyLe(indexOf, a, a)
    ensures KeyLe(indexOf, a, b) || KeyLe(indexOf, b, a)
    ensures KeyLe(indexOf, a, b) && KeyLe(indexOf, b, a) ==> a.attempt == b.attempt
  {
    LessTotal(a.attempt, b.attempt);
    LessTotal(a.attempt, a.attempt);
  }

  lemma KeyLeTransitive(indexOf: string -> nat, a: JudgeRow, b: JudgeRow, c: JudgeRow)
    requires KeyLe(indexOf, a, b) && KeyLe(indexOf, b, c)
    ensures KeyLe(indexOf, a, c)
  {
    LessTotal(a.attempt, b.attempt);
    LessTotal(b.attempt, c.attempt);
    LessTotal(a.attempt, c.attempt);
    if Less(a.attempt, b.attempt) && Less(b.attempt, c.attempt) {
      LessTransitive(a.attempt, b.attempt, c.attempt);
    }
  }

  /** Row i has the greatest key of its job, and the later rows of the job have smaller keys. */
  ghost predicate IsLatest(indexOf: string -> nat, rows: seq<JudgeRow>, i: int) {
    0 <= i < |rows| && forall j | 0 <= j < |rows| && JobName(rows[j]) == JobName(rows[i]) ::
      KeyLe(indexOf, rows[j], rows[i]) && (KeyLe(indexOf, rows[i], rows[j]) ==> j <= i)
  }

  ghost predicate Selects(indexOf: string -> nat, rows: seq<JudgeRow>, selected: map<string, JudgeRow>) {
    && (forall i | 0 <= i < |rows| :: JobName(rows[i]) in selected)
    && (forall job | job in selected :: LatestOf(indexOf, rows, job, selected[job]))
  }

  ghost predicate LatestOf(indexOf: string -> nat, rows: seq<JudgeRow>, job: string, row: JudgeRow) {
    exists i :: IsLatest(indexOf, rows, i) && JobName(rows[i]) == job && row == rows[i]
  }

  /** The jobs in order of first appearance. */
  function JobsOf(rows: seq<JudgeRow>): seq<string> {
    if rows == [] then []
    else
      var before, job := JobsOf(rows[..|rows| - 1]), JobName(rows[|rows| - 1]);
      if job in before then before else before + [job]
  }

  function Listed(jobs: seq<string>, selected: map<string, JudgeRow>): seq<JudgeRow> {
    if jobs == [] then []
    else
      var before := Listed(jobs[..|jobs| - 1], selected);
      if jobs[|jobs| - 1] in selected then before + [selected[jobs[|jobs| - 1]]] else before
  }

  /** The latest rows of the jobs, sorted by instance, solver and attempt; ties stay in order of the jobs. */
  ghost predicate IsLatestRows(indexOf: string -> nat, rows: seq<JudgeRow>, latest: seq<JudgeRow>) {
    exists selected :: Selects(indexOf, rows, selected) && latest == Sort(Listed(JobsOf(rows), selected), RowLe)
  }

  /** `_latest_rows_by_job`: the later attempt of a job wins, the later row on a tie. */
  method LatestRowsByJob(indexOf: string -> nat, rows: seq<JudgeRow>) returns (latest: seq<JudgeRow>)
    ensures IsLatestRows(indexOf, rows, latest)
  {
    var jobs: seq<string>, selected: map<string, JudgeRow> := [], map[];
    for n := 0 to |rows|
      invariant Selects(indexOf, rows[..n], selected) && jobs == JobsOf(rows[..n])
    {
      var row := rows[n];
      var job := JobName(row);
      assert rows[..n + 1] == rows[..n] + [row];
      SelectedJobsAre(indexOf, rows[..n], selected);
      ghost var before := selected;
      if job !in selected {
        jobs := jobs + [job];
      }
      if job !in selected || KeyLe(indexOf, selected[job], row) {
        selected := selected[job := row];
      }
      SelectsStep(indexOf, rows[..n], row, before, selected);
    }
    assert rows[..|rows|] == rows;
    latest := Sort(Listed(jobs, selected), RowLe);
  }

  lemma {:induction false} JobsOfContents(rows: seq<JudgeRow>)
    ensures Distinct(JobsOf(rows))
    ensures forall job :: job in JobsOf(rows) <==> exists i :: 0 <= i < |rows| && JobName(rows[i]) == job
  {
    if rows != [] {
      var n := |rows| - 1;
      var before, last := JobsOf(rows[..n]), JobName(rows[n]);
      JobsOfContents(rows[..n]);
      if last !in before {
        DistinctAppended(before, last);
      }
      forall job ensures job in JobsOf(rows) <==> exists i :: 0 <= i < |rows| && JobName(rows[i]) == job {
        assert job in JobsOf(rows) <==> job in before || job == last;
        assert JobName(rows[n]) == last;
        assert forall i | 0 <= i < n :: rows[..n][i] == rows[i];
      }
    }
  }

  lemma SelectedJobsAre(indexOf: string -> nat, rows: seq<JudgeRow>, selected: map<string, JudgeRow>)
    requires Selects(indexOf, rows, selected)
    ensures forall job :: job in selected <==> job in JobsOf(rows)
  {
    JobsOfContents(rows);
    forall job | job in selected ensures job in JobsOf(rows) {
      var i :| IsLatest(indexOf, rows, i) && JobName(rows[i]) == job && selected[job] == rows[i];
    }
  }

  lemma {:induction false} ListedAt(jobs: seq<string>, selected: map<string, JudgeRow>)
    requires forall job | job in jobs :: job in selected
    ensures |Listed(jobs, selected)| == |jobs|
    ensures forall i | 0 <= i < |jobs| :: jobs[i] in selected && Listed(jobs, selected)[i] == selected[jobs[i]]
  {
    if jobs != [] {
      var n := |jobs| - 1;
      assert jobs[n] in jobs && forall job | job in jobs[..n] :: job in jobs;
      ListedAt(jobs[..n], selected);
    }
  }

  lemma SelectsStep(indexOf: string -> nat, rows: seq<JudgeRow>, row: JudgeRow, before: map<string, JudgeRow>,
                    after: map<string, JudgeRow>)
    requires Selects(indexOf, rows, before)
    requires var job := JobName(row);
      after == if job !in before || KeyLe(indexOf, before[job], row) then before[job := row] else before
    ensures Selects(indexOf, rows + [row], after)
  {
    var all, job := rows + [row], JobName(row);
    forall name | name in after ensures LatestOf(indexOf, all, name, after[name]) {
      if name != job {
        OtherJobStays(indexOf, rows, row, name, before[name]);
      } else if job in before {
        JobStep(indexOf, rows, row, before[job]);
      } else {
        FirstOfJob(indexOf, rows, row);
      }
    }
  }

  lemma OtherJobStays(indexOf: string -> nat, rows: seq<JudgeRow>, row: JudgeRow, job: string, latest: JudgeRow)
    requires LatestOf(indexOf, rows, job, latest) && job != JobName(row)
    ensures LatestOf(indexOf, rows + [row], job, latest)
  {
    var i :| IsLatest(indexOf, rows, i) && JobName(rows[i]) == job && latest == rows[i];
    assert IsLatest(indexOf, rows + [row], i);
  }

  lemma FirstOfJob(indexOf: string -> nat, rows: seq<JudgeRow>, row: JudgeRow)
    requires forall i | 0 <= i < |rows| :: JobName(rows[i]) != JobName(row)
    ensures LatestOf(indexOf, rows + [row], JobName(row), row)
  {
    KeyLeTotal(indexOf, row, row);
    assert IsLatest(indexOf, rows + [row], |rows|);
  }

  /** The new row against the latest of its job so far. */
  lemma JobStep(indexOf: string -> nat, rows: seq<JudgeRow>, row: JudgeRow, latest: JudgeRow)
    requires LatestOf(indexOf, rows, JobName(row), latest)
    ensures LatestOf(indexOf, rows + [row], JobName(row), if KeyLe(indexOf, latest, row) then row else latest)
  {
    var all, job := rows + [row], JobName(row);
    var i :| IsLatest(indexOf, rows, i) && JobName(rows[i]) == job && latest == rows[i];
    KeyLeTotal(indexOf, row, row);
    KeyLeTotal(indexOf, latest, row);
    if KeyLe(indexOf, latest, row) {
      forall j | 0 <= j < |all| && JobName(all[j]) == job ensures KeyLe(indexOf, all[j], row) {
        if j < |rows| {
          KeyLeTransitive(indexOf, rows[j], rows[i], row);
        }
      }
      assert IsLatest(indexOf, all, |rows|);
    } else {
      assert IsLatest(indexOf, all, i);
    }
  }

  lemma ListedSelection(indexOf: string -> nat, rows: seq<JudgeRow>, selected: map<string, JudgeRow>)
    requires Selects(indexOf, rows, selected)
    ensures var listed := Listed(JobsOf(rows), selected);
      && DistinctBy(listed, JobName)
      && (forall job | job in selected :: selected[job] in listed)
      && (forall row | row in listed :: JobName(row) in selected && selected[JobName(row)] == row)
  {
    var jobs := JobsOf(rows);
    JobsOfContents(rows);
    SelectedJobsAre(indexOf, rows, selected);
    ListedAt(jobs, selected);
    forall job | job in selected ensures JobName(selected[job]) == job {
      SelectedIsGreatest(indexOf, rows, selected, job, selected[job]);
    }
    ListedByName(jobs, selected, Listed(jobs, selected));
  }

  lemma ListedByName(jobs: seq<string>, selected: map<string, JudgeRow>, listed: seq<JudgeRow>)
    requires Distinct(jobs) && |listed| == |jobs| && forall job :: job in selected <==> job in jobs
    requires forall job | job in selected :: JobName(selected[job]) == job
    requires forall i | 0 <= i < |jobs| :: jobs[i] in selected && listed[i] == selected[jobs[i]]
    ensures DistinctBy(listed, JobName)
    ensures forall job | job in selected :: selected[job] in listed
    ensures forall row | row in listed :: JobName(row) in selected && selected[JobName(row)] == row
  {
    forall job | job in selected ensures selected[job] in listed {
      var i :| 0 <= i < |jobs| && jobs[i] == job;
      assert listed[i] == selected[job];
    }
    forall i, j | 0 <= i < j < |listed| ensures JobName(listed[i]) != JobName(listed[j]) {
      assert jobs[i] != jobs[j];
    }
  }

  /** The selection holds the latest row of every job once and is sorted. */
  lemma LatestRowsContents(indexOf: string -> nat, rows: seq<JudgeRow>, latest: seq<JudgeRow>)
    requires IsLatestRows(indexOf, rows, latest)
    ensures Ordered(latest, RowLe) && DistinctBy(latest, JobName)
    ensures forall row | row in latest :: LatestOf(indexOf, rows, JobName(row), row)
    ensures forall r | r in rows :: exists row :: row in latest && JobName(row) == JobName(r)
  {
    var selected :| Selects(indexOf, rows, selected) && latest == Sort(Listed(JobsOf(rows), selected), RowLe);
    var listed := Listed(JobsOf(rows), selected);
    ListedSelection(indexOf, rows, selected);
    SortContents(listed, RowLe);
    RowOrderIsTotal();
    SortOrdered(listed, RowLe);
    DistinctByPermuted(listed, latest, JobName);
    forall r | r in rows ensures exists row :: row in latest && JobName(row) == JobName(r) {
      var i :| 0 <= i < |rows| && rows[i] == r;
      SelectedIsGreatest(indexOf, rows, selected, JobName(rows[i]), r);
      assert selected[JobName(r)] in listed;
    }
  }

  /** No job has two different rows under one attempt id. */
  ghost predicate AttemptsIdentify(rows: seq<JudgeRow>) {
    forall x, y | x in rows && y in rows && JobName(x) == JobName(y) && x.attempt == y.attempt :: x == y
  }

  /** When attempt ids identify the rows of a job, the order of the input does not show in which rows are selected; nor
      in the order of the selection, when no two different rows share instance, solver and attempt. */
  lemma LatestIgnoresOrder(indexOf: string -> nat, a: seq<JudgeRow>, b: seq<JudgeRow>, latestA: seq<JudgeRow>,
                              latestB: seq<JudgeRow>)
    requires IsLatestRows(indexOf, a, latestA) && IsLatestRows(indexOf, b, latestB)
    requires AttemptsIdentify(a) && forall row :: row in a <==> row in b
    ensures multiset(latestA) == multiset(latestB)
    ensures Tieless(a, RowLe) ==> latestA == latestB
  {
    var selectedA :| Selects(indexOf, a, selectedA) && latestA == Sort(Listed(JobsOf(a), selectedA), RowLe);
    var selectedB :| Selects(indexOf, b, selectedB) && latestB == Sort(Listed(JobsOf(b), selectedB), RowLe);
    SelectedIgnoresOrder(indexOf, a, b, selectedA, selectedB);
    ListedSelection(indexOf, a, selectedA);
    ListedSelection(indexOf, b, selectedB);
    assert forall row :: row in Listed(JobsOf(a), selectedA) <==> row in Listed(JobsOf(b), selectedB);
    SameElements(Listed(JobsOf(a), selectedA), Listed(JobsOf(b), selectedB));
    SortContents(Listed(JobsOf(a), selectedA), RowLe);
    SortContents(Listed(JobsOf(b), selectedB), RowLe);
    if Tieless(a, RowLe) {
      LatestAreGiven(indexOf, a, latestA);
      LatestRowsContents(indexOf, b, latestB);
      RowOrderIsTotal();
      OrderedUnique(latestA, latestB, RowLe);
    }
  }

  lemma LatestAreGiven(indexOf: string -> nat, rows: seq<JudgeRow>, latest: seq<JudgeRow>)
    requires IsLatestRows(indexOf, rows, latest)
    ensures Ordered(latest, RowLe) && (Tieless(rows, RowLe) ==> Tieless(latest, RowLe))
  {
    LatestRowsContents(indexOf, rows, latest);
    forall row | row in latest ensures row in rows {
      assert LatestOf(indexOf, rows, JobName(row), row);
    }
  }

  lemma SelectedIgnoresOrder(indexOf: string -> nat, a: seq<JudgeRow>, b: seq<JudgeRow>,
                             selectedA: map<string, JudgeRow>, selectedB: map<string, JudgeRow>)
    requires Selects(indexOf, a, selectedA) && Selects(indexOf, b, selectedB)
    requires AttemptsIdentify(a) && forall row :: row in a <==> row in b
    ensures selectedA == selectedB
  {
    forall job ensures job in selectedA <==> job in selectedB {
      SelectedJobs(indexOf, a, b, selectedA, selectedB, job);
      SelectedJobs(indexOf, b, a, selectedB, selectedA, job);
    }
    forall job | job in selectedA ensures selectedA[job] == selectedB[job] {
      SameSelection(indexOf, a, b, selectedA, selectedB, job);
    }
  }

  /** A selected row is the greatest of its job. */
  lemma SelectedIsGreatest(indexOf: string -> nat, rows: seq<JudgeRow>, selected: map<string, JudgeRow>, job: string,
                           other: JudgeRow)
    requires Selects(indexOf, rows, selected) && job in selected
    ensures selected[job] in rows && JobName(selected[job]) == job
    ensures other in rows && JobName(other) == job ==> KeyLe(indexOf, other, selected[job])
  {
    var i :| IsLatest(indexOf, rows, i) && JobName(rows[i]) == job && selected[job] == rows[i];
    assert other in rows ==> exists k :: 0 <= k < |rows| && rows[k] == other;
  }

  lemma SameSelection(indexOf: string -> nat, a: seq<JudgeRow>, b: seq<JudgeRow>, selectedA: map<string, JudgeRow>,
                      selectedB: map<string, JudgeRow>, job: string)
    requires Selects(indexOf, a, selectedA) && Selects(indexOf, b, selectedB)
    requires job in selectedA && job in selectedB
    requires AttemptsIdentify(a) && forall row :: row in a <==> row in b
    ensures selectedA[job] == selectedB[job]
  {
    var x, y := selectedA[job], selectedB[job];
    SelectedIsGreatest(indexOf, a, selectedA, job, y);
    SelectedIsGreatest(indexOf, b, selectedB, job, x);
    KeyLeTotal(indexOf, x, y);
  }

  lemma SelectedJobs(indexOf: string -> nat, a: seq<JudgeRow>, b: seq<JudgeRow>, selectedA: map<string, JudgeRow>,
                     selectedB: map<string, JudgeRow>, job: string)
    requires Selects(indexOf, a, selectedA) && Selects(indexOf, b, selectedB)
    requires forall row :: row in a ==> row in b
    ensures job in selectedA ==> job in selectedB
  {
    if job in selectedA {
      var i :| IsLatest(indexOf, a, i) && JobName(a[i]) == job && selectedA[job] == a[i];
      assert a[i] in a;
      var m :| 0 <= m < |b| && b[m] == a[i];
      assert JobName(b[m]) in selectedB;
    }
  }
}
