/** Scores and selected rows of the diff judge in terms of the answer and of the stored rows
    (repogauge/runner/diff_judge.py). */
module ScoreMeaning {
  import opened Wrappers
  import opened Text
  import opened Sorting
  import opened DiffJudge
  import opened JudgeReport

  ghost predicate LastNamed(items: seq<Item>, name: string, i: int) {
    0 <= i < |items| && items[i].name == name && forall j | i < j < |items| :: items[j].name != name
  }

  lemma {:induction false} NamedMeans(items: seq<Item>, name: string)
    ensures Named(items, name) == None <==> forall i | 0 <= i < |items| :: items[i].name != name
    ensures forall i | LastNamed(items, name, i) :: Named(items, name) == Some(items[i])
  {
    if items != [] {
      var n := |items| - 1;
      NamedMeans(items[..n], name);
      if items[n].name != name {
        assert forall i | 0 <= i < n :: items[..n][i] == items[i];
        assert forall i :: LastNamed(items, name, i) ==> LastNamed(items[..n], name, i);
      }
    }
  }

  /** A recognised label counts from -2 for much worse to 2 for much better; without one the number does, if it is in
      that range. */
  predicate ReadsAs(item: Item, delta: int) {
    || (item.word == Some(MuchWorse) && delta == -2) || (item.word == Some(Worse) && delta == -1)
    || (item.word == Some(Same) && delta == 0) || (item.word == Some(Better) && delta == 1)
    || (item.word == Some(MuchBetter) && delta == 2)
    || (item.word == None && item.delta == Some(delta) && -2 <= delta <= 2)
  }

  lemma DeltaMeans(item: Item, delta: int)
    ensures ParseDelta(item) == Some(delta) <==> ReadsAs(item, delta)
  {
  }

  /** The last item of the dimension's name reads as the delta. */
  ghost predicate Judges(items: seq<Item>, name: string, delta: int) {
    exists i :: LastNamed(items, name, i) && ReadsAs(items[i], delta)
  }

  lemma {:induction false} LastNamedExists(items: seq<Item>, name: string)
    requires Named(items, name).Some?
    ensures exists i :: LastNamed(items, name, i)
  {
    var n := |items| - 1;
    if items[n].name == name {
      assert LastNamed(items, name, n);
    } else {
      LastNamedExists(items[..n], name);
      var i :| LastNamed(items[..n], name, i);
      assert LastNamed(items, name, i);
    }
  }

  lemma ParsedMeans(items: seq<Item>, name: string, delta: int)
    ensures Parsable(items, name) && ParseDelta(Named(items, name).value) == Some(delta) <==> Judges(items, name, delta)
  {
    NamedMeans(items, name);
    if Named(items, name).Some? {
      LastNamedExists(items, name);
      var i :| LastNamed(items, name, i);
      DeltaMeans(items[i], delta);
      assert forall j :: LastNamed(items, name, j) ==> j == i;
    }
  }

  /** The overall verdict: thirty hundredths for task fit, 25 for correctness and safety, 20 for maintainability, 15 for
      test quality and 10 for change focus; at 0.35 either way it is no longer the same, at 1.25 it is much so. */
  lemma ScoreMeans(items: seq<Item>, score: Score)
    requires Scores(items, score)
    ensures |score.deltas| == 5
    ensures var d := score.deltas;
      && Judges(items, "task_fit", d[0]) && Judges(items, "correctness_safety", d[1])
      && Judges(items, "maintainability", d[2]) && Judges(items, "test_quality", d[3])
      && Judges(items, "change_focus", d[4])
      && score.total == 30 * d[0] + 25 * d[1] + 20 * d[2] + 15 * d[3] + 10 * d[4]
    ensures score.verdict == Same <==> -35 < score.total < 35
    ensures score.verdict == MuchBetter <==> score.total >= 125
    ensures score.verdict == MuchWorse <==> score.total <= -125
    ensures score.verdict == Better ==> score.total > 0
    ensures score.verdict == Worse ==> score.total < 0
  {
    var d := score.deltas;
    WeightedSumIs(d);
    assert Parsable(items, DIMENSIONS[0].0) && Parsable(items, DIMENSIONS[1].0) && Parsable(items, DIMENSIONS[2].0);
    assert Parsable(items, DIMENSIONS[3].0) && Parsable(items, DIMENSIONS[4].0);
    ParsedMeans(items, "task_fit", d[0]);
    ParsedMeans(items, "correctness_safety", d[1]);
    ParsedMeans(items, "maintainability", d[2]);
    ParsedMeans(items, "test_quality", d[3]);
    ParsedMeans(items, "change_focus", d[4]);
  }

  // ---------- one row per job ----------

  /** By job id, or by solver and instance for rows without one. */
  predicate SameJob(a: JudgeRow, b: JudgeRow) {
    Name(a) == Name(b)
  }

  function Name(row: JudgeRow): string {
    if row.job == "" then row.solver + ":" + row.instance else row.job
  }

  /** The row selected for a job has the greatest attempt index of the job's rows and, among these, the greatest attempt
      id; of rows that agree on both it is the last. */
  lemma LatestMeans(indexOf: string -> nat, rows: seq<JudgeRow>, latest: seq<JudgeRow>, row: JudgeRow)
    requires IsLatestRows(indexOf, rows, latest) && row in latest
    ensures exists i :: 0 <= i < |rows| && rows[i] == row && forall j | 0 <= j < |rows| && SameJob(rows[j], row) ::
      && indexOf(rows[j].attempt) <= indexOf(row.attempt)
      && (indexOf(rows[j].attempt) == indexOf(row.attempt) ==> !Less(row.attempt, rows[j].attempt))
      && (rows[j].attempt == row.attempt ==> j <= i)
  {
    LatestRowsContents(indexOf, rows, latest);
    var i :| IsLatest(indexOf, rows, i) && JobName(rows[i]) == JobName(row) && row == rows[i];
    forall j | 0 <= j < |rows| && SameJob(rows[j], row)
      ensures indexOf(rows[j].attempt) <= indexOf(row.attempt)
      ensures indexOf(rows[j].attempt) == indexOf(row.attempt) ==> !Less(row.attempt, rows[j].attempt)
      ensures rows[j].attempt == row.attempt ==> j <= i
    {
      assert JobName(rows[j]) == JobName(rows[i]);
      KeyLeTotal(indexOf, rows[j], rows[i]);
    }
  }

  /** The selection is sorted by instance, then solver, then attempt id. */
  lemma LatestOrder(indexOf: string -> nat, rows: seq<JudgeRow>, latest: seq<JudgeRow>, i: nat, j: nat)
    requires IsLatestRows(indexOf, rows, latest) && i < j < |latest|
    ensures InRowOrder(latest[i], latest[j])
  {
    LatestRowsContents(indexOf, rows, latest);
    RowOrderMeans(latest[i], latest[j]);
  }

  predicate InRowOrder(a: JudgeRow, b: JudgeRow) {
    || Less(a.instance, b.instance)
    || (a.instance == b.instance && (Less(a.solver, b.solver) || (a.solver == b.solver && !Less(b.attempt, a.attempt))))
  }

  lemma RowOrderMeans(a: JudgeRow, b: JudgeRow)
    ensures RowLe(a, b) <==> InRowOrder(a, b)
  {
    LessTotal(a.instance, b.instance);
    LessTotal(a.solver, b.solver);
    LessTotal(a.attempt, b.attempt);
  }

  // ---------- the judged rows ----------

  /** The candidates: rows with a patch, in order, each as often as given. */
  lemma {:induction false} CandidatesMean(joined: seq<JoinedRow>, row: JoinedRow)
    ensures multiset(Candidates(joined))[row] == if Blank(row.patch) then 0 else multiset(joined)[row]
  {
    if joined != [] {
      CandidatesMean(joined[..|joined| - 1], row);
      assert joined == joined[..|joined| - 1] + [joined[|joined| - 1]];
      StripBlank(joined[|joined| - 1].patch);
    }
  }

  lemma {:induction false} DecimalHasNoColon(n: nat)
    ensures ':' !in Decimal(n) && forall c | c in Decimal(n) :: '0' <= c <= '9'
  {
    if n >= 10 {
      DecimalHasNoColon(n / 10);
    }
  }

  lemma {:induction false} DecimalInjective(m: nat, n: nat)
    requires Decimal(m) == Decimal(n)
    ensures m == n
  {
    var s := Decimal(m);
    assert s[|s| - 1] == '0' + (m % 10) as char == '0' + (n % 10) as char;
    if m >= 10 && n >= 10 {
      assert s[..|s| - 1] == Decimal(m / 10) == Decimal(n / 10);
      DecimalInjective(m / 10, n / 10);
    } else {
      assert m < 10 <==> |Decimal(m)| == 1;
      assert n < 10 <==> |Decimal(n)| == 1;
    }
  }

  lemma CutAtLastColon(a: string, x: string, b: string, y: string)
    requires ':' !in x && ':' !in y && a + ":" + x == b + ":" + y
    ensures x == y
  {
    var all := a + ":" + x;
    assert all[|a|] == ':' && all[|b|] == ':';
    assert forall k | 0 <= k < |x| :: all[|a| + 1 + k] == x[k] != ':';
    assert forall k | 0 <= k < |y| :: all[|b| + 1 + k] == y[k] != ':';
    assert |a| == |b|;
    assert all[|a| + 1..] == x && all[|b| + 1..] == y;
  }

  /** Candidates without an attempt id get made-up ones that differ from candidate to candidate. */
  lemma MadeUpIdsDiffer(a: JoinedRow, i: nat, b: JoinedRow, j: nat)
    requires a.attempt == "" && b.attempt == "" && AttemptOf(a, i) == AttemptOf(b, j)
    ensures i == j
  {
    DecimalHasNoColon(i);
    DecimalHasNoColon(j);
    assert AttemptOf(a, i) == (a.solver + ":" + a.instance) + ":" + Decimal(i);
    assert AttemptOf(b, j) == (b.solver + ":" + b.instance) + ":" + Decimal(j);
    CutAtLastColon(a.solver + ":" + a.instance, Decimal(i), b.solver + ":" + b.instance, Decimal(j));
    DecimalInjective(i, j);
  }

  /** A candidate's row is the stored scored row of its attempt and prompt, marked as a cache hit; without one it is
      new, under the candidate's own ids, and scored iff the model's answer could be. */
  lemma JudgedMeans(lines: seq<Line>, src: Source, rows: seq<JoinedRow>, replies: nat -> Reply, i: nat)
    requires AllKnown(src, rows) && i < |rows|
    ensures var row := Judged(Loaded(lines), src, rows, replies)[i];
      var attempt, key := AttemptOf(rows[i], i), src.keyOf(rows[i], src.dataset[rows[i].instance]);
      && row.attempt == attempt && row.cacheKey == key
      && (rows[i].attempt != "" ==> attempt == rows[i].attempt)
      && if exists k :: LastStored(lines, attempt, key, k)
         then row.cacheHit && exists k :: LastStored(lines, attempt, key, k) && row == lines[k].row.(cacheHit := true)
         else
           && !row.cacheHit && row.instance == rows[i].instance && row.solver == rows[i].solver
           && row.job == (if rows[i].job != "" then rows[i].job else rows[i].solver + ":" + rows[i].instance)
           && row.status == (if replies(i).Scored? then "scored" else "error")
           && row.verdict == if replies(i).Scored? then replies(i).verdict else replies(i).error
  {
    var attempt, key := AttemptOf(rows[i], i), src.keyOf(rows[i], src.dataset[rows[i].instance]);
    JudgedAt(Loaded(lines), src, rows, replies, i);
    LoadedIsLast(lines, attempt, key);
    JudgedPair(lines, src, rows, replies, i);
  }

  /** The last scored row of the file for an attempt and a prompt. */
  ghost predicate LastStored(lines: seq<Line>, attempt: string, key: string, k: int) {
    && 0 <= k < |lines| && StoredFor(lines[k], attempt, key)
    && forall j | k < j < |lines| :: !StoredFor(lines[j], attempt, key)
  }

  predicate StoredFor(line: Line, attempt: string, key: string) {
    line.Readable? && line.row.attempt == attempt && line.row.cacheKey == key && line.row.status == "scored"
  }

  lemma {:induction false} LoadedIsLast(lines: seq<Line>, attempt: string, key: string)
    requires attempt != "" && key != ""
    ensures (attempt, key) in Loaded(lines) <==> exists k :: LastStored(lines, attempt, key, k)
    ensures forall k | LastStored(lines, attempt, key, k) ::
      (attempt, key) in Loaded(lines) && Loaded(lines)[(attempt, key)] == lines[k].row
  {
    if lines != [] {
      var n := |lines| - 1;
      LoadedIsLast(lines[..n], attempt, key);
      if StoredFor(lines[n], attempt, key) {
        assert LastStored(lines, attempt, key, n);
      } else {
        assert forall k :: LastStored(lines[..n], attempt, key, k) ==> LastStored(lines, attempt, key, k);
        assert forall k :: LastStored(lines, attempt, key, k) ==> LastStored(lines[..n], attempt, key, k);
      }
    }
  }
}
