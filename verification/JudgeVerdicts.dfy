/** What the judge's statuses mean (repogauge/runner/judge.py): what a harness report says about an instance, which
    predictions can come out as resolved, and which rows an evaluation consists of. */
module JudgeVerdicts {
  import opened Wrappers
  import opened JudgeRows
  import opened JudgeBatches
  import opened JudgeAssembly
  import opened JudgeEvaluation
  import opened MapMerge

  // ---------- one report ----------

  predicate Says(report: Report, id: string, status: Status) {
    Verdict(report, id).Some? && Verdict(report, id).value.status == status
  }

  lemma IdsHold(texts: seq<string>, id: string)
    ensures id in Ids(texts) <==> id != "" && id in texts
  {
  }

  /** Four id lists: resolved iff listed as resolved and not as unresolved, unresolved whenever listed so, and an error
      iff only the error lists hold the id. */
  lemma IdListVerdict(resolved: seq<string>, unresolved: seq<string>, errors: seq<string>, incomplete: seq<string>,
                      id: string)
    ensures var report := IdLists(resolved, unresolved, errors, incomplete);
      && (Says(report, id, Resolved) <==> id != "" && id in resolved && id !in unresolved)
      && (Says(report, id, NotResolved) <==> id != "" && id in unresolved)
      && (Says(report, id, Errored)
          <==> id != "" && id !in resolved && id !in unresolved && (id in errors || id in incomplete))
      && (Verdict(report, id) == None
          <==> id == "" || (id !in resolved && id !in unresolved && id !in errors && id !in incomplete))
      && (Verdict(report, id).Some? ==> Verdict(report, id).value.resolved == Some(Says(report, id, Resolved)))
  {
    IdsHold(resolved, id);
    IdsHold(unresolved, id);
    IdsHold(errors, id);
    IdsHold(incomplete, id);
  }

  /** Letters from A to Z are lowered, nothing else changes. */
  lemma {:induction false} LowerMeans(s: string, i: nat)
    requires i < |s|
    ensures |Lower(s)| == |s|
    ensures 'A' <= s[i] <= 'Z' ==> Lower(s)[i] as int - 'a' as int == s[i] as int - 'A' as int
    ensures s[i] < 'A' || s[i] > 'Z' ==> Lower(s)[i] == s[i]
  {
    if |s| > 1 {
      LowerMeans(s[1..], if i == 0 then 0 else i - 1);
    }
  }

  /** The last row of a list about an instance. */
  ghost predicate LastAbout(rows: seq<RawRow>, id: string, i: int) {
    0 <= i < |rows| && rows[i].instance == id && forall j | i < j < |rows| :: rows[j].instance != id
  }

  /** A list of rows: the last row about an instance counts, by its status word in any case. */
  lemma {:induction false} RowListVerdict(rows: seq<RawRow>, id: string)
    ensures Verdict(RowList(rows), id).Some? <==> id != "" && exists i :: LastAbout(rows, id, i)
    ensures forall i | id != "" && LastAbout(rows, id, i) ::
      && (Says(RowList(rows), id, Resolved) <==> Lower(rows[i].status) in {"resolved", "passed", "pass"})
      && (Says(RowList(rows), id, Errored)
          <==> Lower(rows[i].status) in {"error", "errored", "crash", "failed_with_exception"})
      && (Says(RowList(rows), id, Skipped) <==> Lower(rows[i].status) in {"skipped", "missing_prediction"})
      && Verdict(RowList(rows), id).value.resolved == rows[i].resolved
  {
    if rows != [] {
      var n := |rows| - 1;
      RowListVerdict(rows[..n], id);
      if rows[n].instance == id {
        assert LastAbout(rows, id, n);
      } else {
        assert forall i | 0 <= i < n :: LastAbout(rows, id, i) <==> LastAbout(rows[..n], id, i);
        assert forall i | LastAbout(rows, id, i) :: i < n;
        assert forall i | LastAbout(rows[..n], id, i) :: LastAbout(rows, id, i);
      }
    }
  }

  // ---------- resolved rows are backed by a report ----------

  /** A batch that holds the instance has a report that calls it resolved. */
  ghost predicate Backed(batches: seq<Batch>, reports: seq<Report>, id: string) {
    exists i :: BackedBy(batches, reports, id, i)
  }

  ghost predicate BackedBy(batches: seq<Batch>, reports: seq<Report>, id: string, i: int) {
    && 0 <= i < |batches| && i < |reports| && Says(reports[i], id, Resolved)
    && exists a :: 0 <= a < |batches[i].pairs| && batches[i].pairs[a].0.instance == id
  }

  lemma ParsedStatus(d: DatasetRow, report: Report)
    ensures ParsedRow(d, report).instance == d.instance
    ensures ParsedRow(d, report).status
         == if Verdict(report, d.instance).Some? then Verdict(report, d.instance).value.status else NotResolved
  {
  }

  lemma BatchRowsBacked(batches: seq<Batch>, reports: seq<Report>, i: nat, row: ResultRow)
    requires i < |batches| == |reports|
    requires row in BatchRows(Datasets(batches[i].pairs), Predictions(batches[i].pairs), reports[i])
    ensures row.status == Resolved ==> Backed(batches, reports, row.instance)
  {
    var pairs := batches[i].pairs;
    var rows := BatchRows(Datasets(pairs), Predictions(pairs), reports[i]);
    var a :| 0 <= a < |rows| && rows[a] == row;
    BatchRowAt(pairs, reports[i], a);
    ParsedStatus(pairs[a].0, reports[i]);
    if row.status == Resolved {
      assert BackedBy(batches, reports, row.instance, i);
    }
  }

  ghost predicate MapBacked(batches: seq<Batch>, reports: seq<Report>, m: map<Key, ResultRow>) {
    forall k | k in m && m[k].status == Resolved :: Backed(batches, reports, m[k].instance)
  }

  lemma {:induction false} RowMapBacked(batches: seq<Batch>, reports: seq<Report>, rows: seq<ResultRow>, key: string)
    requires forall row | row in rows && row.status == Resolved :: Backed(batches, reports, row.instance)
    ensures MapBacked(batches, reports, RowMap(rows, key))
  {
    if rows != [] {
      assert rows[|rows| - 1] in rows;
      RowMapBacked(batches, reports, rows[..|rows| - 1], key);
    }
  }

  lemma {:induction false} MergedBacked(batches: seq<Batch>, reports: seq<Report>, order: seq<nat>)
    requires |reports| == |batches| && InRange(order, |reports|)
    ensures MapBacked(batches, reports, MergeAll(Pick(Results(batches, reports), order)))
  {
    if order != [] {
      var n := |order| - 1;
      var results := Results(batches, reports);
      MergedBacked(batches, reports, order[..n]);
      assert Pick(results, order)[..n] == Pick(results, order[..n]);
      var last := results[order[n]];
      forall row | row in last.rows && row.status == Resolved ensures Backed(batches, reports, row.instance) {
        BatchRowsBacked(batches, reports, order[n], row);
      }
      RowMapBacked(batches, reports, last.rows, last.key);
    }
  }

  lemma {:induction false} PredictionRowsBacked(ds: seq<DatasetRow>, batches: seq<Batch>, reports: seq<Report>,
                                                m: map<Key, ResultRow>, ps: seq<Prediction>)
    requires MapBacked(batches, reports, m)
    ensures forall row | row in PredictionRows(ds, m, ps) && row.status == Resolved ::
      Backed(batches, reports, row.instance)
  {
    if ps != [] {
      PredictionRowsBacked(ds, batches, reports, m, ps[..|ps| - 1]);
    }
  }

  /** Nothing is resolved that no harness report calls resolved: for any dataset, predictions, batch size, reports and
      collection order, a resolved final row has a batch with its instance whose report says so. */
  lemma ResolvedRowsAreBacked(ds: seq<DatasetRow>, ps: seq<Prediction>, size: int, reports: seq<Report>,
                              order: seq<nat>)
    requires |reports| == |Batches(KnownPairs(ds, ps), size)| && InRange(order, |reports|)
    ensures var batches := Batches(KnownPairs(ds, ps), size);
      forall row | row in FinalRows(ds, ps, MergeAll(Pick(Results(batches, reports), order))) ::
        row.status == Resolved ==> Backed(batches, reports, row.instance)
  {
    var batches := Batches(KnownPairs(ds, ps), size);
    var results := Pick(Results(batches, reports), order);
    MergedBacked(batches, reports, order);
    PredictionRowsBacked(ds, batches, reports, MergeAll(results), ps);
    var tail := FinalRowsShape(ds, ps, results);
  }

  // ---------- the status of each prediction ----------

  /** No other prediction of the batch is for the same instance. */
  ghost predicate Alone(pairs: seq<Pair>, a: nat)
    requires a < |pairs|
  {
    forall b | 0 <= b < |pairs| && b != a :: pairs[b].1.instance != pairs[a].1.instance
  }

  lemma {:induction false} NoMatches(pairs: seq<Pair>, id: string)
    requires forall b | 0 <= b < |pairs| :: pairs[b].1.instance != id
    ensures Matches(Predictions(pairs), id) == []
  {
    if pairs != [] {
      var n := |pairs| - 1;
      assert Predictions(pairs)[..n] == Predictions(pairs[..n]);
      NoMatches(pairs[..n], id);
    }
  }

  lemma {:induction false} AloneMatches(pairs: seq<Pair>, a: nat)
    requires a < |pairs| && Alone(pairs, a)
    ensures |Matches(Predictions(pairs), pairs[a].1.instance)| == 1
  {
    var n := |pairs| - 1;
    var id := pairs[a].1.instance;
    assert Predictions(pairs)[..n] == Predictions(pairs[..n]);
    if a < n {
      AloneMatches(pairs[..n], a);
    } else {
      NoMatches(pairs[..n], id);
    }
  }

  /** The status of every prediction's final row, whatever the collection order: an error if its batch's report says
      nothing at all or its instance is not alone in the batch; else what the report says about the instance, and
      unresolved if it says nothing about it. */
  lemma PredictionStatus(ds: seq<DatasetRow>, ps: seq<Prediction>, size: int, reports: seq<Report>, order: seq<nat>,
                         i: nat, a: nat)
    requires Normal(ds, ps) && |reports| == |Batches(KnownPairs(ds, ps), size)| && IsOrder(order, |reports|)
    requires i < |reports| && a < |Batches(KnownPairs(ds, ps), size)[i].pairs|
    requires PredictionKey(Batches(KnownPairs(ds, ps), size)[i].pairs[a].1).Some?
    ensures
      var batches := Batches(KnownPairs(ds, ps), size);
      var p := batches[i].pairs[a].1;
      var final := RowFor(ds, MergeAll(Pick(Results(batches, reports), order)), PredictionKey(p));
      var attributed := Alone(batches[i].pairs, a) && exists id :: Verdict(reports[i], id).Some?;
      var verdict := Verdict(reports[i], p.instance);
      && final.Some? && final.value.instance == p.instance && final.value.solver == p.solver
      && (!attributed ==>
            && final.value.status == Errored && !final.value.resolved
            && final.value.error == Some("no harness result for prediction"))
      && (attributed && verdict == None ==> final.value.status == NotResolved && !final.value.resolved)
      && (attributed && verdict.Some? ==>
            && final.value.status == verdict.value.status
            && final.value.resolved == if verdict.value.resolved.Some? then verdict.value.resolved.value
                                       else verdict.value.status == Resolved)
  {
    var batches := Batches(KnownPairs(ds, ps), size);
    var pairs := batches[i].pairs;
    EveryPredictionKeepsItsVerdict(ds, ps, size, reports, order, i, a);
    BatchesArePlain(ds, ps, size, i);
    MatchesOne(pairs, pairs[a].1.instance, a);
    if Alone(pairs, a) {
      AloneMatches(pairs, a);
    }
    assert |Matches(Predictions(pairs), pairs[a].1.instance)| == 1 <==> Alone(pairs, a);
  }

  // ---------- the rows of an evaluation ----------

  /** Predictions with an id and a solver whose instance is in the dataset. */
  function Answerable(ds: seq<DatasetRow>, ps: seq<Prediction>): seq<Prediction> {
    if ps == [] then []
    else
      var p := ps[|ps| - 1];
      var before := Answerable(ds, ps[..|ps| - 1]);
      if p.instance != "" && p.solver != "" && exists d :: d in ds && d.instance == p.instance then before + [p]
      else before
  }

  /** Dataset rows with an id that no prediction names. */
  function Unpredicted(ds: seq<DatasetRow>, ps: seq<Prediction>): seq<DatasetRow> {
    if ds == [] then []
    else
      var d := ds[|ds| - 1];
      var before := Unpredicted(ds[..|ds| - 1], ps);
      if d.instance != "" && forall p | p in ps :: p.instance != d.instance then before + [d] else before
  }

  ghost predicate Answers(rows: seq<ResultRow>, ps: seq<Prediction>) {
    && |rows| == |ps|
    && forall i | 0 <= i < |rows| :: rows[i].instance == ps[i].instance && rows[i].solver == ps[i].solver
  }

  lemma {:induction false} PredictionRowsAnswer(ds: seq<DatasetRow>, results: seq<BatchResult>, ps: seq<Prediction>)
    ensures Answers(PredictionRows(ds, MergeAll(results), ps), Answerable(ds, ps))
  {
    if ps != [] {
      var n := |ps| - 1;
      PredictionRowsAnswer(ds, results, ps[..n]);
      ByIdKeys(ds);
      if RowFor(ds, MergeAll(results), PredictionKey(ps[n])).Some? {
        RowForKey(ds, results, ps[n]);
      }
    }
  }

  ghost predicate Skips(rows: seq<ResultRow>, ds: seq<DatasetRow>) {
    && |rows| == |ds|
    && forall i | 0 <= i < |rows| ::
         rows[i].instance == ds[i].instance && rows[i].status == Skipped && !rows[i].resolved
         && rows[i].reason == Some("missing_prediction")
  }

  lemma {:induction false} SkippedRowsSkip(ds: seq<DatasetRow>, ps: seq<Prediction>)
    ensures Skips(SkippedRows(ds, ps), Unpredicted(ds, ps))
  {
    if ds != [] {
      var n := |ds| - 1;
      SkippedRowsSkip(ds[..n], ps);
      var id := ds[n].instance;
      if p :| p in ps && p.instance == id {
        var i :| 0 <= i < |ps| && ps[i] == p;
        assert Named(ps, id);
      }
      assert Named(ps, id) ==> exists p :: p in ps && p.instance == id;
    }
  }

  lemma AugmentRows(rows: seq<ResultRow>, ps: seq<Prediction>)
    ensures forall i | 0 <= i < |rows| :: var row := Augment(rows, ps)[i];
      && row == rows[i].(solver := row.solver) && (rows[i].solver != "" ==> row.solver == rows[i].solver)
  {
  }

  /** An evaluation has one row for every answerable prediction, in order, then one skipped row for every dataset row
      that no prediction names; and if there are neither, one error row for every dataset row. */
  lemma EvaluationRows(ds: seq<DatasetRow>, ps: seq<Prediction>, results: seq<BatchResult>)
    ensures var rows := FinalRows(ds, ps, MergeAll(results)); var n := |Answerable(ds, ps)|;
      if n == 0 && Unpredicted(ds, ps) == [] then
        |rows| == |ds| && forall i | 0 <= i < |rows| :: rows[i].instance == ds[i].instance && rows[i].status == Errored
      else |rows| >= n && Answers(rows[..n], Answerable(ds, ps)) && Skips(rows[n..], Unpredicted(ds, ps))
  {
    var head, skipped := PredictionRows(ds, MergeAll(results), ps), SkippedRows(ds, ps);
    var n := |head|;
    PredictionRowsAnswer(ds, results, ps);
    SkippedRowsSkip(ds, ps);
    if head + skipped == [] {
      AugmentRows(ErrorRows(ds, "no harness instance results collected"), ps);
    } else {
      var rows := Augment(head + skipped, ps);
      AugmentRows(head + skipped, ps);
      PredictionRowsKeys(ds, results, ps);
      forall i | 0 <= i < n ensures rows[..n][i] == head[i] {
        assert head[i] in head;
        AugmentKeeps(head[i], ps);
      }
      assert forall i | 0 <= i < |skipped| :: rows[n..][i] == Augment(head + skipped, ps)[n + i];
      assert forall i | 0 <= i < |skipped| :: (head + skipped)[n + i] == skipped[i];
      assert |head + skipped| > 0;
    }
  }
}
