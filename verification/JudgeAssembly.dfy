/** Assembling batch results into the evaluation's rows, slices and counts (`run_harness_evaluation` and
    `_write_resolved_eval_artifacts` in repogauge/runner/judge.py). */
module JudgeAssembly {
  import opened Wrappers
  import opened Text
  import opened JudgeRows
  import opened JudgeBatches

  datatype BatchResult = BatchResult(key: string, rows: seq<ResultRow>)

  // ---------- row_by_key ----------

  /** The keyed rows of one batch, each stamped with the batch key; the last row of a key wins. */
  function RowMap(rows: seq<ResultRow>, batchKey: string): map<Key, ResultRow> {
    if rows == [] then map[]
    else
      var last := rows[|rows| - 1];
      var rest := RowMap(rows[..|rows| - 1], batchKey);
      if RowKey(last) == None then rest
      else rest[RowKey(last).value := last.(batchKey := Some(batchKey))]
  }

  function MergeAll(results: seq<BatchResult>): map<Key, ResultRow> {
    if results == [] then map[]
    else MergeAll(results[..|results| - 1]) + RowMap(results[|results| - 1].rows, results[|results| - 1].key)
  }

  method Merge(results: seq<BatchResult>) returns (rowByKey: map<Key, ResultRow>)
    ensures rowByKey == MergeAll(results)
  {
    rowByKey := map[];
    for i := 0 to |results|
      invariant rowByKey == MergeAll(results[..i])
    {
      assert results[..i + 1][..i] == results[..i];
      var rows, key := results[i].rows, results[i].key;
      for j := 0 to |rows|
        invariant rowByKey == MergeAll(results[..i]) + RowMap(rows[..j], key)
      {
        assert rows[..j + 1][..j] == rows[..j];
        if RowKey(rows[j]).Some? {
          rowByKey := rowByKey[RowKey(rows[j]).value := rows[j].(batchKey := Some(key))];
        }
      }
      assert rows[..|rows|] == rows;
    }
    assert results[..|results|] == results;
  }

  lemma {:induction false} RowMapKeys(rows: seq<ResultRow>, batchKey: string)
    ensures forall k | k in RowMap(rows, batchKey) :: RowKey(RowMap(rows, batchKey)[k]) == Some(k)
  {
    if rows != [] {
      RowMapKeys(rows[..|rows| - 1], batchKey);
    }
  }

  lemma {:induction false} MergeAllKeys(results: seq<BatchResult>)
    ensures forall k | k in MergeAll(results) :: RowKey(MergeAll(results)[k]) == Some(k)
  {
    if results != [] {
      var n := |results| - 1;
      MergeAllKeys(results[..n]);
      RowMapKeys(results[n].rows, results[n].key);
    }
  }

  // ---------- the final rows ----------

  function NoResultRow(d: DatasetRow, key: Key): ResultRow {
    ErrorRow(d, "no harness result for prediction").(solver := key.0)
  }

  /** The final row for a (solver, instance) key, if its instance is in the dataset. */
  function RowFor(ds: seq<DatasetRow>, rowByKey: map<Key, ResultRow>, key: Option<Key>): Option<ResultRow> {
    if key == None || key.value.1 !in ById(ds) then None
    else
      var d := ById(ds)[key.value.1];
      var row := if key.value in rowByKey then rowByKey[key.value] else NoResultRow(d, key.value);
      Some(row.(environment := Or(row.environment, Or(d.version, "default"))))
  }

  function PredictionRows(ds: seq<DatasetRow>, rowByKey: map<Key, ResultRow>, ps: seq<Prediction>): seq<ResultRow> {
    if ps == [] then []
    else
      var row := RowFor(ds, rowByKey, PredictionKey(ps[|ps| - 1]));
      var before := PredictionRows(ds, rowByKey, ps[..|ps| - 1]);
      if row.Some? then before + [row.value] else before
  }

  ghost function FinalRows(ds: seq<DatasetRow>, ps: seq<Prediction>, rowByKey: map<Key, ResultRow>): seq<ResultRow> {
    var rows := PredictionRows(ds, rowByKey, ps) + SkippedRows(ds, ps);
    Augment(if rows == [] then ErrorRows(ds, "no harness instance results collected") else rows, ps)
  }

  /** The assembly loop of `run_harness_evaluation`, given the skipped rows found while batching. */
  method AssembleRows(ds: seq<DatasetRow>, ps: seq<Prediction>, results: seq<BatchResult>, skipped: seq<ResultRow>)
    returns (rows: seq<ResultRow>)
    requires skipped == SkippedRows(ds, ps)
    ensures rows == FinalRows(ds, ps, MergeAll(results))
  {
    var byId := BuildById(ds);
    var rowByKey := Merge(results);
    rows := [];
    for i := 0 to |ps|
      invariant rows == PredictionRows(ds, rowByKey, ps[..i])
    {
      assert ps[..i + 1][..i] == ps[..i];
      var key := PredictionKey(ps[i]);
      if key.Some? && key.value.1 in byId {
        var row := if key.value in rowByKey then rowByKey[key.value] else NoResultRow(byId[key.value.1], key.value);
        rows := rows + [row.(environment := Or(row.environment, Or(byId[key.value.1].version, "default")))];
      }
    }
    assert ps[..|ps|] == ps;
    rows := rows + skipped;
    if rows == [] {
      rows := ErrorRows(ds, "no harness instance results collected");
    }
    ghost var before := rows;
    var cells := new ResultRow[|rows|](i requires 0 <= i < |rows| => rows[i]);
    assert cells[..] == before;
    AugmentInPlace(cells, ps);
    rows := cells[..];
  }

  // ---------- resolved slices and counts ----------

  function OfStatus(rows: seq<ResultRow>, status: Status): seq<ResultRow> {
    if rows == [] then []
    else
      var before := OfStatus(rows[..|rows| - 1], status);
      if rows[|rows| - 1].status == status then before + [rows[|rows| - 1]] else before
  }

  function ResolvedKeys(rows: seq<ResultRow>): set<Key> {
    set i | 0 <= i < |rows| && rows[i].status == Resolved && RowKey(rows[i]).Some? :: RowKey(rows[i]).value
  }

  function PredictionSlice(ps: seq<Prediction>, keys: set<Key>): seq<Prediction> {
    if ps == [] then []
    else
      var key := PredictionKey(ps[|ps| - 1]);
      var before := PredictionSlice(ps[..|ps| - 1], keys);
      if key.Some? && key.value in keys then before + [ps[|ps| - 1]] else before
  }

  function DatasetSlice(ds: seq<DatasetRow>, resolved: seq<Prediction>): seq<DatasetRow> {
    if resolved == [] then []
    else
      var id := resolved[|resolved| - 1].instance;
      var before := DatasetSlice(ds, resolved[..|resolved| - 1]);
      if id in ById(ds) then before + [ById(ds)[id]] else before
  }

  /** `_write_resolved_eval_artifacts`, up to the writing. */
  method ResolvedSlices(ds: seq<DatasetRow>, ps: seq<Prediction>, rows: seq<ResultRow>)
    returns (dataset: seq<DatasetRow>, predictions: seq<Prediction>)
    ensures predictions == PredictionSlice(ps, ResolvedKeys(rows))
    ensures dataset == DatasetSlice(ds, predictions)
  {
    var byId := BuildById(ds);
    var keys := ResolvedKeys(rows);
    predictions := [];
    for i := 0 to |ps|
      invariant predictions == PredictionSlice(ps[..i], keys)
    {
      assert ps[..i + 1][..i] == ps[..i];
      if PredictionKey(ps[i]).Some? && PredictionKey(ps[i]).value in keys {
        predictions := predictions + [ps[i]];
      }
    }
    assert ps[..|ps|] == ps;
    dataset := [];
    for i := 0 to |predictions|
      invariant dataset == DatasetSlice(ds, predictions[..i])
    {
      assert predictions[..i + 1][..i] == predictions[..i];
      if predictions[i].instance in byId {
        dataset := dataset + [byId[predictions[i].instance]];
      }
    }
    assert predictions[..|predictions|] == predictions;
  }

  datatype Summary = Summary(total: nat, resolved: nat, notResolved: int, error: nat, skipped: nat)

  /** The summary counts: three are counted, the fourth is what is left over, and it is the right number. */
  method Summarize(rows: seq<ResultRow>) returns (s: Summary)
    ensures s.total == |rows|
    ensures s.resolved == |OfStatus(rows, Resolved)| && s.error == |OfStatus(rows, Errored)|
    ensures s.skipped == |OfStatus(rows, Skipped)| && s.notResolved == |OfStatus(rows, NotResolved)|
    ensures s.resolved + s.notResolved + s.error + s.skipped == s.total
  {
    var resolved, error, skipped := 0, 0, 0;
    for i := 0 to |rows|
      invariant resolved == |OfStatus(rows[..i], Resolved)| && error == |OfStatus(rows[..i], Errored)|
      invariant skipped == |OfStatus(rows[..i], Skipped)|
      invariant resolved + error + skipped + |OfStatus(rows[..i], NotResolved)| == i
    {
      assert rows[..i + 1][..i] == rows[..i];
      if rows[i].status == Resolved {
        resolved := resolved + 1;
      } else if rows[i].status == Errored {
        error := error + 1;
      } else if rows[i].status == Skipped {
        skipped := skipped + 1;
      }
    }
    assert rows[..|rows|] == rows;
    s := Summary(|rows|, resolved, |rows| - resolved - error - skipped, error, skipped);
  }

  // ---------- the slices line up ----------

  /** The row for a prediction carries the prediction's own key. */
  lemma RowForKey(ds: seq<DatasetRow>, results: seq<BatchResult>, p: Prediction)
    requires RowFor(ds, MergeAll(results), PredictionKey(p)).Some?
    ensures RowKey(RowFor(ds, MergeAll(results), PredictionKey(p)).value) == PredictionKey(p)
  {
    var key := PredictionKey(p).value;
    MergeAllKeys(results);
    ByIdKeys(ds);
    var d := ById(ds)[key.1];
    assert NoResultRow(d, key).instance == key.1;
  }

  lemma {:induction false} PredictionRowsKeys(ds: seq<DatasetRow>, results: seq<BatchResult>, ps: seq<Prediction>)
    ensures forall r | r in PredictionRows(ds, MergeAll(results), ps) ::
        RowKey(r).Some? && RowFor(ds, MergeAll(results), RowKey(r)) == Some(r)
  {
    if ps != [] {
      var n := |ps| - 1;
      PredictionRowsKeys(ds, results, ps[..n]);
      if RowFor(ds, MergeAll(results), PredictionKey(ps[n])).Some? {
        RowForKey(ds, results, ps[n]);
      }
    }
  }

  lemma {:induction false} SkippedStatus(ds: seq<DatasetRow>, ps: seq<Prediction>)
    ensures forall r | r in SkippedRows(ds, ps) :: r.status == Skipped
  {
    if ds != [] {
      SkippedStatus(ds[..|ds| - 1], ps);
    }
  }

  lemma AugmentKeeps(r: ResultRow, ps: seq<Prediction>)
    ensures AugmentRow(r, ps).status == r.status
    ensures RowKey(r).Some? ==> AugmentRow(r, ps) == r
  {
  }

  /** Augmenting leaves rows with keys alone and changes no status. */
  lemma AugmentParts(head: seq<ResultRow>, rest: seq<ResultRow>, ps: seq<Prediction>)
    requires forall r | r in head :: RowKey(r).Some?
    requires forall r | r in rest :: r.status == Skipped || r.status == Errored
    ensures |Augment(head + rest, ps)| >= |head| && Augment(head + rest, ps)[..|head|] == head
    ensures forall r | r in Augment(head + rest, ps)[|head|..] :: r.status == Skipped || r.status == Errored
  {
    var all := head + rest;
    var final := Augment(all, ps);
    forall i | 0 <= i < |head| ensures final[i] == head[i] {
      assert head[i] in head;
      AugmentKeeps(head[i], ps);
    }
    forall i | |head| <= i < |all| ensures final[i].status == Skipped || final[i].status == Errored {
      assert all[i] == rest[i - |head|] && rest[i - |head|] in rest;
      AugmentKeeps(all[i], ps);
    }
  }

  /** What the final rows are made of: the prediction rows unchanged, then rows that are not resolved. */
  lemma FinalRowsShape(ds: seq<DatasetRow>, ps: seq<Prediction>, results: seq<BatchResult>)
    returns (tail: seq<ResultRow>)
    ensures FinalRows(ds, ps, MergeAll(results)) == PredictionRows(ds, MergeAll(results), ps) + tail
    ensures forall r | r in tail :: r.status == Skipped || r.status == Errored
  {
    var head := PredictionRows(ds, MergeAll(results), ps);
    var rest := if head + SkippedRows(ds, ps) == [] then ErrorRows(ds, "no harness instance results collected")
                else SkippedRows(ds, ps);
    PredictionRowsKeys(ds, results, ps);
    SkippedStatus(ds, ps);
    assert FinalRows(ds, ps, MergeAll(results)) == Augment(head + rest, ps);
    AugmentParts(head, rest, ps);
    tail := Augment(head + rest, ps)[|head|..];
  }

  lemma {:induction false} OfStatusAppend(a: seq<ResultRow>, b: seq<ResultRow>, status: Status)
    ensures OfStatus(a + b, status) == OfStatus(a, status) + OfStatus(b, status)
  {
    if b == [] {
      assert a + b == a;
    } else {
      assert (a + b)[..|a + b| - 1] == a + b[..|b| - 1];
      OfStatusAppend(a, b[..|b| - 1], status);
    }
  }

  lemma {:induction false} OfStatusNone(rows: seq<ResultRow>, status: Status)
    requires forall r | r in rows :: r.status != status
    ensures OfStatus(rows, status) == []
  {
    if rows != [] {
      OfStatusNone(rows[..|rows| - 1], status);
    }
  }

  ghost predicate LinedUp(ps: seq<Prediction>, ds: seq<DatasetRow>, rows: seq<ResultRow>) {
    && |ps| == |ds| == |rows|
    && (forall i | 0 <= i < |ps| ::
          RowKey(rows[i]) == PredictionKey(ps[i]) && ds[i].instance == ps[i].instance)
  }

  /** `keys` are the keys of resolved prediction rows. */
  ghost predicate ResolvedIn(rows: seq<ResultRow>, keys: set<Key>) {
    forall r | r in rows :: RowKey(r).Some? && (r.status == Resolved ==> RowKey(r).value in keys)
  }

  ghost predicate SlicesAgree(ds: seq<DatasetRow>, results: seq<BatchResult>, ps: seq<Prediction>, keys: set<Key>) {
    LinedUp(PredictionSlice(ps, keys), DatasetSlice(ds, PredictionSlice(ps, keys)),
            OfStatus(PredictionRows(ds, MergeAll(results), ps), Resolved))
  }

  /** One more prediction either adds one entry to each slice or none to any. */
  lemma SliceStep(ds: seq<DatasetRow>, results: seq<BatchResult>, ps: seq<Prediction>, keys: set<Key>)
    requires ps != [] && SlicesAgree(ds, results, ps[..|ps| - 1], keys)
    requires
      var key := PredictionKey(ps[|ps| - 1]);
      var row := RowFor(ds, MergeAll(results), key);
      (row.Some? && row.value.status == Resolved) <==> (key.Some? && key.value in keys)
    ensures SlicesAgree(ds, results, ps, keys)
  {
    var n := |ps| - 1;
    var before := PredictionSlice(ps[..n], keys);
    var rowsBefore := PredictionRows(ds, MergeAll(results), ps[..n]);
    var row := RowFor(ds, MergeAll(results), PredictionKey(ps[n]));
    if row.Some? {
      var rows := rowsBefore + [row.value];
      assert PredictionRows(ds, MergeAll(results), ps) == rows;
      RowForKey(ds, results, ps[n]);
      ByIdKeys(ds);
      assert rows[..|rows| - 1] == rowsBefore;
      if row.value.status == Resolved {
        var slice := before + [ps[n]];
        assert PredictionSlice(ps, keys) == slice;
        assert slice[..|slice| - 1] == before;
        assert DatasetSlice(ds, slice) == DatasetSlice(ds, before) + [ById(ds)[ps[n].instance]];
      }
    }
  }

  lemma {:induction false} SlicesOfPrefix(ds: seq<DatasetRow>, results: seq<BatchResult>, ps: seq<Prediction>,
                                          keys: set<Key>)
    requires forall key | key in keys ::
        RowFor(ds, MergeAll(results), Some(key)).Some?
            && RowFor(ds, MergeAll(results), Some(key)).value.status == Resolved
    requires ResolvedIn(PredictionRows(ds, MergeAll(results), ps), keys)
    ensures SlicesAgree(ds, results, ps, keys)
  {
    if ps != [] {
      var n := |ps| - 1;
      var rows, rowsBefore := PredictionRows(ds, MergeAll(results), ps), PredictionRows(ds, MergeAll(results), ps[..n]);
      assert forall r | r in rowsBefore :: r in rows;
      SlicesOfPrefix(ds, results, ps[..n], keys);
      var row := RowFor(ds, MergeAll(results), PredictionKey(ps[n]));
      if row.Some? {
        RowForKey(ds, results, ps[n]);
        assert row.value in rows;
      }
      SliceStep(ds, results, ps, keys);
    }
  }

  /** Resolved keys are those of prediction rows, and each names a resolved row. */
  lemma ResolvedKeysOfHead(ds: seq<DatasetRow>, results: seq<BatchResult>, head: seq<ResultRow>, tail: seq<ResultRow>)
    requires forall r | r in head :: RowKey(r).Some? && RowFor(ds, MergeAll(results), RowKey(r)) == Some(r)
    requires forall r | r in tail :: r.status != Resolved
    ensures forall key | key in ResolvedKeys(head + tail) ::
        RowFor(ds, MergeAll(results), Some(key)).Some?
            && RowFor(ds, MergeAll(results), Some(key)).value.status == Resolved
    ensures ResolvedIn(head, ResolvedKeys(head + tail))
  {
    var rows := head + tail;
    assert forall r | r in rows :: r in head || r in tail;
    forall key | key in ResolvedKeys(rows)
      ensures exists r :: r in head && r.status == Resolved && RowKey(r) == Some(key)
    {
      var i :| 0 <= i < |rows| && rows[i].status == Resolved && RowKey(rows[i]) == Some(key);
      assert rows[i] in rows;
    }
    forall r | r in head && r.status == Resolved ensures RowKey(r).value in ResolvedKeys(rows) {
      var i :| 0 <= i < |head| && head[i] == r;
      assert rows[i] == r;
    }
  }

  /** For any predictions, any dataset and any batch results whatsoever, the resolved predictions, the resolved
      dataset rows and the resolved result rows are equally many and line up key by key. */
  lemma SlicesLineUp(ds: seq<DatasetRow>, ps: seq<Prediction>, results: seq<BatchResult>)
    ensures var rows := FinalRows(ds, ps, MergeAll(results));
      var predictions := PredictionSlice(ps, ResolvedKeys(rows));
      LinedUp(predictions, DatasetSlice(ds, predictions), OfStatus(rows, Resolved))
  {
    var head := PredictionRows(ds, MergeAll(results), ps);
    var tail := FinalRowsShape(ds, ps, results);
    PredictionRowsKeys(ds, results, ps);
    OfStatusAppend(head, tail, Resolved);
    OfStatusNone(tail, Resolved);
    ResolvedKeysOfHead(ds, results, head, tail);
    SlicesOfPrefix(ds, results, ps, ResolvedKeys(head + tail));
  }
}
