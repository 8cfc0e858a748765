/** The judge end to end: batches run in a pool, finish in any order, and are assembled.  The order does not
    show in the result, and every prediction is answered by its own batch. */
module JudgeEvaluation {
  import opened Wrappers
  import opened Text
  import opened JudgeRows
  import opened JudgeBatches
  import opened JudgeAssembly
  import opened MapMerge
  import JudgePool

  function Datasets(pairs: seq<Pair>): (ds: seq<DatasetRow>)
    ensures |ds| == |pairs|
  {
    if pairs == [] then [] else Datasets(pairs[..|pairs| - 1]) + [pairs[|pairs| - 1].0]
  }

  function Predictions(pairs: seq<Pair>): (ps: seq<Prediction>)
    ensures |ps| == |pairs|
  {
    if pairs == [] then [] else Predictions(pairs[..|pairs| - 1]) + [pairs[|pairs| - 1].1]
  }

  /** What each batch hands back, given the harness report it got. */
  ghost function Results(batches: seq<Batch>, reports: seq<Report>): seq<BatchResult>
    requires |reports| == |batches|
  {
    seq(|batches|, i requires 0 <= i < |batches| =>
      BatchResult(batches[i].key, BatchRows(Datasets(batches[i].pairs), Predictions(batches[i].pairs), reports[i])))
  }

  function Pick(results: seq<BatchResult>, order: seq<nat>): seq<BatchResult>
    requires InRange(order, |results|)
  {
    seq(|order|, p requires 0 <= p < |order| => results[order[p]])
  }

  function Maps(results: seq<BatchResult>): seq<map<Key, ResultRow>> {
    seq(|results|, i requires 0 <= i < |results| => RowMap(results[i].rows, results[i].key))
  }

  lemma {:induction false} MergeAllIsMerged(results: seq<BatchResult>, order: seq<nat>)
    requires InRange(order, |results|)
    ensures MergeAll(Pick(results, order)) == Merged(Maps(results), order)
  {
    if order != [] {
      var n := |order| - 1;
      MergeAllIsMerged(results, order[..n]);
      assert Pick(results, order)[..n] == Pick(results, order[..n]);
    }
  }

  // ---------- hypotheses of a normal evaluation ----------

  /** No two predictions of the file are for the same solver and instance. */
  ghost predicate DistinctKeys(ps: seq<Prediction>) {
    forall i, j | 0 <= i < j < |ps| && PredictionKey(ps[i]).Some? :: PredictionKey(ps[i]) != PredictionKey(ps[j])
  }

  /** Dataset rows name no solver and no model. */
  ghost predicate PlainDataset(ds: seq<DatasetRow>) {
    forall d | d in ds :: d.solver == ""
  }

  /** The pairs of a batch, as `_prepare_batches` forms them from a plain dataset. */
  ghost predicate PlainPairs(pairs: seq<Pair>) {
    forall i | 0 <= i < |pairs| :: pairs[i].0.instance == pairs[i].1.instance != "" && pairs[i].0.solver == ""
  }

  // ---------- the rows of one batch ----------

  /** Place `i` holds the only prediction for the instance. */
  ghost predicate OnlyFor(ps: seq<Prediction>, id: string, i: int) {
    0 <= i < |ps| && ps[i].instance == id && forall j | 0 <= j < |ps| && ps[j].instance == id :: j == i
  }

  lemma {:induction false} MatchesMean(ps: seq<Prediction>, id: string)
    ensures Matches(ps, id) == [] <==> forall j | 0 <= j < |ps| :: ps[j].instance != id
    ensures forall i | OnlyFor(ps, id, i) :: Matches(ps, id) == [ps[i]]
    ensures |Matches(ps, id)| == 1 ==> exists i :: OnlyFor(ps, id, i)
  {
    if ps != [] {
      var n := |ps| - 1;
      MatchesMean(ps[..n], id);
      if ps[n].instance == id {
        assert forall i :: OnlyFor(ps, id, i) ==> i == n;
        if |Matches(ps, id)| == 1 {
          assert Matches(ps[..n], id) == [];
          assert forall j | 0 <= j < n :: ps[j] == ps[..n][j];
          assert OnlyFor(ps, id, n);
        }
        if i :| OnlyFor(ps, id, i) {
          assert forall j | 0 <= j < n :: ps[..n][j].instance != id;
        }
      } else {
        assert forall i :: OnlyFor(ps, id, i) ==> OnlyFor(ps[..n], id, i);
        if i :| OnlyFor(ps[..n], id, i) {
          assert OnlyFor(ps, id, i);
        }
      }
    }
  }

  lemma {:induction false} PredictionAt(pairs: seq<Pair>, i: nat)
    requires i < |pairs|
    ensures Predictions(pairs)[i] == pairs[i].1
  {
    if i < |pairs| - 1 {
      PredictionAt(pairs[..|pairs| - 1], i);
    }
  }

  lemma MatchesOne(pairs: seq<Pair>, id: string, i: nat)
    requires i < |pairs| && pairs[i].1.instance == id
    ensures Matches(Predictions(pairs), id) != []
    ensures |Matches(Predictions(pairs), id)| == 1 ==>
      Matches(Predictions(pairs), id) == [pairs[i].1] &&
      forall j | 0 <= j < |pairs| && pairs[j].1.instance == id :: j == i
  {
    var ps := Predictions(pairs);
    forall j | 0 <= j < |pairs| ensures ps[j] == pairs[j].1 {
      PredictionAt(pairs, j);
    }
    MatchesMean(ps, id);
  }

  /** Row `i` of a batch the harness reported on. */
  function ReportedRow(pairs: seq<Pair>, report: Report, i: nat): ResultRow
    requires i < |pairs|
  {
    AugmentRow(ParsedRow(pairs[i].0, report), Predictions(pairs))
  }

  lemma {:induction false} BatchRowAt(pairs: seq<Pair>, report: Report, i: nat)
    requires i < |pairs|
    ensures Datasets(pairs)[i] == pairs[i].0
    ensures ParsedAll(Datasets(pairs), report)[i] == ParsedRow(pairs[i].0, report)
  {
    var n := |pairs| - 1;
    assert Datasets(pairs)[..n] == Datasets(pairs[..n]);
    if i < n {
      BatchRowAt(pairs[..n], report, i);
    }
  }

  /** A row gets its prediction's key if its instance occurs once in the batch, and no key otherwise. */
  lemma ReportedRowKey(pairs: seq<Pair>, report: Report, i: nat)
    requires i < |pairs| && PlainPairs(pairs)
    ensures var p := pairs[i].1; var row := ReportedRow(pairs, report, i);
      if |Matches(Predictions(pairs), p.instance)| == 1
      then RowKey(row) == PredictionKey(p) && row == ParsedRow(pairs[i].0, report).(solver := p.solver)
      else RowKey(row) == None
  {
    MatchesOne(pairs, pairs[i].1.instance, i);
    var parsed := ParsedRow(pairs[i].0, report);
    assert parsed.solver == "" && parsed.instance == pairs[i].1.instance;
  }

  lemma {:induction false} RowMapNone(rows: seq<ResultRow>, batchKey: string, k: Key)
    requires forall i | 0 <= i < |rows| :: RowKey(rows[i]) != Some(k)
    ensures k !in RowMap(rows, batchKey)
  {
    if rows != [] {
      RowMapNone(rows[..|rows| - 1], batchKey, k);
    }
  }

  lemma {:induction false} RowMapOne(rows: seq<ResultRow>, batchKey: string, k: Key, i: nat)
    requires i < |rows| && RowKey(rows[i]) == Some(k)
    requires forall j | 0 <= j < |rows| && RowKey(rows[j]) == Some(k) :: j == i
    ensures k in RowMap(rows, batchKey) && RowMap(rows, batchKey)[k] == rows[i].(batchKey := Some(batchKey))
  {
    var n := |rows| - 1;
    if i < n {
      RowMapOne(rows[..n], batchKey, k, i);
    }
  }

  /** The row a prediction gets out of its own batch: none if the report says nothing or if the batch has a
      second prediction for the same instance. */
  ghost function OwnRow(batch: Batch, report: Report, pair: Pair): Option<ResultRow> {
    if SaysNothing(report) || |Matches(Predictions(batch.pairs), pair.1.instance)| != 1 then None
    else Some(ParsedRow(pair.0, report).(solver := pair.1.solver, batchKey := Some(batch.key)))
  }

  lemma {:induction false} ErrorRowsHaveNoKey(pairs: seq<Pair>, reason: string)
    requires PlainPairs(pairs)
    ensures forall i | 0 <= i < |pairs| :: RowKey(ErrorRows(Datasets(pairs), reason)[i]) == None
  {
    forall i | 0 <= i < |pairs| ensures RowKey(ErrorRows(Datasets(pairs), reason)[i]) == None {
      BatchRowAt(pairs, Unusable, i);
    }
  }

  /** A key of a batch's dictionary belongs to a prediction of the batch. */
  lemma BatchMapKeys(batch: Batch, report: Report, k: Key)
    requires PlainPairs(batch.pairs)
    requires k in RowMap(BatchRows(Datasets(batch.pairs), Predictions(batch.pairs), report), batch.key)
    ensures exists i :: 0 <= i < |batch.pairs| && PredictionKey(batch.pairs[i].1) == Some(k)
  {
    var pairs := batch.pairs;
    var rows := BatchRows(Datasets(pairs), Predictions(pairs), report);
    if forall i | 0 <= i < |rows| :: RowKey(rows[i]) != Some(k) {
      RowMapNone(rows, batch.key, k);
    } else {
      var i :| 0 <= i < |rows| && RowKey(rows[i]) == Some(k);
      ErrorRowsHaveNoKey(pairs, "missing harness per-instance results");
      BatchRowAt(pairs, report, i);
      ReportedRowKey(pairs, report, i);
    }
  }

  /** A prediction finds its own row, and nothing else, under its key in its batch's dictionary. */
  lemma BatchMapValue(batch: Batch, report: Report, i: nat)
    requires PlainPairs(batch.pairs) && i < |batch.pairs| && PredictionKey(batch.pairs[i].1).Some?
    requires forall j | 0 <= j < |batch.pairs|
        && PredictionKey(batch.pairs[j].1) == PredictionKey(batch.pairs[i].1) :: j == i
    ensures
      var m := RowMap(BatchRows(Datasets(batch.pairs), Predictions(batch.pairs), report), batch.key);
      var k := PredictionKey(batch.pairs[i].1).value;
      OwnRow(batch, report, batch.pairs[i]) == if k in m then Some(m[k]) else None
  {
    var pairs := batch.pairs;
    var k := PredictionKey(pairs[i].1).value;
    var rows := BatchRows(Datasets(pairs), Predictions(pairs), report);
    if SaysNothing(report) {
      ErrorRowsHaveNoKey(pairs, "missing harness per-instance results");
      RowMapNone(rows, batch.key, k);
    } else {
      forall j | 0 <= j < |pairs| ensures rows[j] == ReportedRow(pairs, report, j) {
        BatchRowAt(pairs, report, j);
      }
      forall j | 0 <= j < |pairs| && RowKey(rows[j]) == Some(k) ensures j == i {
        ReportedRowKey(pairs, report, j);
      }
      ReportedRowKey(pairs, report, i);
      if RowKey(rows[i]) == Some(k) {
        RowMapOne(rows, batch.key, k, i);
      } else {
        RowMapNone(rows, batch.key, k);
      }
    }
  }

  // ---------- a prediction is in one batch only ----------

  lemma {:induction false} KnownPairsFrom(ds: seq<DatasetRow>, ps: seq<Prediction>)
    ensures forall pair | pair in KnownPairs(ds, ps) ::
        pair.1 in ps && Known(ds, pair.1) && pair.0 == ById(ds)[pair.1.instance]
  {
    if ps != [] {
      KnownPairsFrom(ds, ps[..|ps| - 1]);
    }
  }

  lemma {:induction false} KnownPairsOnce(ds: seq<DatasetRow>, ps: seq<Prediction>, pair: Pair)
    requires DistinctKeys(ps) && PredictionKey(pair.1).Some?
    ensures multiset(KnownPairs(ds, ps))[pair] <= 1
  {
    if ps != [] {
      var n := |ps| - 1;
      KnownPairsOnce(ds, ps[..n], pair);
      KnownPairsFrom(ds, ps[..n]);
      if ps[n] == pair.1 {
        assert pair !in KnownPairs(ds, ps[..n]);
      }
    }
  }

  lemma {:induction false} FlatContains(batches: seq<Batch>, i: nat, pair: Pair)
    requires i < |batches| && pair in batches[i].pairs
    ensures multiset(Flat(batches))[pair] >= multiset(batches[i].pairs)[pair] >= 1
    ensures forall j | i < j < |batches| && pair in batches[j].pairs :: multiset(Flat(batches))[pair] >= 2
  {
    var n := |batches| - 1;
    assert pair in multiset(batches[i].pairs);
    if i < n {
      FlatContains(batches[..n], i, pair);
    }
  }

  ghost predicate Normal(ds: seq<DatasetRow>, ps: seq<Prediction>) {
    DistinctKeys(ps) && PlainDataset(ds)
  }

  /** Under distinct keys a keyed pair sits at one place of one batch. */
  lemma OnePlace(ds: seq<DatasetRow>, ps: seq<Prediction>, size: int, i: nat, a: nat, j: nat, b: nat)
    requires Normal(ds, ps)
    requires var batches := Batches(KnownPairs(ds, ps), size);
      && i < |batches| && a < |batches[i].pairs| && j < |batches| && b < |batches[j].pairs|
      && PredictionKey(batches[i].pairs[a].1).Some?
      && PredictionKey(batches[i].pairs[a].1) == PredictionKey(batches[j].pairs[b].1)
    ensures i == j && a == b
  {
    var pairs := KnownPairs(ds, ps);
    var batches := Batches(pairs, size);
    BatchingIsPartition(ds, ps, size);
    KnownPairsFrom(ds, ps);
    var x, y := batches[i].pairs[a], batches[j].pairs[b];
    FlatContains(batches, i, x);
    FlatContains(batches, j, y);
    assert x in multiset(pairs) && y in multiset(pairs);
    var p :| 0 <= p < |ps| && ps[p] == x.1;
    var q :| 0 <= q < |ps| && ps[q] == y.1;
    assert p == q && x == y;
    KnownPairsOnce(ds, ps, x);
    TwicePlaced(batches[i].pairs, a, b);
  }

  lemma TwicePlaced(s: seq<Pair>, a: nat, b: nat)
    requires a < |s|
    ensures a != b && b < |s| && s[a] == s[b] ==> multiset(s)[s[a]] >= 2
  {
    if a != b && b < |s| && s[a] == s[b] {
      var lo, hi := if a < b then a else b, if a < b then b else a;
      assert s == s[..hi] + s[hi..];
      assert s[..hi][lo] == s[a] && s[hi..][0] == s[a];
      assert s[a] in s[..hi] && s[a] in s[hi..];
      assert multiset(s) == multiset(s[..hi]) + multiset(s[hi..]);
    }
  }

  lemma BatchesArePlain(ds: seq<DatasetRow>, ps: seq<Prediction>, size: int, i: nat)
    requires PlainDataset(ds) && i < |Batches(KnownPairs(ds, ps), size)|
    ensures PlainPairs(Batches(KnownPairs(ds, ps), size)[i].pairs)
  {
    var batches := Batches(KnownPairs(ds, ps), size);
    BatchingIsPartition(ds, ps, size);
    KnownPairsFrom(ds, ps);
    ByIdKeys(ds);
    forall a | 0 <= a < |batches[i].pairs|
      ensures batches[i].pairs[a].0.instance == batches[i].pairs[a].1.instance != ""
          && batches[i].pairs[a].0.solver == ""
    {
      var pair := batches[i].pairs[a];
      FlatContains(batches, i, pair);
      assert pair in multiset(KnownPairs(ds, ps));
    }
  }

  // ---------- main results ----------

  lemma DisjointMaps(ds: seq<DatasetRow>, ps: seq<Prediction>, size: int, reports: seq<Report>)
    requires Normal(ds, ps) && |reports| == |Batches(KnownPairs(ds, ps), size)|
    ensures
      var maps := Maps(Results(Batches(KnownPairs(ds, ps), size), reports));
      forall i, j | 0 <= i < |maps| && 0 <= j < |maps| && i != j :: maps[i].Keys !! maps[j].Keys
  {
    var batches := Batches(KnownPairs(ds, ps), size);
    var maps := Maps(Results(batches, reports));
    forall i, j, k | 0 <= i < |maps| && 0 <= j < |maps| && k in maps[i] && k in maps[j]
      ensures i == j
    {
      BatchesArePlain(ds, ps, size, i);
      BatchesArePlain(ds, ps, size, j);
      BatchMapKeys(batches[i], reports[i], k);
      BatchMapKeys(batches[j], reports[j], k);
      var a :| 0 <= a < |batches[i].pairs| && PredictionKey(batches[i].pairs[a].1) == Some(k);
      var b :| 0 <= b < |batches[j].pairs| && PredictionKey(batches[j].pairs[b].1) == Some(k);
      OnePlace(ds, ps, size, i, a, j, b);
    }
  }

  /** Batch completion order does not matter: with distinct keys and a plain dataset, every order of collecting
      the batches yields the same list of final rows. */
  lemma CompletionOrderIrrelevant(ds: seq<DatasetRow>, ps: seq<Prediction>, size: int, reports: seq<Report>,
                                  o1: seq<nat>, o2: seq<nat>)
    requires Normal(ds, ps) && |reports| == |Batches(KnownPairs(ds, ps), size)|
    requires IsOrder(o1, |reports|) && IsOrder(o2, |reports|)
    ensures var results := Results(Batches(KnownPairs(ds, ps), size), reports);
      FinalRows(ds, ps, MergeAll(Pick(results, o1))) == FinalRows(ds, ps, MergeAll(Pick(results, o2)))
  {
    var results := Results(Batches(KnownPairs(ds, ps), size), reports);
    DisjointMaps(ds, ps, size, reports);
    MergeAllIsMerged(results, o1);
    MergeAllIsMerged(results, o2);
    CompatibleMerge(Maps(results), o1, o2);
  }

  /** Every prediction keeps its own verdict: whatever the collection order, the final row under a prediction's
      key is the row its own batch's report gives it, or the explicit "no harness result" error if its batch
      could not attribute one. */
  lemma EveryPredictionKeepsItsVerdict(ds: seq<DatasetRow>, ps: seq<Prediction>, size: int, reports: seq<Report>,
                                       order: seq<nat>, i: nat, a: nat)
    requires Normal(ds, ps) && |reports| == |Batches(KnownPairs(ds, ps), size)| && IsOrder(order, |reports|)
    requires i < |reports| && a < |Batches(KnownPairs(ds, ps), size)[i].pairs|
    requires PredictionKey(Batches(KnownPairs(ds, ps), size)[i].pairs[a].1).Some?
    ensures
      var batches := Batches(KnownPairs(ds, ps), size);
      var pair := batches[i].pairs[a];
      var key := PredictionKey(pair.1);
      var own := OwnRow(batches[i], reports[i], pair);
      var row := if own.Some? then own.value else NoResultRow(pair.0, key.value);
      RowFor(ds, MergeAll(Pick(Results(batches, reports), order)), key)
        == Some(row.(environment := Or(row.environment, Or(pair.0.version, "default"))))
  {
    var batches := Batches(KnownPairs(ds, ps), size);
    var results := Results(batches, reports);
    var pair := batches[i].pairs[a];
    var k := PredictionKey(pair.1).value;
    MergeAllIsMerged(results, order);
    DisjointMaps(ds, ps, size, reports);
    BatchesArePlain(ds, ps, size, i);
    forall b | 0 <= b < |batches[i].pairs| && PredictionKey(batches[i].pairs[b].1) == Some(k) ensures b == a {
      OnePlace(ds, ps, size, i, a, i, b);
    }
    BatchMapValue(batches[i], reports[i], a);
    OnlyOwnMap(ds, ps, size, reports, order, i, a);
    BatchedIsKnown(ds, ps, size, i, a);
  }

  lemma BatchedIsKnown(ds: seq<DatasetRow>, ps: seq<Prediction>, size: int, i: nat, a: nat)
    requires i < |Batches(KnownPairs(ds, ps), size)| && a < |Batches(KnownPairs(ds, ps), size)[i].pairs|
    ensures var pair := Batches(KnownPairs(ds, ps), size)[i].pairs[a];
      pair.1 in ps && Known(ds, pair.1) && pair.0 == ById(ds)[pair.1.instance]
  {
    var pair := Batches(KnownPairs(ds, ps), size)[i].pairs[a];
    BatchingIsPartition(ds, ps, size);
    FlatContains(Batches(KnownPairs(ds, ps), size), i, pair);
    assert pair in multiset(KnownPairs(ds, ps));
    KnownPairsFrom(ds, ps);
  }

  lemma OnlyOwnMap(ds: seq<DatasetRow>, ps: seq<Prediction>, size: int, reports: seq<Report>, order: seq<nat>,
                   i: nat, a: nat)
    requires Normal(ds, ps) && |reports| == |Batches(KnownPairs(ds, ps), size)| && IsOrder(order, |reports|)
    requires i < |reports| && a < |Batches(KnownPairs(ds, ps), size)[i].pairs|
    requires PredictionKey(Batches(KnownPairs(ds, ps), size)[i].pairs[a].1).Some?
    ensures
      var batches := Batches(KnownPairs(ds, ps), size);
      var k := PredictionKey(batches[i].pairs[a].1).value;
      var maps := Maps(Results(batches, reports));
      && (k in Merged(maps, order) <==> k in maps[i])
      && (k in maps[i] ==> Merged(maps, order)[k] == maps[i][k])
  {
    var batches := Batches(KnownPairs(ds, ps), size);
    var k := PredictionKey(batches[i].pairs[a].1).value;
    var maps := Maps(Results(batches, reports));
    MergedValue(maps, order, k);
    assert i in order;
    forall j | 0 <= j < |maps| && k in maps[j] ensures j == i {
      BatchesArePlain(ds, ps, size, j);
      BatchMapKeys(batches[j], reports[j], k);
      var b :| 0 <= b < |batches[j].pairs| && PredictionKey(batches[j].pairs[b].1) == Some(k);
      OnePlace(ds, ps, size, i, a, j, b);
    }
  }

  /** `None` where a batch raised. */
  function Reports(outcomes: seq<Option<Report>>): (reports: seq<Report>)
    requires None !in outcomes
    ensures |reports| == |outcomes| && forall i | 0 <= i < |outcomes| :: outcomes[i] == Some(reports[i])
  {
    if outcomes == [] then [] else
    assert outcomes[|outcomes| - 1] in outcomes;
    Reports(outcomes[..|outcomes| - 1]) + [outcomes[|outcomes| - 1].value]
  }

  function Raises(outcomes: seq<Option<Report>>): seq<bool> {
    seq(|outcomes|, i requires 0 <= i < |outcomes| => outcomes[i] == None)
  }

  /** The result of a complete run of the pool: an error, or the final rows. */
  ghost function Outcome(ds: seq<DatasetRow>, ps: seq<Prediction>, size: int, outcomes: seq<Option<Report>>,
                         s: JudgePool.Pool): Result<seq<ResultRow>, ()>
    requires |outcomes| == |Batches(KnownPairs(ds, ps), size)|
  {
    if s.raised.Some? || None in outcomes || !InRange(s.collected, |outcomes|) then Err(())
    else
      var results := Results(Batches(KnownPairs(ds, ps), size), Reports(outcomes));
      Ok(FinalRows(ds, ps, MergeAll(Pick(results, s.collected))))
  }

  /** Any two complete runs of the thread pool, with any degrees of parallelism and any interleavings, agree:
      both fail, exactly when some batch raises, or both yield the same rows. */
  lemma RunsAgree(ds: seq<DatasetRow>, ps: seq<Prediction>, size: int, outcomes: seq<Option<Report>>,
                  cap1: nat, actions1: seq<JudgePool.Action>, cap2: nat, actions2: seq<JudgePool.Action>)
    requires Normal(ds, ps) && |outcomes| == |Batches(KnownPairs(ds, ps), size)|
    requires var r := JudgePool.Run(cap1, Raises(outcomes), actions1);
      r.Some? && JudgePool.Complete(Raises(outcomes), r.value)
    requires var r := JudgePool.Run(cap2, Raises(outcomes), actions2);
      r.Some? && JudgePool.Complete(Raises(outcomes), r.value)
    ensures
      var s1 := JudgePool.Run(cap1, Raises(outcomes), actions1).value;
      var s2 := JudgePool.Run(cap2, Raises(outcomes), actions2).value;
      && (s1.raised.Some? <==> None in outcomes)
      && (None !in outcomes ==> IsOrder(s1.collected, |outcomes|))
      && Outcome(ds, ps, size, outcomes, s1) == Outcome(ds, ps, size, outcomes, s2)
  {
    var raises := Raises(outcomes);
    JudgePool.CompleteRunCollectsAll(cap1, raises, actions1);
    JudgePool.CompleteRunCollectsAll(cap2, raises, actions2);
    assert true in raises <==> None in outcomes by {
      if None in outcomes {
        var i :| 0 <= i < |outcomes| && outcomes[i] == None;
        assert raises[i];
      }
    }
    if None !in outcomes {
      var s1 := JudgePool.Run(cap1, raises, actions1).value;
      var s2 := JudgePool.Run(cap2, raises, actions2).value;
      CompletionOrderIrrelevant(ds, ps, size, Reports(outcomes), s1.collected, s2.collected);
    }
  }
}
