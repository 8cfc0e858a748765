/** When the completion order of the batches shows in the evaluation's rows: the exact condition, first in terms of
    what the batches return and then in terms of the input alone, with no hypotheses on either. */
module JudgeOrder {
  import opened Wrappers
  import opened Text
  import opened JudgeRows
  import opened JudgeBatches
  import opened JudgeAssembly
  import opened JudgeEvaluation
  import opened MapMerge

  /** The final list asks for the keys of the predictions of known instances, and for no others. */
  ghost predicate Wanted(ds: seq<DatasetRow>, ps: seq<Prediction>, k: Key) {
    k.1 in ById(ds) && exists p :: p in ps && PredictionKey(p) == Some(k)
  }

  /** A row as it goes into the final list. */
  function Settled(d: DatasetRow, row: ResultRow): ResultRow {
    row.(environment := Or(row.environment, Or(d.version, "default")))
  }

  /** Every order of collecting the batches leads to the same final rows. */
  ghost predicate OrderFree(ds: seq<DatasetRow>, ps: seq<Prediction>, results: seq<BatchResult>) {
    forall o1, o2 | IsOrder(o1, |results|) && IsOrder(o2, |results|) ::
      FinalRows(ds, ps, MergeAll(Pick(results, o1))) == FinalRows(ds, ps, MergeAll(Pick(results, o2)))
  }

  // ---------- final rows and dictionaries ----------

  lemma {:induction false} SamePredictionRows(ds: seq<DatasetRow>, ps: seq<Prediction>, m1: map<Key, ResultRow>,
                                              m2: map<Key, ResultRow>)
    ensures |PredictionRows(ds, m1, ps)| == |PredictionRows(ds, m2, ps)|
    ensures PredictionRows(ds, m1, ps) == PredictionRows(ds, m2, ps)
            <==> forall p | p in ps :: RowFor(ds, m1, PredictionKey(p)) == RowFor(ds, m2, PredictionKey(p))
  {
    if ps != [] {
      var n := |ps| - 1;
      SamePredictionRows(ds, ps[..n], m1, m2);
      assert ps == ps[..n] + [ps[n]];
      var head1, head2 := PredictionRows(ds, m1, ps[..n]), PredictionRows(ds, m2, ps[..n]);
      var row1, row2 := RowFor(ds, m1, PredictionKey(ps[n])), RowFor(ds, m2, PredictionKey(ps[n]));
      if row1.Some? {
        SameAppend(head1, head2, row1.value, row2.value);
      }
    }
  }

  lemma SameAppend(a: seq<ResultRow>, b: seq<ResultRow>, x: ResultRow, y: ResultRow)
    requires |a| == |b|
    ensures a + [x] == b + [y] <==> a == b && x == y
  {
    assert (a + [x])[..|a|] == a && (b + [y])[..|b|] == b;
    assert (a + [x])[|a|] == x && (b + [y])[|b|] == y;
  }

  /** The final rows differ exactly where the rows for some prediction differ. */
  lemma SameFinalRows(ds: seq<DatasetRow>, ps: seq<Prediction>, r1: seq<BatchResult>, r2: seq<BatchResult>)
    ensures FinalRows(ds, ps, MergeAll(r1)) == FinalRows(ds, ps, MergeAll(r2))
            <==> forall p | p in ps ::
                   RowFor(ds, MergeAll(r1), PredictionKey(p)) == RowFor(ds, MergeAll(r2), PredictionKey(p))
  {
    var head1, head2 := PredictionRows(ds, MergeAll(r1), ps), PredictionRows(ds, MergeAll(r2), ps);
    SamePredictionRows(ds, ps, MergeAll(r1), MergeAll(r2));
    var tail1 := FinalRowsShape(ds, ps, r1);
    var tail2 := FinalRowsShape(ds, ps, r2);
    if head1 + tail1 == head2 + tail2 {
      assert (head1 + tail1)[..|head1|] == head1 && (head2 + tail2)[..|head2|] == head2;
    }
  }

  lemma RowOfKey(ds: seq<DatasetRow>, results: seq<BatchResult>, order: seq<nat>, k: Key)
    requires IsOrder(order, |results|) && k.0 != "" && k.1 in ById(ds)
    ensures var merged := Merged(Maps(results), order);
      RowFor(ds, MergeAll(Pick(results, order)), Some(k))
      == Some(Settled(ById(ds)[k.1], if k in merged then merged[k] else NoResultRow(ById(ds)[k.1], k)))
  {
    MergeAllIsMerged(results, order);
  }

  // ---------- the condition on what the batches return ----------

  /** No two batches return rows under a wanted key that would show as different final rows. */
  ghost predicate AgreeOnWanted(ds: seq<DatasetRow>, ps: seq<Prediction>, maps: seq<map<Key, ResultRow>>) {
    forall i, j, k | 0 <= i < |maps| && 0 <= j < |maps| && k in maps[i] && k in maps[j] && Wanted(ds, ps, k) ::
      Settled(ById(ds)[k.1], maps[i][k]) == Settled(ById(ds)[k.1], maps[j][k])
  }

  lemma AgreeingRow(ds: seq<DatasetRow>, ps: seq<Prediction>, results: seq<BatchResult>, o1: seq<nat>, o2: seq<nat>,
                    p: Prediction)
    requires AgreeOnWanted(ds, ps, Maps(results)) && p in ps
    requires IsOrder(o1, |results|) && IsOrder(o2, |results|)
    ensures RowFor(ds, MergeAll(Pick(results, o1)), PredictionKey(p))
         == RowFor(ds, MergeAll(Pick(results, o2)), PredictionKey(p))
  {
    var key := PredictionKey(p);
    if key.Some? && key.value.1 in ById(ds) {
      var k, maps := key.value, Maps(results);
      assert Wanted(ds, ps, k);
      RowOfKey(ds, results, o1, k);
      RowOfKey(ds, results, o2, k);
      SameSettled(ds, ps, maps, o1, o2, k);
    }
  }

  lemma SameSettled(ds: seq<DatasetRow>, ps: seq<Prediction>, maps: seq<map<Key, ResultRow>>, o1: seq<nat>,
                    o2: seq<nat>, k: Key)
    requires AgreeOnWanted(ds, ps, maps) && Wanted(ds, ps, k) && IsOrder(o1, |maps|) && IsOrder(o2, |maps|)
    ensures k in Merged(maps, o1) <==> k in Merged(maps, o2)
    ensures k in Merged(maps, o1) ==>
        Settled(ById(ds)[k.1], Merged(maps, o1)[k]) == Settled(ById(ds)[k.1], Merged(maps, o2)[k])
  {
    if k in Merged(maps, o1) {
      SettledFrom(ds, ps, maps, o1, o2, k);
    } else if k in Merged(maps, o2) {
      SettledFrom(ds, ps, maps, o2, o1, k);
    }
  }

  lemma SettledFrom(ds: seq<DatasetRow>, ps: seq<Prediction>, maps: seq<map<Key, ResultRow>>, o1: seq<nat>,
                    o2: seq<nat>, k: Key)
    requires AgreeOnWanted(ds, ps, maps) && Wanted(ds, ps, k) && IsOrder(o1, |maps|) && IsOrder(o2, |maps|)
    requires k in Merged(maps, o1)
    ensures k in Merged(maps, o2)
    ensures Settled(ById(ds)[k.1], Merged(maps, o1)[k]) == Settled(ById(ds)[k.1], Merged(maps, o2)[k])
  {
    MergedValue(maps, o1, k);
    MergedValue(maps, o2, k);
    var p :| 0 <= p < |o1| && k in maps[o1[p]] && Merged(maps, o1)[k] == maps[o1[p]][k];
    assert o1[p] in o2;
    var q :| 0 <= q < |o2| && k in maps[o2[q]] && Merged(maps, o2)[k] == maps[o2[q]][k];
  }

  lemma ConflictingRow(ds: seq<DatasetRow>, ps: seq<Prediction>, results: seq<BatchResult>, i: nat, j: nat, k: Key)
    requires i < |results| && j < |results| && Wanted(ds, ps, k)
    requires var maps := Maps(results);
      k in maps[i] && k in maps[j] && Settled(ById(ds)[k.1], maps[i][k]) != Settled(ById(ds)[k.1], maps[j][k])
    ensures !OrderFree(ds, ps, results)
  {
    var o1, o2 := LastTwo(Maps(results), i, j);
    var p :| p in ps && PredictionKey(p) == Some(k);
    RowOfKey(ds, results, o1, k);
    RowOfKey(ds, results, o2, k);
    SameFinalRows(ds, ps, Pick(results, o1), Pick(results, o2));
    assert RowFor(ds, MergeAll(Pick(results, o1)), PredictionKey(p))
        != RowFor(ds, MergeAll(Pick(results, o2)), PredictionKey(p));
  }

  /** The final rows are the same for every collection order iff no two batches return different rows under a key
      that some prediction of a known instance has. */
  lemma OrderMattersOnlyOnConflict(ds: seq<DatasetRow>, ps: seq<Prediction>, results: seq<BatchResult>)
    ensures OrderFree(ds, ps, results) <==> AgreeOnWanted(ds, ps, Maps(results))
  {
    var maps := Maps(results);
    if AgreeOnWanted(ds, ps, maps) {
      forall o1, o2 | IsOrder(o1, |results|) && IsOrder(o2, |results|)
        ensures FinalRows(ds, ps, MergeAll(Pick(results, o1))) == FinalRows(ds, ps, MergeAll(Pick(results, o2)))
      {
        forall p | p in ps
          ensures RowFor(ds, MergeAll(Pick(results, o1)), PredictionKey(p))
               == RowFor(ds, MergeAll(Pick(results, o2)), PredictionKey(p))
        {
          AgreeingRow(ds, ps, results, o1, o2, p);
        }
        SameFinalRows(ds, ps, Pick(results, o1), Pick(results, o2));
      }
    } else {
      var i, j, k :| 0 <= i < |maps| && 0 <= j < |maps| && k in maps[i] && k in maps[j] && Wanted(ds, ps, k)
                     && Settled(ById(ds)[k.1], maps[i][k]) != Settled(ById(ds)[k.1], maps[j][k]);
      ConflictingRow(ds, ps, results, i, j, k);
    }
  }

  // ---------- the condition on the input ----------

  /** The key under which a batch returns its row for d: the dataset row's own solver, or else that of the only
      prediction for the instance in the batch. */
  function KeyIn(pairs: seq<Pair>, d: DatasetRow): Option<Key> {
    if d.solver != "" then MakeKey(d.solver, d.instance)
    else
      var matches := Matches(Predictions(pairs), d.instance);
      if |matches| == 1 then MakeKey(matches[0].solver, d.instance) else None
  }

  ghost predicate Holds(pairs: seq<Pair>, k: Key) {
    exists a :: 0 <= a < |pairs| && KeyIn(pairs, pairs[a].0) == Some(k)
  }

  lemma KeyOfParsed(d: DatasetRow, pairs: seq<Pair>, report: Report)
    ensures var row := AugmentRow(ParsedRow(d, report), Predictions(pairs));
      RowKey(row) == KeyIn(pairs, d) && row.status == ParsedRow(d, report).status
  {
    var parsed := ParsedRow(d, report);
    assert parsed.solver == d.solver && parsed.instance == d.instance;
  }

  /** A batch returns its rows under the keys it holds; without a usable report it returns fewer. */
  lemma BatchRowKeys(pairs: seq<Pair>, report: Report, a: nat)
    requires a < |pairs|
    ensures var rows := BatchRows(Datasets(pairs), Predictions(pairs), report);
      && |rows| == |pairs|
      && (RowKey(rows[a]).Some? ==> RowKey(rows[a]) == KeyIn(pairs, pairs[a].0))
      && (!SaysNothing(report) ==>
            && RowKey(rows[a]) == KeyIn(pairs, pairs[a].0)
            && rows[a].status == ParsedRow(pairs[a].0, report).status)
  {
    BatchRowAt(pairs, report, a);
    var d := pairs[a].0;
    if SaysNothing(report) {
      assert RowKey(ErrorRow(d, "missing harness per-instance results")) == MakeKey(d.solver, d.instance);
    } else {
      KeyOfParsed(d, pairs, report);
    }
  }

  lemma ReturnedIsHeld(batch: Batch, report: Report, k: Key)
    requires k in RowMap(BatchRows(Datasets(batch.pairs), Predictions(batch.pairs), report), batch.key)
    ensures Holds(batch.pairs, k)
  {
    var rows := BatchRows(Datasets(batch.pairs), Predictions(batch.pairs), report);
    if forall a | 0 <= a < |rows| :: RowKey(rows[a]) != Some(k) {
      RowMapNone(rows, batch.key, k);
    } else {
      var a :| 0 <= a < |rows| && RowKey(rows[a]) == Some(k);
      assert |rows| == |batch.pairs|;
      BatchRowKeys(batch.pairs, report, a);
    }
  }

  lemma {:induction false} RowMapStatus(rows: seq<ResultRow>, batchKey: string, k: Key, status: Status)
    requires exists a :: 0 <= a < |rows| && RowKey(rows[a]) == Some(k)
    requires forall a | 0 <= a < |rows| && RowKey(rows[a]) == Some(k) :: rows[a].status == status
    ensures k in RowMap(rows, batchKey) && RowMap(rows, batchKey)[k].status == status
  {
    var n := |rows| - 1;
    if RowKey(rows[n]) != Some(k) {
      var a :| 0 <= a < |rows| && RowKey(rows[a]) == Some(k);
      assert rows[..n][a] == rows[a];
      RowMapStatus(rows[..n], batchKey, k, status);
    }
  }

  /** Under a held key a batch returns the status its report gives the instance. */
  lemma HeldIsReturned(batch: Batch, report: Report, k: Key, raw: RawResult)
    requires Holds(batch.pairs, k) && Verdict(report, k.1) == Some(raw)
    ensures var m := RowMap(BatchRows(Datasets(batch.pairs), Predictions(batch.pairs), report), batch.key);
      k in m && m[k].status == raw.status
  {
    var rows := BatchRows(Datasets(batch.pairs), Predictions(batch.pairs), report);
    forall a | 0 <= a < |batch.pairs|
      ensures |rows| == |batch.pairs| && RowKey(rows[a]) == KeyIn(batch.pairs, batch.pairs[a].0)
      ensures RowKey(rows[a]) == Some(k) ==> rows[a].status == raw.status
    {
      BatchRowKeys(batch.pairs, report, a);
    }
    var a :| 0 <= a < |batch.pairs| && KeyIn(batch.pairs, batch.pairs[a].0) == Some(k);
    assert RowKey(rows[a]) == Some(k);
    RowMapStatus(rows, batch.key, k, raw.status);
  }

  /** No key that a prediction of a known instance has is held by two batches. */
  ghost predicate HeldOnce(ds: seq<DatasetRow>, ps: seq<Prediction>, size: int) {
    var batches := Batches(KnownPairs(ds, ps), size);
    forall i, j, k | 0 <= i < |batches| && 0 <= j < |batches| && i != j && Wanted(ds, ps, k) ::
      !(Holds(batches[i].pairs, k) && Holds(batches[j].pairs, k))
  }

  ghost predicate AlwaysOrderFree(ds: seq<DatasetRow>, ps: seq<Prediction>, size: int) {
    var batches := Batches(KnownPairs(ds, ps), size);
    forall reports | |reports| == |batches| :: OrderFree(ds, ps, Results(batches, reports))
  }

  /** One report resolves the instance, another does not. */
  lemma OpposedReports(id: string)
    requires id != ""
    ensures Verdict(IdLists([id], [], [], []), id) == Some(RESOLVED)
    ensures Verdict(IdLists([], [id], [], []), id) == Some(UNRESOLVED)
  {
    assert [id][0] == id;
    assert id in Ids([id]);
  }

  lemma TwoHoldersConflict(ds: seq<DatasetRow>, ps: seq<Prediction>, batches: seq<Batch>, i: nat, j: nat, k: Key,
                           reports: seq<Report>)
    requires i < |batches| && j < |batches| && |reports| == |batches| && Wanted(ds, ps, k)
    requires Holds(batches[i].pairs, k) && Holds(batches[j].pairs, k)
    requires Verdict(reports[i], k.1) == Some(RESOLVED) && Verdict(reports[j], k.1) == Some(UNRESOLVED)
    ensures !OrderFree(ds, ps, Results(batches, reports))
  {
    var results := Results(batches, reports);
    HeldIsReturned(batches[i], reports[i], k, RESOLVED);
    HeldIsReturned(batches[j], reports[j], k, UNRESOLVED);
    assert Maps(results)[i] == RowMap(results[i].rows, results[i].key);
    assert Maps(results)[j] == RowMap(results[j].rows, results[j].key);
    ConflictingRow(ds, ps, results, i, j, k);
  }

  lemma HeldOnceAgrees(ds: seq<DatasetRow>, ps: seq<Prediction>, size: int, reports: seq<Report>)
    requires HeldOnce(ds, ps, size) && |reports| == |Batches(KnownPairs(ds, ps), size)|
    ensures AgreeOnWanted(ds, ps, Maps(Results(Batches(KnownPairs(ds, ps), size), reports)))
  {
    var batches := Batches(KnownPairs(ds, ps), size);
    var maps := Maps(Results(batches, reports));
    forall i, j, k | 0 <= i < |maps| && 0 <= j < |maps| && k in maps[i] && k in maps[j] && Wanted(ds, ps, k)
      ensures i == j
    {
      ReturnedIsHeld(batches[i], reports[i], k);
      ReturnedIsHeld(batches[j], reports[j], k);
    }
  }

  /** Batch i's report resolves the instance, every other report does not. */
  function Opposed(n: nat, i: nat, id: string): (reports: seq<Report>)
    ensures |reports| == n
    ensures forall j | 0 <= j < n ::
        reports[j] == if j == i then IdLists([id], [], [], []) else IdLists([], [id], [], [])
  {
    seq(n, j => if j == i then IdLists([id], [], [], []) else IdLists([], [id], [], []))
  }

  lemma TwoHoldersMatter(ds: seq<DatasetRow>, ps: seq<Prediction>, batches: seq<Batch>, i: nat, j: nat, k: Key)
    requires i < |batches| && j < |batches| && i != j && Wanted(ds, ps, k)
    requires Holds(batches[i].pairs, k) && Holds(batches[j].pairs, k)
    ensures !OrderFree(ds, ps, Results(batches, Opposed(|batches|, i, k.1)))
  {
    ByIdKeys(ds);
    OpposedReports(k.1);
    TwoHoldersConflict(ds, ps, batches, i, j, k, Opposed(|batches|, i, k.1));
  }

  /** For any dataset, predictions and batch size: whatever the harness reports, the completion order does not show in
      the final rows, iff no key of a prediction of a known instance is held by two batches. */
  lemma OrderFreeIffHeldOnce(ds: seq<DatasetRow>, ps: seq<Prediction>, size: int)
    ensures AlwaysOrderFree(ds, ps, size) <==> HeldOnce(ds, ps, size)
  {
    if HeldOnce(ds, ps, size) {
      HeldOnceIsFree(ds, ps, size);
    } else {
      var batches := Batches(KnownPairs(ds, ps), size);
      var i, j, k :| 0 <= i < |batches| && 0 <= j < |batches| && i != j && Wanted(ds, ps, k)
                     && Holds(batches[i].pairs, k) && Holds(batches[j].pairs, k);
      TwoHoldersMatter(ds, ps, batches, i, j, k);
    }
  }

  lemma HeldOnceIsFree(ds: seq<DatasetRow>, ps: seq<Prediction>, size: int)
    requires HeldOnce(ds, ps, size)
    ensures AlwaysOrderFree(ds, ps, size)
  {
    var batches := Batches(KnownPairs(ds, ps), size);
    forall reports | |reports| == |batches| ensures OrderFree(ds, ps, Results(batches, reports)) {
      HeldOnceAgrees(ds, ps, size, reports);
      OrderMattersOnlyOnConflict(ds, ps, Results(batches, reports));
    }
  }

  /** Distinct prediction keys and a dataset without solver names are enough. */
  lemma NormalIsHeldOnce(ds: seq<DatasetRow>, ps: seq<Prediction>, size: int)
    requires Normal(ds, ps)
    ensures HeldOnce(ds, ps, size)
  {
    var batches := Batches(KnownPairs(ds, ps), size);
    forall i, j, k |
        0 <= i < |batches| && 0 <= j < |batches| && Holds(batches[i].pairs, k) && Holds(batches[j].pairs, k)
      ensures i == j
    {
      var a := PlainHolder(ds, ps, size, i, k);
      var b := PlainHolder(ds, ps, size, j, k);
      OnePlace(ds, ps, size, i, a, j, b);
    }
  }

  /** In a plain dataset a held key is that of a prediction in the batch. */
  lemma PlainHolder(ds: seq<DatasetRow>, ps: seq<Prediction>, size: int, i: nat, k: Key) returns (a: nat)
    requires PlainDataset(ds) && i < |Batches(KnownPairs(ds, ps), size)|
    requires Holds(Batches(KnownPairs(ds, ps), size)[i].pairs, k)
    ensures var pairs := Batches(KnownPairs(ds, ps), size)[i].pairs; a < |pairs| && PredictionKey(pairs[a].1) == Some(k)
  {
    var pairs := Batches(KnownPairs(ds, ps), size)[i].pairs;
    BatchesArePlain(ds, ps, size, i);
    a :| a < |pairs| && KeyIn(pairs, pairs[a].0) == Some(k);
    MatchesOne(pairs, pairs[a].0.instance, a);
  }

  /** It can fail: two predictions of one solver for one instance, in batches of one, of which one is resolved. */
  lemma OrderCanMatter() returns (ds: seq<DatasetRow>, ps: seq<Prediction>, reports: seq<Report>)
    ensures |reports| == |Batches(KnownPairs(ds, ps), 1)| == 2
    ensures !OrderFree(ds, ps, Results(Batches(KnownPairs(ds, ps), 1), reports))
  {
    var d := DatasetRow("i", "", "repo", "1", "");
    var p, q := Prediction("i", "s", "m", "one"), Prediction("i", "s", "m", "two");
    ds, ps := [d], [p, q];
    var batches := Batches(KnownPairs(ds, ps), 1);
    TwoBatches(d, p, q);
    var k := ("s", "i");
    HoldsOwn(d, p);
    HoldsOwn(d, q);
    assert p in ps && Wanted(ds, ps, k);
    OpposedReports("i");
    reports := Opposed(2, 0, "i");
    TwoHoldersConflict(ds, ps, batches, 0, 1, k, reports);
  }

  lemma TwoBatches(d: DatasetRow, p: Prediction, q: Prediction)
    requires d.instance == p.instance == q.instance != "" && p.model == q.model
    ensures var key := BatchKey((d, p));
      Batches(KnownPairs([d], [p, q]), 1) == [Batch(key, [(d, p)]), Batch(key, [(d, q)])]
    ensures ById([d]) == map[d.instance := d]
  {
    assert [d][..0] == [] && ById([d]) == map[d.instance := d];
    assert [p, q][..1] == [p] && [p][..0] == [];
    assert KnownPairs([d], [p]) == [(d, p)];
    assert KnownPairs([d], [p, q]) == [(d, p), (d, q)];
    OneGroup((d, p), (d, q));
  }

  /** Pairs of one batch key make one group, in order. */
  lemma {:induction false} OneKeyGroup(pairs: seq<Pair>, key: string)
    requires pairs != [] && forall pair | pair in pairs :: BatchKey(pair) == key
    ensures Groups(pairs) == [key]
  {
    var n := |pairs| - 1;
    assert pairs[n] in pairs;
    if n == 0 {
      assert Groups(pairs[..n]) == [];
      assert key !in Groups(pairs[..n]);
    } else {
      OneKeyGroup(pairs[..n], key);
      assert [key][0] == key;
      assert key in Groups(pairs[..n]);
    }
  }

  lemma {:induction false} OneKeyPairs(pairs: seq<Pair>, key: string)
    requires forall pair | pair in pairs :: BatchKey(pair) == key
    ensures OfKey(pairs, key) == pairs
  {
    if pairs != [] {
      var n := |pairs| - 1;
      assert pairs[n] in pairs;
      OneKeyPairs(pairs[..n], key);
      assert pairs == pairs[..n] + [pairs[n]];
    }
  }

  lemma OneKeyBatches(key: string, pairs: seq<Pair>, size: nat)
    requires size > 0 && OfKey(pairs, key) == pairs
    ensures BatchesFor([key], pairs, size) == Labelled(key, Chunks(pairs, size))
  {
    assert [key][..0] == [] && BatchesFor([], pairs, size) == [];
  }

  lemma TwoChunks(key: string, x: Pair, y: Pair)
    ensures Labelled(key, Chunks([x, y], 1)) == [Batch(key, [x]), Batch(key, [y])]
  {
    assert [x, y][..1] == [x] && [x, y][1..] == [y];
    LabelledFirst(key, [x, y], 1);
    assert Labelled(key, Chunks([y], 1)) == [Batch(key, [y])];
  }

  lemma OneGroup(x: Pair, y: Pair)
    requires BatchKey(x) == BatchKey(y)
    ensures var key := BatchKey(x); Batches([x, y], 1) == [Batch(key, [x]), Batch(key, [y])]
  {
    OneKeyGroup([x, y], BatchKey(x));
    OneKeyPairs([x, y], BatchKey(x));
    OneKeyBatches(BatchKey(x), [x, y], 1);
    TwoChunks(BatchKey(x), x, y);
  }

  lemma HoldsOwn(d: DatasetRow, p: Prediction)
    requires d.instance == p.instance != "" && d.solver == "" && p.solver != ""
    ensures Holds([(d, p)], (p.solver, p.instance))
  {
    var pairs := [(d, p)];
    assert pairs[..0] == [] && Predictions(pairs) == [p];
    assert [p][..0] == [] && Matches([p], d.instance) == [p];
    assert KeyIn(pairs, pairs[0].0) == Some((p.solver, p.instance));
  }
}
