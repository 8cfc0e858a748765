/** What shares a harness batch, and which solver a row without one is given (repogauge/runner/judge.py). */
module BatchMeaning {
  import opened Wrappers
  import opened JudgeRows
  import opened JudgeBatches
  import opened JudgeEvaluation

  // ---------- the dataset row of an instance ----------

  ghost predicate LastWithId(ds: seq<DatasetRow>, id: string, i: int) {
    0 <= i < |ds| && ds[i].instance == id && forall j | i < j < |ds| :: ds[j].instance != id
  }

  /** An instance is judged against the last dataset row with its id. */
  lemma {:induction false} ByIdMeans(ds: seq<DatasetRow>, id: string)
    ensures id in ById(ds) <==> id != "" && exists i :: LastWithId(ds, id, i)
    ensures forall i | id != "" && LastWithId(ds, id, i) :: id in ById(ds) && ById(ds)[id] == ds[i]
  {
    if ds != [] {
      var n := |ds| - 1;
      ByIdMeans(ds[..n], id);
      if ds[n].instance == id {
        assert LastWithId(ds, id, n);
      } else {
        assert forall i :: LastWithId(ds[..n], id, i) ==> LastWithId(ds, id, i);
        assert forall i :: LastWithId(ds, id, i) ==> LastWithId(ds[..n], id, i);
      }
    }
  }

  // ---------- what shares a batch ----------

  /** Model, repository and version. */
  function Environment(pair: Pair): (string, string, string) {
    (pair.1.model, pair.0.repo, pair.0.version)
  }

  predicate NoBar(e: (string, string, string)) {
    '|' !in e.0 && '|' !in e.1 && '|' !in e.2
  }

  lemma CutAtBar(a: string, x: string, b: string, y: string)
    requires '|' !in a && '|' !in b && a + "|" + x == b + "|" + y
    ensures a == b && x == y
  {
    var all := a + "|" + x;
    assert all[|a|] == '|' && all[|b|] == '|';
    assert forall k | 0 <= k < |a| :: all[k] == a[k] != '|';
    assert forall k | 0 <= k < |b| :: all[k] == b[k] != '|';
    assert all[..|a|] == a && all[..|b|] == b && all[|a| + 1..] == x && all[|b| + 1..] == y;
  }

  function JoinBars(e: (string, string, string)): string {
    e.0 + "|" + (e.1 + "|" + e.2)
  }

  lemma JoinBarsIsKey(pair: Pair)
    ensures BatchKey(pair) == JoinBars(Environment(pair))
  {
    var e := Environment(pair);
    assert e.0 + "|" + e.1 + "|" + e.2 == e.0 + "|" + (e.1 + "|" + e.2);
  }

  lemma JoinBarsInjective(e: (string, string, string), f: (string, string, string))
    requires NoBar(e) && NoBar(f) && JoinBars(e) == JoinBars(f)
    ensures e == f
  {
    CutAtBar(e.0, e.1 + "|" + e.2, f.0, f.1 + "|" + f.2);
    CutAtBar(e.1, e.2, f.1, f.2);
  }

  /** Predictions of one environment share their key; and unless a name holds a bar only those do. */
  lemma SameKeyMeans(p: Pair, q: Pair)
    ensures Environment(p) == Environment(q) ==> BatchKey(p) == BatchKey(q)
    ensures BatchKey(p) == BatchKey(q) && NoBar(Environment(p)) && NoBar(Environment(q)) ==>
              Environment(p) == Environment(q)
  {
    JoinBarsIsKey(p);
    JoinBarsIsKey(q);
    if BatchKey(p) == BatchKey(q) && NoBar(Environment(p)) && NoBar(Environment(q)) {
      JoinBarsInjective(Environment(p), Environment(q));
    }
  }

  /** With a bar in a name two environments can share a key. */
  lemma KeysCanCollide() returns (p: Pair, q: Pair)
    ensures BatchKey(p) == BatchKey(q) && Environment(p) != Environment(q)
  {
    p := (DatasetRow("i", "", "b", "1", ""), Prediction("i", "s", "m|a", ""));
    q := (DatasetRow("i", "", "a|b", "1", ""), Prediction("i", "s", "m", ""));
    assert BatchKey(p) == "m|a|b|1" == BatchKey(q);
  }

  lemma {:induction false} ChunksFrom(values: seq<Pair>, size: nat, i: nat, a: nat)
    requires size > 0 && i < |Chunks(values, size)| && a < |Chunks(values, size)[i]|
    ensures Chunks(values, size)[i][a] in values
    decreases |values|
  {
    if |values| > size && i > 0 {
      ChunksFrom(values[size..], size, i - 1, a);
      assert Chunks(values, size)[i] == Chunks(values[size..], size)[i - 1];
    }
  }

  lemma {:induction false} OfKeyContents(pairs: seq<Pair>, key: string)
    ensures forall pair | pair in OfKey(pairs, key) :: BatchKey(pair) == key
  {
    if pairs != [] {
      OfKeyContents(pairs[..|pairs| - 1], key);
    }
  }

  lemma {:induction false} BatchOfKey(keys: seq<string>, pairs: seq<Pair>, size: nat, i: nat, a: nat)
    requires size > 0 && i < |BatchesFor(keys, pairs, size)| && a < |BatchesFor(keys, pairs, size)[i].pairs|
    ensures BatchKey(BatchesFor(keys, pairs, size)[i].pairs[a]) == BatchesFor(keys, pairs, size)[i].key
  {
    var n := |keys| - 1;
    var before := BatchesFor(keys[..n], pairs, size);
    if i < |before| {
      BatchOfKey(keys[..n], pairs, size, i, a);
    } else {
      ChunksFrom(OfKey(pairs, keys[n]), size, i - |before|, a);
      OfKeyContents(pairs, keys[n]);
    }
  }

  /** All predictions of a batch have the batch's key; so a harness call sees one model, repository and version. */
  lemma BatchIsUniform(ds: seq<DatasetRow>, ps: seq<Prediction>, size: int, i: nat, a: nat, b: nat)
    requires i < |Batches(KnownPairs(ds, ps), size)|
    requires a < |Batches(KnownPairs(ds, ps), size)[i].pairs| && b < |Batches(KnownPairs(ds, ps), size)[i].pairs|
    ensures var batch := Batches(KnownPairs(ds, ps), size)[i]; var p, q := batch.pairs[a], batch.pairs[b];
      && batch.key == p.1.model + "|" + p.0.repo + "|" + p.0.version
      && p.0.instance == p.1.instance
      && (NoBar(Environment(p)) && NoBar(Environment(q)) ==> Environment(p) == Environment(q))
  {
    var pairs := KnownPairs(ds, ps);
    BatchOfKey(Groups(pairs), pairs, StepSize(size), i, a);
    BatchOfKey(Groups(pairs), pairs, StepSize(size), i, b);
    SameKeyMeans(Batches(pairs, size)[i].pairs[a], Batches(pairs, size)[i].pairs[b]);
    BatchedIsKnown(ds, ps, size, i, a);
    ByIdKeys(ds);
  }

  lemma EarlierKeysDiffer(keys: seq<string>, pairs: seq<Pair>, size: nat, before: seq<Batch>)
    requires size > 0 && Distinct(keys) && keys != []
    requires before == BatchesFor(keys[..|keys| - 1], pairs, size)
    ensures forall i | 0 <= i < |before| :: before[i].key != keys[|keys| - 1]
  {
    var n := |keys| - 1;
    BatchShapes(keys[..n], pairs, size);
    forall i | 0 <= i < |before| ensures before[i].key != keys[n] {
      var k :| 0 <= k < n && keys[..n][k] == before[i].key;
    }
  }

  /** Batches of one key before another of that key are full. */
  lemma {:induction false} EarlierAreFull(keys: seq<string>, pairs: seq<Pair>, size: nat, i: nat, j: nat)
    requires size > 0 && Distinct(keys) && i < j < |BatchesFor(keys, pairs, size)|
    requires BatchesFor(keys, pairs, size)[i].key == BatchesFor(keys, pairs, size)[j].key
    ensures |BatchesFor(keys, pairs, size)[i].pairs| == size
  {
    var n := |keys| - 1;
    var before, chunks := BatchesFor(keys[..n], pairs, size), Chunks(OfKey(pairs, keys[n]), size);
    EarlierKeysDiffer(keys, pairs, size, before);
    assert BatchesFor(keys, pairs, size) == before + Labelled(keys[n], chunks);
    assert i < |before| ==> BatchesFor(keys, pairs, size)[i] == before[i];
    assert j >= |before| ==> BatchesFor(keys, pairs, size)[j].key == keys[n];
    if j < |before| {
      EarlierAreFull(keys[..n], pairs, size, i, j);
    } else if i >= |before| {
      ChunkSizes(OfKey(pairs, keys[n]), size);
      assert BatchesFor(keys, pairs, size)[i].pairs == chunks[i - |before|];
    }
  }

  /** Batches are as large as asked, only the last of a key may be smaller; without a positive size each prediction is a
      batch of its own. */
  lemma BatchSizes(ds: seq<DatasetRow>, ps: seq<Prediction>, size: int, i: nat)
    requires i < |Batches(KnownPairs(ds, ps), size)|
    ensures var batches := Batches(KnownPairs(ds, ps), size);
      && (size >= 1 ==> 1 <= |batches[i].pairs| <= size)
      && (size < 1 ==> |batches[i].pairs| == 1)
      && (size >= 1 && (exists j :: i < j < |batches| && batches[j].key == batches[i].key) ==>
            |batches[i].pairs| == size)
  {
    var pairs := KnownPairs(ds, ps);
    var batches := Batches(pairs, size);
    BatchingIsPartition(ds, ps, size);
    GroupsContents(pairs);
    if j :| i < j < |batches| && batches[j].key == batches[i].key {
      EarlierAreFull(Groups(pairs), pairs, StepSize(size), i, j);
    }
  }

  // ---------- solver ids ----------

  /** A row without a solver takes that of the only prediction for its instance; with none or several for it, and for
      rows that have a solver, nothing changes. */
  lemma AugmentMeans(r: ResultRow, ps: seq<Prediction>)
    ensures AugmentRow(r, ps) == r.(solver := AugmentRow(r, ps).solver)
    ensures r.solver != "" || r.instance == "" ==> AugmentRow(r, ps) == r
    ensures r.solver == "" && r.instance != "" ==>
      && (forall i | OnlyFor(ps, r.instance, i) :: AugmentRow(r, ps).solver == ps[i].solver)
      && ((forall i :: !OnlyFor(ps, r.instance, i)) ==> AugmentRow(r, ps) == r)
  {
    MatchesMean(ps, r.instance);
  }

  // ---------- the fields of a row ----------

  /** A row carries its dataset row's ids and version; an error without a message of its own is explained by the
      reason. */
  lemma ParsedRowMeans(d: DatasetRow, report: Report)
    ensures var row, verdict := ParsedRow(d, report), Verdict(report, d.instance);
      && row.instance == d.instance && row.solver == d.solver && row.data == d && row.batchKey == None
      && row.environment == (if d.version != "" then d.version else "default")
      && (verdict == None ==> row.reason == Some("no harness result for instance") && row.error == None)
      && (verdict.Some? ==>
            && row.reason == verdict.value.reason
            && (verdict.value.error.Some? && verdict.value.error.value != "" ==> row.error == verdict.value.error)
            && (verdict.value.error == None ==>
                  row.error == if verdict.value.status == Errored then row.reason else None))
  {
  }
}
