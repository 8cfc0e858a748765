/** Grouping predictions into harness batches (`_prepare_batches`, `_iter_chunks` in repogauge/runner/judge.py). */
module JudgeBatches {
  import opened Wrappers
  import opened JudgeRows

  type Pair = (DatasetRow, Prediction)

  datatype Batch = Batch(key: string, pairs: seq<Pair>)

  function BatchKey(pair: Pair): string {
    pair.1.model + "|" + pair.0.repo + "|" + pair.0.version
  }

  // ---------- what is batched ----------

  /** `dataset_by_id`: the last row with an id wins, rows without one are ignored. */
  function ById(ds: seq<DatasetRow>): map<string, DatasetRow> {
    if ds == [] then map[]
    else
      var last := ds[|ds| - 1];
      var rest := ById(ds[..|ds| - 1]);
      if last.instance == "" then rest else rest[last.instance := last]
  }

  predicate Known(ds: seq<DatasetRow>, p: Prediction) {
    p.instance in ById(ds)
  }

  lemma {:induction false} ByIdKeys(ds: seq<DatasetRow>)
    ensures forall id | id in ById(ds) :: id != "" && ById(ds)[id].instance == id && ById(ds)[id] in ds
    ensures forall d | d in ds && d.instance != "" :: d.instance in ById(ds)
  {
    if ds != [] {
      ByIdKeys(ds[..|ds| - 1]);
    }
  }

  /** The predictions for known instances, in order, each with its dataset row. */
  function KnownPairs(ds: seq<DatasetRow>, ps: seq<Prediction>): seq<Pair> {
    if ps == [] then []
    else
      var last := ps[|ps| - 1];
      var before := KnownPairs(ds, ps[..|ps| - 1]);
      if Known(ds, last) then before + [(ById(ds)[last.instance], last)] else before
  }

  function OfKey(pairs: seq<Pair>, key: string): seq<Pair> {
    if pairs == [] then []
    else
      var before := OfKey(pairs[..|pairs| - 1], key);
      if BatchKey(pairs[|pairs| - 1]) == key then before + [pairs[|pairs| - 1]] else before
  }

  /** Batch keys in order of first appearance: the key order of the `grouped` dictionary. */
  function Groups(pairs: seq<Pair>): seq<string> {
    if pairs == [] then []
    else
      var keys := Groups(pairs[..|pairs| - 1]);
      var key := BatchKey(pairs[|pairs| - 1]);
      if key in keys then keys else keys + [key]
  }

  function Chunks<T>(values: seq<T>, size: nat): seq<seq<T>>
    requires size > 0
    decreases |values|
  {
    if values == [] then []
    else if |values| <= size then [values]
    else [values[..size]] + Chunks(values[size..], size)
  }

  function Labelled(key: string, chunks: seq<seq<Pair>>): seq<Batch> {
    seq(|chunks|, i requires 0 <= i < |chunks| => Batch(key, chunks[i]))
  }

  function BatchesFor(keys: seq<string>, pairs: seq<Pair>, size: nat): seq<Batch>
    requires size > 0
  {
    if keys == [] then []
    else
      var key := keys[|keys| - 1];
      BatchesFor(keys[..|keys| - 1], pairs, size) + Labelled(key, Chunks(OfKey(pairs, key), size))
  }

  function StepSize(size: int): nat {
    if size <= 0 then 1 else size
  }

  function Batches(pairs: seq<Pair>, size: int): seq<Batch> {
    BatchesFor(Groups(pairs), pairs, StepSize(size))
  }

  // ---------- batching is a partition ----------

  /** Everything in the batches of one key, in batch order. */
  function Joined(batches: seq<Batch>, key: string): seq<Pair> {
    if batches == [] then []
    else
      var before := Joined(batches[..|batches| - 1], key);
      if batches[|batches| - 1].key == key then before + batches[|batches| - 1].pairs else before
  }

  /** Everything in all batches. */
  function Flat(batches: seq<Batch>): seq<Pair> {
    if batches == [] then [] else Flat(batches[..|batches| - 1]) + batches[|batches| - 1].pairs
  }

  lemma {:induction false} JoinedAppend(a: seq<Batch>, b: seq<Batch>, key: string)
    ensures Joined(a + b, key) == Joined(a, key) + Joined(b, key)
  {
    if b == [] {
      assert a + b == a;
    } else {
      assert (a + b)[..|a + b| - 1] == a + b[..|b| - 1];
      JoinedAppend(a, b[..|b| - 1], key);
    }
  }

  lemma {:induction false} FlatAppend(a: seq<Batch>, b: seq<Batch>)
    ensures Flat(a + b) == Flat(a) + Flat(b)
  {
    if b == [] {
      assert a + b == a;
    } else {
      assert (a + b)[..|a + b| - 1] == a + b[..|b| - 1];
      FlatAppend(a, b[..|b| - 1]);
    }
  }

  lemma {:induction false} ChunkSizes<T>(values: seq<T>, size: nat)
    requires size > 0
    ensures forall i | 0 <= i < |Chunks(values, size)| :: 1 <= |Chunks(values, size)[i]| <= size
    ensures forall i | 0 <= i < |Chunks(values, size)| - 1 :: |Chunks(values, size)[i]| == size
    decreases |values|
  {
    if |values| > size {
      ChunkSizes(values[size..], size);
    }
  }

  lemma LabelledCons(key: string, first: seq<Pair>, rest: seq<seq<Pair>>)
    ensures Labelled(key, [first] + rest) == [Batch(key, first)] + Labelled(key, rest)
  {
    var all := [first] + rest;
    forall i | 0 <= i < |all| ensures Labelled(key, all)[i] == ([Batch(key, first)] + Labelled(key, rest))[i] {
      assert i > 0 ==> all[i] == rest[i - 1];
    }
  }

  lemma LabelledFirst(key: string, values: seq<Pair>, size: nat)
    requires size > 0 && |values| > size
    ensures Labelled(key, Chunks(values, size))
         == [Batch(key, values[..size])] + Labelled(key, Chunks(values[size..], size))
    ensures values == values[..size] + values[size..]
  {
    assert Chunks(values, size) == [values[..size]] + Chunks(values[size..], size);
    LabelledCons(key, values[..size], Chunks(values[size..], size));
  }

  lemma JoinedOne(b: Batch, key: string)
    ensures Joined([b], key) == if b.key == key then b.pairs else []
    ensures Flat([b]) == b.pairs
  {
    assert [b][..0] == [];
  }

  lemma {:induction false} ChunksJoin(key: string, values: seq<Pair>, size: nat, of: string)
    requires size > 0
    ensures Joined(Labelled(key, Chunks(values, size)), of) == if of == key then values else []
    ensures Flat(Labelled(key, Chunks(values, size))) == values
    decreases |values|
  {
    if values != [] && |values| <= size {
      JoinedOne(Batch(key, values), of);
      assert Labelled(key, Chunks(values, size)) == [Batch(key, values)];
    } else if |values| > size {
      var head, tail := [Batch(key, values[..size])], Labelled(key, Chunks(values[size..], size));
      LabelledFirst(key, values, size);
      ChunksJoin(key, values[size..], size, of);
      JoinedOne(head[0], of);
      FlatAppend(head, tail);
      JoinedAppend(head, tail, of);
    }
  }

  ghost predicate Distinct<T>(s: seq<T>) {
    forall i, j | 0 <= i < j < |s| :: s[i] != s[j]
  }

  lemma {:induction false} GroupsContents(pairs: seq<Pair>)
    ensures Distinct(Groups(pairs))
    ensures forall key :: key in Groups(pairs) <==> OfKey(pairs, key) != []
  {
    if pairs != [] {
      var n := |pairs| - 1;
      GroupsContents(pairs[..n]);
      var keys := Groups(pairs[..n]);
      assert forall i | 0 <= i < |keys| :: keys[i] in keys;
    }
  }

  lemma JoinedBatchesStep(keys: seq<string>, pairs: seq<Pair>, size: nat, key: string)
    requires size > 0 && keys != []
    ensures var n := |keys| - 1;
      Joined(BatchesFor(keys, pairs, size), key)
      == Joined(BatchesFor(keys[..n], pairs, size), key) + if key == keys[n] then OfKey(pairs, key) else []
  {
    var n := |keys| - 1;
    var own := Labelled(keys[n], Chunks(OfKey(pairs, keys[n]), size));
    JoinedAppend(BatchesFor(keys[..n], pairs, size), own, key);
    ChunksJoin(keys[n], OfKey(pairs, keys[n]), size, key);
  }

  lemma {:induction false} JoinedBatches(keys: seq<string>, pairs: seq<Pair>, size: nat, key: string)
    requires size > 0 && Distinct(keys)
    ensures Joined(BatchesFor(keys, pairs, size), key) == if key in keys then OfKey(pairs, key) else []
  {
    if keys != [] {
      var n := |keys| - 1;
      JoinedBatches(keys[..n], pairs, size, key);
      JoinedBatchesStep(keys, pairs, size, key);
      assert keys == keys[..n] + [keys[n]];
    }
  }

  lemma {:induction false} BatchShapes(keys: seq<string>, pairs: seq<Pair>, size: nat)
    requires size > 0
    ensures forall i | 0 <= i < |BatchesFor(keys, pairs, size)| ::
        1 <= |BatchesFor(keys, pairs, size)[i].pairs| <= size && BatchesFor(keys, pairs, size)[i].key in keys
  {
    if keys != [] {
      var n := |keys| - 1;
      BatchShapes(keys[..n], pairs, size);
      ChunkSizes(OfKey(pairs, keys[n]), size);
    }
  }

  lemma FlatStep(keys: seq<string>, pairs: seq<Pair>, size: nat)
    requires size > 0 && keys != []
    ensures var n := |keys| - 1;
      Flat(BatchesFor(keys, pairs, size)) == Flat(BatchesFor(keys[..n], pairs, size)) + OfKey(pairs, keys[n])
  {
    var n := |keys| - 1;
    var own := Labelled(keys[n], Chunks(OfKey(pairs, keys[n]), size));
    FlatAppend(BatchesFor(keys[..n], pairs, size), own);
    ChunksJoin(keys[n], OfKey(pairs, keys[n]), size, keys[n]);
  }

  /** Pairs in batches as often as they were given, whatever the number of equal pairs. */
  lemma {:induction false} FlatCount(keys: seq<string>, pairs: seq<Pair>, size: nat, pair: Pair)
    requires size > 0 && Distinct(keys)
    ensures multiset(Flat(BatchesFor(keys, pairs, size)))[pair]
         == if BatchKey(pair) in keys then multiset(pairs)[pair] else 0
  {
    if keys != [] {
      var n := |keys| - 1;
      FlatCount(keys[..n], pairs, size, pair);
      FlatStep(keys, pairs, size);
      OfKeyCount(pairs, keys[n], pair);
      assert keys == keys[..n] + [keys[n]];
    }
  }

  lemma {:induction false} OfKeyCount(pairs: seq<Pair>, key: string, pair: Pair)
    ensures multiset(OfKey(pairs, key))[pair] == if BatchKey(pair) == key then multiset(pairs)[pair] else 0
  {
    if pairs != [] {
      var n := |pairs| - 1;
      OfKeyCount(pairs[..n], key, pair);
      assert pairs == pairs[..n] + [pairs[n]];
    }
  }

  /** Batching is a partition of the known predictions: no batch is empty or too large, the batches of a key
      hold exactly that key's predictions in input order, and over all batches every pair occurs exactly as
      often as in the input. */
  lemma BatchingIsPartition(ds: seq<DatasetRow>, ps: seq<Prediction>, size: int)
    ensures var pairs := KnownPairs(ds, ps); var batches := Batches(pairs, size);
      && (forall i | 0 <= i < |batches| :: 1 <= |batches[i].pairs| <= StepSize(size))
      && (forall key :: Joined(batches, key) == OfKey(pairs, key))
      && multiset(Flat(batches)) == multiset(pairs)
  {
    var pairs := KnownPairs(ds, ps);
    var batches := Batches(pairs, size);
    GroupsContents(pairs);
    BatchShapes(Groups(pairs), pairs, StepSize(size));
    forall key ensures Joined(batches, key) == OfKey(pairs, key) {
      JoinedBatches(Groups(pairs), pairs, StepSize(size), key);
    }
    forall pair ensures multiset(Flat(batches))[pair] == multiset(pairs)[pair] {
      FlatCount(Groups(pairs), pairs, StepSize(size), pair);
      OfKeyCount(pairs, BatchKey(pair), pair);
      if BatchKey(pair) !in Groups(pairs) {
        assert OfKey(pairs, BatchKey(pair)) == [];
      }
    }
  }

  // ---------- skipped rows ----------

  ghost predicate Named(ps: seq<Prediction>, id: string) {
    exists i :: 0 <= i < |ps| && ps[i].instance == id
  }

  function SkippedRow(d: DatasetRow): ResultRow {
    FromInstance(d, Skipped, None, Some("missing_prediction"), None)
  }

  /** One skipped row for every dataset row whose instance no prediction names, in dataset order. */
  ghost function SkippedRows(ds: seq<DatasetRow>, ps: seq<Prediction>): seq<ResultRow> {
    if ds == [] then []
    else
      var last := ds[|ds| - 1];
      var before := SkippedRows(ds[..|ds| - 1], ps);
      if last.instance != "" && !Named(ps, last.instance) then before + [SkippedRow(last)] else before
  }

  // ---------- the method ----------

  method IterChunks<T>(values: seq<T>, size: int) returns (chunks: seq<seq<T>>)
    ensures chunks == Chunks(values, StepSize(size))
  {
    var step := StepSize(size);
    chunks := [];
    var index := 0;
    while index < |values|
      invariant 0 <= index
      invariant chunks + Chunks(values[Min(index, |values|)..], step) == Chunks(values, step)
      decreases |values| - index
    {
      var upper := Min(index + step, |values|);
      assert values[index..][..upper - index] == values[index..upper];
      assert values[index..][upper - index..] == values[upper..];
      assert upper == |values| ==> values[index..upper] == values[index..] && values[upper..] == [];
      assert Chunks(values[index..], step) == [values[index..upper]] + Chunks(values[upper..], step);
      chunks := chunks + [values[index..upper]];
      index := index + step;
    }
    assert chunks + [] == chunks;
  }

  function Min(a: int, b: int): int {
    if a <= b then a else b
  }

  lemma KnownPairsStep(ds: seq<DatasetRow>, ps: seq<Prediction>, i: nat)
    requires i < |ps|
    ensures KnownPairs(ds, ps[..i + 1])
         == if Known(ds, ps[i]) then KnownPairs(ds, ps[..i]) + [(ById(ds)[ps[i].instance], ps[i])]
            else KnownPairs(ds, ps[..i])
  {
    assert ps[..i + 1][..i] == ps[..i];
  }

  /** The `grouped` dictionary: `order` is its key order. */
  ghost predicate IsGrouping(order: seq<string>, grouped: map<string, seq<Pair>>, pairs: seq<Pair>) {
    && order == Groups(pairs)
    && (forall key :: key in grouped <==> key in order)
    && (forall key | key in order :: grouped[key] == OfKey(pairs, key))
  }

  lemma GroupPair(order: seq<string>, grouped: map<string, seq<Pair>>, pairs: seq<Pair>, pair: Pair)
    requires IsGrouping(order, grouped, pairs)
    ensures var key := BatchKey(pair);
      if key in grouped then IsGrouping(order, grouped[key := grouped[key] + [pair]], pairs + [pair])
      else IsGrouping(order + [key], grouped[key := [pair]], pairs + [pair])
  {
    assert (pairs + [pair])[..|pairs|] == pairs;
    GroupsContents(pairs);
  }

  /** Filing one pair: a new key goes to the end of the dictionary. */
  method FilePair(order0: seq<string>, grouped0: map<string, seq<Pair>>, ghost pairs: seq<Pair>, pair: Pair)
    returns (order: seq<string>, grouped: map<string, seq<Pair>>)
    requires IsGrouping(order0, grouped0, pairs)
    ensures IsGrouping(order, grouped, pairs + [pair])
  {
    GroupPair(order0, grouped0, pairs, pair);
    var key := BatchKey(pair);
    if key in grouped0 {
      order, grouped := order0, grouped0[key := grouped0[key] + [pair]];
    } else {
      order, grouped := order0 + [key], grouped0[key := [pair]];
    }
  }

  ghost predicate IsSeen(byId: map<string, DatasetRow>, ps: seq<Prediction>, seen: set<string>) {
    forall id :: id in seen <==> id in byId && Named(ps, id)
  }

  method GroupPredictions(ds: seq<DatasetRow>, ps: seq<Prediction>)
    returns (order: seq<string>, grouped: map<string, seq<Pair>>, seen: set<string>)
    ensures IsGrouping(order, grouped, KnownPairs(ds, ps))
    ensures forall id :: id in seen <==> id in ById(ds) && Named(ps, id)
  {
    var byId := BuildById(ds);
    ByIdKeys(ds);
    order, grouped, seen := [], map[], {};
    for i := 0 to |ps|
      invariant IsGrouping(order, grouped, KnownPairs(ds, ps[..i]))
      invariant IsSeen(byId, ps[..i], seen)
    {
      NamedAppend(ps, i);
      KnownPairsStep(ds, ps, i);
      var id := ps[i].instance;
      if id != "" && id in byId {
        seen := seen + {id};
        order, grouped := FilePair(order, grouped, KnownPairs(ds, ps[..i]), (byId[id], ps[i]));
      }
    }
    assert ps[..|ps|] == ps;
  }

  method CutGroups(order: seq<string>, grouped: map<string, seq<Pair>>, ghost pairs: seq<Pair>, size: int)
    returns (batches: seq<Batch>)
    requires IsGrouping(order, grouped, pairs)
    ensures batches == Batches(pairs, size)
  {
    batches := [];
    for i := 0 to |order|
      invariant batches == BatchesFor(order[..i], pairs, StepSize(size))
    {
      assert order[..i + 1][..i] == order[..i];
      var chunks := IterChunks(grouped[order[i]], size);
      batches := batches + Labelled(order[i], chunks);
    }
    assert order[..|order|] == order;
  }

  /** `_prepare_batches`: group by batch key in a dictionary, list the skipped rows, cut the groups into batches. */
  method PrepareBatches(ds: seq<DatasetRow>, ps: seq<Prediction>, size: int)
    returns (batches: seq<Batch>, skipped: seq<ResultRow>)
    ensures batches == Batches(KnownPairs(ds, ps), size)
    ensures skipped == SkippedRows(ds, ps)
  {
    var order, grouped, seen := GroupPredictions(ds, ps);
    ByIdKeys(ds);
    skipped := [];
    for i := 0 to |ds|
      invariant skipped == SkippedRows(ds[..i], ps)
    {
      assert ds[..i + 1][..i] == ds[..i];
      var id := ds[i].instance;
      assert ds[i] in ds;
      if id != "" && id !in seen {
        skipped := skipped + [SkippedRow(ds[i])];
      }
    }
    assert ds[..|ds|] == ds;
    batches := CutGroups(order, grouped, KnownPairs(ds, ps), size);
  }

  lemma NamedAppend(ps: seq<Prediction>, i: nat)
    requires i < |ps|
    ensures forall id :: Named(ps[..i + 1], id) <==> Named(ps[..i], id) || id == ps[i].instance
  {
    var more := ps[..i + 1];
    assert more[i] == ps[i];
    assert forall j | 0 <= j < i :: more[j] == ps[..i][j];
  }

  method BuildById(ds: seq<DatasetRow>) returns (byId: map<string, DatasetRow>)
    ensures byId == ById(ds)
  {
    byId := map[];
    for i := 0 to |ds|
      invariant byId == ById(ds[..i])
    {
      assert ds[..i + 1][..i] == ds[..i];
      if ds[i].instance != "" {
        byId := byId[ds[i].instance := ds[i]];
      }
    }
    assert ds[..|ds|] == ds;
  }
}
