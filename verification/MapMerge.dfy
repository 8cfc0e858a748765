/** Merging dictionaries one after the other with `d.update(...)`: when the order of the updates matters. */
module MapMerge {

  predicate InRange(order: seq<nat>, n: nat) {
    forall p | 0 <= p < |order| :: order[p] < n
  }

  /** The merge of `maps[order[0]]`, `maps[order[1]]`, ...: later updates win. */
  function Merged<K, V>(maps: seq<map<K, V>>, order: seq<nat>): map<K, V>
    requires InRange(order, |maps|)
  {
    if order == [] then map[]
    else Merged(maps, order[..|order| - 1]) + maps[order[|order| - 1]]
  }

  /** Every index below `n` exactly once. */
  ghost predicate IsOrder(order: seq<nat>, n: nat) {
    && InRange(order, n)
    && (forall i | 0 <= i < n :: i in order)
    && (forall p, q | 0 <= p < q < |order| :: order[p] != order[q])
  }

  ghost predicate Compatible<K, V>(a: map<K, V>, b: map<K, V>) {
    forall k | k in a && k in b :: a[k] == b[k]
  }

  ghost predicate AllCompatible<K, V>(maps: seq<map<K, V>>) {
    forall i, j | 0 <= i < |maps| && 0 <= j < |maps| :: Compatible(maps[i], maps[j])
  }

  /** The value under a key is that of the last update holding the key. */
  lemma {:induction false} MergedValue<K, V>(maps: seq<map<K, V>>, order: seq<nat>, k: K)
    requires InRange(order, |maps|)
    ensures k in Merged(maps, order) <==> exists p :: 0 <= p < |order| && k in maps[order[p]]
    ensures k in Merged(maps, order) ==>
      exists p :: 0 <= p < |order| && k in maps[order[p]] && Merged(maps, order)[k] == maps[order[p]][k]
                  && forall q | p < q < |order| :: k !in maps[order[q]]
  {
    if order != [] {
      var n := |order| - 1;
      var before := order[..n];
      MergedValue(maps, before, k);
      if k in maps[order[n]] {
        assert k in Merged(maps, order);
      } else if k in Merged(maps, before) {
        var p :| 0 <= p < n && k in maps[before[p]] && Merged(maps, before)[k] == maps[before[p]][k]
                 && forall q | p < q < n :: k !in maps[before[q]];
        assert order[p] == before[p];
        forall q | p < q < |order| ensures k !in maps[order[q]] {
          assert q < n ==> order[q] == before[q];
        }
      }
      assert forall p | 0 <= p < n :: order[p] == before[p];
    }
  }

  /** Compatible dictionaries: any order of updates gives the same result. */
  lemma CompatibleMerge<K, V>(maps: seq<map<K, V>>, o1: seq<nat>, o2: seq<nat>)
    requires AllCompatible(maps) && IsOrder(o1, |maps|) && IsOrder(o2, |maps|)
    ensures Merged(maps, o1) == Merged(maps, o2)
  {
    var a, b := Merged(maps, o1), Merged(maps, o2);
    forall k | k in a ensures k in b && a[k] == b[k] {
      SameEntry(maps, o1, o2, k);
    }
    forall k | k in b ensures k in a {
      SameEntry(maps, o2, o1, k);
    }
    assert a.Keys == b.Keys;
  }

  lemma SameEntry<K, V>(maps: seq<map<K, V>>, o1: seq<nat>, o2: seq<nat>, k: K)
    requires AllCompatible(maps) && IsOrder(o1, |maps|) && IsOrder(o2, |maps|) && k in Merged(maps, o1)
    ensures k in Merged(maps, o2) && Merged(maps, o1)[k] == Merged(maps, o2)[k]
  {
    MergedValue(maps, o1, k);
    MergedValue(maps, o2, k);
    var p :| 0 <= p < |o1| && k in maps[o1[p]] && Merged(maps, o1)[k] == maps[o1[p]][k];
    assert o1[p] in o2;
    var q :| 0 <= q < |o2| && k in maps[o2[q]] && Merged(maps, o2)[k] == maps[o2[q]][k];
    assert Compatible(maps[o1[p]], maps[o2[q]]);
  }

  function Others(n: nat, i: nat, j: nat): seq<nat> {
    if n == 0 then [] else Others(n - 1, i, j) + (if n - 1 == i || n - 1 == j then [] else [n - 1])
  }

  lemma {:induction false} OthersContents(n: nat, i: nat, j: nat)
    ensures forall x: nat :: x in Others(n, i, j) <==> x < n && x != i && x != j
    ensures forall p, q | 0 <= p < q < |Others(n, i, j)| :: Others(n, i, j)[p] != Others(n, i, j)[q]
  {
    if n > 0 {
      var rest := Others(n - 1, i, j);
      OthersContents(n - 1, i, j);
      assert forall p | 0 <= p < |rest| :: rest[p] in rest;
      forall x: nat ensures x in Others(n, i, j) <==> x < n && x != i && x != j {
        assert x in Others(n, i, j) <==> x in rest || (x == n - 1 && x != i && x != j);
      }
    }
  }

  /** Two orders that end in dictionaries i and j, either way round: whatever both hold is taken from the last. */
  lemma LastTwo<K, V>(maps: seq<map<K, V>>, i: nat, j: nat) returns (o1: seq<nat>, o2: seq<nat>)
    requires i < |maps| && j < |maps| && i != j
    ensures IsOrder(o1, |maps|) && IsOrder(o2, |maps|)
    ensures forall k | k in maps[i] && k in maps[j] ::
        && k in Merged(maps, o1) && Merged(maps, o1)[k] == maps[j][k]
        && k in Merged(maps, o2) && Merged(maps, o2)[k] == maps[i][k]
  {
    var rest := Others(|maps|, i, j);
    OthersContents(|maps|, i, j);
    o1, o2 := rest + [i, j], rest + [j, i];
    assert forall p | 0 <= p < |rest| :: rest[p] in rest;
    assert IsOrder(o1, |maps|) && IsOrder(o2, |maps|);
    assert o1[..|o1| - 1] == rest + [i] && o2[..|o2| - 1] == rest + [j];
  }

  /** The exact condition: the result is the same for all update orders iff no two of the dictionaries
      disagree on a common key. */
  lemma OrderIrrelevantIff<K(!new), V(!new)>(maps: seq<map<K, V>>)
    ensures (forall o1, o2 | IsOrder(o1, |maps|) && IsOrder(o2, |maps|) :: Merged(maps, o1) == Merged(maps, o2))
            <==> AllCompatible(maps)
  {
    if AllCompatible(maps) {
      forall o1, o2 | IsOrder(o1, |maps|) && IsOrder(o2, |maps|) ensures Merged(maps, o1) == Merged(maps, o2) {
        CompatibleMerge(maps, o1, o2);
      }
    } else {
      var i, j, k :| 0 <= i < |maps| && 0 <= j < |maps| && k in maps[i] && k in maps[j] && maps[i][k] != maps[j][k];
      var o1, o2 := LastTwo(maps, i, j);
      assert Merged(maps, o1)[k] != Merged(maps, o2)[k];
    }
  }
}
