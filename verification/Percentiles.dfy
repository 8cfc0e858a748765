/** Where a percentile lies among its values (`_percentile` in repogauge/runner/analyze.py). */
module Percentiles {
  import opened Wrappers
  import opened Sorting
  import opened Metrics

  lemma PositionInHundredths(p: nat, n: nat)
    requires n > 0
    ensures 100.0 * Position(p, n) == (p * (n - 1) + 50) as real
  {
    var a, m := p as real / 100.0, (n - 1) as real;
    assert 100.0 * a == p as real;
    assert 100.0 * (a * m) == (100.0 * a) * m;
    assert p as real * m == (p * (n - 1)) as real;
  }

  lemma FloorInHundredths(x: real, h: int)
    requires 100.0 * x == h as real
    ensures 100 * x.Floor <= h < 100 * x.Floor + 100
  {
    assert x.Floor as real <= x < x.Floor as real + 1.0;
  }

  lemma ShareOf(p: nat, m: nat)
    requires p <= 100
    ensures 0 <= p * m <= 100 * m && (100 - p) * m == 100 * m - p * m
  {
  }

  /** The rank is p hundredths of the way from the first value to the last, to the nearest place. */
  lemma RankIsNearest(p: nat, n: nat)
    requires p <= 100 && n > 0
    ensures -50 <= 100 * Rank(p, n) - p * (n - 1) <= 50
  {
    PositionInHundredths(p, n);
    FloorInHundredths(Position(p, n), p * (n - 1) + 50);
    ShareOf(p, n - 1);
  }

  // ---------- counting ----------

  function Count(values: seq<int>, p: int -> bool): nat {
    if values == [] then 0 else (if p(values[0]) then 1 else 0) + Count(values[1..], p)
  }

  lemma {:induction false} CountInsert(x: int, s: seq<int>, p: int -> bool)
    ensures Count(Insert(x, s, LeInt), p) == Count(s, p) + if p(x) then 1 else 0
  {
    if s == [] || LeInt(x, s[0]) {
      assert ([x] + s)[1..] == s;
    } else {
      CountInsert(x, s[1..], p);
      assert ([s[0]] + Insert(x, s[1..], LeInt))[1..] == Insert(x, s[1..], LeInt);
    }
  }

  lemma {:induction false} CountSorted(s: seq<int>, p: int -> bool)
    ensures Count(Sort(s, LeInt), p) == Count(s, p)
  {
    if s != [] {
      CountSorted(s[1..], p);
      CountInsert(s[0], Sort(s[1..], LeInt), p);
    }
  }

  lemma {:induction false} CountRange(s: seq<int>, p: int -> bool, from: nat, to: nat)
    requires from <= to <= |s| && forall i | from <= i < to :: p(s[i])
    ensures Count(s, p) >= to - from
  {
    if s != [] {
      var rest := s[1..];
      assert forall i | 1 <= i < |s| :: rest[i - 1] == s[i];
      CountRange(rest, p, if from == 0 then 0 else from - 1, if to == 0 then 0 else to - 1);
    }
  }

  function AtMost(x: int): int -> bool {
    (y: int) => y <= x
  }

  function AtLeast(x: int): int -> bool {
    (y: int) => y >= x
  }

  /** At least p hundredths of the steps between the values lie at or below the percentile, and at least 100 - p
      hundredths at or above it; so p50 has half of the values on either side. */
  lemma PercentileSplits(values: seq<int>, p: nat)
    requires values != [] && p <= 100
    ensures Percentile(values, p).Some?
    ensures var x := Percentile(values, p).value; var n := |values|;
      && 100 * Count(values, AtMost(x)) >= p * (n - 1) + 50
      && 100 * Count(values, AtLeast(x)) >= (100 - p) * (n - 1) + 50
  {
    var ordered := Sort(values, LeInt);
    var n := |values|;
    SortedInts(values);
    RankIsNearest(p, n);
    var k := Rank(p, n);
    var x := ordered[k];
    assert Percentile(values, p) == Some(x) by {
      assert n == 1 ==> k == 0;
    }
    CountRange(ordered, AtMost(x), 0, k + 1);
    CountRange(ordered, AtLeast(x), k, n);
    CountSorted(values, AtMost(x));
    CountSorted(values, AtLeast(x));
    ShareOf(p, n - 1);
  }
}
