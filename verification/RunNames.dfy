/** Names of retry runs (`_retry_family_base_name`, `_discover_retry_family_run_roots` and the default retry name
    in repogauge/cli.py).  Directory names hold no line breaks. */
module RunNames {
  import opened Wrappers
  import opened Text
  import opened Sorting

  const RETRY := "-retry"

  /** The regular expression `^(.+?)-retry(?:-.+)?$` matches with a base of length `i`. */
  predicate SplitsAt(name: string, i: nat) {
    1 <= i < |name| && (name[i..] == RETRY || ("-retry-" <= name[i..] && |name[i..]| > 7))
  }

  function FirstSplit(name: string, i: nat): (j: nat)
    requires i <= |name|
    ensures j <= |name|
    decreases |name| - i
  {
    if i == |name| || SplitsAt(name, i) then i else FirstSplit(name, i + 1)
  }

  /** `_retry_family_base_name`: the shortest base wins; no match leaves the name alone. */
  function BaseName(name: string): string {
    name[..FirstSplit(name, 0)]
  }

  lemma {:induction false} FirstSplitIsLeast(name: string, i: nat, j: nat)
    requires i <= |name| && i <= j <= |name|
    requires j == |name| || SplitsAt(name, j)
    requires forall k | i <= k < j :: !SplitsAt(name, k)
    ensures FirstSplit(name, i) == j
    decreases |name| - i
  {
    if i < j {
      FirstSplitIsLeast(name, i + 1, j);
    }
  }

  lemma {:induction false} FirstSplitBound(name: string, i: nat, j: nat)
    requires i <= j < |name| && SplitsAt(name, j)
    ensures FirstSplit(name, i) <= j
    decreases |name| - i
  {
    if i < j && !SplitsAt(name, i) {
      FirstSplitBound(name, i + 1, j);
    }
  }

  /** The name of the k-th retry when no name is given: each adds the suffix to its source's name. */
  function DefaultName(base: string, k: nat): (name: string)
    ensures |name| == |base| + 6 * k && base <= name
  {
    if k == 0 then base else DefaultName(base, k - 1) + RETRY
  }

  /** No retry suffix, and no retry marker in front of a further part, sits inside the base name. */
  predicate CleanBase(base: string) {
    forall i | 1 <= i < |base| :: base[i..] != RETRY && !("-retry-" <= base[i..])
  }

  lemma {:induction false} SuffixOfDefault(base: string, k: nat)
    requires k >= 1
    ensures RETRY <= DefaultName(base, k)[|base|..]
    ensures k >= 2 ==> "-retry-" <= DefaultName(base, k)[|base|..]
  {
    if k == 1 {
      assert DefaultName(base, 1)[|base|..] == RETRY;
    } else {
      SuffixOfDefault(base, k - 1);
      var before := DefaultName(base, k - 1);
      assert DefaultName(base, k)[|base|..] == before[|base|..] + RETRY;
      if k == 2 {
        assert before[|base|..] == RETRY;
        assert (RETRY + RETRY)[6] == '-';
      }
    }
  }

  lemma NoEarlySplit(base: string, k: nat, i: nat)
    requires CleanBase(base) && k >= 1 && i < |base|
    ensures !SplitsAt(DefaultName(base, k), i)
  {
    var name := DefaultName(base, k);
    SuffixOfDefault(base, k);
    if 1 <= i {
      var t, tail := base[i..], name[|base|..];
      assert name[i..] == t + tail && tail[0] == '-';
      assert |t| >= 7 ==> name[i..][..7] == t[..7];
      assert |t| < 7 ==> name[i..][|t|] == '-';
      assert |t| == 6 ==> name[i..][..6] == t;
    }
  }

  lemma CleanBaseIsFound(base: string, k: nat)
    requires base != "" && k >= 1 && CleanBase(base)
    ensures BaseName(DefaultName(base, k)) == base
  {
    var name := DefaultName(base, k);
    SuffixOfDefault(base, k);
    forall i | 0 <= i < |base| ensures !SplitsAt(name, i) {
      NoEarlySplit(base, k, i);
    }
    assert k == 1 ==> name[|base|..] == RETRY;
    assert SplitsAt(name, |base|);
    FirstSplitIsLeast(name, 0, |base|);
  }

  lemma UncleanSplitsEarly(base: string, k: nat, i: nat)
    requires k >= 1 && 1 <= i < |base| && (base[i..] == RETRY || "-retry-" <= base[i..])
    ensures SplitsAt(DefaultName(base, k), i)
  {
    var name := DefaultName(base, k);
    SuffixOfDefault(base, k);
    assert name[i..] == base[i..] + name[|base|..];
    if base[i..] == RETRY {
      assert name[i..][6] == name[|base|..][0] == '-';
      assert name[i..][..6] == RETRY;
      assert "-retry-" <= name[i..];
    }
  }

  /** The exact condition under which every default retry name leads back to its base. */
  lemma DefaultNamesShareBase(base: string, k: nat)
    requires base != "" && k >= 1
    ensures BaseName(DefaultName(base, k)) == base <==> CleanBase(base)
  {
    if CleanBase(base) {
      CleanBaseIsFound(base, k);
    } else {
      var i :| 1 <= i < |base| && (base[i..] == RETRY || "-retry-" <= base[i..]);
      UncleanSplitsEarly(base, k, i);
      FirstSplitBound(DefaultName(base, k), 0, i);
    }
  }

  /** A base that holds a marker itself: its first retry is taken for a retry of "a". */
  lemma RetryLosesItsBase()
    ensures BaseName(DefaultName("a-retry-2", 1)) == "a"
  {
    var base := "a-retry-2";
    var name := DefaultName(base, 1);
    assert base[1..] == "-retry-" + "2";
    UncleanSplitsEarly(base, 1, 1);
    assert !SplitsAt(name, 0);
    FirstSplitIsLeast(name, 0, 1);
    assert name[..1] == base[..1] == "a";
  }

  /** A retry named by hand after a clean base leads back to it as well. */
  lemma NamedRetryLeadsBack(base: string, tag: string)
    requires base != "" && CleanBase(base) && tag != ""
    ensures BaseName(base + "-retry-" + tag) == base
  {
    var name, tail := base + "-retry-" + tag, "-retry-" + tag;
    assert name == base + tail && name[|base|..] == tail;
    forall i | 0 <= i < |base| ensures !SplitsAt(name, i) {
      if 1 <= i {
        var t := base[i..];
        assert name[i..] == t + tail;
        assert |t| >= 7 ==> name[i..][..7] == t[..7];
        assert |t| < 7 ==> name[i..][|t|] == '-';
        assert |t| == 6 ==> name[i..][..6] == t;
      }
    }
    assert SplitsAt(name, |base|);
    FirstSplitIsLeast(name, 0, |base|);
  }

  /** A name without a retry marker is its own base. */
  lemma PlainNameIsBase(name: string)
    requires CleanBase(name)
    ensures BaseName(name) == name
  {
    assert forall i | 0 <= i < |name| :: !SplitsAt(name, i);
    FirstSplitIsLeast(name, 0, |name|);
    assert name[..|name|] == name;
  }

  /** A marker with nothing after its dash is no marker. */
  lemma DanglingMarker(base: string)
    requires CleanBase(base)
    ensures BaseName(base + "-retry-") == base + "-retry-"
  {
    var name := base + "-retry-";
    forall i | 0 <= i < |name| ensures !SplitsAt(name, i) {
      if 1 <= i < |base| {
        var t := base[i..];
        assert name[i..] == t + "-retry-";
        assert |t| >= 7 ==> name[i..][..7] == t[..7];
        assert |t| < 7 ==> name[i..][|t|] == '-';
        assert |t| == 6 ==> name[i..][..6] == t;
      } else if |base| <= i {
        assert |name[i..]| <= 7;
        assert i > |base| ==> |name[i..]| < 7 && name[|name| - 1] == '-' == name[i..][|name[i..]| - 1];
      }
    }
    FirstSplitIsLeast(name, 0, |name|);
    assert name[..|name|] == name;
  }

  // ---------- the family in run order ----------

  /** The sort key (0 if the name is the base else 1, name). */
  predicate FamilyLe(base: string, a: string, b: string) {
    a == base || (b != base && !Less(b, a))
  }

  function FamilyOrder(base: string): (string, string) -> bool {
    (a: string, b: string) => FamilyLe(base, a, b)
  }

  lemma FamilyOrderIsTotal(base: string)
    ensures TotalPreorder(FamilyOrder(base)) && Antisymmetric(FamilyOrder(base))
  {
    var le := FamilyOrder(base);
    forall x, y ensures le(x, y) || le(y, x) {
      LessTotal(x, y);
    }
    forall x, y | le(x, y) && le(y, x) ensures x == y {
      LessTotal(x, y);
    }
    forall x, y, z | le(x, y) && le(y, z) ensures le(x, z) {
      LessTotal(x, y);
      LessTotal(y, z);
      LessTotal(x, z);
      if Less(z, x) {
        if Less(x, y) { LessTransitive(z, x, y); }
        if Less(y, z) { LessTransitive(y, z, x); }
        if Less(x, y) && Less(y, z) { LessTransitive(x, y, z); }
      }
    }
  }

  predicate InFamily(base: string, name: string) {
    name == base || base + RETRY <= name
  }

  function FamilyOf(base: string, names: seq<string>): seq<string> {
    if names == [] then []
    else
      var before := FamilyOf(base, names[..|names| - 1]);
      if InFamily(base, names[|names| - 1]) then before + [names[|names| - 1]] else before
  }

  /** `_discover_retry_family_run_roots`: from a run's name and the sibling directories that hold attempts;
      an empty family is an error. */
  method Discover(run: string, siblings: seq<string>) returns (roots: Option<seq<string>>)
    ensures roots == if FamilyOf(BaseName(run), siblings) == [] then None
                     else Some(Sort(FamilyOf(BaseName(run), siblings), FamilyOrder(BaseName(run))))
  {
    var base := BaseName(run);
    var family: seq<string> := [];
    for i := 0 to |siblings|
      invariant family == FamilyOf(base, siblings[..i])
    {
      assert siblings[..i + 1][..i] == siblings[..i];
      if siblings[i] == base || base + RETRY <= siblings[i] {
        family := family + [siblings[i]];
      }
    }
    assert siblings[..|siblings|] == siblings;
    if family == [] {
      return None;
    }
    roots := Some(Sort(family, FamilyOrder(base)));
  }

  lemma {:induction false} FamilyOfMeans(base: string, names: seq<string>, name: string)
    ensures multiset(FamilyOf(base, names))[name]
         == if name == base || base + "-retry" <= name then multiset(names)[name] else 0
  {
    if names != [] {
      FamilyOfMeans(base, names[..|names| - 1], name);
      assert names == names[..|names| - 1] + [names[|names| - 1]];
    }
  }

  /** What discovery lists: the run's base and everything named after it, as often as found, the base first and the rest
      by name. */
  lemma DiscoveryMeans(run: string, siblings: seq<string>)
    ensures var base := BaseName(run); var roots := Sort(FamilyOf(base, siblings), FamilyOrder(base));
      && (forall name :: multiset(roots)[name]
            == if name == base || base + "-retry" <= name then multiset(siblings)[name] else 0)
      && forall i, j | 0 <= i < j < |roots| :: roots[i] == base || (roots[j] != base && !Less(roots[j], roots[i]))
  {
    var base := BaseName(run);
    forall name ensures multiset(FamilyOf(base, siblings))[name]
      == if name == base || base + "-retry" <= name then multiset(siblings)[name] else 0
    {
      FamilyOfMeans(base, siblings, name);
    }
    FamilyOrderIsTotal(base);
    SortContents(FamilyOf(base, siblings), FamilyOrder(base));
    SortOrdered(FamilyOf(base, siblings), FamilyOrder(base));
    var roots := Sort(FamilyOf(base, siblings), FamilyOrder(base));
    forall i, j | 0 <= i < j < |roots|
      ensures roots[i] == base || (roots[j] != base && !Less(roots[j], roots[i]))
    {
      assert FamilyOrder(base)(roots[i], roots[j]);
    }
  }

  function DefaultNames(base: string, n: nat): (names: seq<string>)
    ensures |names| == n && forall i | 0 <= i < n :: names[i] == DefaultName(base, i)
  {
    if n == 0 then [] else DefaultNames(base, n - 1) + [DefaultName(base, n - 1)]
  }

  lemma {:induction false} DefaultNamesIncrease(base: string, i: nat, j: nat)
    requires i < j
    ensures Less(DefaultName(base, i), DefaultName(base, j)) && DefaultName(base, i) < DefaultName(base, j)
  {
    if i < j - 1 {
      DefaultNamesIncrease(base, i, j - 1);
    }
    PrefixLess(DefaultName(base, i), DefaultName(base, j));
  }

  /** Default names sort into run order: from any run of an unbroken family, discovery lists base, first retry,
      second retry, and so on, whatever order the file system lists the directories in. */
  lemma DefaultFamilyInRunOrder(base: string, n: nat, k: nat, siblings: seq<string>)
    requires base != "" && CleanBase(base) && k < n
    requires multiset(FamilyOf(base, siblings)) == multiset(DefaultNames(base, n))
    ensures var run := DefaultName(base, k);
      Sort(FamilyOf(BaseName(run), siblings), FamilyOrder(BaseName(run))) == DefaultNames(base, n)
  {
    FamilyBase(base, k);
    var le := FamilyOrder(base);
    FamilyOrderIsTotal(base);
    SortContents(FamilyOf(base, siblings), le);
    SortOrdered(FamilyOf(base, siblings), le);
    NamesOrdered(base, n);
    OrderedUnique(Sort(FamilyOf(base, siblings), le), DefaultNames(base, n), le);
  }

  lemma FamilyBase(base: string, k: nat)
    requires base != "" && CleanBase(base)
    ensures BaseName(DefaultName(base, k)) == base
  {
    if k >= 1 {
      DefaultNamesShareBase(base, k);
    } else {
      FirstSplitIsLeast(base, 0, |base|);
    }
  }

  lemma NamesOrdered(base: string, n: nat)
    ensures Ordered(DefaultNames(base, n), FamilyOrder(base))
  {
    var names := DefaultNames(base, n);
    forall i, j | 0 <= i < j < n ensures FamilyLe(base, names[i], names[j]) {
      DefaultNamesIncrease(base, i, j);
      LessTotal(names[i], names[j]);
      DefaultNamesIncrease(base, 0, j);
    }
  }
}
