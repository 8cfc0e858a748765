/** What a normalized patch means (repogauge/runner/normalize_patch.py:650-694): the chosen source's tree with
    every excluded path put back to its base content. */
module NormalizeResults {
  import opened Wrappers
  import opened PatchNormalize

  /** `t` with every path of `excluded` as in `base`. */
  function Revert(t: Tree, base: Tree, excluded: set<string>): Tree {
    map path | path in t.Keys + base.Keys && (if path in excluded then path in base else path in t)
      :: if path in excluded then base[path] else t[path]
  }

  ghost predicate AgreeOutside(a: Tree, b: Tree, excluded: set<string>) {
    forall path: string {:trigger At(a, path)} {:trigger At(b, path)} | path !in excluded :: At(a, path) == At(b, path)
  }

  lemma RevertAt(t: Tree, base: Tree, excluded: set<string>, path: string)
    ensures At(Revert(t, base, excluded), path) == if path in excluded then At(base, path) else At(t, path)
  {
  }

  /** Taking a diff and applying it is the identity: the round trip behind everything below. */
  lemma DiffApplies(a: Tree, b: Tree)
    ensures Apply(DiffOf(a, b), a) == Some(b)
  {
    var d := DiffOf(a, b);
    DiffContents(a, b, Changed(a, b));
    ApplyDistinct(d, a);
    forall path: string ensures At(Apply(d, a).value, path) == At(b, path) {
      if path in Changed(a, b) {
        assert path in Paths(d);
        var i :| 0 <= i < |d| && d[i].path == path;
      }
    }
    TreeExtensional(Apply(d, a).value, b);
  }

  /** The part of a diff outside the excluded paths. */
  lemma KeptContents(h: Tree, t: Tree, excluded: set<string>)
    ensures var kept := Only(DiffOf(h, t), excluded, false);
      && Distinct(kept) && Paths(kept) == Changed(h, t) - excluded
      && (forall i | 0 <= i < |kept| ::
            kept[i] in DiffOf(h, t) && kept[i] == Change(kept[i].path, At(h, kept[i].path), At(t, kept[i].path)))
      && (kept == [] <==> Changed(h, t) - excluded == {})
    ensures Only(DiffOf(h, t), excluded, true) == [] <==> Changed(h, t) * excluded == {}
    ensures Paths(Only(DiffOf(h, t), excluded, true)) == Changed(h, t) * excluded
  {
    DiffContents(h, t, Changed(h, t));
    KeptChanges(h, t, DiffOf(h, t), excluded);
    HalfPaths(DiffOf(h, t), excluded, false);
    HalfPaths(DiffOf(h, t), excluded, true);
    NoPaths(Only(DiffOf(h, t), excluded, false));
    NoPaths(Only(DiffOf(h, t), excluded, true));
  }

  lemma KeptChanges(h: Tree, t: Tree, d: Patch, excluded: set<string>)
    requires Distinct(d)
    requires forall i | 0 <= i < |d| :: d[i] == Change(d[i].path, At(h, d[i].path), At(t, d[i].path))
    ensures var kept := Only(d, excluded, false);
      && Distinct(kept)
      && forall i | 0 <= i < |kept| ::
           kept[i] in d && kept[i] == Change(kept[i].path, At(h, kept[i].path), At(t, kept[i].path))
  {
    OnlyContents(d, excluded, false);
    var kept := Only(d, excluded, false);
    forall i | 0 <= i < |kept|
      ensures kept[i] in d && kept[i] == Change(kept[i].path, At(h, kept[i].path), At(t, kept[i].path))
    {
      assert kept[i] in kept;
    }
  }

  lemma NoPaths(patch: Patch)
    ensures patch == [] <==> Paths(patch) == {}
  {
    if patch != [] {
      assert patch[0].path in Paths(patch);
    }
  }

  lemma HalfPaths(patch: Patch, paths: set<string>, inside: bool)
    requires Distinct(patch)
    ensures Paths(Only(patch, paths, inside)) == set p | p in Paths(patch) && (p in paths) == inside
  {
    OnlyContents(patch, paths, inside);
    var half := Only(patch, paths, inside);
    forall p ensures p in Paths(half) <==> p in Paths(patch) && (p in paths) == inside {
      if p in Paths(half) {
        var i :| 0 <= i < |half| && half[i].path == p;
        assert half[i] in half;
      }
      if p in Paths(patch) && (p in paths) == inside {
        var i :| 0 <= i < |patch| && patch[i].path == p;
        assert patch[i] in half;
      }
    }
  }

  /** The exact condition: the kept part of a diff against `h` rebuilds, on `base`, the tree with the excluded
      paths reverted iff `h` and `base` agree outside the excluded paths. */
  lemma KeptApplies(base: Tree, h: Tree, t: Tree, excluded: set<string>)
    ensures Apply(Only(DiffOf(h, t), excluded, false), base) == Some(Revert(t, base, excluded))
            <==> AgreeOutside(h, base, excluded)
  {
    var kept := Only(DiffOf(h, t), excluded, false);
    var goal := Revert(t, base, excluded);
    if AgreeOutside(h, base, excluded) {
      KeptRebuilds(base, h, t, excluded);
    } else if Apply(kept, base) == Some(goal) {
      KeptContents(h, t, excluded);
      ApplyDistinct(kept, base);
      forall path: string | path !in excluded ensures At(h, path) == At(base, path) {
        RevertAt(t, base, excluded, path);
        if path in Paths(kept) {
          var i :| 0 <= i < |kept| && kept[i].path == path;
        }
      }
    }
  }

  lemma KeptRebuilds(base: Tree, h: Tree, t: Tree, excluded: set<string>)
    requires AgreeOutside(h, base, excluded)
    ensures Apply(Only(DiffOf(h, t), excluded, false), base) == Some(Revert(t, base, excluded))
  {
    var kept := Only(DiffOf(h, t), excluded, false);
    KeptContents(h, t, excluded);
    ApplyDistinct(kept, base);
    assert Fits(kept, base) by {
      assert forall i | 0 <= i < |kept| :: kept[i].path in Paths(kept);
    }
    var got, goal := Apply(kept, base).value, Revert(t, base, excluded);
    forall path: string ensures At(got, path) == At(goal, path) {
      RevertAt(t, base, excluded, path);
      if path in Paths(kept) {
        var i :| 0 <= i < |kept| && kept[i].path == path;
      }
    }
    TreeExtensional(got, goal);
  }

  /** The reverted tree differs from base by changes the first diff already had. */
  lemma RevertedChanges(base: Tree, h: Tree, t: Tree, excluded: set<string>)
    requires AgreeOutside(h, base, excluded)
    ensures Changed(base, Revert(t, base, excluded)) == Changed(h, t) - excluded
    ensures forall c | c in DiffOf(base, Revert(t, base, excluded)) :: c in DiffOf(h, t)
  {
    var goal := Revert(t, base, excluded);
    forall path: string ensures path in Changed(base, goal) <==> path in Changed(h, t) - excluded {
      RevertAt(t, base, excluded, path);
      assert path in Changed(base, goal) <==> At(base, path) != At(goal, path);
      assert path in Changed(h, t) <==> At(h, path) != At(t, path);
      assert path !in excluded ==> At(h, path) == At(base, path);
    }
    DiffContents(base, goal, Changed(base, goal));
    DiffContents(h, t, Changed(h, t));
    forall c | c in DiffOf(base, goal) ensures c in DiffOf(h, t) {
      RevertAt(t, base, excluded, c.path);
      assert c.path in Paths(DiffOf(h, t));
      var i :| 0 <= i < |DiffOf(h, t)| && DiffOf(h, t)[i].path == c.path;
      assert At(h, c.path) == At(base, c.path);
      assert DiffOf(h, t)[i] == c;
    }
  }

  lemma RevertedPasses(safe: Guard, base: Tree, h: Tree, t: Tree, excluded: set<string>)
    requires AgreeOutside(h, base, excluded) && Checked(safe, DiffOf(h, t)).Ok?
    ensures var d := DiffOf(base, Revert(t, base, excluded));
      AllSafe(safe, d) && !AnyBinary(d) && (d == [] <==> Changed(h, t) - excluded == {})
  {
    var d := DiffOf(base, Revert(t, base, excluded));
    RevertedChanges(base, h, t, excluded);
    DiffContents(base, Revert(t, base, excluded), Changed(base, Revert(t, base, excluded)));
    assert forall i | 0 <= i < |d| :: d[i] in DiffOf(h, t);
  }

  /** Withholding, given a diff against a HEAD that agrees with base outside the excluded paths: always succeeds,
      with exactly the diff from base to the reverted tree, and reports exactly the changed excluded paths. */
  lemma WithholdMeans(safe: Guard, base: Tree, now: Workspace, h: Tree, t: Tree, excluded: set<string>)
    requires AgreeOutside(h, base, excluded) && Checked(safe, DiffOf(h, t)).Ok?
    ensures var r := Withhold(safe, base, now, DiffOf(h, t), excluded).0;
      && r.Ok? && r.value.excluded == Changed(h, t) * excluded
      && Apply(r.value.patch, base) == Some(Revert(t, base, excluded))
      && (h == base ==> r.value.patch == DiffOf(base, Revert(t, base, excluded)))
  {
    var d, goal := DiffOf(h, t), Revert(t, base, excluded);
    KeptContents(h, t, excluded);
    KeptApplies(base, h, t, excluded);
    RevertedPasses(safe, base, h, t, excluded);
    DiffApplies(base, goal);
    var kept := Only(d, excluded, false);
    if Only(d, excluded, true) == [] {
      OnlyOther(d, excluded);
      if h == base {
        RevertedIsSame(base, t, excluded);
      }
    } else if kept != [] {
      assert forall i | 0 <= i < |kept| :: kept[i] in d;
      assert AllSafe(safe, kept);
    }
  }

  lemma RevertedIsSame(base: Tree, t: Tree, excluded: set<string>)
    requires Changed(base, t) * excluded == {}
    ensures Revert(t, base, excluded) == t
  {
    forall path: string ensures At(Revert(t, base, excluded), path) == At(t, path) {
      RevertAt(t, base, excluded, path);
      assert path !in Changed(base, t) * excluded;
    }
    TreeExtensional(Revert(t, base, excluded), t);
  }

  // ---------- main results ----------

  /** Whether the leftover workspace is the source. */
  predicate UsesFallback(safe: Guard, base: Tree, output: Output) {
    match output
    case Diff(patch) => !Applies(safe, base, patch)
    case Edits(_) => false
    case Nothing => true
  }

  /** The tree the result is about. */
  function Source(safe: Guard, base: Tree, found: Workspace, output: Output): Tree {
    match output
    case Diff(patch) => if Applies(safe, base, patch) then Apply(patch, base).value else found.tree
    case Edits(files) => Write(safe, files, base).1
    case Nothing => found.tree
  }

  /** When normalization succeeds, and the solver did not move HEAD if its leftover workspace is used, the returned
      patch is exactly the diff from base to the source with excluded paths reverted; so it applies to base and
      yields that tree. */
  lemma NormalizedMeansSource(safe: Guard, base: Tree, found: Workspace, output: Output, excluded: set<string>)
    requires UsesFallback(safe, base, output) ==> found.head == base
    requires Normalize(safe, base, found, output, excluded).0.Ok?
    ensures
      var outcome := Normalize(safe, base, found, output, excluded).0.value;
      var source := Source(safe, base, found, output);
      && outcome.patch == DiffOf(base, Revert(source, base, excluded))
      && Apply(outcome.patch, base) == Some(Revert(source, base, excluded))
      && outcome.excluded == Changed(base, source) * excluded
      && (output.Edits? ==> IsWritten(base, output.files, source))
  {
    var source := Source(safe, base, found, output);
    if output.Edits? {
      WriteMeans(safe, output.files, base);
      assert output.files[..|output.files|] == output.files;
    }
    assert Checked(safe, DiffOf(base, source)).Ok?;
    WithholdMeans(safe, base, Clean(base), base, source, excluded);
    WithholdMeans(safe, base, Staged(found), base, source, excluded);
    WithholdMeans(safe, base, Staged(Clean(base).(tree := source)), base, source, excluded);
  }

  /** When it succeeds: exactly when the source differs from base and its diff is safe and free of binary files
      (and, for an edit plan, all files could be written). */
  lemma NormalizeSucceedsIff(safe: Guard, base: Tree, found: Workspace, output: Output, excluded: set<string>)
    requires UsesFallback(safe, base, output) ==> found.head == base
    ensures
      var source := Source(safe, base, found, output);
      Normalize(safe, base, found, output, excluded).0.Ok?
      <==> Checked(safe, DiffOf(base, source)).Ok? && (output.Edits? ==> Write(safe, output.files, base).0 == None)
  {
    var source := Source(safe, base, found, output);
    if Checked(safe, DiffOf(base, source)).Ok? {
      WithholdMeans(safe, base, Clean(base), base, source, excluded);
      WithholdMeans(safe, base, Staged(found), base, source, excluded);
      WithholdMeans(safe, base, Staged(Clean(base).(tree := source)), base, source, excluded);
    }
  }

  /** Withholding, given a diff against any HEAD, is right exactly when that HEAD agrees with base outside the excluded
      paths. */
  lemma WithholdExactIff(safe: Guard, base: Tree, now: Workspace, h: Tree, t: Tree, excluded: set<string>)
    requires Checked(safe, DiffOf(h, t)).Ok?
    ensures
      var r := Withhold(safe, base, now, DiffOf(h, t), excluded).0;
      (r.Ok? && Apply(r.value.patch, base) == Some(Revert(t, base, excluded))) <==> AgreeOutside(h, base, excluded)
  {
    var d := DiffOf(h, t);
    var kept := Only(d, excluded, false);
    KeptApplies(base, h, t, excluded);
    if AgreeOutside(h, base, excluded) {
      WithholdMeans(safe, base, now, h, t, excluded);
    } else if Only(d, excluded, true) == [] {
      OnlyOther(d, excluded);
    } else if kept != [] && Apply(kept, base).Some? {
      DiffApplies(base, Apply(kept, base).value);
    }
  }

  /** The fallback's diff is taken against whatever HEAD the solver left.  Its result is right exactly when that
      HEAD agrees with the base commit outside the excluded paths: a solver that committed its work loses it. */
  lemma FallbackIsExact(safe: Guard, base: Tree, found: Workspace, output: Output, excluded: set<string>)
    requires UsesFallback(safe, base, output) && Snapshot(safe, found).Ok?
    ensures
      var r := Normalize(safe, base, found, output, excluded).0;
      (r.Ok? && Apply(r.value.patch, base) == Some(Revert(found.tree, base, excluded)))
      <==> AgreeOutside(found.head, base, excluded)
  {
    var now := if output.Nothing? then Staged(found) else Clean(base);
    WithholdExactIff(safe, base, now, found.head, found.tree, excluded);
    assert Normalize(safe, base, found, output, excluded).0
        == Withhold(safe, base, now, DiffOf(found.head, found.tree), excluded).0;
  }

  /** A commit by the solver is lost: HEAD holds a new file, the working tree adds another,
      only the latter comes back. */
  lemma CommittedWorkIsLost() returns (found: Workspace, outcome: Outcome)
    ensures Normalize(_ => true, map[], found, Nothing, {}).0 == Ok(outcome)
    ensures "a" in found.tree && "b" in found.tree
    ensures Apply(outcome.patch, map[]) == Some(map["b" := "2"])
  {
    var head: Tree := map["a" := "1"];
    var tree: Tree := map["a" := "1", "b" := "2"];
    found := Workspace(head, tree, head);
    assert Changed(head, tree) == {"b"};
    assert IsLeast({"b"}, "b");
    DiffStep(head, tree, {"b"}, "b");
    assert {"b"} - {"b"} == {};
    var d := DiffOf(head, tree);
    assert d == [Change("b", None, Some("2"))];
    assert d[..0] == [];
    outcome := Outcome(d, {});
    assert Only(d, {}, true) == [];
    assert Apply(d[..0], map[]) == Some(map[]);
  }

  ghost predicate LeftoversDoNotMatter(safe: Guard, base: Tree, output: Output, excluded: set<string>) {
    forall found1, found2 :: Normalize(safe, base, found1, output, excluded).0
                          == Normalize(safe, base, found2, output, excluded).0
  }

  /** A workspace in which the only change is one new text file. */
  lemma OneNewFile(safe: Guard, base: Tree, now: Workspace, path: string, excluded: set<string>)
    requires safe(path)
    ensures Snapshot(safe, Workspace(map[], map[path := "x"], map[])).Ok?
    ensures Withhold(safe, base, now, DiffOf(map[], map[path := "x"]), excluded).0.Ok?
  {
    var head: Tree, tree: Tree := map[], map[path := "x"];
    assert Changed(head, tree) == {path};
    assert IsLeast({path}, path);
    DiffStep(head, tree, {path}, path);
    assert {path} - {path} == {};
    var change := Change(path, None, Some("x"));
    assert DiffOf(head, tree) == [change];
    assert [change][..0] == [];
    assert Only([], excluded, true) == [] && Only([], excluded, false) == [];
  }

  lemma NothingSafe(safe: Guard, ws: Workspace)
    requires forall path :: !safe(path)
    ensures Snapshot(safe, ws).Err?
  {
    var d := DiffOf(ws.head, ws.tree);
    assert d != [] ==> !safe(d[0].path);
  }

  /** The exact condition for what is left in the workspace to be without influence: the solver's patch applies, or an
      edit plan is used. The only other case is a guard that admits no path at all. */
  lemma LeftoversMatterIff(safe: Guard, base: Tree, output: Output, excluded: set<string>)
    ensures LeftoversDoNotMatter(safe, base, output, excluded)
            <==> !UsesFallback(safe, base, output) || forall path :: !safe(path)
    ensures !UsesFallback(safe, base, output) ==> forall found1, found2 ::
      Normalize(safe, base, found1, output, excluded) == Normalize(safe, base, found2, output, excluded)
  {
    if UsesFallback(safe, base, output) {
      if path :| safe(path) {
        var idle, busy := Workspace(map[], map[], map[]), Workspace(map[], map[path := "x"], map[]);
        assert Changed(idle.head, idle.tree) == {};
        OneNewFile(safe, base, if output.Nothing? then Staged(busy) else Clean(base), path, excluded);
        assert Normalize(safe, base, idle, output, excluded).0.Err?;
        assert Normalize(safe, base, busy, output, excluded).0.Ok?;
      } else {
        forall found1, found2
          ensures Normalize(safe, base, found1, output, excluded).0 == Normalize(safe, base, found2, output, excluded).0
        {
          NothingSafe(safe, found1);
          NothingSafe(safe, found2);
        }
      }
    }
  }

  /** A normalized patch is a normal form: normalizing it again, in any workspace, gives the same patch back
      and finds nothing more to exclude. */
  lemma NormalizedIsNormal(safe: Guard, base: Tree, found: Workspace, output: Output, excluded: set<string>,
                           other: Workspace)
    requires UsesFallback(safe, base, output) ==> found.head == base
    requires Normalize(safe, base, found, output, excluded).0.Ok?
    requires Normalize(safe, base, found, output, excluded).0.value.patch != []
    ensures var patch := Normalize(safe, base, found, output, excluded).0.value.patch;
      Normalize(safe, base, other, Diff(patch), excluded).0 == Ok(Outcome(patch, {}))
  {
    var source := Source(safe, base, found, output);
    var goal := Revert(source, base, excluded);
    NormalizedMeansSource(safe, base, found, output, excluded);
    var patch := DiffOf(base, goal);
    assert Checked(safe, DiffOf(base, source)).Ok?;
    RevertedPasses(safe, base, base, source, excluded);
    RevertedChanges(base, base, source, excluded);
    assert Applies(safe, base, patch) && Apply(patch, base).value == goal;
    assert Checked(safe, patch).Ok?;
    KeptContents(base, goal, excluded);
    assert Changed(base, goal) * excluded == {};
  }
}
