/** When normalization refuses, and what it leaves in the workspace (repogauge/runner/normalize_patch.py). */
module NormalizeMeaning {
  import opened Wrappers
  import opened PatchNormalize
  import opened NormalizeResults

  ghost predicate Differs(a: Tree, b: Tree, path: string) {
    At(a, path) != At(b, path)
  }

  /** Text on either side holds a NUL. */
  ghost predicate Binary(a: Tree, b: Tree, path: string) {
    (path in a && '\0' in a[path]) || (path in b && '\0' in b[path])
  }

  lemma ChangedMeans(a: Tree, b: Tree, path: string)
    ensures path in Changed(a, b) <==> Differs(a, b, path)
  {
  }

  /** A snapshot is taken iff something differs from HEAD, every differing path is safe and no differing file is binary
      before or after; otherwise an unsafe path is the first reason given, then that nothing differs. */
  lemma SnapshotMeans(safe: Guard, ws: Workspace)
    ensures Snapshot(safe, ws) == Err(UnsafePath) <==> exists path :: Differs(ws.head, ws.tree, path) && !safe(path)
    ensures Snapshot(safe, ws) == Err(Unrecognized) <==> forall path :: !Differs(ws.head, ws.tree, path)
    ensures Snapshot(safe, ws) == Err(BinaryFile) <==>
      && (forall path | Differs(ws.head, ws.tree, path) :: safe(path))
      && exists path :: Differs(ws.head, ws.tree, path) && Binary(ws.head, ws.tree, path)
    ensures Snapshot(safe, ws).Err? ==> Snapshot(safe, ws).error != DoesNotApply
    ensures Snapshot(safe, ws).Ok? ==> Snapshot(safe, ws).value == DiffOf(ws.head, ws.tree)
  {
    var h, t := ws.head, ws.tree;
    var d := DiffOf(h, t);
    DiffContents(h, t, Changed(h, t));
    assert forall i | 0 <= i < |d| ::
        d[i].path in Changed(h, t) && d[i].before == At(h, d[i].path) && d[i].after == At(t, d[i].path);
    forall path ensures Differs(h, t, path) <==> exists i :: 0 <= i < |d| && d[i].path == path {
      assert path in Changed(h, t) <==> path in Paths(d);
    }
    DiffReasons(safe, h, t, d);
  }

  /** The reasons, for the listed changes of all differing paths. */
  lemma DiffReasons(safe: Guard, h: Tree, t: Tree, d: Patch)
    requires forall i | 0 <= i < |d| :: d[i].before == At(h, d[i].path) && d[i].after == At(t, d[i].path)
    requires forall path :: Differs(h, t, path) <==> exists i :: 0 <= i < |d| && d[i].path == path
    ensures AllSafe(safe, d) <==> forall path | Differs(h, t, path) :: safe(path)
    ensures d == [] <==> forall path :: !Differs(h, t, path)
    ensures AnyBinary(d) <==> exists path :: Differs(h, t, path) && Binary(h, t, path)
  {
    forall i | 0 <= i < |d| ensures Differs(h, t, d[i].path) {
    }
    assert d != [] ==> Differs(h, t, d[0].path);
    if AnyBinary(d) {
      var i :| 0 <= i < |d| && (HasNul(d[i].before) || HasNul(d[i].after));
      assert Binary(h, t, d[i].path);
    }
    if path :| Differs(h, t, path) && Binary(h, t, path) {
      var i :| 0 <= i < |d| && d[i].path == path;
      assert HasNul(d[i].before) || HasNul(d[i].after);
    }
  }

  /** What is raised when the workspace as found cannot be used either: for output without patch and edits, that it is
      not recognized; for a patch, an unsafe path or that it does not apply. */
  lemma ErrorMeans(safe: Guard, base: Tree, found: Workspace, output: Output, excluded: set<string>)
    requires Snapshot(safe, found).Err?
    ensures var r := Normalize(safe, base, found, output, excluded).0;
      && (output.Nothing? ==> r == Err(Unrecognized))
      && (output.Diff? && !Applies(safe, base, output.patch) ==>
            r == Err(if exists c :: c in output.patch && !safe(c.path) then UnsafePath else DoesNotApply))
  {
    if output.Diff? {
      var p := output.patch;
      assert forall i | 0 <= i < |p| :: p[i] in p;
      if c :| c in p && !safe(c.path) {
        var i :| 0 <= i < |p| && p[i] == c;
      }
    }
  }

  /** The changed files outside the excluded paths that HEAD, as found, does not hold as base does. */
  ghost predicate Displaced(base: Tree, found: Workspace, excluded: set<string>, path: string) {
    Differs(found.head, found.tree, path) && path !in excluded && At(found.head, path) != At(base, path)
  }

  /** The kept part applies to base unless a path is displaced. */
  lemma KeptFitsIff(base: Tree, found: Workspace, excluded: set<string>)
    ensures Apply(Only(DiffOf(found.head, found.tree), excluded, false), base).Some?
            <==> forall path :: !Displaced(base, found, excluded, path)
  {
    var h, t := found.head, found.tree;
    var kept := Only(DiffOf(h, t), excluded, false);
    KeptContents(h, t, excluded);
    ApplyDistinct(kept, base);
    assert forall i | 0 <= i < |kept| :: kept[i].path in Paths(kept);
    forall path ensures Differs(h, t, path) && path !in excluded <==> path in Paths(kept) {
      ChangedMeans(h, t, path);
    }
    if Fits(kept, base) {
      forall path: string ensures !Displaced(base, found, excluded, path) {
        assert path in Paths(kept) ==> exists i :: 0 <= i < |kept| && kept[i].path == path;
      }
    } else {
      var i :| 0 <= i < |kept| && At(base, kept[i].path) != kept[i].before;
      assert Displaced(base, found, excluded, kept[i].path);
    }
  }

  /** Rebuilding the kept part on base: where it applies, the snapshot is taken. */
  lemma RebuildMeans(safe: Guard, base: Tree, found: Workspace, excluded: set<string>)
    requires Snapshot(safe, found).Ok?
    ensures var kept := Only(DiffOf(found.head, found.tree), excluded, false);
      && AllSafe(safe, kept)
      && (kept != [] && Apply(kept, base).Some? ==>
            Checked(safe, DiffOf(base, Apply(kept, base).value)).Ok?)
  {
    var h, t := found.head, found.tree;
    var d, kept := DiffOf(h, t), Only(DiffOf(h, t), excluded, false);
    KeptContents(h, t, excluded);
    assert forall i | 0 <= i < |kept| :: kept[i] in d && kept[i].path in Paths(kept);
    forall i | 0 <= i < |kept| ensures kept[i].before != kept[i].after {
      ChangedMeans(h, t, kept[i].path);
    }
    if Apply(kept, base).Some? {
      RebuiltPasses(safe, base, d, kept, Apply(kept, base).value);
    }
  }

  lemma RebuiltPasses(safe: Guard, base: Tree, d: Patch, kept: Patch, u: Tree)
    requires Distinct(kept) && Apply(kept, base) == Some(u) && AllSafe(safe, d) && !AnyBinary(d)
    requires forall i | 0 <= i < |kept| :: kept[i] in d && kept[i].before != kept[i].after
    ensures kept != [] ==> Checked(safe, DiffOf(base, u)).Ok?
  {
    var made := DiffOf(base, u);
    RebuiltFrom(base, kept, u);
    assert forall i | 0 <= i < |made| :: made[i] in d;
    if kept != [] {
      ApplyDistinct(kept, base);
      DiffContents(base, u, Changed(base, u));
      assert At(u, kept[0].path) != At(base, kept[0].path);
      ChangedMeans(base, u, kept[0].path);
    }
  }

  lemma RebuiltFrom(base: Tree, kept: Patch, u: Tree)
    requires Distinct(kept) && Apply(kept, base) == Some(u)
    ensures forall i | 0 <= i < |DiffOf(base, u)| :: DiffOf(base, u)[i] in kept
  {
    var made := DiffOf(base, u);
    ApplyDistinct(kept, base);
    DiffContents(base, u, Changed(base, u));
    forall i | 0 <= i < |made| ensures made[i] in kept {
      assert made[i].path in Changed(base, u);
      assert made[i].path in Paths(kept);
      var j :| 0 <= j < |kept| && kept[j].path == made[i].path;
      assert made[i] == kept[j];
    }
  }

  lemma WithholdFailsIff(safe: Guard, base: Tree, now: Workspace, d: Patch, excluded: set<string>)
    requires AllSafe(safe, Only(d, excluded, false))
    requires var kept := Only(d, excluded, false);
      kept != [] && Apply(kept, base).Some? ==> Checked(safe, DiffOf(base, Apply(kept, base).value)).Ok?
    ensures var r := Withhold(safe, base, now, d, excluded).0;
      && (r.Err? <==> Only(d, excluded, true) != [] && Only(d, excluded, false) != []
                      && Apply(Only(d, excluded, false), base) == None)
      && (r.Err? ==> r.error == DoesNotApply)
  {
  }

  ghost predicate TouchesExcluded(found: Workspace, excluded: set<string>) {
    exists path :: Differs(found.head, found.tree, path) && path in excluded
  }

  lemma TouchedMeans(found: Workspace, excluded: set<string>)
    ensures Only(DiffOf(found.head, found.tree), excluded, true) != [] <==> TouchesExcluded(found, excluded)
    ensures Only(DiffOf(found.head, found.tree), excluded, false) == [] ==>
              forall base, path :: !Displaced(base, found, excluded, path)
  {
    var h, t := found.head, found.tree;
    KeptContents(h, t, excluded);
    forall path ensures path in Changed(h, t) <==> Differs(h, t, path) {
      ChangedMeans(h, t, path);
    }
    if TouchesExcluded(found, excluded) {
      var path :| Differs(h, t, path) && path in excluded;
      assert path in Changed(h, t) * excluded;
    } else {
      assert Changed(h, t) * excluded == {};
    }
    if Only(DiffOf(h, t), excluded, false) == [] {
      forall base, path ensures !Displaced(base, found, excluded, path) {
        assert path !in Changed(h, t) - excluded;
      }
    }
  }

  /** When the workspace as found is used, normalization fails iff it changes an excluded path and a path that HEAD does
      not hold as base does; and then because the rest does not apply. */
  lemma FallbackFailsIff(safe: Guard, base: Tree, found: Workspace, output: Output, excluded: set<string>)
    requires UsesFallback(safe, base, output) && Snapshot(safe, found).Ok?
    ensures var r := Normalize(safe, base, found, output, excluded).0;
      && (r.Err? <==> TouchesExcluded(found, excluded) && exists path :: Displaced(base, found, excluded, path))
      && (r.Err? ==> r.error == DoesNotApply)
  {
    var now := if output.Nothing? then Staged(found) else Clean(base);
    var d := DiffOf(found.head, found.tree);
    KeptFitsIff(base, found, excluded);
    RebuildMeans(safe, base, found, excluded);
    TouchedMeans(found, excluded);
    WithholdFailsIff(safe, base, now, d, excluded);
    assert Normalize(safe, base, found, output, excluded).0 == Withhold(safe, base, now, d, excluded).0;
  }

  /** After a success from a patch or an edit plan the workspace holds, staged on top of base, exactly what the returned
      patch says. */
  lemma WorkspaceAfter(safe: Guard, base: Tree, found: Workspace, output: Output, excluded: set<string>)
    requires !UsesFallback(safe, base, output)
    requires Normalize(safe, base, found, output, excluded).0.Ok?
    ensures var (r, ws) := Normalize(safe, base, found, output, excluded);
      && ws.head == base && ws.index == ws.tree && Apply(r.value.patch, base) == Some(ws.tree)
  {
    var source := Source(safe, base, found, output);
    var staged := Staged(Clean(base).(tree := source));
    NormalizedMeansSource(safe, base, found, output, excluded);
    assert Checked(safe, DiffOf(base, source)).Ok?;
    WithheldTree(safe, base, staged, source, excluded);
  }

  lemma WithheldTree(safe: Guard, base: Tree, ws: Workspace, t: Tree, excluded: set<string>)
    requires Checked(safe, DiffOf(base, t)).Ok? && ws == Workspace(base, t, t)
    ensures var (r, after) := Withhold(safe, base, ws, DiffOf(base, t), excluded);
      && r.Ok? && after.head == base && after.index == after.tree && after.tree == Revert(t, base, excluded)
  {
    var d, kept := DiffOf(base, t), Only(DiffOf(base, t), excluded, false);
    WithholdMeans(safe, base, ws, base, t, excluded);
    KeptContents(base, t, excluded);
    KeptApplies(base, base, t, excluded);
    if Only(d, excluded, true) == [] {
      RevertedIsSame(base, t, excluded);
    } else if kept == [] {
      assert Apply(kept, base) == Some(base);
    }
  }
}
