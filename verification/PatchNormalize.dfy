/** Normalizing a solver's output into a patch (`normalize_solver_output` and its helpers in
    repogauge/runner/normalize_patch.py) over trees that map paths to contents.  A diff lists whole-file changes;
    it applies only where every old content is found, and then as a whole. */
module PatchNormalize {
  import opened Wrappers
  import opened Text

  type Tree = map<string, string>

  datatype Change = Change(path: string, before: Option<string>, after: Option<string>)

  type Patch = seq<Change>

  datatype Error = Unrecognized | BinaryFile | DoesNotApply | UnsafePath

  /** What was found in the solver's output; `Edits` is a non-empty edit plan. */
  datatype Output = Diff(patch: Patch) | Edits(files: seq<(string, string)>) | Nothing

  datatype Outcome = Outcome(patch: Patch, excluded: set<string>)

  /** HEAD, working tree and index of the attempt workspace. */
  datatype Workspace = Workspace(head: Tree, tree: Tree, index: Tree)

  function At(t: Tree, path: string): Option<string> {
    if path in t then Some(t[path]) else None
  }

  function Put(t: Tree, path: string, content: Option<string>): Tree {
    if content.Some? then t[path := content.value] else t - {path}
  }

  // ---------- applying and taking diffs ----------

  function Apply(patch: Patch, t: Tree): Option<Tree> {
    if patch == [] then Some(t)
    else
      var c := patch[|patch| - 1];
      match Apply(patch[..|patch| - 1], t)
      case None => None
      case Some(u) => if At(u, c.path) == c.before then Some(Put(u, c.path, c.after)) else None
  }

  function Changed(a: Tree, b: Tree): set<string> {
    set path | path in a.Keys + b.Keys && At(a, path) != At(b, path)
  }

  ghost function Paths(patch: Patch): set<string> {
    set i | 0 <= i < |patch| :: patch[i].path
  }

  ghost predicate IsLeast(paths: set<string>, path: string) {
    path in paths && forall q | q in paths && q != path :: Less(path, q)
  }

  lemma {:induction false} LeastExists(paths: set<string>)
    requires paths != {}
    ensures exists path :: IsLeast(paths, path)
  {
    var p :| p in paths;
    if paths == {p} {
      assert IsLeast(paths, p);
    } else {
      LeastExists(paths - {p});
      var m :| IsLeast(paths - {p}, m);
      LessTotal(p, m);
      if Less(p, m) {
        forall q | q in paths && q != p && q != m ensures Less(p, q) {
          LessTransitive(p, m, q);
        }
        assert IsLeast(paths, p);
      } else {
        assert IsLeast(paths, m);
      }
    }
  }

  lemma LeastUnique(paths: set<string>, p: string, q: string)
    requires IsLeast(paths, p) && IsLeast(paths, q)
    ensures p == q
  {
    LessTotal(p, q);
  }

  ghost function DiffOn(a: Tree, b: Tree, paths: set<string>): Patch {
    if paths == {} then []
    else
      LeastExists(paths);
      var path :| IsLeast(paths, path);
      [Change(path, At(a, path), At(b, path))] + DiffOn(a, b, paths - {path})
  }

  /** `git diff`: the changed paths in order, each with its old and new content. */
  ghost function DiffOf(a: Tree, b: Tree): Patch {
    DiffOn(a, b, Changed(a, b))
  }

  lemma DiffStep(a: Tree, b: Tree, paths: set<string>, path: string)
    requires IsLeast(paths, path)
    ensures DiffOn(a, b, paths) == [Change(path, At(a, path), At(b, path))] + DiffOn(a, b, paths - {path})
  {
    var chosen :| IsLeast(paths, chosen) &&
      DiffOn(a, b, paths) == [Change(chosen, At(a, chosen), At(b, chosen))] + DiffOn(a, b, paths - {chosen});
    LeastUnique(paths, path, chosen);
  }

  method GitDiff(a: Tree, b: Tree) returns (patch: Patch)
    ensures patch == DiffOf(a, b)
  {
    patch := [];
    var rest := Changed(a, b);
    while rest != {}
      invariant patch + DiffOn(a, b, rest) == DiffOf(a, b)
      decreases rest
    {
      LeastExists(rest);
      var path :| path in rest && forall q | q in rest && q != path :: Less(path, q);
      var change := Change(path, At(a, path), At(b, path));
      DiffStep(a, b, rest, path);
      MoveFirst(patch, change, DiffOn(a, b, rest - {path}));
      patch := patch + [change];
      rest := rest - {path};
    }
    assert patch + [] == patch;
  }

  lemma MoveFirst(patch: Patch, c: Change, rest: Patch)
    ensures (patch + [c]) + rest == patch + ([c] + rest)
  {
  }

  lemma {:induction false} DiffContents(a: Tree, b: Tree, paths: set<string>)
    ensures forall i | 0 <= i < |DiffOn(a, b, paths)| ::
        var c := DiffOn(a, b, paths)[i];
        c.path in paths && c == Change(c.path, At(a, c.path), At(b, c.path))
    ensures Paths(DiffOn(a, b, paths)) == paths
    ensures Distinct(DiffOn(a, b, paths))
    ensures DiffOn(a, b, paths) == [] <==> paths == {}
    decreases paths
  {
    if paths != {} {
      LeastExists(paths);
      var path :| IsLeast(paths, path);
      DiffStep(a, b, paths, path);
      DiffContents(a, b, paths - {path});
      PathsPrepend(Change(path, At(a, path), At(b, path)), DiffOn(a, b, paths - {path}));
    }
  }

  lemma PathsPrepend(c: Change, rest: Patch)
    ensures Paths([c] + rest) == {c.path} + Paths(rest)
    ensures c.path !in Paths(rest) && Distinct(rest) ==> Distinct([c] + rest)
  {
    var all := [c] + rest;
    assert all[0] == c && forall i | 0 <= i < |rest| :: all[i + 1] == rest[i];
    forall q ensures q in Paths(all) <==> q in {c.path} + Paths(rest) {
      if q in Paths(rest) {
        var i :| 0 <= i < |rest| && rest[i].path == q;
        assert all[i + 1].path == q;
      }
      assert all[0].path == c.path;
    }
  }

  /** No path twice. */
  ghost predicate Distinct(patch: Patch) {
    forall i, j | 0 <= i < j < |patch| :: patch[i].path != patch[j].path
  }

  // ---------- what applying a patch with distinct paths does ----------

  ghost predicate Fits(patch: Patch, t: Tree) {
    forall i | 0 <= i < |patch| :: At(t, patch[i].path) == patch[i].before
  }

  /** A patch without repeated paths applies iff every old content is there; then exactly its paths change. */
  lemma {:induction false} ApplyDistinct(patch: Patch, t: Tree)
    requires Distinct(patch)
    ensures Apply(patch, t).Some? <==> Fits(patch, t)
    ensures Apply(patch, t).Some? ==>
      && (forall i | 0 <= i < |patch| :: At(Apply(patch, t).value, patch[i].path) == patch[i].after)
      && (forall path | path !in Paths(patch) :: At(Apply(patch, t).value, path) == At(t, path))
  {
    if patch != [] {
      var n := |patch| - 1;
      var before := patch[..n];
      ApplyDistinct(before, t);
      assert forall i | 0 <= i < n :: before[i] == patch[i];
      assert patch[n].path !in Paths(before);
      assert Paths(patch) == Paths(before) + {patch[n].path};
    }
  }

  lemma TreeExtensional(a: Tree, b: Tree)
    requires forall path: string :: At(a, path) == At(b, path)
    ensures a == b
  {
    forall path ensures path in a <==> path in b {
      assert At(a, path) == At(b, path);
    }
    forall path | path in a ensures a[path] == b[path] {
      assert At(a, path) == At(b, path);
    }
  }

  // ---------- excluding paths at the level of changes ----------

  function Only(patch: Patch, paths: set<string>, inside: bool): Patch {
    if patch == [] then []
    else
      var before := Only(patch[..|patch| - 1], paths, inside);
      if (patch[|patch| - 1].path in paths) == inside then before + [patch[|patch| - 1]] else before
  }

  lemma {:induction false} OnlyContents(patch: Patch, paths: set<string>, inside: bool)
    requires Distinct(patch)
    ensures forall c :: c in Only(patch, paths, inside) <==> c in patch && (c.path in paths) == inside
    ensures Distinct(Only(patch, paths, inside))
  {
    if patch != [] {
      var n := |patch| - 1;
      OnlyContents(patch[..n], paths, inside);
      var before := Only(patch[..n], paths, inside);
      assert forall i | 0 <= i < |before| :: before[i] in before;
      assert patch == patch[..n] + [patch[n]];
    }
  }

  lemma {:induction false} OnlyOther(patch: Patch, paths: set<string>)
    requires Only(patch, paths, true) == []
    ensures Only(patch, paths, false) == patch
  {
    if patch != [] {
      OnlyOther(patch[..|patch| - 1], paths);
    }
  }

  // ---------- the workspace machine ----------

  /** What the solver's files may not do: leave the workspace, or hold binary content. */
  type Guard = string -> bool

  predicate HasNul(content: Option<string>) {
    content.Some? && '\0' in content.value
  }

  function Staged(ws: Workspace): Workspace {
    ws.(index := ws.tree)
  }

  function Clean(base: Tree): Workspace {
    Workspace(base, base, base)
  }

  predicate AllSafe(safe: Guard, patch: Patch) {
    forall i | 0 <= i < |patch| :: safe(patch[i].path)
  }

  predicate AnyBinary(patch: Patch) {
    exists i | 0 <= i < |patch| :: HasNul(patch[i].before) || HasNul(patch[i].after)
  }

  function Checked(safe: Guard, patch: Patch): Result<Patch, Error> {
    if !AllSafe(safe, patch) then Err(UnsafePath)
    else if patch == [] then Err(Unrecognized)
    else if AnyBinary(patch) then Err(BinaryFile)
    else Ok(patch)
  }

  /** `_normalize_from_workspace_state`: stage everything, diff against HEAD, refuse nothing and binaries. */
  ghost function Snapshot(safe: Guard, ws: Workspace): Result<Patch, Error> {
    Checked(safe, DiffOf(ws.head, ws.tree))
  }

  /** `_exclude_withheld_test_paths` */
  ghost function Withhold(safe: Guard, base: Tree, ws: Workspace, patch: Patch, excluded: set<string>)
    : (Result<Outcome, Error>, Workspace)
  {
    var touched := Only(patch, excluded, true);
    var kept := Only(patch, excluded, false);
    if touched == [] then (Ok(Outcome(patch, {})), ws)
    else if kept == [] then (Ok(Outcome([], Paths(touched))), Clean(base))
    else
      var filtered := if AllSafe(safe, kept) then Apply(kept, base) else None;
      if filtered == None then (Err(if AllSafe(safe, kept) then DoesNotApply else UnsafePath), Clean(base))
      else
        var ws' := Staged(Clean(base).(tree := filtered.value));
        match Snapshot(safe, ws')
        case Err(e) => (Err(e), ws')
        case Ok(p) => (Ok(Outcome(p, Paths(touched))), ws')
  }

  /** Files written one after the other, up to the first that is unsafe or binary. */
  function Write(safe: Guard, files: seq<(string, string)>, t: Tree): (Option<Error>, Tree)
    decreases |files|
  {
    if files == [] then (None, t)
    else if !safe(files[0].0) then (Some(UnsafePath), t)
    else if HasNul(Some(files[0].1)) then (Some(BinaryFile), t)
    else Write(safe, files[1..], t[files[0].0 := files[0].1])
  }

  predicate Writable(safe: Guard, file: (string, string)) {
    safe(file.0) && !HasNul(Some(file.1))
  }

  /** How many files are written before the first refused one. */
  function WrittenCount(safe: Guard, files: seq<(string, string)>): (n: nat)
    ensures n <= |files| && (forall i | 0 <= i < n :: Writable(safe, files[i]))
    ensures n < |files| ==> !Writable(safe, files[n])
  {
    if files == [] || !Writable(safe, files[0]) then 0 else 1 + WrittenCount(safe, files[1..])
  }

  ghost predicate LastListed(files: seq<(string, string)>, path: string, i: int) {
    0 <= i < |files| && files[i].0 == path && forall j | i < j < |files| :: files[j].0 != path
  }

  ghost predicate Lists(files: seq<(string, string)>, path: string) {
    exists i :: 0 <= i < |files| && files[i].0 == path
  }

  /** Every listed path holds its last listed content, every other path what `t` holds. */
  ghost predicate IsWritten(t: Tree, files: seq<(string, string)>, u: Tree) {
    forall path: string {:trigger At(u, path)} ::
      && (forall i | LastListed(files, path, i) :: At(u, path) == Some(files[i].1))
      && (!Lists(files, path) ==> At(u, path) == At(t, path))
  }

  /** What writing an edit plan comes to: the files before the first refused one are on disk, and the error tells why
      that one was refused; without a refused file there is no error. */
  lemma {:induction false} WriteMeans(safe: Guard, files: seq<(string, string)>, t: Tree)
    ensures var n := WrittenCount(safe, files);
      && IsWritten(t, files[..n], Write(safe, files, t).1)
      && Write(safe, files, t).0
         == if n == |files| then None else if !safe(files[n].0) then Some(UnsafePath) else Some(BinaryFile)
    ensures Write(safe, files, t).0 == None <==> forall i | 0 <= i < |files| :: Writable(safe, files[i])
    decreases |files|
  {
    var n := WrittenCount(safe, files);
    if n == 0 {
      assert files[..n] == [];
    } else {
      var rest, next := files[1..], t[files[0].0 := files[0].1];
      WriteMeans(safe, rest, next);
      assert files[..n] == [files[0]] + rest[..n - 1];
      WrittenFirst(t, files[0], rest[..n - 1], Write(safe, files, t).1);
    }
  }

  lemma WrittenFirst(t: Tree, file: (string, string), rest: seq<(string, string)>, u: Tree)
    requires IsWritten(t[file.0 := file.1], rest, u)
    ensures IsWritten(t, [file] + rest, u)
  {
    var all := [file] + rest;
    forall path: string
      ensures forall i | LastListed(all, path, i) :: At(u, path) == Some(all[i].1)
      ensures !Lists(all, path) ==> At(u, path) == At(t, path)
    {
      assert forall i | 0 <= i < |rest| :: all[i + 1] == rest[i];
      assert Lists(rest, path) ==> Lists(all, path) by {
        if i :| 0 <= i < |rest| && rest[i].0 == path {
          assert all[i + 1].0 == path;
        }
      }
      assert file.0 == path ==> all[0].0 == path;
      forall i | LastListed(all, path, i) ensures At(u, path) == Some(all[i].1) {
        if i > 0 {
          assert LastListed(rest, path, i - 1);
        } else {
          assert !Lists(rest, path);
        }
      }
    }
  }

  /** The outcome for the tree the solver's patch or edit plan produced. */
  ghost function Finish(safe: Guard, base: Tree, t: Tree, excluded: set<string>): (Result<Outcome, Error>, Workspace) {
    var ws := Staged(Clean(base).(tree := t));
    match Snapshot(safe, ws)
    case Err(e) => (Err(e), ws)
    case Ok(p) => Withhold(safe, base, ws, p, excluded)
  }

  /** The workspace as first found, if it holds anything usable. */
  ghost function Fallback(safe: Guard, base: Tree, found: Workspace, now: Workspace, excluded: set<string>,
                          otherwise: Error)
    : (Result<Outcome, Error>, Workspace)
  {
    match Snapshot(safe, found)
    case Err(_) => (Err(otherwise), now)
    case Ok(p) => Withhold(safe, base, now, p, excluded)
  }

  /** git refuses a patch without changes. */
  predicate Applies(safe: Guard, base: Tree, patch: Patch) {
    patch != [] && AllSafe(safe, patch) && Apply(patch, base).Some?
  }

  /** `normalize_solver_output` */
  ghost function Normalize(safe: Guard, base: Tree, ws: Workspace, output: Output, excluded: set<string>)
    : (Result<Outcome, Error>, Workspace)
  {
    match output
    case Diff(patch) =>
      if Applies(safe, base, patch) then Finish(safe, base, Apply(patch, base).value, excluded)
      else Fallback(safe, base, ws, Clean(base), excluded, if AllSafe(safe, patch) then DoesNotApply else UnsafePath)
    case Edits(files) =>
      var (error, t) := Write(safe, files, base);
      if error.Some? then (Err(error.value), Clean(base).(tree := t)) else Finish(safe, base, t, excluded)
    case Nothing => Fallback(safe, base, ws, Staged(ws), excluded, Unrecognized)
  }

  // ---------- the machine as the program runs it ----------

  class Attempt {
    const base: Tree
    var head: Tree
    var tree: Tree
    var index: Tree

    constructor (base: Tree, head: Tree, tree: Tree)
      ensures this.base == base && State() == Workspace(head, tree, head)
    {
      this.base, this.head, this.tree, this.index := base, head, tree, head;
    }

    ghost function State(): Workspace
      reads this
    {
      Workspace(head, tree, index)
    }

    /** `_restore_attempt_workspace`: hard reset to the base commit, then clean. */
    method Restore()
      modifies this
      ensures State() == Clean(base)
    {
      head, tree, index := base, base, base;
    }

    method FromWorkspaceState(safe: Guard) returns (r: Result<Patch, Error>)
      modifies this
      ensures State() == Staged(old(State())) && r == Snapshot(safe, old(State()))
    {
      index := tree;
      var patch := GitDiff(head, index);
      r := Checked(safe, patch);
    }

    method ApplyPatch(safe: Guard, patch: Patch) returns (error: Option<Error>)
      modifies this`tree
      ensures error == None <==> Applies(safe, old(tree), patch)
      ensures error == None ==> tree == Apply(patch, old(tree)).value
      ensures error.Some? ==>
          tree == old(tree) && error.value == if AllSafe(safe, patch) then DoesNotApply else UnsafePath
    {
      if !AllSafe(safe, patch) {
        return Some(UnsafePath);
      }
      var applied := Apply(patch, tree);
      if patch == [] || applied == None {
        return Some(DoesNotApply);
      }
      tree := applied.value;
      error := None;
    }

    method WriteFiles(safe: Guard, files: seq<(string, string)>) returns (error: Option<Error>)
      modifies this`tree
      ensures (error, tree) == Write(safe, files, old(tree))
    {
      for i := 0 to |files|
        invariant Write(safe, files[i..], tree) == Write(safe, files, old(tree))
      {
        assert files[i..][1..] == files[i + 1..];
        var (path, content) := files[i];
        if !safe(path) {
          return Some(UnsafePath);
        }
        if HasNul(Some(content)) {
          return Some(BinaryFile);
        }
        tree := tree[path := content];
      }
      assert files[|files|..] == [];
      error := None;
    }

    method ExcludeWithheld(safe: Guard, patch: Patch, excluded: set<string>) returns (r: Result<Outcome, Error>)
      modifies this
      ensures (r, State()) == Withhold(safe, base, old(State()), patch, excluded)
    {
      var touched, kept := Only(patch, excluded, true), Only(patch, excluded, false);
      if touched == [] {
        return Ok(Outcome(patch, {}));
      }
      var paths := set i | 0 <= i < |touched| :: touched[i].path;
      Restore();
      if kept == [] {
        return Ok(Outcome([], paths));
      }
      var error := ApplyPatch(safe, kept);
      if error.Some? {
        return Err(error.value);
      }
      var snapshot := FromWorkspaceState(safe);
      match snapshot
      case Err(e) => r := Err(e);
      case Ok(p) => r := Ok(Outcome(p, paths));
    }

    method NormalizeOutput(safe: Guard, output: Output, excluded: set<string>) returns (r: Result<Outcome, Error>)
      modifies this
      ensures (r, State()) == Normalize(safe, base, old(State()), output, excluded)
    {
      var fallback := FromWorkspaceState(safe);
      match output {
        case Nothing =>
          r := UseFallback(safe, fallback, Unrecognized, excluded);
          return;
        case Diff(patch) =>
          Restore();
          var error := ApplyPatch(safe, patch);
          if error.Some? {
            r := UseFallback(safe, fallback, error.value, excluded);
            return;
          }
        case Edits(files) =>
          Restore();
          var error := WriteFiles(safe, files);
          if error.Some? {
            return Err(error.value);
          }
      }
      var snapshot := FromWorkspaceState(safe);
      match snapshot
      case Err(e) => r := Err(e);
      case Ok(p) => r := ExcludeWithheld(safe, p, excluded);
    }

    method UseFallback(safe: Guard, fallback: Result<Patch, Error>, otherwise: Error, excluded: set<string>)
      returns (r: Result<Outcome, Error>)
      modifies this
      ensures (r, State()) == match fallback
        case Err(_) => (Err(otherwise), old(State()))
        case Ok(p) => Withhold(safe, base, old(State()), p, excluded)
    {
      match fallback
      case Err(_) => r := Err(otherwise);
      case Ok(p) => r := ExcludeWithheld(safe, p, excluded);
    }
  }
}
