/** Taking paths out of a patch (`_split_patch_by_file` and `exclude_patch_paths` in
    repogauge/runner/normalize_patch.py). */
module PatchExclusion {
  import opened Wrappers
  import opened Text
  import opened DiffBlocks

  /** The destination of a block: the new path, or the old one when the file goes away. */
  function PathOf(tokens: Tokens, b: Block): string {
    if b == [] || !IsHeader(tokens, b[0]) then ""
    else
      var (a, z) := ParseHeader(tokens, b[0]).value;
      if z != "/dev/null" then z else a
  }

  /** Blocks touching (or, with `inside` false, not touching) a path of `paths`. */
  function Touching(tokens: Tokens, paths: set<string>, inside: bool): Block -> bool {
    (b: Block) => (PathOf(tokens, b) in paths) == inside
  }

  datatype Exclusion = Exclusion(kept: string, removed: string, paths: seq<string>)

  /** Paths of blocks, each once, in order of first appearance. */
  function PathsOf(tokens: Tokens, blocks: seq<Block>): seq<string> {
    if blocks == [] then []
    else
      var before := PathsOf(tokens, blocks[..|blocks| - 1]);
      var path := PathOf(tokens, blocks[|blocks| - 1]);
      if path in before then before else before + [path]
  }

  ghost function Exclude(tokens: Tokens, patch: string, paths: set<string>): Exclusion {
    var blocks := TextBlocks(tokens, patch);
    var removed := Keep(blocks, Touching(tokens, paths, true));
    if Blank(patch) || removed == [] then Exclusion(patch, "", [])
    else
      Exclusion(Concat(Flatten(Keep(blocks, Touching(tokens, paths, false)))), Concat(Flatten(removed)),
                PathsOf(tokens, removed))
  }

  // ---------- the methods ----------

  ghost predicate PathsFit(tokens: Tokens, paths: seq<string>, blocks: seq<Block>) {
    |paths| == |blocks| && forall j | 0 <= j < |blocks| :: paths[j] == PathOf(tokens, blocks[j])
  }

  lemma PathsGrow(tokens: Tokens, paths: seq<string>, blocks: seq<Block>, current: Block)
    requires PathsFit(tokens, paths, blocks)
    ensures PathsFit(tokens, paths + [PathOf(tokens, current)], blocks + [current])
  {
  }

  /** The path noted for the block being read. */
  ghost predicate Noted(tokens: Tokens, path: Option<string>, current: Block) {
    path == if current == [] then None else Some(PathOf(tokens, current))
  }

  lemma NotedLonger(tokens: Tokens, path: Option<string>, current: Block, line: string)
    requires Noted(tokens, path, current)
    ensures Noted(tokens, path, if current == [] then [] else current + [line])
  {
    assert current != [] ==> (current + [line])[0] == current[0];
  }

  /** `_split_patch_by_file`, with the lines of each chunk still unjoined. */
  method SplitPatchByFile(tokens: Tokens, patch: string) returns (paths: seq<string>, blocks: seq<Block>)
    ensures blocks == TextBlocks(tokens, patch) && |paths| == |blocks|
    ensures forall i | 0 <= i < |blocks| :: paths[i] == PathOf(tokens, blocks[i])
  {
    var lines := SplitLines(patch);
    var current: Block := [];
    var path := None;
    paths, blocks := [], [];
    for i := 0 to |lines|
      invariant Cut(tokens, lines[..i], blocks, current)
      invariant Noted(tokens, path, current) && PathsFit(tokens, paths, blocks)
    {
      assert lines[..i + 1] == lines[..i] + [lines[i]];
      var parsed := ParseHeader(tokens, lines[i]);
      if parsed.Some? {
        CutHeader(tokens, lines[..i], blocks, current, lines[i]);
        if path.Some? {
          PathsGrow(tokens, paths, blocks, current);
          paths, blocks := paths + [path.value], blocks + [current];
        }
        var (a, z) := parsed.value;
        current := [lines[i]];
        path := Some(if z != "/dev/null" then z else a);
      } else {
        CutLine(tokens, lines[..i], blocks, current, lines[i]);
        NotedLonger(tokens, path, current, lines[i]);
        current := if current == [] then [] else current + [lines[i]];
      }
    }
    assert lines[..|lines|] == lines;
    if path.Some? {
      PathsGrow(tokens, paths, blocks, current);
      paths, blocks := paths + [path.value], blocks + [current];
    }
  }

  ghost function Coerced(texts: seq<string>): set<string> {
    set i | 0 <= i < |texts| && Strip(texts[i]) != "" :: Strip(texts[i])
  }

  /** The loop that sorts the chunks. */
  method Sift(tokens: Tokens, paths: seq<string>, blocks: seq<Block>, excluded: set<string>)
    returns (kept: seq<Block>, removed: seq<Block>, removedPaths: seq<string>)
    requires |paths| == |blocks| && forall i | 0 <= i < |blocks| :: paths[i] == PathOf(tokens, blocks[i])
    ensures kept == Keep(blocks, Touching(tokens, excluded, false))
    ensures removed == Keep(blocks, Touching(tokens, excluded, true)) && removedPaths == PathsOf(tokens, removed)
  {
    kept, removed, removedPaths := [], [], [];
    for i := 0 to |blocks|
      invariant kept == Keep(blocks[..i], Touching(tokens, excluded, false))
      invariant removed == Keep(blocks[..i], Touching(tokens, excluded, true))
      invariant removedPaths == PathsOf(tokens, removed)
    {
      assert blocks[..i + 1][..i] == blocks[..i];
      if paths[i] in excluded {
        assert (removed + [blocks[i]])[..|removed|] == removed;
        removed := removed + [blocks[i]];
        if paths[i] !in removedPaths {
          removedPaths := removedPaths + [paths[i]];
        }
      } else {
        kept := kept + [blocks[i]];
      }
    }
    assert blocks[..|blocks|] == blocks;
  }

  /** `exclude_patch_paths` */
  method ExcludePatchPaths(tokens: Tokens, patch: string, excludedPaths: seq<string>) returns (r: Exclusion)
    ensures r == Exclude(tokens, patch, Coerced(excludedPaths))
  {
    var excluded := set i | 0 <= i < |excludedPaths| && Strip(excludedPaths[i]) != "" :: Strip(excludedPaths[i]);
    if Blank(patch) || excluded == {} {
      KeepNone(TextBlocks(tokens, patch), Touching(tokens, {}, true));
      return Exclusion(patch, "", []);
    }
    var paths, blocks := SplitPatchByFile(tokens, patch);
    var kept, removed, removedPaths := Sift(tokens, paths, blocks, excluded);
    if removed == [] {
      return Exclusion(patch, "", []);
    }
    r := Exclusion(Concat(Flatten(kept)), Concat(Flatten(removed)), removedPaths);
  }

  // ---------- main results ----------

  lemma WellFormed(tokens: Tokens, patch: string)
    ensures forall b | b in TextBlocks(tokens, patch) :: IsBlock(tokens, b)
  {
    BlocksHoldLines(tokens, SplitLines(patch));
  }

  /** When something is removed: the kept and the removed text read back as the two order-preserving halves of
      the patch's blocks, no kept block's destination is excluded, and the reported paths are those of the
      removed blocks.  Otherwise the patch is returned untouched, lines before the first header included. */
  lemma ExclusionPartitions(tokens: Tokens, patch: string, paths: set<string>)
    ensures var r := Exclude(tokens, patch, paths);
      var blocks := TextBlocks(tokens, patch);
      var touched := Keep(blocks, Touching(tokens, paths, true));
      && (forall b | b in blocks :: IsBlock(tokens, b))
      && (touched == [] ==> r == Exclusion(patch, "", []))
      && (touched != [] ==>
            && TextBlocks(tokens, r.removed) == touched
            && TextBlocks(tokens, r.kept) == Keep(blocks, Touching(tokens, paths, false)))
      && (forall b | b in TextBlocks(tokens, r.kept) :: IsBlock(tokens, b) && PathOf(tokens, b) !in paths)
      && (forall path :: path in r.paths <==> path in paths && exists b :: b in blocks && PathOf(tokens, b) == path)
  {
    var blocks := TextBlocks(tokens, patch);
    var touched := Keep(blocks, Touching(tokens, paths, true));
    WellFormed(tokens, patch);
    KeepContents(blocks, Touching(tokens, paths, true));
    KeepContents(blocks, Touching(tokens, paths, false));
    SelectionReadsBack(tokens, patch, Touching(tokens, paths, true));
    SelectionReadsBack(tokens, patch, Touching(tokens, paths, false));
    NotBlank(tokens, patch);
    PathsOfContents(tokens, touched);
    assert forall b | b in blocks && PathOf(tokens, b) in paths :: b in touched;
  }

  lemma {:induction false} PathsOfContents(tokens: Tokens, blocks: seq<Block>)
    requires forall b | b in blocks :: IsBlock(tokens, b)
    ensures forall path :: path in PathsOf(tokens, blocks) <==> exists b :: b in blocks && PathOf(tokens, b) == path
  {
    if blocks != [] {
      var n := |blocks| - 1;
      assert forall b | b in blocks[..n] :: b in blocks;
      PathsOfContents(tokens, blocks[..n]);
      assert forall b | b in blocks :: b in blocks[..n] || b == blocks[n];
      assert blocks[n] in blocks;
    }
  }

  /** A patch with a block is not blank. */
  lemma NotBlank(tokens: Tokens, patch: string)
    ensures TextBlocks(tokens, patch) != [] ==> !Blank(patch)
  {
    var lines := SplitLines(patch);
    if TextBlocks(tokens, patch) != [] {
      BlocksHoldLines(tokens, lines);
      HeaderLine(tokens, lines);
      ConcatSplit(patch);
    }
  }

  lemma {:induction false} HeaderLine(tokens: Tokens, lines: seq<string>)
    requires FromHeader(tokens, lines) != []
    ensures !Blank(Concat(lines))
  {
    if IsHeader(tokens, lines[0]) {
      assert PREFIX <= lines[0];
      assert Concat(lines)[0] == 'd';
    } else {
      HeaderLine(tokens, lines[1..]);
      var head, tail := lines[0], Concat(lines[1..]);
      var i :| 0 <= i < |tail| && !IsSpace(tail[i]);
      assert Concat(lines)[|head| + i] == tail[i];
    }
  }

  /** What a second removal sees: the blocks the first one left. */
  lemma KeptBlocks(tokens: Tokens, patch: string, paths: set<string>)
    ensures TextBlocks(tokens, Exclude(tokens, patch, paths).kept)
         == Keep(TextBlocks(tokens, patch), Touching(tokens, paths, false))
  {
    var blocks := TextBlocks(tokens, patch);
    ExclusionPartitions(tokens, patch, paths);
    if Keep(blocks, Touching(tokens, paths, true)) == [] {
      KeepContents(blocks, Touching(tokens, paths, true));
      KeepAll(blocks, Touching(tokens, paths, false));
    }
  }

  /** Removing again changes nothing and reports nothing. */
  lemma ExcludeIdempotent(tokens: Tokens, patch: string, paths: set<string>)
    ensures var once := Exclude(tokens, patch, paths).kept;
      Exclude(tokens, once, paths) == Exclusion(once, "", [])
  {
    var once := Exclude(tokens, patch, paths).kept;
    ExclusionPartitions(tokens, patch, paths);
    KeepNone(TextBlocks(tokens, once), Touching(tokens, paths, true));
  }

  /** Removing one set of paths and then another leaves the same text as removing their union, also when lines
      precede the first header (they go as soon as either step removes something). */
  lemma ExcludeUnion(tokens: Tokens, patch: string, first: set<string>, second: set<string>)
    ensures Exclude(tokens, Exclude(tokens, patch, first).kept, second).kept
        == Exclude(tokens, patch, first + second).kept
  {
    var blocks := TextBlocks(tokens, patch);
    var once := Exclude(tokens, patch, first).kept;
    var in1, in2 := Touching(tokens, first, true), Touching(tokens, second, true);
    var out1, out2 := Touching(tokens, first, false), Touching(tokens, second, false);
    var in12, out12 := Touching(tokens, first + second, true), Touching(tokens, first + second, false);
    WellFormed(tokens, patch);
    NotBlank(tokens, patch);
    KeptBlocks(tokens, patch, first);
    NotBlank(tokens, once);
    KeepKeep(blocks, out1, out2, out12);
    KeepContents(blocks, in1);
    KeepContents(blocks, in12);
    KeepContents(blocks, out1);
    KeepContents(Keep(blocks, out1), in2);
    if Keep(blocks, in1) == [] {
      // the first step returned the patch as it was
      KeepAll(blocks, out1);
      SameSelection(blocks, in2, in12);
    } else if Keep(Keep(blocks, out1), in2) == [] {
      // only the first step removed something
      assert exists b :: b in Keep(blocks, in12) by {
        var b := Keep(blocks, in1)[0];
        assert b in Keep(blocks, in1);
        assert b in Keep(blocks, in12);
      }
      KeepAll(Keep(blocks, out1), out2);
    } else {
      assert exists b :: b in Keep(blocks, in12) by {
        var b := Keep(blocks, in1)[0];
        assert b in Keep(blocks, in1);
        assert b in Keep(blocks, in12);
      }
    }
  }

  lemma {:induction false} SameSelection(blocks: seq<Block>, p: Block -> bool, q: Block -> bool)
    requires forall b | b in blocks :: p(b) <==> q(b)
    ensures Keep(blocks, p) == Keep(blocks, q)
  {
    if blocks != [] {
      assert blocks[|blocks| - 1] in blocks;
      SameSelection(blocks[..|blocks| - 1], p, q);
    }
  }

  // ---------- which files go ----------

  lemma {:induction false} PathsOfOnce(tokens: Tokens, blocks: seq<Block>, path: string)
    ensures multiset(PathsOf(tokens, blocks))[path] <= 1
  {
    if blocks != [] {
      var before := PathsOf(tokens, blocks[..|blocks| - 1]);
      PathsOfOnce(tokens, blocks[..|blocks| - 1], path);
      assert path in before <==> path in multiset(before);
    }
  }

  /** A file block goes iff one of the given texts, stripped, is its new path, or its old path if the file is deleted;
      the others stay, and every path that goes is reported once. */
  lemma ExclusionMeans(tokens: Tokens, patch: string, texts: seq<string>, b: Block, from: string, to: string)
    requires b in TextBlocks(tokens, patch) && b != [] && tokens(b[0]) == Some((from, to))
    ensures var r := Exclude(tokens, patch, Coerced(texts));
      var path := if to == "/dev/null" then from else to;
      var goes := path != "" && exists i :: 0 <= i < |texts| && Strip(texts[i]) == path;
      && (b in TextBlocks(tokens, r.removed) <==> goes)
      && (b in TextBlocks(tokens, r.kept) <==> !goes)
      && (goes ==> multiset(r.paths)[path] == 1)
  {
    var paths, blocks := Coerced(texts), TextBlocks(tokens, patch);
    var r := Exclude(tokens, patch, paths);
    ExclusionPartitions(tokens, patch, paths);
    KeptBlocks(tokens, patch, paths);
    KeepContents(blocks, Touching(tokens, paths, true));
    KeepContents(blocks, Touching(tokens, paths, false));
    assert IsHeader(tokens, b[0]);
    var path := PathOf(tokens, b);
    PathsOfOnce(tokens, Keep(blocks, Touching(tokens, paths, true)), path);
    assert path in r.paths <==> path in multiset(r.paths);
    if b in Keep(blocks, Touching(tokens, paths, true)) {
      assert Keep(blocks, Touching(tokens, paths, true)) != [];
    }
    assert r.removed == "" ==> TextBlocks(tokens, r.removed) == [];
  }
}
