/** Patches as text and as change lists: taking paths out of the text of a diff is the same as taking them out of
    its changes (repogauge/runner/normalize_patch.py:320-346 against 617-647). */
module PatchText {
  import opened Text
  import opened DiffBlocks
  import PatchExclusion
  import PatchNormalize

  type Change = PatchNormalize.Change

  /** How git prints one change: a terminated block whose header names the change's path. */
  ghost predicate Prints(tokens: Tokens, render: Change -> Block, patch: PatchNormalize.Patch) {
    forall c | c in patch ::
      && IsBlock(tokens, render(c)) && IsLineList(render(c)) && Terminated(render(c))
      && PatchExclusion.PathOf(tokens, render(c)) == c.path
  }

  function Rendered(render: Change -> Block, patch: PatchNormalize.Patch): seq<Block> {
    if patch == [] then [] else Rendered(render, patch[..|patch| - 1]) + [render(patch[|patch| - 1])]
  }

  function PatchTextOf(render: Change -> Block, patch: PatchNormalize.Patch): string {
    Concat(Flatten(Rendered(render, patch)))
  }

  lemma {:induction false} RenderedContents(tokens: Tokens, render: Change -> Block, patch: PatchNormalize.Patch)
    requires Prints(tokens, render, patch)
    ensures forall b | b in Rendered(render, patch) :: IsBlock(tokens, b) && IsLineList(b) && Terminated(b)
  {
    if patch != [] {
      var n := |patch| - 1;
      assert forall c | c in patch[..n] :: c in patch;
      RenderedContents(tokens, render, patch[..n]);
      assert patch[n] in patch;
    }
  }

  /** The text of a patch reads back as its blocks. */
  lemma RenderedReadsBack(tokens: Tokens, render: Change -> Block, patch: PatchNormalize.Patch)
    requires Prints(tokens, render, patch)
    ensures TextBlocks(tokens, PatchTextOf(render, patch)) == Rendered(render, patch)
  {
    var blocks := Rendered(render, patch);
    RenderedContents(tokens, render, patch);
    assert forall i | 0 <= i < |blocks| :: blocks[i] in blocks;
    CutIsLineList(tokens, blocks);
    SplitConcat(Flatten(blocks));
    BlocksOfFlatten(tokens, blocks);
  }

  lemma {:induction false} KeepRendered(tokens: Tokens, render: Change -> Block, patch: PatchNormalize.Patch,
                                        paths: set<string>, inside: bool)
    requires Prints(tokens, render, patch)
    ensures Keep(Rendered(render, patch), PatchExclusion.Touching(tokens, paths, inside))
         == Rendered(render, PatchNormalize.Only(patch, paths, inside))
  {
    if patch != [] {
      var n := |patch| - 1;
      assert forall c | c in patch[..n] :: c in patch;
      KeepRendered(tokens, render, patch[..n], paths, inside);
      assert patch[n] in patch;
      var before, only := Rendered(render, patch[..n]), PatchNormalize.Only(patch[..n], paths, inside);
      assert (before + [render(patch[n])])[..|before|] == before;
      assert (only + [patch[n]])[..|only|] == only;
    }
  }

  /** Text-level exclusion and change-level exclusion agree: same kept text, same removed text, and they remove
      something in the same cases. */
  lemma ExclusionsAgree(tokens: Tokens, render: Change -> Block, patch: PatchNormalize.Patch, paths: set<string>)
    requires Prints(tokens, render, patch)
    ensures
      var r := PatchExclusion.Exclude(tokens, PatchTextOf(render, patch), paths);
      && r.kept == PatchTextOf(render, PatchNormalize.Only(patch, paths, false))
      && r.removed == PatchTextOf(render, PatchNormalize.Only(patch, paths, true))
      && (r.paths == [] <==> PatchNormalize.Only(patch, paths, true) == [])
  {
    var text := PatchTextOf(render, patch);
    RenderedReadsBack(tokens, render, patch);
    KeepRendered(tokens, render, patch, paths, true);
    KeepRendered(tokens, render, patch, paths, false);
    PatchExclusion.NotBlank(tokens, text);
    var touched := PatchNormalize.Only(patch, paths, true);
    if touched == [] {
      PatchNormalize.OnlyOther(patch, paths);
    } else {
      var blocks := Rendered(render, touched);
      assert blocks[|blocks| - 1] in blocks;
      PathsNonEmpty(tokens, blocks);
    }
  }

  lemma {:induction false} PathsNonEmpty(tokens: Tokens, blocks: seq<Block>)
    ensures PatchExclusion.PathsOf(tokens, blocks) == [] <==> blocks == []
  {
    if |blocks| > 1 {
      PathsNonEmpty(tokens, blocks[..|blocks| - 1]);
    }
  }
}
