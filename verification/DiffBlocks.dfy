/** Unified diff text as a list of per-file blocks, each starting at a `diff --git` header.  What a header line
    says is left to a parameter `tokens` (the repository splits it with shell rules); only lines with the header
    prefix are ever parsed. */
module DiffBlocks {
  import opened Wrappers
  import opened Text

  type Tokens = string -> Option<(string, string)>

  type Block = seq<string>

  const PREFIX := "diff --git "

  /** `_parse_diff_header` */
  function ParseHeader(tokens: Tokens, line: string): Option<(string, string)> {
    if PREFIX <= line then tokens(line) else None
  }

  predicate IsHeader(tokens: Tokens, line: string) {
    ParseHeader(tokens, line).Some?
  }

  /** A header is a line with the prefix, the bare prefix included, whose tokens can be read. */
  lemma HeaderMeans(tokens: Tokens, line: string)
    ensures IsHeader(tokens, line) <==> |line| >= 11 && line[..11] == "diff --git " && tokens(line).Some?
    ensures IsHeader(tokens, line) ==> ParseHeader(tokens, line) == tokens(line)
  {
  }

  /** The blocks of a list of lines; lines before the first header belong to none. */
  function Blocks(tokens: Tokens, lines: seq<string>): seq<Block> {
    if lines == [] then []
    else
      var before := Blocks(tokens, lines[..|lines| - 1]);
      var line := lines[|lines| - 1];
      if IsHeader(tokens, line) then before + [[line]]
      else if before == [] then []
      else before[|before| - 1 := before[|before| - 1] + [line]]
  }

  function Flatten(blocks: seq<Block>): seq<string> {
    if blocks == [] then [] else Flatten(blocks[..|blocks| - 1]) + blocks[|blocks| - 1]
  }

  /** The lines from the first header on. */
  function FromHeader(tokens: Tokens, lines: seq<string>): seq<string> {
    if lines == [] || IsHeader(tokens, lines[0]) then lines else FromHeader(tokens, lines[1..])
  }

  ghost predicate IsBlock(tokens: Tokens, b: Block) {
    b != [] && IsHeader(tokens, b[0]) && forall i | 1 <= i < |b| :: !IsHeader(tokens, b[i])
  }

  function Keep(blocks: seq<Block>, p: Block -> bool): seq<Block> {
    if blocks == [] then []
    else
      var before := Keep(blocks[..|blocks| - 1], p);
      if p(blocks[|blocks| - 1]) then before + [blocks[|blocks| - 1]] else before
  }

  lemma {:induction false} KeepContents(blocks: seq<Block>, p: Block -> bool)
    ensures forall b :: b in Keep(blocks, p) <==> b in blocks && p(b)
  {
    if blocks != [] {
      KeepContents(blocks[..|blocks| - 1], p);
      assert blocks == blocks[..|blocks| - 1] + [blocks[|blocks| - 1]];
    }
  }

  lemma {:induction false} KeepAll(blocks: seq<Block>, p: Block -> bool)
    requires forall b | b in blocks :: p(b)
    ensures Keep(blocks, p) == blocks
  {
    if blocks != [] {
      KeepAll(blocks[..|blocks| - 1], p);
    }
  }

  lemma {:induction false} KeepNone(blocks: seq<Block>, p: Block -> bool)
    requires forall b | b in blocks :: !p(b)
    ensures Keep(blocks, p) == []
  {
    if blocks != [] {
      KeepNone(blocks[..|blocks| - 1], p);
    }
  }

  /** Filtering twice. */
  lemma {:induction false} KeepKeep(blocks: seq<Block>, p: Block -> bool, q: Block -> bool, both: Block -> bool)
    requires forall b | b in blocks :: both(b) <==> p(b) && q(b)
    ensures Keep(Keep(blocks, p), q) == Keep(blocks, both)
  {
    if blocks != [] {
      var n := |blocks| - 1;
      KeepKeep(blocks[..n], p, q, both);
      assert blocks[n] in blocks;
      var before := Keep(blocks[..n], p);
      assert (before + [blocks[n]])[..|before|] == before;
    }
  }

  // ---------- lines to blocks and back ----------

  /** The state of the line loops: closed blocks and the block being read. */
  ghost predicate Cut(tokens: Tokens, lines: seq<string>, closed: seq<Block>, current: Block) {
    && Blocks(tokens, lines) == (if current == [] then closed else closed + [current])
    && (current == [] ==> closed == [])
  }

  lemma CutHeader(tokens: Tokens, lines: seq<string>, closed: seq<Block>, current: Block, line: string)
    requires Cut(tokens, lines, closed, current) && IsHeader(tokens, line)
    ensures Cut(tokens, lines + [line], if current == [] then closed else closed + [current], [line])
  {
    assert (lines + [line])[..|lines|] == lines;
  }

  lemma CutLine(tokens: Tokens, lines: seq<string>, closed: seq<Block>, current: Block, line: string)
    requires Cut(tokens, lines, closed, current) && !IsHeader(tokens, line)
    ensures Cut(tokens, lines + [line], closed, if current == [] then [] else current + [line])
  {
    assert (lines + [line])[..|lines|] == lines;
    var all := closed + [current];
    assert all[|all| - 1 := current + [line]] == closed + [current + [line]];
  }

  lemma {:induction false} FlattenAppend(blocks: seq<Block>, b: Block)
    ensures Flatten(blocks + [b]) == Flatten(blocks) + b
  {
    assert (blocks + [b])[..|blocks|] == blocks;
  }

  lemma {:induction false} FromHeaderAppend(tokens: Tokens, lines: seq<string>, line: string)
    ensures FromHeader(tokens, lines + [line])
         == if FromHeader(tokens, lines) != [] || IsHeader(tokens, line) then FromHeader(tokens, lines) + [line] else []
  {
    if lines == [] {
      assert lines + [line] == [line] && [line][1..] == [];
    } else if !IsHeader(tokens, lines[0]) {
      assert (lines + [line])[1..] == lines[1..] + [line];
      FromHeaderAppend(tokens, lines[1..], line);
    }
  }

  lemma {:induction false} BlocksAreBlocks(tokens: Tokens, lines: seq<string>)
    ensures forall b | b in Blocks(tokens, lines) :: IsBlock(tokens, b)
  {
    if lines != [] {
      var n := |lines| - 1;
      var before := Blocks(tokens, lines[..n]);
      BlocksAreBlocks(tokens, lines[..n]);
      if !IsHeader(tokens, lines[n]) && before != [] {
        var m := |before| - 1;
        assert before[m] in before;
        assert IsBlock(tokens, before[m] + [lines[n]]);
      }
    }
  }

  /** Lengthening the last block lengthens the whole. */
  lemma FlattenLonger(blocks: seq<Block>, line: string)
    requires blocks != []
    ensures var m := |blocks| - 1; Flatten(blocks[m := blocks[m] + [line]]) == Flatten(blocks) + [line]
  {
    var m := |blocks| - 1;
    var longer := blocks[m := blocks[m] + [line]];
    assert longer[..m] == blocks[..m];
  }

  lemma {:induction false} BlocksFlatten(tokens: Tokens, lines: seq<string>)
    ensures Flatten(Blocks(tokens, lines)) == FromHeader(tokens, lines)
    ensures Blocks(tokens, lines) == [] <==> FromHeader(tokens, lines) == []
  {
    if lines != [] {
      var n := |lines| - 1;
      var before, line := Blocks(tokens, lines[..n]), lines[n];
      BlocksFlatten(tokens, lines[..n]);
      FromHeaderAppend(tokens, lines[..n], line);
      assert lines == lines[..n] + [line];
      if IsHeader(tokens, line) {
        FlattenAppend(before, [line]);
      } else if before != [] {
        FlattenLonger(before, line);
      }
    }
  }

  /** The blocks are well formed and together hold every line from the first header on, in order. */
  lemma BlocksHoldLines(tokens: Tokens, lines: seq<string>)
    ensures forall b | b in Blocks(tokens, lines) :: IsBlock(tokens, b)
    ensures Flatten(Blocks(tokens, lines)) == FromHeader(tokens, lines)
    ensures Blocks(tokens, lines) == [] <==> FromHeader(tokens, lines) == []
  {
    BlocksAreBlocks(tokens, lines);
    BlocksFlatten(tokens, lines);
  }

  lemma {:induction false} BlocksAppend(tokens: Tokens, lines: seq<string>, b: Block)
    requires IsBlock(tokens, b)
    ensures Blocks(tokens, lines + b) == Blocks(tokens, lines) + [b]
  {
    var n := |b| - 1;
    assert (lines + b)[..|lines + b| - 1] == lines + b[..n];
    if n == 0 {
      assert lines + b[..0] == lines && b == [b[0]];
    } else {
      BlocksAppend(tokens, lines, b[..n]);
      assert b == b[..n] + [b[n]];
    }
  }

  /** Re-reading flattened blocks gives the blocks back. */
  lemma {:induction false} BlocksOfFlatten(tokens: Tokens, blocks: seq<Block>)
    requires forall b | b in blocks :: IsBlock(tokens, b)
    ensures Blocks(tokens, Flatten(blocks)) == blocks
  {
    if blocks != [] {
      var n := |blocks| - 1;
      BlocksOfFlatten(tokens, blocks[..n]);
      BlocksAppend(tokens, Flatten(blocks[..n]), blocks[n]);
    }
  }

  // ---------- filtering whole texts ----------

  function Last(lines: seq<string>): string
    requires lines != []
  {
    lines[|lines| - 1]
  }

  ghost predicate Terminated(b: Block) {
    b != [] && Last(b) != "" && IsBreak(Last(b)[|Last(b)| - 1])
  }

  /** Blocks cut from one text: all but the last end in a line break. */
  ghost predicate CutFromText(tokens: Tokens, blocks: seq<Block>) {
    && (forall b | b in blocks :: IsBlock(tokens, b) && IsLineList(b))
    && (forall i | 0 <= i < |blocks| - 1 :: Terminated(blocks[i]))
  }

  lemma {:induction false} KeepCut(tokens: Tokens, blocks: seq<Block>, p: Block -> bool)
    requires CutFromText(tokens, blocks)
    ensures CutFromText(tokens, Keep(blocks, p))
    ensures |blocks| > 0 && Terminated(blocks[|blocks| - 1]) ==> forall b | b in Keep(blocks, p) :: Terminated(b)
  {
    if blocks != [] {
      var n := |blocks| - 1;
      KeepCut(tokens, blocks[..n], p);
      if n > 0 {
        assert Terminated(blocks[n - 1]);
      }
      assert blocks[n] in blocks;
      assert forall b | b in blocks[..n] :: b in blocks;
      var kept := Keep(blocks[..n], p);
      assert forall i | 0 <= i < |kept| :: kept[i] in kept;
    }
  }

  lemma {:induction false} CutIsLineList(tokens: Tokens, blocks: seq<Block>)
    requires CutFromText(tokens, blocks)
    ensures IsLineList(Flatten(blocks))
    ensures blocks != [] ==>
        Flatten(blocks) != [] && blocks[|blocks| - 1] != [] && Last(Flatten(blocks)) == Last(blocks[|blocks| - 1])
  {
    if blocks != [] {
      var n := |blocks| - 1;
      assert forall b | b in blocks[..n] :: b in blocks;
      CutIsLineList(tokens, blocks[..n]);
      assert blocks[n] in blocks;
      var head, tail := Flatten(blocks[..n]), blocks[n];
      assert PREFIX <= tail[0] && tail[0][0] == 'd';
      if n > 0 {
        assert Terminated(blocks[n - 1]);
        assert MayFollow(head[|head| - 1], tail[0]);
      }
      forall i | 0 <= i < |head + tail| - 1 ensures MayFollow((head + tail)[i], (head + tail)[i + 1]) {
        if i >= |head| {
          var j := i - |head|;
          assert MayFollow(tail[j], tail[j + 1]);
        } else if i < |head| - 1 {
          assert MayFollow(head[i], head[i + 1]);
        }
      }
    }
  }

  lemma SliceIsLineList(lines: seq<string>, lo: nat, hi: nat)
    requires IsLineList(lines) && lo <= hi <= |lines|
    ensures IsLineList(lines[lo..hi])
  {
    var s := lines[lo..hi];
    forall i | 0 <= i < |s| - 1 ensures MayFollow(s[i], s[i + 1]) {
      var j := lo + i;
      assert MayFollow(lines[j], lines[j + 1]);
    }
  }

  lemma FollowedIsTerminated(tokens: Tokens, blocks: seq<Block>, b: Block)
    requires blocks != [] && CutFromText(tokens, blocks) && IsLineList(Flatten(blocks) + b) && b != []
    ensures Terminated(blocks[|blocks| - 1])
  {
    CutIsLineList(tokens, blocks);
    var head := Flatten(blocks);
    var lines, k := head + b, |head| - 1;
    assert MayFollow(lines[k], lines[k + 1]);
    assert lines[k] == Last(head);
  }

  lemma {:induction false} LineListIsCut(tokens: Tokens, blocks: seq<Block>)
    requires IsLineList(Flatten(blocks)) && forall b | b in blocks :: IsBlock(tokens, b)
    ensures CutFromText(tokens, blocks)
  {
    if blocks != [] {
      var n := |blocks| - 1;
      var lines, head := Flatten(blocks), Flatten(blocks[..n]);
      SliceIsLineList(lines, 0, |head|);
      SliceIsLineList(lines, |head|, |lines|);
      assert lines[0..|head|] == head && lines[|head|..|lines|] == blocks[n];
      assert forall b | b in blocks[..n] :: b in blocks;
      assert blocks[n] in blocks;
      LineListIsCut(tokens, blocks[..n]);
      if n > 0 {
        FollowedIsTerminated(tokens, blocks[..n], blocks[n]);
      }
      forall b | b in blocks ensures IsLineList(b) {
        assert b in blocks[..n] || b == blocks[n];
      }
    }
  }

  lemma {:induction false} FromHeaderIsSuffix(tokens: Tokens, lines: seq<string>)
    requires IsLineList(lines)
    ensures IsLineList(FromHeader(tokens, lines))
  {
    if lines != [] && !IsHeader(tokens, lines[0]) {
      SliceIsLineList(lines, 1, |lines|);
      assert lines[1..|lines|] == lines[1..];
      FromHeaderIsSuffix(tokens, lines[1..]);
    }
  }

  function TextBlocks(tokens: Tokens, text: string): seq<Block> {
    Blocks(tokens, SplitLines(text))
  }

  /** Joining any selection of a text's blocks and reading the joined text again gives exactly that selection,
      whether or not the text ends in a line break. */
  lemma SelectionReadsBack(tokens: Tokens, text: string, p: Block -> bool)
    ensures TextBlocks(tokens, Concat(Flatten(Keep(TextBlocks(tokens, text), p)))) == Keep(TextBlocks(tokens, text), p)
    ensures SplitLines(Concat(Flatten(Keep(TextBlocks(tokens, text), p)))) == Flatten(Keep(TextBlocks(tokens, text), p))
  {
    var lines := SplitLines(text);
    var blocks := TextBlocks(tokens, text);
    SplitIsLineList(text);
    FromHeaderIsSuffix(tokens, lines);
    BlocksHoldLines(tokens, lines);
    LineListIsCut(tokens, blocks);
    KeepCut(tokens, blocks, p);
    CutIsLineList(tokens, Keep(blocks, p));
    SplitConcat(Flatten(Keep(blocks, p)));
    BlocksOfFlatten(tokens, Keep(blocks, p));
  }
}
