/** What block normalization keeps besides the words: the paragraphs and their lines, whatever line endings the text
    uses (repogauge/mining/synthesize.py). */
module BlockMeaning {
  import opened Text
  import opened Words
  import opened BlockText

  // ---------- paragraphs ----------

  /** Runs of lines that are not blank. */
  function Paragraphs(lines: seq<string>): (ps: seq<seq<string>>)
    ensures lines != [] && lines[|lines| - 1] != "" ==> ps != []
  {
    if lines == [] then []
    else
      var n := |lines| - 1;
      var before := Paragraphs(lines[..n]);
      if lines[n] == "" then before
      else if n > 0 && lines[n - 1] != "" then
        assert lines[..n][n - 1] == lines[n - 1];
        before[|before| - 1 := before[|before| - 1] + [lines[n]]]
      else before + [[lines[n]]]
  }

  /** The state of the line machine after some lines. */
  ghost predicate Follows(st: State, lines: seq<string>) {
    && (st.out != [] ==> st.out[|st.out| - 1] != "")
    && (st.out == [] ==> Paragraphs(lines) == [])
    && (st.out != [] && !st.pendingBlank ==> lines != [] && lines[|lines| - 1] != "")
    && (st.out != [] && st.pendingBlank ==> lines != [] && lines[|lines| - 1] == "")
    && (st.out == [] && lines != [] ==> lines[|lines| - 1] == "")
    && Paragraphs(st.out) == Paragraphs(lines)
  }

  lemma ParagraphsAppend(lines: seq<string>, line: string)
    ensures Paragraphs(lines + [line])
         == if line == "" then Paragraphs(lines)
            else if lines != [] && lines[|lines| - 1] != "" then
              Paragraphs(lines)[|Paragraphs(lines)| - 1 := Paragraphs(lines)[|Paragraphs(lines)| - 1] + [line]]
            else Paragraphs(lines) + [[line]]
  {
    assert (lines + [line])[..|lines|] == lines;
  }

  lemma StepFollows(st: State, lines: seq<string>, line: string)
    requires Follows(st, lines)
    ensures Follows(Step(st, line), lines + [line])
  {
    ParagraphsAppend(lines, line);
    if line != "" && st.pendingBlank && st.out != [] {
      ParagraphsAppend(st.out, "");
      ParagraphsAppend(st.out + [""], line);
      assert st.out + ["", line] == st.out + [""] + [line];
    } else if line != "" {
      ParagraphsAppend(st.out, line);
    }
  }

  lemma {:induction false} CollapseFollows(lines: seq<string>)
    ensures Follows(Collapse(lines), lines)
  {
    if lines != [] {
      var n := |lines| - 1;
      CollapseFollows(lines[..n]);
      StepFollows(Collapse(lines[..n]), lines[..n], lines[n]);
      assert lines == lines[..n] + [lines[n]];
    }
  }

  /** Normalizing keeps the paragraphs, each with its lines in order, tidied; only blank lines come and go. */
  lemma ParagraphsKept(s: string)
    ensures Paragraphs(LinesOf(Block(s))) == Paragraphs(TidyAll(RawLines(s)))
  {
    var out := Collapse(TidyAll(RawLines(s))).out;
    CollapseFollows(TidyAll(RawLines(s)));
    OutIsNormal(s);
    if out != [] {
      NormalLinesText(out);
    } else {
      assert LinesOf("") == [""] && [""][..0] == [];
    }
  }

  // ---------- line endings ----------

  /** The text with every LF turned into CRLF, or into CR. */
  function WithCrLf(s: string): string {
    if s == "" then "" else (if s[0] == '\n' then "\r\n" else [s[0]]) + WithCrLf(s[1..])
  }

  function WithCr(s: string): string {
    if s == "" then "" else [if s[0] == '\n' then '\r' else s[0]] + WithCr(s[1..])
  }

  lemma {:induction false} CrLfBack(s: string)
    requires '\r' !in s
    ensures ReplaceCrLf(WithCrLf(s)) == s
  {
    if s != "" {
      var rest := WithCrLf(s[1..]);
      CrLfBack(s[1..]);
      if s[0] == '\n' {
        assert ("\r\n" + rest)[2..] == rest;
      } else {
        assert ([s[0]] + rest)[1..] == rest;
      }
      assert s == [s[0]] + s[1..];
    }
  }

  lemma {:induction false} CrBack(s: string)
    requires '\r' !in s
    ensures '\n' !in WithCr(s) && ReplaceCr(WithCr(s)) == s
  {
    if s != "" {
      CrBack(s[1..]);
      assert ([if s[0] == '\n' then '\r' else s[0]] + WithCr(s[1..]))[1..] == WithCr(s[1..]);
      assert s == [s[0]] + s[1..];
    }
  }

  lemma {:induction false} NoLf(s: string)
    requires '\n' !in s
    ensures ReplaceCrLf(s) == s
  {
    if s != "" {
      NoLf(s[1..]);
      assert |s| > 1 ==> s[1] != '\n';
      assert s == [s[0]] + s[1..];
    }
  }

  /** The same text with LF, CRLF or CR line endings has the same block. */
  lemma LineEndingsAgree(s: string)
    requires '\r' !in s
    ensures Block(WithCrLf(s)) == Block(s) && Block(WithCr(s)) == Block(s)
  {
    CrLfBack(s);
    CrBack(s);
    NoLf(WithCr(s));
    NoCr(s);
  }
}
