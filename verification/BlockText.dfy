/** The text canonicalizers of problem-statement synthesis (repogauge/mining/synthesize.py). Values that are no strings
    become the empty string before they get here. */
module BlockText {
  import opened Text
  import opened Words

  // ---------- lines ----------

  /** `s.replace("\r\n", "\n")` */
  function ReplaceCrLf(s: string): string {
    if s == "" then ""
    else if s[0] == '\r' && |s| > 1 && s[1] == '\n' then "\n" + ReplaceCrLf(s[2..])
    else [s[0]] + ReplaceCrLf(s[1..])
  }

  /** `s.replace("\r", "\n")` */
  function ReplaceCr(s: string): string {
    if s == "" then "" else [if s[0] == '\r' then '\n' else s[0]] + ReplaceCr(s[1..])
  }

  /** `s.split("\n")` when `cur` is the beginning of a line just read. */
  function LinesFrom(s: string, cur: string): (lines: seq<string>)
    ensures lines != []
  {
    if s == "" then [cur]
    else if s[0] == '\n' then [cur] + LinesFrom(s[1..], "")
    else LinesFrom(s[1..], cur + [s[0]])
  }

  function LinesOf(s: string): seq<string> {
    LinesFrom(s, "")
  }

  /** `"\n".join(lines)` */
  function JoinLines(lines: seq<string>): string {
    if lines == [] then "" else if |lines| == 1 then lines[0] else lines[0] + "\n" + JoinLines(lines[1..])
  }

  /** The text lines of any mix of line endings. */
  function RawLines(s: string): seq<string> {
    LinesOf(ReplaceCr(ReplaceCrLf(s)))
  }

  // ---------- one line ----------

  /** `_coerce_text` */
  function Tidy(s: string): string {
    JoinSpace(WordsOf(Strip(s)))
  }

  /** One-line normalization is a normal form: single-spaced, the same words, and nothing else is left unchanged. */
  lemma TidyIsNormal(s: string)
    ensures SingleSpaced(Tidy(s)) && WordsOf(Tidy(s)) == WordsOf(s)
    ensures Tidy(s) == s <==> SingleSpaced(s)
    ensures Tidy(Tidy(s)) == Tidy(s)
  {
    WordsOfStrip(s);
    WordsAreWords(s, "");
    WordsOfJoin(WordsOf(s));
    JoinIsSingleSpaced(WordsOf(s));
    TidyIff(s);
    WordsOfStrip(Tidy(s));
  }

  function TidyAll(lines: seq<string>): (r: seq<string>)
    ensures |r| == |lines| && forall k | 0 <= k < |lines| :: r[k] == Tidy(lines[k])
  {
    if lines == [] then [] else TidyAll(lines[..|lines| - 1]) + [Tidy(lines[|lines| - 1])]
  }

  // ---------- the line machine ----------

  datatype State = State(out: seq<string>, pendingBlank: bool)

  function Step(st: State, line: string): State {
    if line != "" then State(st.out + (if st.pendingBlank && st.out != [] then ["", line] else [line]), false)
    else State(st.out, st.pendingBlank || st.out != [])
  }

  function Collapse(lines: seq<string>): State {
    if lines == [] then State([], false) else Step(Collapse(lines[..|lines| - 1]), lines[|lines| - 1])
  }

  /** `_coerce_block_text` */
  function Block(s: string): string {
    Strip(JoinLines(Collapse(TidyAll(RawLines(s))).out))
  }

  method CoerceBlockText(s: string) returns (text: string)
    ensures text == Block(s)
  {
    var raw := RawLines(s);
    var normalized: seq<string> := [];
    var pendingBlank := false;
    for i := 0 to |raw|
      invariant State(normalized, pendingBlank) == Collapse(TidyAll(raw[..i]))
    {
      CollapseStep(raw, i);
      normalized, pendingBlank := TakeLine(normalized, pendingBlank, Tidy(raw[i]));
    }
    assert raw[..|raw|] == raw;
    text := Strip(JoinLines(normalized));
  }

  /** The body of the loop. */
  method TakeLine(lines: seq<string>, blank: bool, line: string) returns (normalized: seq<string>, pendingBlank: bool)
    ensures State(normalized, pendingBlank) == Step(State(lines, blank), line)
  {
    normalized, pendingBlank := lines, blank;
    if line != "" {
      if pendingBlank && normalized != [] {
        normalized := normalized + [""];
      }
      normalized := normalized + [line];
      pendingBlank := false;
    } else if normalized != [] {
      pendingBlank := true;
    }
  }

  lemma CollapseStep(raw: seq<string>, i: nat)
    requires i < |raw|
    ensures Collapse(TidyAll(raw[..i + 1])) == Step(Collapse(TidyAll(raw[..i])), Tidy(raw[i]))
  {
    var longer := raw[..i + 1];
    assert longer[..i] == raw[..i] && longer[i] == raw[i];
    assert TidyAll(longer) == TidyAll(raw[..i]) + [Tidy(raw[i])];
    assert TidyAll(longer)[..i] == TidyAll(raw[..i]);
  }

  // ---------- the normal form ----------

  /** No two blank lines together and none in front. */
  ghost predicate Spread(lines: seq<string>) {
    && (lines != [] ==> lines[0] != "")
    && (forall i, j | 0 <= i < |lines| && j == i + 1 && j < |lines| :: !(lines[i] == "" && lines[j] == ""))
  }

  ghost predicate NormalLines(lines: seq<string>) {
    && Spread(lines) && (lines != [] ==> lines[|lines| - 1] != "")
    && forall i | 0 <= i < |lines| :: SingleSpaced(lines[i])
  }

  /** The empty text, or single-spaced lines without a blank line at either end or two in a row. */
  ghost predicate Normal(s: string) {
    s == "" || NormalLines(LinesOf(s))
  }

  lemma {:induction false} CollapseIsNormal(lines: seq<string>)
    requires forall i | 0 <= i < |lines| :: SingleSpaced(lines[i])
    ensures NormalLines(Collapse(lines).out)
  {
    if lines != [] {
      var n := |lines| - 1;
      CollapseIsNormal(lines[..n]);
      StepIsNormal(Collapse(lines[..n]), lines[n]);
    }
  }

  lemma StepIsNormal(st: State, line: string)
    requires NormalLines(st.out) && SingleSpaced(line)
    ensures NormalLines(Step(st, line).out)
  {
    var next := Step(st, line).out;
    if line != "" {
      forall i | 0 <= i < |next| ensures SingleSpaced(next[i]) {
      }
      forall i, j | 0 <= i < |next| && j == i + 1 && j < |next| ensures !(next[i] == "" && next[j] == "") {
        assert j < |st.out| ==> next[i] == st.out[i] && next[j] == st.out[j];
      }
    }
  }

  /** On lines already spread, only a last blank line is held back. */
  lemma {:induction false} CollapseOfSpread(lines: seq<string>)
    requires Spread(lines)
    ensures var blank := lines != [] && lines[|lines| - 1] == "";
      Collapse(lines) == State(if blank then lines[..|lines| - 1] else lines, blank)
  {
    if lines != [] {
      var n := |lines| - 1;
      CollapseOfSpread(lines[..n]);
      assert lines == lines[..n] + [lines[n]];
      if n > 0 && lines[n - 1] == "" {
        var m := n - 1;
        assert lines[m] == "" && n == m + 1;
        assert lines[n] != "";
        assert lines[..n][..m] + ["", lines[n]] == lines;
      }
    }
  }

  // ---------- words ----------

  function WordsOfAll(lines: seq<string>): seq<string> {
    if lines == [] then [] else WordsOfAll(lines[..|lines| - 1]) + WordsOf(lines[|lines| - 1])
  }

  lemma {:induction false} WordsOfAllAppend(a: seq<string>, b: seq<string>)
    ensures WordsOfAll(a + b) == WordsOfAll(a) + WordsOfAll(b)
  {
    if b == [] {
      assert a + b == a;
    } else {
      var n := |b| - 1;
      assert (a + b)[..|a| + n] == a + b[..n];
      WordsOfAllAppend(a, b[..n]);
    }
  }

  lemma WordsOfOne(line: string)
    ensures WordsOfAll([line]) == WordsOf(line)
  {
    assert [line][..0] == [];
  }

  lemma {:induction false} WordsOfJoined(lines: seq<string>)
    ensures WordsOf(JoinLines(lines)) == WordsOfAll(lines)
  {
    if lines != [] {
      WordsOfOne(lines[0]);
      if |lines| > 1 {
        WordsSplit(lines[0], '\n', JoinLines(lines[1..]), "");
        WordsOfJoined(lines[1..]);
        assert lines == [lines[0]] + lines[1..];
        WordsOfAllAppend([lines[0]], lines[1..]);
      } else {
        assert lines == [lines[0]];
      }
    }
  }

  lemma {:induction false} JoinOfLines(s: string, cur: string)
    ensures JoinLines(LinesFrom(s, cur)) == cur + s
  {
    if s == "" {
      assert cur + s == cur;
    } else if s[0] == '\n' {
      JoinOfLines(s[1..], "");
      assert ([cur] + LinesFrom(s[1..], ""))[1..] == LinesFrom(s[1..], "");
      assert cur + "\n" + ("" + s[1..]) == cur + s;
    } else {
      JoinOfLines(s[1..], cur + [s[0]]);
      assert cur + [s[0]] + s[1..] == cur + s;
    }
  }

  lemma {:induction false} WordsIgnoreCrLf(s: string, cur: string)
    ensures WordsFrom(ReplaceCrLf(s), cur) == WordsFrom(s, cur)
  {
    if s != "" {
      if s[0] == '\r' && |s| > 1 && s[1] == '\n' {
        WordsIgnoreCrLf(s[2..], "");
        assert s[1..][1..] == s[2..];
        assert WordsFrom(s[1..], "") == [] + WordsFrom(s[2..], "");
        assert ("\n" + ReplaceCrLf(s[2..]))[1..] == ReplaceCrLf(s[2..]);
      } else {
        WordsIgnoreCrLf(s[1..], if IsSpace(s[0]) then "" else cur + [s[0]]);
        assert ([s[0]] + ReplaceCrLf(s[1..]))[1..] == ReplaceCrLf(s[1..]);
      }
    }
  }

  lemma {:induction false} WordsIgnoreCr(s: string, cur: string)
    ensures WordsFrom(ReplaceCr(s), cur) == WordsFrom(s, cur)
  {
    if s != "" {
      WordsIgnoreCr(s[1..], if IsSpace(s[0]) then "" else cur + [s[0]]);
      assert ReplaceCr(s)[1..] == ReplaceCr(s[1..]);
    }
  }

  lemma WordsOfRawLines(s: string)
    ensures WordsOfAll(RawLines(s)) == WordsOf(s)
  {
    var t := ReplaceCr(ReplaceCrLf(s));
    WordsIgnoreCrLf(s, "");
    WordsIgnoreCr(ReplaceCrLf(s), "");
    JoinOfLines(t, "");
    WordsOfJoined(RawLines(s));
    assert "" + t == t;
  }

  lemma {:induction false} WordsOfCollapse(lines: seq<string>)
    ensures WordsOfAll(Collapse(lines).out) == WordsOfAll(lines)
  {
    if lines != [] {
      var n := |lines| - 1;
      WordsOfCollapse(lines[..n]);
      WordsOfStep(Collapse(lines[..n]), lines[n]);
    }
  }

  lemma WordsOfStep(st: State, line: string)
    ensures WordsOfAll(Step(st, line).out) == WordsOfAll(st.out) + WordsOf(line)
  {
    WordsOfOne(line);
    WordsOfOne("");
    if line != "" {
      WordsOfAllAppend(st.out, [line]);
      if st.pendingBlank && st.out != [] {
        assert ["", line] == [""] + [line];
        WordsOfAllAppend([""], [line]);
        WordsOfAllAppend(st.out, ["", line]);
      }
    }
  }

  lemma {:induction false} WordsOfTidied(lines: seq<string>)
    ensures WordsOfAll(TidyAll(lines)) == WordsOfAll(lines)
  {
    if lines != [] {
      var n := |lines| - 1;
      WordsOfTidied(lines[..n]);
      TidyIsNormal(lines[n]);
      assert TidyAll(lines)[..n] == TidyAll(lines[..n]);
    }
  }

  // ---------- back from text to lines ----------

  lemma {:induction false} LinesOfLine(l: string, cur: string)
    requires '\n' !in l
    ensures LinesFrom(l, cur) == [cur + l]
  {
    if l == "" {
      assert cur + l == cur;
    } else {
      LinesOfLine(l[1..], cur + [l[0]]);
      assert cur + [l[0]] + l[1..] == cur + l;
    }
  }

  lemma {:induction false} LinesOfBreak(l: string, rest: string, cur: string)
    requires '\n' !in l
    ensures LinesFrom(l + "\n" + rest, cur) == [cur + l] + LinesOf(rest)
  {
    var s := l + "\n" + rest;
    if l == "" {
      assert s[1..] == rest && cur + l == cur;
    } else {
      assert s[1..] == l[1..] + "\n" + rest;
      LinesOfBreak(l[1..], rest, cur + [l[0]]);
      assert cur + [l[0]] + l[1..] == cur + l;
    }
  }

  lemma {:induction false} LinesOfJoin(lines: seq<string>)
    requires lines != [] && forall i | 0 <= i < |lines| :: '\n' !in lines[i]
    ensures LinesOf(JoinLines(lines)) == lines
  {
    assert "" + lines[0] == lines[0];
    if |lines| == 1 {
      LinesOfLine(lines[0], "");
    } else {
      LinesOfBreak(lines[0], JoinLines(lines[1..]), "");
      LinesOfJoin(lines[1..]);
    }
  }

  lemma {:induction false} NoCr(s: string)
    requires '\r' !in s
    ensures ReplaceCrLf(s) == s && ReplaceCr(s) == s
  {
    if s != "" {
      assert s[0] != '\r';
      NoCr(s[1..]);
      assert s == [s[0]] + s[1..];
    }
  }

  lemma {:induction false} NoCrInJoin(lines: seq<string>)
    requires forall i | 0 <= i < |lines| :: '\r' !in lines[i]
    ensures '\r' !in JoinLines(lines)
  {
    if |lines| > 1 {
      NoCrInJoin(lines[1..]);
    }
  }

  lemma SingleSpacedIsLine(l: string)
    requires SingleSpaced(l)
    ensures '\n' !in l && '\r' !in l
  {
    forall i | 0 <= i < |l| ensures l[i] != '\n' && l[i] != '\r' {
      if IsSpace(l[i]) {
        assert l[i] == ' ';
      }
    }
  }

  /** Normal lines survive joining: the text has them as its raw lines and no whitespace at the ends. */
  lemma NormalLinesText(lines: seq<string>)
    requires NormalLines(lines) && lines != []
    ensures RawLines(JoinLines(lines)) == LinesOf(JoinLines(lines)) == lines
    ensures Strip(JoinLines(lines)) == JoinLines(lines)
  {
    forall i | 0 <= i < |lines| ensures '\n' !in lines[i] && '\r' !in lines[i] {
      SingleSpacedIsLine(lines[i]);
    }
    LinesOfJoin(lines);
    NoCrInJoin(lines);
    NoCr(JoinLines(lines));
    JoinEnds(lines);
    StripFixed(JoinLines(lines));
  }

  lemma {:induction false} JoinEnds(lines: seq<string>)
    requires lines != [] && lines[0] != "" && lines[|lines| - 1] != ""
    ensures JoinLines(lines) != "" && JoinLines(lines)[0] == lines[0][0]
    ensures var last := lines[|lines| - 1]; JoinLines(lines)[|JoinLines(lines)| - 1] == last[|last| - 1]
  {
    if |lines| > 1 {
      var rest := lines[1..];
      JoinLast(rest);
      assert JoinLines(lines) == lines[0] + "\n" + JoinLines(rest);
    }
  }

  lemma {:induction false} JoinLast(lines: seq<string>)
    requires lines != [] && lines[|lines| - 1] != ""
    ensures JoinLines(lines) != ""
    ensures var last := lines[|lines| - 1]; JoinLines(lines)[|JoinLines(lines)| - 1] == last[|last| - 1]
  {
    if |lines| > 1 {
      JoinLast(lines[1..]);
    }
  }

  // ---------- main results ----------

  lemma OutIsNormal(s: string)
    ensures NormalLines(Collapse(TidyAll(RawLines(s))).out)
  {
    var lines := TidyAll(RawLines(s));
    forall i | 0 <= i < |lines| ensures SingleSpaced(lines[i]) {
      TidyIsNormal(RawLines(s)[i]);
    }
    CollapseIsNormal(lines);
  }

  /** The result is in normal form and keeps exactly the input's words, whatever line endings the input mixes. */
  lemma BlockIsNormal(s: string)
    ensures Normal(Block(s)) && WordsOf(Block(s)) == WordsOf(s)
  {
    var raw := RawLines(s);
    var out := Collapse(TidyAll(raw)).out;
    OutIsNormal(s);
    if out != [] {
      NormalLinesText(out);
    }
    WordsOfRawLines(s);
    WordsOfTidied(raw);
    WordsOfCollapse(TidyAll(raw));
    WordsOfJoined(out);
  }

  /** The texts left unchanged are exactly the normal ones; so normalization is idempotent. */
  lemma BlockFixedIff(s: string)
    ensures Block(s) == s <==> Normal(s)
  {
    BlockIsNormal(s);
    if s == "" {
      BlockOfEmpty();
    } else if Normal(s) {
      NormalIsFixed(s);
    }
  }

  lemma BlockOfEmpty()
    ensures Block("") == ""
  {
    assert RawLines("") == [""];
    assert TidyAll([""]) == [""] by {
      TidyIsNormal("");
      assert SingleSpaced("");
    }
    assert [""][..0] == [];
    assert Collapse([""]) == State([], false);
  }

  lemma NormalIsFixed(s: string)
    requires s != "" && NormalLines(LinesOf(s))
    ensures Block(s) == s
  {
    var lines := LinesOf(s);
    JoinOfLines(s, "");
    assert "" + s == s;
    NormalLinesText(lines);
    forall i | 0 <= i < |lines| ensures Tidy(lines[i]) == lines[i] {
      TidyIsNormal(lines[i]);
    }
    assert TidyAll(lines) == lines;
    CollapseOfSpread(lines);
  }

  lemma BlockIdempotent(s: string)
    ensures Block(Block(s)) == Block(s)
  {
    BlockIsNormal(s);
    BlockFixedIff(Block(s));
  }

  // ---------- unique values ----------

  /** `_unique_preserve`, as a function of the prefix: the first of each tidied text. */
  function Firsts(values: seq<string>): seq<string> {
    if values == [] then []
    else
      var before := Firsts(values[..|values| - 1]);
      var text := Tidy(values[|values| - 1]);
      if text == "" || text in before then before else before + [text]
  }

  method UniquePreserve(values: seq<string>) returns (items: seq<string>)
    ensures items == Firsts(values)
  {
    items := [];
    var seen: set<string> := {};
    for i := 0 to |values|
      invariant items == Firsts(values[..i]) && forall text :: text in seen <==> text in items
    {
      assert values[..i + 1][..i] == values[..i];
      var text := Tidy(values[i]);
      if text == "" || text in seen {
        continue;
      }
      seen := seen + {text};
      items := items + [text];
    }
    assert values[..|values|] == values;
  }

  /** Value k is the first whose tidied text this is. */
  ghost predicate FirstAt(values: seq<string>, k: int, text: string) {
    0 <= k < |values| && Tidy(values[k]) == text && forall m | 0 <= m < k :: Tidy(values[m]) != text
  }

  ghost predicate AppearsBefore(values: seq<string>, a: string, b: string) {
    exists j, k :: j < k && FirstAt(values, j, a) && FirstAt(values, k, b)
  }

  /** Each non-empty text once, in order of first appearance, and nothing else. */
  lemma {:induction false} FirstsInOrder(values: seq<string>)
    ensures forall text :: text in Firsts(values) <==> text != "" && exists k :: FirstAt(values, k, text)
    ensures forall i, j | 0 <= i < j < |Firsts(values)| :: AppearsBefore(values, Firsts(values)[i], Firsts(values)[j])
  {
    if values != [] {
      var n := |values| - 1;
      var shorter, last := values[..n], Tidy(values[n]);
      FirstsInOrder(shorter);
      forall k, text | FirstAt(shorter, k, text) ensures FirstAt(values, k, text) {
      }
      forall k, text | FirstAt(values, k, text) && k < n ensures FirstAt(shorter, k, text) {
      }
      FirstExists(values, n);
      forall i, j | 0 <= i < j < |Firsts(shorter)|
        ensures AppearsBefore(values, Firsts(shorter)[i], Firsts(shorter)[j])
      {
        assert AppearsBefore(shorter, Firsts(shorter)[i], Firsts(shorter)[j]);
        var p, q :| p < q && FirstAt(shorter, p, Firsts(shorter)[i]) && FirstAt(shorter, q, Firsts(shorter)[j]);
        assert FirstAt(values, p, Firsts(shorter)[i]) && FirstAt(values, q, Firsts(shorter)[j]);
      }
      if last != "" && last !in Firsts(shorter) {
        assert FirstAt(values, n, last);
        forall i | 0 <= i < |Firsts(shorter)| ensures AppearsBefore(values, Firsts(shorter)[i], last) {
          assert Firsts(shorter)[i] in Firsts(shorter);
        }
      }
    }
  }

  lemma {:induction false} FirstExists(values: seq<string>, n: nat)
    requires n < |values|
    ensures exists k :: k <= n && FirstAt(values, k, Tidy(values[n]))
    decreases n
  {
    var text := Tidy(values[n]);
    if m :| 0 <= m < n && Tidy(values[m]) == text {
      FirstExists(values, m);
    } else {
      assert FirstAt(values, n, text);
    }
  }
}
