/** Python text primitives the repository relies on: whitespace, `str.strip`, `str.splitlines(keepends=True)`
    and the code-point order that `sorted` uses on strings. */
module Text {

  /** `str.isspace` for one character: what `strip` and argument-less `split` remove. */
  predicate IsSpace(c: char) {
    || '\t' <= c <= '\r' || '\U{1c}' <= c <= ' ' || c == '\U{85}' || c == '\U{a0}' || c == '\U{1680}'
    || '\U{2000}' <= c <= '\U{200a}' || c == '\U{2028}' || c == '\U{2029}' || c == '\U{202f}'
    || c == '\U{205f}' || c == '\U{3000}'
  }

  /** The line boundaries of `str.splitlines`. */
  predicate IsBreak(c: char) {
    '\n' <= c <= '\r' || '\U{1c}' <= c <= '\U{1e}' || c == '\U{85}' || c == '\U{2028}' || c == '\U{2029}'
  }

  predicate Blank(s: string) {
    forall i | 0 <= i < |s| :: IsSpace(s[i])
  }

  /** `a or b` */
  function Or(a: string, b: string): string {
    if a != "" then a else b
  }

  // ---------- strip ----------

  function StripLeft(s: string): string {
    if s != "" && IsSpace(s[0]) then StripLeft(s[1..]) else s
  }

  function StripRight(s: string): string {
    if s != "" && IsSpace(s[|s| - 1]) then StripRight(s[..|s| - 1]) else s
  }

  function Strip(s: string): string {
    StripRight(StripLeft(s))
  }

  /** No whitespace at either end. */
  predicate Stripped(s: string) {
    s != "" ==> !IsSpace(s[0]) && !IsSpace(s[|s| - 1])
  }

  lemma StripFixed(s: string)
    requires Stripped(s)
    ensures Strip(s) == s
  {
  }

  lemma {:induction false} StripRightEnds(s: string)
    ensures StripRight(s) <= s
    ensures StripRight(s) != "" ==> !IsSpace(StripRight(s)[|StripRight(s)| - 1])
  {
    if s != "" && IsSpace(s[|s| - 1]) {
      StripRightEnds(s[..|s| - 1]);
    }
  }

  lemma {:induction false} StripLeftStarts(s: string)
    ensures StripLeft(s) != "" ==> !IsSpace(StripLeft(s)[0])
  {
    if s != "" && IsSpace(s[0]) {
      StripLeftStarts(s[1..]);
    }
  }

  lemma StripIsStripped(s: string)
    ensures Stripped(Strip(s))
  {
    StripLeftStarts(s);
    StripRightEnds(StripLeft(s));
  }

  lemma {:induction false} StripBlank(s: string)
    ensures Strip(s) == "" <==> Blank(s)
  {
    if s != "" && IsSpace(s[0]) {
      StripBlank(s[1..]);
      assert Blank(s[1..]) ==> Blank(s) by {
        assert forall i | 1 <= i < |s| :: s[i] == s[1..][i - 1];
      }
    } else if s != "" {
      StripRightKeepsHead(s);
    }
  }

  lemma {:induction false} StripRightKeepsHead(s: string)
    requires s != "" && !IsSpace(s[0])
    ensures StripRight(s) != ""
  {
    if IsSpace(s[|s| - 1]) {
      StripRightKeepsHead(s[..|s| - 1]);
    }
  }

  // ---------- splitlines(keepends=True) ----------

  function FirstLineLength(s: string): (n: nat)
    requires s != ""
    ensures 1 <= n <= |s|
  {
    if IsBreak(s[0]) then
      if s[0] == '\r' && |s| > 1 && s[1] == '\n' then 2 else 1
    else if |s| == 1 then 1
    else 1 + FirstLineLength(s[1..])
  }

  function SplitLines(s: string): seq<string> {
    if s == "" then [] else
    var n := FirstLineLength(s);
    [s[..n]] + SplitLines(s[n..])
  }

  /** `"".join(lines)` */
  function Concat(lines: seq<string>): string {
    if lines == [] then "" else lines[0] + Concat(lines[1..])
  }

  /** Splitting loses nothing. */
  lemma {:induction false} ConcatSplit(s: string)
    ensures Concat(SplitLines(s)) == s
  {
    if s != "" {
      ConcatSplit(s[FirstLineLength(s)..]);
    }
  }

  ghost predicate IsLine(l: string) {
    l != "" && FirstLineLength(l) == |l|
  }

  /** `b` may follow `a`: `a` is terminated, and the pair does not fuse into one CRLF. */
  ghost predicate MayFollow(a: string, b: string) {
    a != "" && IsBreak(a[|a| - 1]) && !(a[|a| - 1] == '\r' && b != "" && b[0] == '\n')
  }

  /** A list of lines `splitlines(keepends=True)` could have returned. */
  ghost predicate IsLineList(lines: seq<string>) {
    && (forall i | 0 <= i < |lines| :: IsLine(lines[i]))
    && (forall i | 0 <= i < |lines| - 1 :: MayFollow(lines[i], lines[i + 1]))
  }

  lemma {:induction false} FirstLineProperties(s: string)
    requires s != ""
    ensures IsLine(s[..FirstLineLength(s)])
    ensures FirstLineLength(s) < |s| ==> MayFollow(s[..FirstLineLength(s)], s[FirstLineLength(s)..])
  {
    var n := FirstLineLength(s);
    if !IsBreak(s[0]) && |s| > 1 {
      FirstLineProperties(s[1..]);
      assert s[..n][1..] == s[1..][..n - 1];
      assert s[n..] == s[1..][n - 1..];
    }
  }

  lemma {:induction false} SplitIsLineList(s: string)
    ensures IsLineList(SplitLines(s))
    ensures s != "" ==> SplitLines(s) != [] && SplitLines(s)[0][0] == s[0]
  {
    if s != "" {
      var n := FirstLineLength(s);
      FirstLineProperties(s);
      SplitIsLineList(s[n..]);
      var rest := SplitLines(s[n..]);
      assert SplitLines(s) == [s[..n]] + rest;
      if rest != [] {
        assert s[n..] != "";
        assert rest[0][0] == s[n..][0];
      }
    }
  }

  lemma {:induction false} FirstLineOfConcat(l: string, rest: string)
    requires IsLine(l) && (rest != "" ==> MayFollow(l, rest))
    ensures FirstLineLength(l + rest) == |l|
  {
    if rest == "" {
      assert l + rest == l;
    } else if !IsBreak(l[0]) {
      assert |l| > 1;
      assert (l + rest)[1..] == l[1..] + rest;
      FirstLineOfConcat(l[1..], rest);
    }
  }

  /** Joining a proper list of lines and splitting again gives the list back. */
  lemma {:induction false} SplitConcat(lines: seq<string>)
    requires IsLineList(lines)
    ensures SplitLines(Concat(lines)) == lines
  {
    if lines != [] {
      var l, rest := lines[0], lines[1..];
      forall i | 0 <= i < |rest| - 1
        ensures MayFollow(rest[i], rest[i + 1])
      {
        var j := i + 1;
        assert MayFollow(lines[j], lines[j + 1]);
      }
      if rest != [] {
        assert MayFollow(lines[0], lines[1]);
        assert Concat(rest)[0] == rest[0][0];
      }
      FirstLineOfConcat(l, Concat(rest));
      SplitConcat(rest);
      assert (l + Concat(rest))[|l|..] == Concat(rest);
    }
  }

  // ---------- code-point order ----------

  predicate Less(a: string, b: string) {
    b != "" && (a == "" || a[0] < b[0] || (a[0] == b[0] && Less(a[1..], b[1..])))
  }

  lemma {:induction false} LessTotal(a: string, b: string)
    ensures !Less(a, a)
    ensures a != b ==> Less(a, b) != Less(b, a)
  {
    if a != "" {
      LessTotal(a[1..], if b != "" then b[1..] else "");
      if b != "" {
        assert a == [a[0]] + a[1..] && b == [b[0]] + b[1..];
      }
    }
  }

  lemma {:induction false} LessTransitive(a: string, b: string, c: string)
    requires Less(a, b) && Less(b, c)
    ensures Less(a, c)
  {
    if a != "" && a[0] == b[0] == c[0] {
      LessTransitive(a[1..], b[1..], c[1..]);
    }
  }

  /** A proper prefix sorts first. */
  lemma {:induction false} PrefixLess(a: string, b: string)
    requires a < b
    ensures Less(a, b)
  {
    if a != "" {
      PrefixLess(a[1..], b[1..]);
    }
  }
}
