/** `str.split()` and `" ".join(...)`: words and single-spaced text. */
module Words {
  import opened Text

  function Flush(cur: string): seq<string> {
    if cur == "" then [] else [cur]
  }

  /** The words of s when `cur` is the beginning of a word just read. */
  function WordsFrom(s: string, cur: string): seq<string> {
    if s == "" then Flush(cur)
    else if IsSpace(s[0]) then Flush(cur) + WordsFrom(s[1..], "")
    else WordsFrom(s[1..], cur + [s[0]])
  }

  /** `s.split()` */
  function WordsOf(s: string): seq<string> {
    WordsFrom(s, "")
  }

  /** `" ".join(words)` */
  function JoinSpace(words: seq<string>): string {
    if words == [] then "" else if |words| == 1 then words[0] else words[0] + " " + JoinSpace(words[1..])
  }

  predicate NoSpace(s: string) {
    forall i | 0 <= i < |s| :: !IsSpace(s[i])
  }

  ghost predicate AreWords(words: seq<string>) {
    forall i | 0 <= i < |words| :: words[i] != "" && NoSpace(words[i])
  }

  lemma {:induction false} WordsAreWords(s: string, cur: string)
    requires NoSpace(cur)
    ensures AreWords(WordsFrom(s, cur))
  {
    if s != "" {
      WordsAreWords(s[1..], if IsSpace(s[0]) then "" else cur + [s[0]]);
    }
  }

  /** A whitespace character separates: the words around it are those of the two sides. */
  lemma {:induction false} WordsSplit(a: string, c: char, b: string, cur: string)
    requires IsSpace(c)
    ensures WordsFrom(a + [c] + b, cur) == WordsFrom(a, cur) + WordsOf(b)
  {
    var s := a + [c] + b;
    if a == "" {
      assert s[1..] == b;
    } else {
      assert s[1..] == a[1..] + [c] + b;
      WordsSplit(a[1..], c, b, if IsSpace(a[0]) then "" else cur + [a[0]]);
    }
  }

  lemma {:induction false} WordsOfWord(w: string, cur: string)
    requires NoSpace(w)
    ensures WordsFrom(w, cur) == Flush(cur + w)
  {
    if w == "" {
      assert cur + w == cur;
    } else {
      WordsOfWord(w[1..], cur + [w[0]]);
      assert cur + [w[0]] + w[1..] == cur + w;
    }
  }

  /** Joining and splitting again gives the words back. */
  lemma {:induction false} WordsOfJoin(words: seq<string>)
    requires AreWords(words)
    ensures WordsOf(JoinSpace(words)) == words
  {
    if words != [] {
      WordsOfWord(words[0], "");
      assert "" + words[0] == words[0];
      if |words| > 1 {
        WordsSplit(words[0], ' ', JoinSpace(words[1..]), "");
        WordsOfJoin(words[1..]);
        assert words == [words[0]] + words[1..];
      }
    }
  }

  /** No whitespace at the ends, none but blanks inside, and no two of them together. */
  predicate SingleSpaced(s: string) {
    && Stripped(s)
    && (forall i | 0 <= i < |s| && IsSpace(s[i]) :: s[i] == ' ')
    && (forall i, j | 0 <= i < |s| && j == i + 1 && j < |s| :: !(IsSpace(s[i]) && IsSpace(s[j])))
  }

  /** Text is single-spaced exactly when splitting and joining it changes nothing. */
  lemma TidyIff(s: string)
    ensures JoinSpace(WordsOf(s)) == s <==> SingleSpaced(s)
  {
    WordsAreWords(s, "");
    JoinIsSingleSpaced(WordsOf(s));
    if SingleSpaced(s) {
      assert "" + s == s;
      JoinOfSingleSpaced(s, "");
    }
  }

  lemma {:induction false} JoinIsSingleSpaced(words: seq<string>)
    requires AreWords(words)
    ensures SingleSpaced(JoinSpace(words)) && (words != [] ==> JoinSpace(words) != "")
  {
    if words != [] {
      var w := words[0];
      assert w != "" && !IsSpace(w[0]) && !IsSpace(w[|w| - 1]);
      if |words| > 1 {
        var rest := JoinSpace(words[1..]);
        JoinIsSingleSpaced(words[1..]);
        var all := w + " " + rest;
        assert all[|all| - 1] == rest[|rest| - 1];
        forall i, j | 0 <= i < |all| && j == i + 1 && j < |all| ensures !(IsSpace(all[i]) && IsSpace(all[j])) {
          if i > |w| {
            assert all[i] == rest[i - |w| - 1] && all[j] == rest[j - |w| - 1];
          }
        }
      }
    }
  }

  lemma {:induction false} JoinOfSingleSpaced(s: string, cur: string)
    requires NoSpace(cur) && SingleSpaced(cur + s)
    ensures JoinSpace(WordsFrom(s, cur)) == cur + s
    decreases |s|
  {
    if s == "" {
      assert cur + s == cur;
    } else if IsSpace(s[0]) {
      AfterSpace(s, cur);
      assert "" + s[1..] == s[1..];
      JoinOfSingleSpaced(s[1..], "");
      JoinAcrossSpace(s, cur);
    } else {
      assert cur + [s[0]] + s[1..] == cur + s;
      JoinOfSingleSpaced(s[1..], cur + [s[0]]);
    }
  }

  lemma JoinAcrossSpace(s: string, cur: string)
    requires cur != "" && |s| > 1 && s[0] == ' ' && !IsSpace(s[1])
    requires JoinSpace(WordsOf(s[1..])) == s[1..]
    ensures JoinSpace(WordsFrom(s, cur)) == cur + s
  {
    WordsNotEmpty(s[1..], "");
    JoinCons(cur, WordsOf(s[1..]));
    assert cur + " " + s[1..] == cur + s;
  }

  lemma JoinCons(w: string, words: seq<string>)
    requires words != []
    ensures JoinSpace([w] + words) == w + " " + JoinSpace(words)
  {
    assert ([w] + words)[1..] == words;
  }

  lemma AfterSpace(s: string, cur: string)
    requires SingleSpaced(cur + s) && s != "" && IsSpace(s[0])
    ensures cur != "" && s[0] == ' ' && |s| > 1 && !IsSpace(s[1]) && SingleSpaced(s[1..])
  {
    var all := cur + s;
    assert all[|cur|] == s[0] && all[|all| - 1] == s[|s| - 1];
    assert |s| > 1 ==> all[|cur| + 1] == s[1];
    var k := |cur| + 1;
    assert |s| > 1 ==> all[k..] == s[1..];
    RestSingleSpaced(all, k);
  }

  lemma RestSingleSpaced(s: string, k: nat)
    requires SingleSpaced(s) && k < |s| && !IsSpace(s[k])
    ensures SingleSpaced(s[k..])
  {
    var rest := s[k..];
    forall i, j | 0 <= i < |rest| && j == i + 1 && j < |rest| ensures !(IsSpace(rest[i]) && IsSpace(rest[j])) {
      assert rest[i] == s[k + i] && rest[j] == s[k + j];
    }
  }

  lemma {:induction false} WordsNotEmpty(s: string, cur: string)
    requires cur != "" || (s != "" && !IsSpace(s[0]))
    ensures WordsFrom(s, cur) != []
  {
    if s != "" && !IsSpace(s[0]) {
      WordsNotEmpty(s[1..], cur + [s[0]]);
    }
  }

  /** Outer whitespace does not matter to `split`. */
  lemma {:induction false} WordsOfStripLeft(s: string)
    ensures WordsOf(StripLeft(s)) == WordsOf(s)
  {
    if s != "" && IsSpace(s[0]) {
      WordsOfStripLeft(s[1..]);
    }
  }

  lemma {:induction false} WordsOfStripRight(s: string)
    ensures WordsOf(StripRight(s)) == WordsOf(s)
  {
    if s != "" && IsSpace(s[|s| - 1]) {
      var t := s[..|s| - 1];
      WordsOfStripRight(t);
      assert s == t + [s[|s| - 1]] + "";
      WordsSplit(t, s[|s| - 1], "", "");
    }
  }

  lemma WordsOfStrip(s: string)
    ensures WordsOf(Strip(s)) == WordsOf(s)
  {
    WordsOfStripLeft(s);
    WordsOfStripRight(StripLeft(s));
  }
}
