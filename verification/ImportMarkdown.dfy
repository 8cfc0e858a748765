/** Reading the import markdown (scripts/repair_imported_bead_dependencies.py): a parser that drives one index through
    nested loops. Each line is classified once; the classes are told apart by their prefixes. */
module ImportMarkdown {
  import opened Wrappers
  import opened Text

  datatype Issue = Issue(id: string, title: string, deps: seq<string>)

  /** A Python dictionary of issues by id: ids in order of first appearance. */
  datatype Dict = Dict(order: seq<string>, issues: map<string, Issue>)

  datatype Line = Heading(title: string) | Id(id: string) | Dependencies | Bullet(dep: string) | Empty | Other

  function Classify(l: string): Line {
    if "## " <= l then Heading(Strip(l[3..]))
    else if "### ID " <= l then Id(Strip(l[7..]))
    else if "### Dependencies" <= l then Dependencies
    else if "- " <= l then Bullet(Strip(l[2..]))
    else if Strip(l) == "" then Empty
    else Other
  }

  function SetIssue(d: Dict, issue: Issue): Dict {
    Dict(if issue.id in d.issues then d.order else d.order + [issue.id], d.issues[issue.id := issue])
  }

  // ---------- the parser as functions of the index ----------

  function SkipEmpty(lines: seq<Line>, i: nat): (j: nat)
    requires i <= |lines|
    ensures i <= j <= |lines|
    ensures forall k | i <= k < j :: lines[k] == Empty
    decreases |lines| - i
  {
    if i < |lines| && lines[i] == Empty then SkipEmpty(lines, i + 1) else i
  }

  function ReadBullets(lines: seq<Line>, i: nat, deps: seq<string>): (r: (seq<string>, nat))
    requires i <= |lines|
    ensures i <= r.1 <= |lines|
    ensures forall k | i <= k < r.1 :: lines[k].Bullet?
    decreases |lines| - i
  {
    if i < |lines| && lines[i].Bullet? then ReadBullets(lines, i + 1, deps + [lines[i].dep]) else (deps, i)
  }

  datatype Section = Section(id: Option<string>, deps: seq<string>)

  /** The body of a section, from line i to the next heading. */
  function ReadSection(lines: seq<Line>, i: nat, s: Section): (r: (Section, nat))
    requires i <= |lines|
    ensures i <= r.1 <= |lines| && (r.1 < |lines| ==> lines[r.1].Heading?)
    decreases |lines| - i
  {
    if i == |lines| || lines[i].Heading? then (s, i)
    else if lines[i].Id? then ReadSection(lines, i + 1, s.(id := Some(lines[i].id)))
    else if lines[i].Dependencies? then
      var (deps, j) := ReadBullets(lines, SkipEmpty(lines, i + 1), s.deps);
      ReadSection(lines, j, s.(deps := deps))
    else ReadSection(lines, i + 1, s)
  }

  function ParseFrom(lines: seq<Line>, i: nat, d: Dict): Result<Dict, string>
    requires i <= |lines|
    decreases |lines| - i
  {
    if i == |lines| then Ok(d)
    else if !lines[i].Heading? then ParseFrom(lines, i + 1, d)
    else
      var (s, j) := ReadSection(lines, i + 1, Section(None, []));
      if s.id == None then Err(lines[i].title)
      else ParseFrom(lines, j, SetIssue(d, Issue(s.id.value, lines[i].title, s.deps)))
  }

  /** The inner loops of `parse_import_markdown`: the lines of one section. */
  method ParseSection(lines: seq<Line>, start: nat) returns (oldId: Option<string>, deps: seq<string>, i: nat)
    requires start <= |lines|
    ensures (Section(oldId, deps), i) == ReadSection(lines, start, Section(None, []))
  {
    oldId, deps, i := None, [], start;
    while i < |lines| && !lines[i].Heading?
      invariant start <= i <= |lines|
      invariant ReadSection(lines, i, Section(oldId, deps)) == ReadSection(lines, start, Section(None, []))
    {
      if lines[i].Id? {
        oldId := Some(lines[i].id);
      } else if lines[i].Dependencies? {
        deps, i := ParseList(lines, i, deps);
        continue;
      }
      i := i + 1;
    }
  }

  method ParseList(lines: seq<Line>, header: nat, before: seq<string>) returns (deps: seq<string>, i: nat)
    requires header < |lines|
    ensures (deps, i) == ReadBullets(lines, SkipEmpty(lines, header + 1), before)
  {
    deps, i := before, header + 1;
    while i < |lines| && lines[i] == Empty
      invariant header < i <= |lines| && SkipEmpty(lines, i) == SkipEmpty(lines, header + 1)
    {
      i := i + 1;
    }
    while i < |lines| && lines[i].Bullet?
      invariant header < i <= |lines|
      invariant ReadBullets(lines, i, deps) == ReadBullets(lines, SkipEmpty(lines, header + 1), before)
    {
      deps := deps + [lines[i].dep];
      i := i + 1;
    }
  }

  /** `parse_import_markdown`; the error names the title of a section without an id. */
  method Parse(lines: seq<Line>) returns (r: Result<Dict, string>)
    ensures r == ParseFrom(lines, 0, Dict([], map[]))
  {
    var imported := Dict([], map[]);
    var i := 0;
    while i < |lines|
      invariant i <= |lines| && ParseFrom(lines, i, imported) == ParseFrom(lines, 0, Dict([], map[]))
      decreases |lines| - i
    {
      if !lines[i].Heading? {
        i := i + 1;
        continue;
      }
      var title := lines[i].title;
      var oldId, deps, next := ParseSection(lines, i + 1);
      if oldId == None {
        return Err(title);
      }
      imported := SetIssue(imported, Issue(oldId.value, title, deps));
      i := next;
    }
    r := Ok(imported);
  }

  // ---------- when parsing fails ----------

  /** Section s (its heading is line s) has an id line before the next heading. */
  ghost predicate HasId(lines: seq<Line>, s: int) {
    exists k :: InSection(lines, s, k) && lines[k].Id?
  }

  ghost predicate InSection(lines: seq<Line>, s: int, k: int) {
    0 <= s < k < |lines| && forall m | s < m <= k :: !lines[m].Heading?
  }

  lemma {:induction false} SectionReading(lines: seq<Line>, i: nat, s: Section)
    requires i <= |lines|
    ensures var r := ReadSection(lines, i, s);
      && (forall k | i <= k < r.1 :: !lines[k].Heading?)
      && (r.0.id.Some? <==> s.id.Some? || exists k :: i <= k < r.1 && lines[k].Id?)
    decreases |lines| - i
  {
    if i < |lines| && !lines[i].Heading? {
      if lines[i].Dependencies? {
        var e := SkipEmpty(lines, i + 1);
        var (deps, j) := ReadBullets(lines, e, s.deps);
        SectionReading(lines, j, s.(deps := deps));
        assert forall k | i <= k < j :: !lines[k].Heading? && !lines[k].Id?;
      } else {
        SectionReading(lines, i + 1, if lines[i].Id? then s.(id := Some(lines[i].id)) else s);
      }
    }
  }

  /** Parsing fails exactly when some section has no id line: the nested loops swallow no heading and no id. */
  lemma {:induction false} FailsIff(lines: seq<Line>, i: nat, d: Dict)
    requires i <= |lines|
    ensures ParseFrom(lines, i, d).Err?
            <==> exists s :: i <= s < |lines| && lines[s].Heading? && !HasId(lines, s)
    decreases |lines| - i
  {
    if i < |lines| {
      if !lines[i].Heading? {
        FailsIff(lines, i + 1, d);
      } else {
        var (s, j) := ReadSection(lines, i + 1, Section(None, []));
        SectionHasId(lines, i);
        if s.id.Some? {
          FailsIff(lines, j, SetIssue(d, Issue(s.id.value, lines[i].title, s.deps)));
          SectionReading(lines, i + 1, Section(None, []));
          assert forall k | i < k < j :: !lines[k].Heading?;
        }
      }
    }
  }

  lemma SectionHasId(lines: seq<Line>, i: nat)
    requires i < |lines| && lines[i].Heading?
    ensures ReadSection(lines, i + 1, Section(None, [])).0.id.Some? <==> HasId(lines, i)
  {
    var (s, j) := ReadSection(lines, i + 1, Section(None, []));
    SectionReading(lines, i + 1, Section(None, []));
    if s.id.Some? {
      var k :| i + 1 <= k < j && lines[k].Id?;
      assert InSection(lines, i, k);
    }
    if HasId(lines, i) {
      var k :| InSection(lines, i, k) && lines[k].Id?;
      assert k < j;
    }
  }

  // ---------- rendering ----------

  /** An issue as written: other lines may stand before and after the id, empty lines before the list, and any lines
      but list items behind it. */
  datatype Layout = Layout(issue: Issue, before: seq<string>, between: seq<string>, gap: seq<string>,
                           after: seq<string>)

  predicate Filler(l: string) {
    !("## " <= l) && !("### ID " <= l) && !("### Dependencies" <= l) && !("- " <= l)
  }

  ghost predicate WellFormed(s: Layout) {
    && Stripped(s.issue.id) && Stripped(s.issue.title)
    && (forall k | 0 <= k < |s.issue.deps| :: Stripped(s.issue.deps[k]))
    && (forall k | 0 <= k < |s.before| :: Filler(s.before[k]))
    && (forall k | 0 <= k < |s.between| :: Filler(s.between[k]))
    && (forall k | 0 <= k < |s.gap| :: Blank(s.gap[k]))
    && (forall k | 0 <= k < |s.after| :: Filler(s.after[k]))
  }

  function Bullets(deps: seq<string>): seq<string> {
    if deps == [] then [] else ["- " + deps[0]] + Bullets(deps[1..])
  }

  function Render(s: Layout): seq<string> {
    ["## " + s.issue.title] + s.before + ["### ID " + s.issue.id] + s.between + ["### Dependencies"] + s.gap
    + Bullets(s.issue.deps) + s.after
  }

  function RenderAll(layouts: seq<Layout>): seq<string> {
    if layouts == [] then [] else Render(layouts[0]) + RenderAll(layouts[1..])
  }

  function ClassifyAll(lines: seq<string>): (r: seq<Line>)
    ensures |r| == |lines| && forall k | 0 <= k < |lines| :: r[k] == Classify(lines[k])
  {
    if lines == [] then [] else [Classify(lines[0])] + ClassifyAll(lines[1..])
  }

  /** The dictionary the issues make when entered one after the other. */
  function Entered(layouts: seq<Layout>, d: Dict): Dict {
    if layouts == [] then d else Entered(layouts[1..], SetIssue(d, layouts[0].issue))
  }

  // ---------- round trip ----------

  lemma ClassifyHeading(title: string)
    requires Stripped(title)
    ensures Classify("## " + title) == Heading(title)
  {
    var l := "## " + title;
    assert l[..3] == "## " && l[3..] == title;
    StripFixed(title);
  }

  lemma ClassifyId(id: string)
    requires Stripped(id)
    ensures Classify("### ID " + id) == Id(id)
  {
    var l := "### ID " + id;
    assert l[..7] == "### ID " && l[7..] == id && l[2] == '#';
    StripFixed(id);
  }

  lemma ClassifyBullet(dep: string)
    requires Stripped(dep)
    ensures Classify("- " + dep) == Bullet(dep)
  {
    var l := "- " + dep;
    assert l[..2] == "- " && l[2..] == dep && l[0] == '-';
    StripFixed(dep);
  }

  lemma ClassifyHeader()
    ensures Classify("### Dependencies") == Dependencies
  {
    var l := "### Dependencies";
    assert l[2] == '#' && l[4] == 'D' && l[..16] == l;
  }

  lemma ClassifyBlank(l: string)
    requires Blank(l)
    ensures Classify(l) == Empty
  {
    StripBlank(l);
    assert l == "" || IsSpace(l[0]);
  }

  lemma ClassifyFiller(l: string)
    requires Filler(l)
    ensures Classify(l) in {Empty, Other}
  {
  }

  ghost predicate Quiet(lines: seq<Line>, i: int, j: int) {
    0 <= i <= j <= |lines| && forall k | i <= k < j :: lines[k] == Empty || lines[k] == Other
  }

  /** Filler lines are passed over. */
  lemma {:induction false} SkipQuiet(lines: seq<Line>, i: nat, j: nat, s: Section)
    requires Quiet(lines, i, j)
    ensures ReadSection(lines, i, s) == ReadSection(lines, j, s)
    decreases j - i
  {
    if i < j {
      SkipQuiet(lines, i + 1, j, s);
    }
  }

  lemma {:induction false} SkipGap(lines: seq<Line>, i: nat, j: nat)
    requires i <= j <= |lines| && forall k | i <= k < j :: lines[k] == Empty
    ensures SkipEmpty(lines, i) == SkipEmpty(lines, j)
    decreases j - i
  {
    if i < j {
      SkipGap(lines, i + 1, j);
    }
  }

  ghost predicate BulletsAt(lines: seq<Line>, i: int, deps: seq<string>) {
    0 <= i && i + |deps| <= |lines| && forall k | 0 <= k < |deps| :: lines[i + k] == Bullet(deps[k])
  }

  lemma {:induction false} ReadsBullets(lines: seq<Line>, i: nat, deps: seq<string>, acc: seq<string>)
    requires BulletsAt(lines, i, deps)
    requires i + |deps| == |lines| || !lines[i + |deps|].Bullet?
    ensures ReadBullets(lines, i, acc) == (acc + deps, i + |deps|)
    decreases |deps|
  {
    if deps == [] {
      assert acc + deps == acc;
    } else {
      assert lines[i + 0] == Bullet(deps[0]);
      forall k | 0 <= k < |deps[1..]| ensures lines[i + 1 + k] == Bullet(deps[1..][k]) {
        assert lines[i + (k + 1)] == Bullet(deps[k + 1]);
      }
      ReadsBullets(lines, i + 1, deps[1..], acc + [deps[0]]);
      assert acc + [deps[0]] + deps[1..] == acc + deps;
    }
  }

  /** Where the parts of a section lie: heading at i, id at a, list header at b, list at c, rest up to e. */
  ghost predicate LaidOut(lines: seq<Line>, i: nat, a: nat, b: nat, c: nat, e: nat, issue: Issue) {
    && i < a < b < c <= c + |issue.deps| <= e <= |lines|
    && lines[i] == Heading(issue.title) && lines[a] == Id(issue.id) && lines[b] == Dependencies
    && Quiet(lines, i + 1, a) && Quiet(lines, a + 1, b) && Quiet(lines, c + |issue.deps|, e)
    && (forall k | b < k < c :: lines[k] == Empty)
    && BulletsAt(lines, c, issue.deps)
    && (e < |lines| ==> lines[e].Heading?)
  }

  lemma ReadsLaidOut(lines: seq<Line>, i: nat, a: nat, b: nat, c: nat, e: nat, issue: Issue)
    requires LaidOut(lines, i, a, b, c, e, issue)
    ensures ReadSection(lines, i + 1, Section(None, [])) == (Section(Some(issue.id), issue.deps), e)
  {
    var s := Section(Some(issue.id), []);
    SkipQuiet(lines, i + 1, a, Section(None, []));
    SkipQuiet(lines, a + 1, b, s);
    AfterHeader(lines, b, c, e, issue);
  }

  lemma AfterHeader(lines: seq<Line>, b: nat, c: nat, e: nat, issue: Issue)
    requires b < c && c + |issue.deps| <= e <= |lines| && lines[b] == Dependencies
    requires forall k | b < k < c :: lines[k] == Empty
    requires BulletsAt(lines, c, issue.deps) && Quiet(lines, c + |issue.deps|, e)
    requires e < |lines| ==> lines[e].Heading?
    ensures ReadSection(lines, b, Section(Some(issue.id), [])) == (Section(Some(issue.id), issue.deps), e)
  {
    var (deps, j) := ReadBullets(lines, SkipEmpty(lines, b + 1), []);
    SkipGap(lines, b + 1, c);
    ListRead(lines, c, e, issue.deps);
    SkipQuiet(lines, j, e, Section(Some(issue.id), issue.deps));
  }

  lemma ListRead(lines: seq<Line>, c: nat, e: nat, deps: seq<string>)
    requires c + |deps| <= e <= |lines| && BulletsAt(lines, c, deps) && Quiet(lines, c + |deps|, e)
    requires e < |lines| ==> lines[e].Heading?
    ensures var r := ReadBullets(lines, SkipEmpty(lines, c), []); r.0 == deps && Quiet(lines, r.1, e)
  {
    if deps == [] {
      // further empty lines are skipped before the list turns out to be empty
      EmptyEndsInside(lines, c, e);
      ReadsBullets(lines, SkipEmpty(lines, c), [], []);
    } else {
      assert lines[c + 0] == Bullet(deps[0]);
      ReadsBullets(lines, c, deps, []);
      assert [] + deps == deps;
    }
  }

  lemma {:induction false} EmptyEndsInside(lines: seq<Line>, c: nat, e: nat)
    requires Quiet(lines, c, e) && (e < |lines| ==> lines[e].Heading?)
    ensures c <= SkipEmpty(lines, c) <= e
    decreases e - c
  {
    if c < e && lines[c] == Empty {
      EmptyEndsInside(lines, c + 1, e);
    }
  }

  lemma {:induction false} BulletTexts(deps: seq<string>)
    ensures |Bullets(deps)| == |deps|
    ensures forall k | 0 <= k < |deps| :: Bullets(deps)[k] == "- " + deps[k]
  {
    if deps != [] {
      BulletTexts(deps[1..]);
    }
  }

  /** The lines from i on are the classified r. */
  ghost predicate Placed(lines: seq<Line>, i: int, r: seq<string>) {
    0 <= i && i + |r| <= |lines| && forall k | 0 <= k < |r| :: lines[i + k] == Classify(r[k])
  }

  lemma QuietPart(lines: seq<Line>, i: nat, r: seq<string>, lo: nat, hi: nat)
    requires Placed(lines, i, r) && lo <= hi <= |r| && forall k | lo <= k < hi :: Filler(r[k])
    ensures Quiet(lines, i + lo, i + hi)
  {
    forall m | i + lo <= m < i + hi ensures lines[m] == Empty || lines[m] == Other {
      var k := m - i;
      ClassifyFiller(r[k]);
      assert lines[i + k] == Classify(r[k]);
    }
  }

  lemma EmptyPart(lines: seq<Line>, i: nat, r: seq<string>, lo: nat, hi: nat)
    requires Placed(lines, i, r) && lo <= hi <= |r| && forall k | lo <= k < hi :: Blank(r[k])
    ensures forall m | i + lo <= m < i + hi :: lines[m] == Empty
  {
    forall m | i + lo <= m < i + hi ensures lines[m] == Empty {
      var k := m - i;
      ClassifyBlank(r[k]);
      assert lines[i + k] == Classify(r[k]);
    }
  }

  lemma BulletPart(lines: seq<Line>, i: nat, r: seq<string>, c: nat, deps: seq<string>)
    requires Placed(lines, i, r) && c + |deps| <= |r|
    requires forall k | 0 <= k < |deps| :: Stripped(deps[k]) && r[c + k] == "- " + deps[k]
    ensures BulletsAt(lines, i + c, deps)
  {
    forall k | 0 <= k < |deps| ensures lines[i + c + k] == Bullet(deps[k]) {
      ClassifyBullet(deps[k]);
      assert r[c + k] == "- " + deps[k];
      assert lines[i + (c + k)] == Classify(r[c + k]);
    }
  }

  /** The classified lines of one rendered issue, placed at i in a larger text. */
  lemma RenderedIsLaidOut(s: Layout, lines: seq<Line>, i: nat, e: nat) returns (a: nat, b: nat, c: nat)
    requires WellFormed(s) && Placed(lines, i, Render(s)) && e == i + |Render(s)|
    requires e == |lines| || lines[e].Heading?
    ensures LaidOut(lines, i, a, b, c, e, s.issue)
  {
    var r := Render(s);
    var id := 1 + |s.before|;
    var header := id + 1 + |s.between|;
    var list := header + 1 + |s.gap|;
    PartsOf(s);
    ClassifyHeading(s.issue.title);
    ClassifyId(s.issue.id);
    ClassifyHeader();
    a, b, c := i + id, i + header, i + list;
    assert lines[i + 0] == Classify(r[0]) && lines[a] == Classify(r[id]) && lines[b] == Classify(r[header]);
    QuietPart(lines, i, r, 1, id);
    QuietPart(lines, i, r, id + 1, header);
    EmptyPart(lines, i, r, header + 1, list);
    BulletPart(lines, i, r, list, s.issue.deps);
    QuietPart(lines, i, r, list + |s.issue.deps|, |r|);
  }

  lemma PartsOf(s: Layout)
    requires WellFormed(s)
    ensures var r := Render(s); var a := 1 + |s.before|; var b := a + 1 + |s.between|; var c := b + 1 + |s.gap|;
      var e := c + |s.issue.deps|;
      && |r| == e + |s.after|
      && r[0] == "## " + s.issue.title && r[a] == "### ID " + s.issue.id && r[b] == "### Dependencies"
      && (forall k | 1 <= k < a :: Filler(r[k])) && (forall k | a < k < b :: Filler(r[k]))
      && (forall k | b < k < c :: Blank(r[k])) && (forall k | e <= k < |r| :: Filler(r[k]))
      && (forall k | 0 <= k < |s.issue.deps| :: r[c + k] == "- " + s.issue.deps[k])
  {
    BulletTexts(s.issue.deps);
  }

  lemma StartsWithHeading(layouts: seq<Layout>)
    requires layouts != [] && WellFormed(layouts[0])
    ensures RenderAll(layouts) != [] && Classify(RenderAll(layouts)[0]).Heading?
  {
    var s := layouts[0];
    PartsOf(s);
    ClassifyHeading(s.issue.title);
    assert RenderAll(layouts)[0] == Render(s)[0];
  }

  lemma PlacedParts(lines: seq<Line>, i: nat, r: seq<string>, rest: seq<string>)
    requires Placed(lines, i, r + rest)
    ensures Placed(lines, i, r) && Placed(lines, i + |r|, rest)
  {
    assert forall k | 0 <= k < |r| :: (r + rest)[k] == r[k];
    forall k | 0 <= k < |rest| ensures lines[i + |r| + k] == Classify(rest[k]) {
      assert lines[i + (|r| + k)] == Classify((r + rest)[|r| + k]);
    }
  }

  /** Where the next issue of a rendering lies. */
  lemma NextRendered(layouts: seq<Layout>, lines: seq<Line>, i: nat, e: nat)
    requires layouts != [] && forall k | 0 <= k < |layouts| :: WellFormed(layouts[k])
    requires Placed(lines, i, RenderAll(layouts)) && i + |RenderAll(layouts)| == |lines|
    requires e == i + |Render(layouts[0])|
    ensures Placed(lines, i, Render(layouts[0])) && (e == |lines| || lines[e].Heading?)
    ensures Placed(lines, e, RenderAll(layouts[1..])) && e + |RenderAll(layouts[1..])| == |lines|
  {
    PlacedParts(lines, i, Render(layouts[0]), RenderAll(layouts[1..]));
    if |layouts| > 1 {
      assert WellFormed(layouts[1]);
      StartsWithHeading(layouts[1..]);
      assert lines[e + 0] == Classify(RenderAll(layouts[1..])[0]);
    }
  }

  /** Parsing a rendering enters exactly the rendered issues, in order. */
  lemma {:induction false} ParsesRendering(layouts: seq<Layout>, lines: seq<Line>, i: nat, d: Dict)
    requires forall k | 0 <= k < |layouts| :: WellFormed(layouts[k])
    requires Placed(lines, i, RenderAll(layouts)) && i + |RenderAll(layouts)| == |lines|
    ensures ParseFrom(lines, i, d) == Ok(Entered(layouts, d))
    decreases |layouts|
  {
    if layouts == [] {
      assert ParseFrom(lines, i, d) == Ok(d);
    } else {
      var e := i + |Render(layouts[0])|;
      NextRendered(layouts, lines, i, e);
      ParsesOne(layouts[0], lines, i, e, d);
      ParsesRendering(layouts[1..], lines, e, SetIssue(d, layouts[0].issue));
      EnteredFirst(layouts, d);
    }
  }

  lemma EnteredFirst(layouts: seq<Layout>, d: Dict)
    requires layouts != []
    ensures Entered(layouts, d) == Entered(layouts[1..], SetIssue(d, layouts[0].issue))
  {
  }

  lemma ParsesOne(s: Layout, lines: seq<Line>, i: nat, e: nat, d: Dict)
    requires WellFormed(s) && Placed(lines, i, Render(s)) && e == i + |Render(s)|
    requires e == |lines| || lines[e].Heading?
    ensures ParseFrom(lines, i, d) == ParseFrom(lines, e, SetIssue(d, s.issue))
  {
    var a, b, c := RenderedIsLaidOut(s, lines, i, e);
    ParsesLaidOut(lines, i, a, b, c, e, s.issue, d);
  }

  lemma ParsesLaidOut(lines: seq<Line>, i: nat, a: nat, b: nat, c: nat, e: nat, issue: Issue, d: Dict)
    requires LaidOut(lines, i, a, b, c, e, issue)
    ensures ParseFrom(lines, i, d) == ParseFrom(lines, e, SetIssue(d, issue))
  {
    ReadsLaidOut(lines, i, a, b, c, e, issue);
  }

  function IdsOf(layouts: seq<Layout>): (ids: seq<string>)
    ensures |ids| == |layouts| && forall k | 0 <= k < |layouts| :: ids[k] == layouts[k].issue.id
  {
    if layouts == [] then [] else [layouts[0].issue.id] + IdsOf(layouts[1..])
  }

  ghost predicate DistinctIds(layouts: seq<Layout>) {
    forall j, k | 0 <= j < k < |layouts| :: layouts[j].issue.id != layouts[k].issue.id
  }

  ghost predicate NewIds(layouts: seq<Layout>, d: Dict) {
    forall k | 0 <= k < |layouts| :: layouts[k].issue.id !in d.issues
  }

  lemma TailIsNew(layouts: seq<Layout>, d: Dict)
    requires layouts != [] && DistinctIds(layouts) && NewIds(layouts, d)
    ensures DistinctIds(layouts[1..]) && NewIds(layouts[1..], SetIssue(d, layouts[0].issue))
    ensures SetIssue(d, layouts[0].issue).order == d.order + [layouts[0].issue.id]
  {
  }

  lemma {:induction false} EnteredOrder(layouts: seq<Layout>, d: Dict)
    requires DistinctIds(layouts) && NewIds(layouts, d)
    ensures Entered(layouts, d).order == d.order + IdsOf(layouts)
  {
    if layouts == [] {
      assert d.order + IdsOf(layouts) == d.order;
    } else {
      var next := SetIssue(d, layouts[0].issue);
      TailIsNew(layouts, d);
      EnteredOrder(layouts[1..], next);
      OneFurther(d.order, layouts[0].issue.id, IdsOf(layouts[1..]));
    }
  }

  lemma OneFurther(order: seq<string>, id: string, rest: seq<string>)
    ensures order + [id] + rest == order + ([id] + rest)
  {
  }

  /** Under every id stands the last issue entered with it. */
  lemma {:induction false} EnteredValue(layouts: seq<Layout>, d: Dict, id: string)
    ensures id in Entered(layouts, d).issues <==> id in d.issues || id in IdsOf(layouts)
    ensures id in d.issues && id !in IdsOf(layouts) ==> Entered(layouts, d).issues[id] == d.issues[id]
    ensures id in IdsOf(layouts) ==>
        exists k :: LastWith(layouts, id, k) && Entered(layouts, d).issues[id] == layouts[k].issue
  {
    if layouts != [] {
      var rest, next := layouts[1..], SetIssue(d, layouts[0].issue);
      EnteredValue(rest, next, id);
      assert IdsOf(layouts) == [layouts[0].issue.id] + IdsOf(rest);
      if id in IdsOf(rest) {
        var k :| LastWith(rest, id, k) && Entered(rest, next).issues[id] == rest[k].issue;
        LastWithShift(layouts, id, k);
      } else if id == layouts[0].issue.id {
        LastWithFirst(layouts, id);
      }
    }
  }

  ghost predicate LastWith(layouts: seq<Layout>, id: string, k: int) {
    0 <= k < |layouts| && layouts[k].issue.id == id && forall m | k < m < |layouts| :: layouts[m].issue.id != id
  }

  lemma LastWithShift(layouts: seq<Layout>, id: string, k: nat)
    requires layouts != [] && LastWith(layouts[1..], id, k)
    ensures LastWith(layouts, id, k + 1) && layouts[k + 1] == layouts[1..][k]
  {
    forall m | k + 1 < m < |layouts| ensures layouts[m].issue.id != id {
      assert layouts[m] == layouts[1..][m - 1];
    }
  }

  lemma LastWithFirst(layouts: seq<Layout>, id: string)
    requires layouts != [] && layouts[0].issue.id == id && id !in IdsOf(layouts[1..])
    ensures LastWith(layouts, id, 0)
  {
    forall m | 0 < m < |layouts| ensures layouts[m].issue.id != id {
      assert IdsOf(layouts[1..])[m - 1] == layouts[1..][m - 1].issue.id;
    }
  }

  /** Round trip: issues with distinct ids come back from any such rendering, in order and nothing else. */
  lemma ParseRenderRoundTrip(layouts: seq<Layout>)
    requires forall k | 0 <= k < |layouts| :: WellFormed(layouts[k])
    requires DistinctIds(layouts)
    ensures var r := ParseFrom(ClassifyAll(RenderAll(layouts)), 0, Dict([], map[]));
      && r.Ok? && r.value.order == IdsOf(layouts)
      && (forall id :: id in r.value.issues <==> id in IdsOf(layouts))
      && forall k | 0 <= k < |layouts| :: layouts[k].issue.id in r.value.issues
                                          && r.value.issues[layouts[k].issue.id] == layouts[k].issue
  {
    var text, none := RenderAll(layouts), Dict([], map[]);
    ParsesRendering(layouts, ClassifyAll(text), 0, none);
    EnteredOrder(layouts, none);
    forall id ensures id in Entered(layouts, none).issues <==> id in IdsOf(layouts) {
      EnteredValue(layouts, none, id);
    }
    forall k | 0 <= k < |layouts|
      ensures layouts[k].issue.id in IdsOf(layouts)
          && Entered(layouts, none).issues[layouts[k].issue.id] == layouts[k].issue
    {
      var id := layouts[k].issue.id;
      assert IdsOf(layouts)[k] == id;
      EnteredValue(layouts, none, id);
      var m :| LastWith(layouts, id, m) && Entered(layouts, none).issues[id] == layouts[m].issue;
      assert m == k;
    }
  }

  // ---------- from the file's text ----------

  /** `splitlines()`: the lines without their terminators. */
  function Chomp(l: string): string {
    if l != "" && l[|l| - 1] == '\n' && |l| >= 2 && l[|l| - 2] == '\r' then l[..|l| - 2]
    else if l != "" && IsBreak(l[|l| - 1]) then l[..|l| - 1]
    else l
  }

  function ChompAll(lines: seq<string>): seq<string> {
    if lines == [] then [] else [Chomp(lines[0])] + ChompAll(lines[1..])
  }

  function Ended(lines: seq<string>): (r: seq<string>)
    ensures |r| == |lines| && forall k | 0 <= k < |lines| :: r[k] == lines[k] + "\n"
  {
    if lines == [] then [] else [lines[0] + "\n"] + Ended(lines[1..])
  }

  predicate OneLine(l: string) {
    forall k | 0 <= k < |l| :: !IsBreak(l[k])
  }

  lemma {:induction false} OneLineLength(l: string)
    requires OneLine(l)
    ensures FirstLineLength(l + "\n") == |l| + 1
  {
    if l == "" {
      assert l + "\n" == "\n";
    } else {
      assert (l + "\n")[1..] == l[1..] + "\n";
      OneLineLength(l[1..]);
    }
  }

  lemma ChompOne(l: string)
    requires OneLine(l)
    ensures Chomp(l + "\n") == l
  {
    var ended := l + "\n";
    assert l != "" ==> ended[|l| - 1] == l[|l| - 1] && !IsBreak(l[|l| - 1]);
    assert ended[..|l|] == l;
  }

  /** A line loses its terminator, be it LF or CRLF, and nothing else; one without terminator stays. */
  lemma ChompMeans(l: string)
    requires OneLine(l)
    ensures Chomp(l) == l && Chomp(l + "\n") == l && Chomp(l + "\r\n") == l && Chomp(l + "\r") == l
  {
    ChompOne(l);
    var ended := l + "\r\n";
    assert ended[|l|] == '\r' && ended[|l| + 1] == '\n' && ended[..|l|] == l;
    assert (l + "\r")[|l|] == '\r' && (l + "\r")[..|l|] == l;
  }

  lemma {:induction false} ChompAllAt(lines: seq<string>, k: nat)
    requires k < |lines|
    ensures |ChompAll(lines)| == |lines| && ChompAll(lines)[k] == Chomp(lines[k])
  {
    if |lines| > 1 {
      ChompAllAt(lines[1..], if k > 0 then k - 1 else 0);
    }
  }

  lemma ChompEnded(lines: seq<string>)
    requires forall k | 0 <= k < |lines| :: OneLine(lines[k])
    ensures ChompAll(Ended(lines)) == lines
  {
    var ended := Ended(lines);
    forall k | 0 <= k < |lines| ensures |ChompAll(ended)| == |lines| && ChompAll(ended)[k] == lines[k] {
      ChompAllAt(ended, k);
      ChompOne(lines[k]);
    }
  }

  /** Writing one-line lines to a file and splitting its text again gives the lines back. */
  lemma FileRoundTrip(lines: seq<string>)
    requires forall k | 0 <= k < |lines| :: OneLine(lines[k])
    ensures ChompAll(SplitLines(Concat(Ended(lines)))) == lines
  {
    var ended := Ended(lines);
    forall k | 0 <= k < |ended| ensures IsLine(ended[k]) {
      OneLineLength(lines[k]);
    }
    forall k | 0 <= k < |ended| - 1 ensures MayFollow(ended[k], ended[k + 1]) {
      assert ended[k][|ended[k]| - 1] == '\n';
    }
    SplitConcat(ended);
    ChompEnded(lines);
  }

  function WriteFile(layouts: seq<Layout>): string {
    Concat(Ended(RenderAll(layouts)))
  }

  function ReadFile(text: string): seq<Line> {
    ClassifyAll(ChompAll(SplitLines(text)))
  }

  /** So the round trip goes through the file's text, as long as every field is one line. */
  lemma FileReadsBack(layouts: seq<Layout>)
    requires forall k | 0 <= k < |RenderAll(layouts)| :: OneLine(RenderAll(layouts)[k])
    ensures ReadFile(WriteFile(layouts)) == ClassifyAll(RenderAll(layouts))
  {
    FileRoundTrip(RenderAll(layouts));
  }
}
