/** Planning and applying dependency repairs (scripts/repair_imported_bead_dependencies.py). Records are an array
    changed in place; what a record is besides its id, title and dependencies does not matter here. */
module RepairPlan {
  import opened Wrappers
  import opened Text
  import opened Sorting
  import opened ImportMarkdown

  /** (issue, depends on) */
  type Edge = (string, string)

  datatype Dep = Dep(issue: string, on: string, createdAt: string)

  /** `deps` is `None` when the record has no such entry. */
  datatype Record = Record(id: string, title: string, deps: Option<seq<Dep>>)

  datatype Plan = Plan(importedIds: set<string>, expected: set<Edge>, missing: seq<Edge>, extra: seq<Edge>)

  /** A title that is not unique, or a dependency that is not imported. */
  datatype Failure = Unmapped(oldIds: seq<string>) | UnknownDependency(oldId: string, dep: string)

  function DepsOf(r: Record): seq<Dep> {
    if r.deps.Some? then r.deps.value else []
  }

  function EdgeOf(d: Dep): Edge {
    (d.issue, d.on)
  }

  function Edges(deps: seq<Dep>): set<Edge> {
    set i | 0 <= i < |deps| :: EdgeOf(deps[i])
  }

  /** Every edge some record stores. */
  function CurrentEdges(records: seq<Record>): set<Edge> {
    if records == [] then {} else CurrentEdges(records[..|records| - 1]) + Edges(DepsOf(records[|records| - 1]))
  }

  method CollectCurrentEdges(records: seq<Record>) returns (edges: set<Edge>)
    ensures edges == CurrentEdges(records)
  {
    edges := {};
    for i := 0 to |records|
      invariant edges == CurrentEdges(records[..i])
    {
      assert records[..i + 1][..i] == records[..i];
      var deps := DepsOf(records[i]);
      ghost var before := edges;
      for k := 0 to |deps|
        invariant edges == before + Edges(deps[..k])
      {
        assert deps[..k + 1] == deps[..k] + [deps[k]];
        edges := edges + {(deps[k].issue, deps[k].on)};
      }
      assert deps[..|deps|] == deps;
    }
    assert records[..|records|] == records;
  }

  lemma {:induction false} CurrentEdgesIff(records: seq<Record>, e: Edge)
    ensures e in CurrentEdges(records) <==> exists i :: Stores(records, i, e)
  {
    if records != [] {
      var n := |records| - 1;
      CurrentEdgesIff(records[..n], e);
      assert records == records[..n] + [records[n]];
      if e in CurrentEdges(records[..n]) {
        var i :| Stores(records[..n], i, e);
        assert Stores(records, i, e);
      } else if e in CurrentEdges(records) {
        assert Stores(records, n, e);
      }
      if i :| Stores(records, i, e) {
        assert i < n ==> Stores(records[..n], i, e);
      }
    }
  }

  ghost predicate Stores(records: seq<Record>, i: int, e: Edge) {
    0 <= i < |records| && e in Edges(DepsOf(records[i]))
  }

  // ---------- mapping old ids to new ones ----------

  /** The ids of the records with a title, in order. */
  function IdsTitled(records: seq<Record>, title: string): seq<string> {
    if records == [] then []
    else
      var before := IdsTitled(records[..|records| - 1], title);
      var last := records[|records| - 1];
      if last.title == title then before + [last.id] else before
  }

  predicate Unique(records: seq<Record>, title: string) {
    |IdsTitled(records, title)| == 1
  }

  function NewId(records: seq<Record>, title: string): string
    requires Unique(records, title)
  {
    IdsTitled(records, title)[0]
  }

  ghost predicate ValidDict(d: Dict) {
    (forall k | 0 <= k < |d.order| :: d.order[k] in d.issues) && (forall id | id in d.issues :: id in d.order)
  }

  ghost predicate AllUnique(imported: Dict, records: seq<Record>) {
    forall id | id in imported.issues :: Unique(records, imported.issues[id].title)
  }

  ghost predicate GroupsTitles(records: seq<Record>, byTitle: map<string, seq<string>>) {
    forall title :: IdsTitled(records, title) == if title in byTitle then byTitle[title] else []
  }

  method GroupByTitle(records: seq<Record>) returns (byTitle: map<string, seq<string>>)
    ensures GroupsTitles(records, byTitle)
  {
    byTitle := map[];
    for i := 0 to |records|
      invariant GroupsTitles(records[..i], byTitle)
    {
      assert records[..i + 1][..i] == records[..i];
      var title := records[i].title;
      byTitle := byTitle[title := (if title in byTitle then byTitle[title] else []) + [records[i].id]];
    }
    assert records[..|records|] == records;
  }

  ghost predicate MapsTo(imported: Dict, records: seq<Record>, id: string, newId: string) {
    && id in imported.issues && Unique(records, imported.issues[id].title)
    && newId == NewId(records, imported.issues[id].title)
  }

  ghost predicate Unmappable(imported: Dict, records: seq<Record>, id: string) {
    id in imported.issues && !Unique(records, imported.issues[id].title)
  }

  /** `map_old_ids_to_new_ids`: every title must be the title of exactly one record. */
  method MapOldIdsToNewIds(imported: Dict, records: seq<Record>) returns (r: Result<map<string, string>, Failure>)
    requires ValidDict(imported)
    ensures r.Ok? <==> AllUnique(imported, records)
    ensures r.Ok? ==>
      && r.value.Keys == imported.issues.Keys
      && forall id | id in imported.issues :: r.value[id] == NewId(records, imported.issues[id].title)
    ensures r.Err? ==> r.error.Unmapped?
  {
    var byTitle := GroupByTitle(records);
    var mapping: map<string, string> := map[];
    var errors: seq<string> := [];
    for k := 0 to |imported.order|
      invariant forall j | 0 <= j < k :: imported.order[j] in mapping || errors != []
      invariant forall id | id in mapping :: MapsTo(imported, records, id, mapping[id])
      invariant forall j | 0 <= j < |errors| :: Unmappable(imported, records, errors[j])
    {
      var id := imported.order[k];
      var title := imported.issues[id].title;
      var matches := if title in byTitle then byTitle[title] else [];
      assert IdsTitled(records, title) == matches;
      if |matches| == 1 {
        mapping := mapping[id := matches[0]];
      } else {
        errors := errors + [id];
      }
    }
    if errors != [] {
      assert Unmappable(imported, records, errors[0]);
      return Err(Unmapped(errors));
    }
    forall id | id in imported.issues ensures id in mapping && MapsTo(imported, records, id, mapping[id]) {
      assert id in imported.order;
    }
    r := Ok(mapping);
  }

  // ---------- the plan ----------

  ghost predicate DepsImported(imported: Dict) {
    forall id, k | id in imported.issues && 0 <= k < |imported.issues[id].deps| ::
      imported.issues[id].deps[k] in imported.issues
  }

  ghost predicate Plannable(imported: Dict, records: seq<Record>) {
    AllUnique(imported, records) && DepsImported(imported)
  }

  ghost function NewIdOf(imported: Dict, records: seq<Record>, oldId: string): string
    requires AllUnique(imported, records) && oldId in imported.issues
  {
    NewId(records, imported.issues[oldId].title)
  }

  ghost function ImportedIds(imported: Dict, records: seq<Record>): set<string>
    requires AllUnique(imported, records)
  {
    set id | id in imported.issues :: NewIdOf(imported, records, id)
  }

  ghost predicate Expects(imported: Dict, records: seq<Record>, e: Edge, id: string, k: int)
    requires Plannable(imported, records)
  {
    && id in imported.issues && 0 <= k < |imported.issues[id].deps|
    && e == (NewIdOf(imported, records, id), NewIdOf(imported, records, imported.issues[id].deps[k]))
  }

  /** The edges the markdown asks for, in new ids. */
  ghost predicate Expected(imported: Dict, records: seq<Record>, e: Edge)
    requires Plannable(imported, records)
  {
    exists id, k :: Expects(imported, records, e, id, k)
  }

  predicate EdgeLess(a: Edge, b: Edge) {
    Less(a.0, b.0) || (a.0 == b.0 && Less(a.1, b.1))
  }

  /** `sorted(a_set)` */
  ghost predicate Lists(list: seq<Edge>, edges: set<Edge>) {
    StrictlyOrdered(list, EdgeLess) && forall e :: e in list <==> e in edges
  }

  predicate Inside(ids: set<string>, e: Edge) {
    e.0 in ids && e.1 in ids
  }

  function EdgesInside(records: seq<Record>, ids: set<string>): set<Edge> {
    set e | e in CurrentEdges(records) && Inside(ids, e)
  }

  ghost predicate IsPlan(imported: Dict, records: seq<Record>, plan: Plan) {
    && Plannable(imported, records)
    && plan.importedIds == ImportedIds(imported, records)
    && (forall e :: e in plan.expected <==> Expected(imported, records, e))
    && Lists(plan.missing, plan.expected - EdgesInside(records, plan.importedIds))
    && Lists(plan.extra, EdgesInside(records, plan.importedIds) - plan.expected)
  }

  lemma EdgeLessIsStrict()
    ensures StrictTotal(EdgeLess)
  {
    forall x: Edge ensures !EdgeLess(x, x) {
      LessTotal(x.0, x.0);
      LessTotal(x.1, x.1);
    }
    forall x: Edge, y: Edge | x != y ensures EdgeLess(x, y) || EdgeLess(y, x) {
      LessTotal(x.0, y.0);
      LessTotal(x.1, y.1);
    }
    forall x, y, z | EdgeLess(x, y) && EdgeLess(y, z) ensures EdgeLess(x, z) {
      EdgeLessTransitive(x, y, z);
    }
  }

  lemma EdgeLessTransitive(x: Edge, y: Edge, z: Edge)
    requires EdgeLess(x, y) && EdgeLess(y, z)
    ensures EdgeLess(x, z)
  {
    if Less(x.0, y.0) && Less(y.0, z.0) {
      LessTransitive(x.0, y.0, z.0);
    }
    if Less(x.1, y.1) && Less(y.1, z.1) {
      LessTransitive(x.1, y.1, z.1);
    }
  }

  /** The plan is determined: two plans for one input are equal. */
  lemma PlanIsUnique(imported: Dict, records: seq<Record>, a: Plan, b: Plan)
    requires IsPlan(imported, records, a) && IsPlan(imported, records, b)
    ensures a == b
  {
    EdgeLessIsStrict();
    assert a.expected == b.expected;
    StrictlyOrderedUnique(a.missing, b.missing, EdgeLess);
    StrictlyOrderedUnique(a.extra, b.extra, EdgeLess);
  }

  function InsertEdge(e: Edge, list: seq<Edge>): seq<Edge> {
    if list == [] || EdgeLess(e, list[0]) then [e] + list else [list[0]] + InsertEdge(e, list[1..])
  }

  lemma {:induction false} InsertEdgeLists(e: Edge, list: seq<Edge>)
    requires StrictlyOrdered(list, EdgeLess) && e !in list
    ensures StrictlyOrdered(InsertEdge(e, list), EdgeLess)
    ensures forall x :: x in InsertEdge(e, list) <==> x == e || x in list
  {
    EdgeLessIsStrict();
    if list == [] {
    } else if EdgeLess(e, list[0]) {
      var all := [e] + list;
      forall j | 1 <= j < |all| ensures EdgeLess(e, all[j]) {
        assert j == 1 || EdgeLess(list[0], list[j - 1]);
      }
    } else {
      var rest := InsertEdge(e, list[1..]);
      InsertEdgeLists(e, list[1..]);
      assert list == [list[0]] + list[1..];
      forall j | 0 <= j < |rest| ensures EdgeLess(list[0], rest[j]) {
        assert rest[j] in rest;
        assert rest[j] == e || rest[j] in list[1..];
      }
    }
  }

  method SortedEdges(edges: set<Edge>) returns (list: seq<Edge>)
    ensures Lists(list, edges)
  {
    list := [];
    var rest := edges;
    while rest != {}
      invariant rest <= edges && Lists(list, edges - rest)
    {
      var e :| e in rest;
      InsertEdgeLists(e, list);
      list := InsertEdge(e, list);
      rest := rest - {e};
    }
  }

  lemma {:induction false} ListingExists(edges: set<Edge>) returns (list: seq<Edge>)
    ensures Lists(list, edges)
  {
    list := [];
    if edges != {} {
      var e :| e in edges;
      list := ListingExists(edges - {e});
      InsertEdgeLists(e, list);
      list := InsertEdge(e, list);
    }
  }

  /** Whatever can be planned for has a plan. */
  lemma PlanExists(imported: Dict, records: seq<Record>) returns (plan: Plan)
    requires Plannable(imported, records)
    ensures IsPlan(imported, records, plan)
  {
    var ids := ImportedIds(imported, records);
    var expected := set id, k | id in imported.issues && 0 <= k < |imported.issues[id].deps| ::
      (NewIdOf(imported, records, id), NewIdOf(imported, records, imported.issues[id].deps[k]));
    forall e ensures e in expected <==> Expected(imported, records, e) {
      if e in expected {
        var id, k :| id in imported.issues && 0 <= k < |imported.issues[id].deps|
          && e == (NewIdOf(imported, records, id), NewIdOf(imported, records, imported.issues[id].deps[k]));
        assert Expects(imported, records, e, id, k);
      }
    }
    var missing := ListingExists(expected - EdgesInside(records, ids));
    var extra := ListingExists(EdgesInside(records, ids) - expected);
    plan := Plan(ids, expected, missing, extra);
  }

  /** `build_repair_plan` */
  method BuildRepairPlan(imported: Dict, records: seq<Record>) returns (r: Result<Plan, Failure>)
    requires ValidDict(imported)
    ensures r.Ok? <==> Plannable(imported, records)
    ensures r.Ok? ==> IsPlan(imported, records, r.value)
    ensures r.Err? ==> (r.error.Unmapped? <==> !AllUnique(imported, records))
  {
    var mapped := MapOldIdsToNewIds(imported, records);
    if mapped.Err? {
      return Err(mapped.error);
    }
    var mapping := mapped.value;
    var expected, failed := ExpectedEdges(imported, records, mapping);
    if failed.Some? {
      return Err(failed.value);
    }
    var ids := mapping.Values;
    assert ids == ImportedIds(imported, records) by {
      forall x | x in ids ensures x in ImportedIds(imported, records) {
        var id :| id in mapping && mapping[id] == x;
        assert id in imported.issues && NewIdOf(imported, records, id) == x;
      }
      forall x | x in ImportedIds(imported, records) ensures x in ids {
        var id :| id in imported.issues && NewIdOf(imported, records, id) == x;
        assert id in mapping && mapping[id] == x;
      }
    }
    var current := CollectCurrentEdges(records);
    var inside := set e | e in current && e.0 in ids && e.1 in ids;
    assert inside == EdgesInside(records, ids);
    var missing := SortedEdges(expected - inside);
    var extra := SortedEdges(inside - expected);
    r := Ok(Plan(ids, expected, missing, extra));
  }

  ghost predicate Asks(imported: Dict, mapping: map<string, string>, id: string, k: int, e: Edge) {
    && id in imported.issues && 0 <= k < |imported.issues[id].deps|
    && id in mapping && imported.issues[id].deps[k] in mapping
    && e == (mapping[id], mapping[imported.issues[id].deps[k]])
  }

  ghost predicate AskedBy(imported: Dict, mapping: map<string, string>, id: string, e: Edge) {
    exists k :: Asks(imported, mapping, id, k, e)
  }

  /** The inner loop: the edges one issue asks for, or its first dependency that is not imported. */
  method IssueEdges(imported: Dict, mapping: map<string, string>, id: string)
      returns (edges: set<Edge>, failed: Option<Failure>)
    requires mapping.Keys == imported.issues.Keys && id in imported.issues
    ensures failed == None <==> forall k | 0 <= k < |imported.issues[id].deps| ::
        imported.issues[id].deps[k] in imported.issues
    ensures failed == None ==> forall e :: e in edges <==> AskedBy(imported, mapping, id, e)
    ensures failed.Some? ==> failed.value.UnknownDependency?
  {
    var deps := imported.issues[id].deps;
    edges := {};
    for k := 0 to |deps|
      invariant forall m | 0 <= m < k :: deps[m] in imported.issues
      invariant forall e :: e in edges <==> exists m :: m < k && Asks(imported, mapping, id, m, e)
    {
      if deps[k] !in mapping {
        return edges, Some(UnknownDependency(id, deps[k]));
      }
      var edge := (mapping[id], mapping[deps[k]]);
      assert Asks(imported, mapping, id, k, edge);
      edges := edges + {edge};
    }
    failed := None;
  }

  method ExpectedEdges(imported: Dict, records: seq<Record>, mapping: map<string, string>)
      returns (expected: set<Edge>, failed: Option<Failure>)
    requires ValidDict(imported) && AllUnique(imported, records) && mapping.Keys == imported.issues.Keys
    requires forall id | id in imported.issues :: mapping[id] == NewIdOf(imported, records, id)
    ensures failed == None <==> DepsImported(imported)
    ensures failed == None ==> forall e :: e in expected <==> Expected(imported, records, e)
    ensures failed.Some? ==> failed.value.UnknownDependency?
  {
    expected := {};
    for i := 0 to |imported.order|
      invariant forall j, k | 0 <= j < i && 0 <= k < |imported.issues[imported.order[j]].deps| ::
        imported.issues[imported.order[j]].deps[k] in imported.issues
      invariant forall e ::
        e in expected <==> exists j :: 0 <= j < i && AskedBy(imported, mapping, imported.order[j], e)
    {
      var edges;
      edges, failed := IssueEdges(imported, mapping, imported.order[i]);
      if failed.Some? {
        return expected, failed;
      }
      expected := expected + edges;
    }
    failed := None;
    AllDepsImported(imported);
    ExpectedIsAsked(imported, records, mapping, expected);
  }

  lemma AllDepsImported(imported: Dict)
    requires ValidDict(imported)
    requires forall j, k | 0 <= j < |imported.order| && 0 <= k < |imported.issues[imported.order[j]].deps| ::
               imported.issues[imported.order[j]].deps[k] in imported.issues
    ensures DepsImported(imported)
  {
    forall id, k | id in imported.issues && 0 <= k < |imported.issues[id].deps|
      ensures imported.issues[id].deps[k] in imported.issues
    {
      assert id in imported.order;
    }
  }

  lemma ExpectedIsAsked(imported: Dict, records: seq<Record>, mapping: map<string, string>, expected: set<Edge>)
    requires ValidDict(imported) && Plannable(imported, records) && mapping.Keys == imported.issues.Keys
    requires forall id | id in imported.issues :: mapping[id] == NewIdOf(imported, records, id)
    requires forall e :: e in expected
                         <==> exists j :: 0 <= j < |imported.order| && AskedBy(imported, mapping, imported.order[j], e)
    ensures forall e :: e in expected <==> Expected(imported, records, e)
  {
    forall e ensures e in expected <==> Expected(imported, records, e) {
      if e in expected {
        var j :| 0 <= j < |imported.order| && AskedBy(imported, mapping, imported.order[j], e);
        var k :| Asks(imported, mapping, imported.order[j], k, e);
        assert Expects(imported, records, e, imported.order[j], k);
      }
      if Expected(imported, records, e) {
        var id, k :| Expects(imported, records, e, id, k);
        assert Asks(imported, mapping, id, k, e);
        assert id in imported.order;
      }
    }
  }
}
