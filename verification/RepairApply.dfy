/** Applying a repair plan in place, and what a second plan then finds
    (scripts/repair_imported_bead_dependencies.py). */
module RepairApply {
  import opened Wrappers
  import opened Text
  import opened Sorting
  import opened ImportMarkdown
  import opened RepairPlan

  // ---------- one edge ----------

  /** `by_id`: the last record with an id. */
  function Owner(records: seq<Record>, id: string): (n: int)
    ensures -1 <= n < |records|
    ensures n >= 0 ==> records[n].id == id
    ensures forall i | 0 <= i < |records| && records[i].id == id :: i <= n
  {
    if records == [] then -1
    else if records[|records| - 1].id == id then |records| - 1
    else Owner(records[..|records| - 1], id)
  }

  predicate DepLe(a: Dep, b: Dep) {
    !(Less(b.on, a.on) || (b.on == a.on && Less(b.createdAt, a.createdAt)))
  }

  function WithDep(r: Record, e: Edge, stamp: string): Record {
    if e in Edges(DepsOf(r)) then r.(deps := Some(DepsOf(r)))
    else r.(deps := Some(Sort(DepsOf(r) + [Dep(e.0, e.1, stamp)], DepLe)))
  }

  function Without(deps: seq<Dep>, e: Edge): seq<Dep> {
    if deps == [] then []
    else
      var before := Without(deps[..|deps| - 1], e);
      if EdgeOf(deps[|deps| - 1]) == e then before else before + [deps[|deps| - 1]]
  }

  /** An emptied list is dropped from the record. */
  function WithoutDep(r: Record, e: Edge): Record {
    var kept := Without(DepsOf(r), e);
    r.(deps := if kept == [] then None else Some(kept))
  }

  lemma EdgesAppend(deps: seq<Dep>, d: Dep)
    ensures Edges(deps + [d]) == Edges(deps) + {EdgeOf(d)}
  {
    var all := deps + [d];
    assert all[|deps|] == d && forall i | 0 <= i < |deps| :: all[i] == deps[i];
  }

  lemma EdgesByMembership(a: seq<Dep>, b: seq<Dep>)
    requires forall d :: d in a <==> d in b
    ensures Edges(a) == Edges(b)
  {
    forall e ensures e in Edges(a) <==> e in Edges(b) {
      if e in Edges(a) {
        var i :| 0 <= i < |a| && EdgeOf(a[i]) == e;
        assert a[i] in b;
      }
      if e in Edges(b) {
        var i :| 0 <= i < |b| && EdgeOf(b[i]) == e;
        assert b[i] in a;
      }
    }
  }

  lemma WithDepEdges(r: Record, e: Edge, stamp: string)
    ensures Edges(DepsOf(WithDep(r, e, stamp))) == Edges(DepsOf(r)) + {e}
    ensures WithDep(r, e, stamp).id == r.id && WithDep(r, e, stamp).title == r.title
  {
    if e !in Edges(DepsOf(r)) {
      var longer := DepsOf(r) + [Dep(e.0, e.1, stamp)];
      SortContents(longer, DepLe);
      EdgesByMembership(Sort(longer, DepLe), longer);
      EdgesAppend(DepsOf(r), Dep(e.0, e.1, stamp));
    }
  }

  lemma {:induction false} WithoutEdges(deps: seq<Dep>, e: Edge)
    ensures Edges(Without(deps, e)) == Edges(deps) - {e}
    ensures forall d :: multiset(Without(deps, e))[d] == if EdgeOf(d) == e then 0 else multiset(deps)[d]
  {
    if deps != [] {
      var n := |deps| - 1;
      WithoutEdges(deps[..n], e);
      EdgesAppend(deps[..n], deps[n]);
      EdgesAppend(Without(deps[..n], e), deps[n]);
      assert deps == deps[..n] + [deps[n]];
    }
  }

  // ---------- all edges of a plan ----------

  ghost predicate Owned(records: seq<Record>, edges: seq<Edge>) {
    forall k | 0 <= k < |edges| :: Owner(records, edges[k].0) >= 0
  }

  /** Records keep their ids and titles. */
  ghost predicate SameHeads(a: seq<Record>, b: seq<Record>) {
    |a| == |b| && forall i | 0 <= i < |a| :: a[i].id == b[i].id && a[i].title == b[i].title
  }

  lemma {:induction false} OwnerByHeads(a: seq<Record>, b: seq<Record>, id: string)
    requires SameHeads(a, b)
    ensures Owner(a, id) == Owner(b, id)
  {
  }

  function Change(records: seq<Record>, e: Edge, stamp: Option<string>): (r: seq<Record>)
    ensures |r| == |records|
  {
    var n := Owner(records, e.0);
    if n < 0 then records
    else records[n := if stamp.Some? then WithDep(records[n], e, stamp.value) else WithoutDep(records[n], e)]
  }

  /** Adding the edges of a list one by one, in its order. */
  function AddAll(records: seq<Record>, edges: seq<Edge>, stamp: Edge -> string): (r: seq<Record>)
    ensures |r| == |records|
  {
    if edges == [] then records
    else
      var e := edges[|edges| - 1];
      Change(AddAll(records, edges[..|edges| - 1], stamp), e, Some(stamp(e)))
  }

  function RemoveAll(records: seq<Record>, edges: seq<Edge>): (r: seq<Record>)
    ensures |r| == |records|
  {
    if edges == [] then records
    else Change(RemoveAll(records, edges[..|edges| - 1]), edges[|edges| - 1], None)
  }

  function Applied(records: seq<Record>, plan: Plan, prune: bool, stamp: Edge -> string): seq<Record> {
    var added := AddAll(records, plan.missing, stamp);
    if prune then RemoveAll(added, plan.extra) else added
  }

  // ---------- in place ----------

  method IndexById(a: array<Record>) returns (byId: map<string, nat>)
    ensures forall id :: (id in byId <==> Owner(a[..], id) >= 0) && (id in byId ==> byId[id] == Owner(a[..], id))
  {
    byId := map[];
    for i := 0 to a.Length
      invariant forall id :: (id in byId <==> Owner(a[..i], id) >= 0) && (id in byId ==> byId[id] == Owner(a[..i], id))
    {
      assert a[..i + 1][..i] == a[..i];
      byId := byId[a[i].id := i];
    }
    assert a[..a.Length] == a[..];
  }

  lemma ChangeHeads(records: seq<Record>, e: Edge, stamp: Option<string>)
    ensures SameHeads(records, Change(records, e, stamp))
  {
  }

  lemma {:induction false} AddAllHeads(records: seq<Record>, edges: seq<Edge>, stamp: Edge -> string)
    ensures SameHeads(records, AddAll(records, edges, stamp))
  {
    if edges != [] {
      var n := |edges| - 1;
      AddAllHeads(records, edges[..n], stamp);
      ChangeHeads(AddAll(records, edges[..n], stamp), edges[n], Some(stamp(edges[n])));
    }
  }

  lemma {:induction false} RemoveAllHeads(records: seq<Record>, edges: seq<Edge>)
    ensures SameHeads(records, RemoveAll(records, edges))
  {
    if edges != [] {
      var n := |edges| - 1;
      RemoveAllHeads(records, edges[..n]);
      ChangeHeads(RemoveAll(records, edges[..n]), edges[n], None);
    }
  }

  ghost predicate IsIndex(byId: map<string, nat>, records: seq<Record>) {
    forall id :: (id in byId <==> Owner(records, id) >= 0) && (id in byId ==> byId[id] == Owner(records, id))
  }

  /** `apply_repair_plan_to_records`. An edge of an unknown issue would raise, which a plan for these records never
      holds. */
  method ApplyRepairPlan(a: array<Record>, plan: Plan, prune: bool, stamp: Edge -> string)
    requires Owned(a[..], plan.missing) && Owned(a[..], plan.extra)
    modifies a
    ensures a[..] == Applied(old(a[..]), plan, prune, stamp)
  {
    var byId := IndexById(a);
    AddMissing(a, plan.missing, stamp, byId);
    AddAllHeads(old(a[..]), plan.missing, stamp);
    if prune {
      forall id ensures Owner(a[..], id) == Owner(old(a[..]), id) {
        OwnerByHeads(old(a[..]), a[..], id);
      }
      RemoveExtra(a, plan.extra, byId);
    }
  }

  method AddMissing(a: array<Record>, edges: seq<Edge>, stamp: Edge -> string, byId: map<string, nat>)
    requires Owned(a[..], edges) && IsIndex(byId, a[..])
    modifies a
    ensures a[..] == AddAll(old(a[..]), edges, stamp)
  {
    ghost var was := a[..];
    for k := 0 to |edges|
      invariant a[..] == AddAll(was, edges[..k], stamp)
    {
      assert edges[..k + 1][..k] == edges[..k];
      var e := edges[k];
      AddAllHeads(was, edges[..k], stamp);
      OwnerByHeads(was, a[..], e.0);
      assert Owner(was, e.0) >= 0;
      ghost var before := a[..];
      var n := byId[e.0];
      var present := HasDep(DepsOf(a[n]), e);
      if present {
        a[n] := a[n].(deps := Some(DepsOf(a[n])));
      } else {
        a[n] := a[n].(deps := Some(Sort(DepsOf(a[n]) + [Dep(e.0, e.1, stamp(e))], DepLe)));
      }
      assert a[..] == Change(before, e, Some(stamp(e)));
    }
    assert edges[..|edges|] == edges;
  }

  method HasDep(deps: seq<Dep>, e: Edge) returns (present: bool)
    ensures present <==> e in Edges(deps)
  {
    for i := 0 to |deps|
      invariant forall j | 0 <= j < i :: EdgeOf(deps[j]) != e
    {
      if deps[i].issue == e.0 && deps[i].on == e.1 {
        assert EdgeOf(deps[i]) == e;
        return true;
      }
    }
    return false;
  }

  method RemoveExtra(a: array<Record>, edges: seq<Edge>, byId: map<string, nat>)
    requires Owned(a[..], edges) && IsIndex(byId, a[..])
    modifies a
    ensures a[..] == RemoveAll(old(a[..]), edges)
  {
    ghost var was := a[..];
    for k := 0 to |edges|
      invariant a[..] == RemoveAll(was, edges[..k])
    {
      assert edges[..k + 1][..k] == edges[..k];
      var e := edges[k];
      RemoveAllHeads(was, edges[..k]);
      OwnerByHeads(was, a[..], e.0);
      assert Owner(was, e.0) >= 0;
      ghost var before := a[..];
      var n := byId[e.0];
      var kept := KeepOthers(DepsOf(a[n]), e);
      a[n] := a[n].(deps := if kept != [] then Some(kept) else None);
      assert a[..] == Change(before, e, None);
    }
    assert edges[..|edges|] == edges;
  }

  method KeepOthers(deps: seq<Dep>, e: Edge) returns (kept: seq<Dep>)
    ensures kept == Without(deps, e)
  {
    kept := [];
    for i := 0 to |deps|
      invariant kept == Without(deps[..i], e)
    {
      assert deps[..i + 1][..i] == deps[..i];
      if !(deps[i].issue == e.0 && deps[i].on == e.1) {
        kept := kept + [deps[i]];
      }
    }
    assert deps[..|deps|] == deps;
  }

  // ---------- what becomes of one edge in one record ----------

  lemma AddedAt(records: seq<Record>, e: Edge, stamp: string, i: nat, x: Edge)
    requires i < |records|
    ensures Stores(Change(records, e, Some(stamp)), i, x)
            <==> Stores(records, i, x) || (x == e && Owner(records, e.0) == i)
  {
    WithDepEdges(records[i], e, stamp);
  }

  lemma RemovedAt(records: seq<Record>, e: Edge, i: nat, x: Edge)
    requires i < |records|
    ensures Stores(Change(records, e, None), i, x)
            <==> Stores(records, i, x) && !(x == e && Owner(records, e.0) == i)
  {
    WithoutEdges(DepsOf(records[i]), e);
  }

  lemma {:induction false} AddAllAt(records: seq<Record>, edges: seq<Edge>, stamp: Edge -> string, i: nat, x: Edge)
    requires i < |records|
    ensures Stores(AddAll(records, edges, stamp), i, x)
            <==> Stores(records, i, x) || (x in edges && Owner(records, x.0) == i)
  {
    if edges != [] {
      var n := |edges| - 1;
      var before := AddAll(records, edges[..n], stamp);
      AddAllAt(records, edges[..n], stamp, i, x);
      AddedAt(before, edges[n], stamp(edges[n]), i, x);
      AddAllHeads(records, edges[..n], stamp);
      OwnerByHeads(records, before, x.0);
      assert edges == edges[..n] + [edges[n]];
    }
  }

  lemma {:induction false} RemoveAllAt(records: seq<Record>, edges: seq<Edge>, i: nat, x: Edge)
    requires i < |records|
    ensures Stores(RemoveAll(records, edges), i, x)
            <==> Stores(records, i, x) && !(x in edges && Owner(records, x.0) == i)
  {
    if edges != [] {
      var n := |edges| - 1;
      var before := RemoveAll(records, edges[..n]);
      RemoveAllAt(records, edges[..n], i, x);
      RemovedAt(before, edges[n], i, x);
      RemoveAllHeads(records, edges[..n]);
      OwnerByHeads(records, before, x.0);
      assert edges == edges[..n] + [edges[n]];
    }
  }

  /** After applying a plan, record i stores an edge iff it did before or was given it, and was not relieved of it. */
  lemma AppliedAt(records: seq<Record>, plan: Plan, prune: bool, stamp: Edge -> string, i: nat, x: Edge)
    requires i < |records|
    ensures Stores(Applied(records, plan, prune, stamp), i, x)
            <==> (Stores(records, i, x) || (x in plan.missing && Owner(records, x.0) == i))
                 && !(prune && x in plan.extra && Owner(records, x.0) == i)
  {
    var added := AddAll(records, plan.missing, stamp);
    AddAllAt(records, plan.missing, stamp, i, x);
    AddAllHeads(records, plan.missing, stamp);
    OwnerByHeads(records, added, x.0);
    if prune {
      RemoveAllAt(added, plan.extra, i, x);
    }
  }

  lemma AppliedHeads(records: seq<Record>, plan: Plan, prune: bool, stamp: Edge -> string)
    ensures SameHeads(records, Applied(records, plan, prune, stamp))
  {
    AddAllHeads(records, plan.missing, stamp);
    RemoveAllHeads(AddAll(records, plan.missing, stamp), plan.extra);
  }

  /** Edges of no concern to the plan stay where they are, and nowhere else. */
  lemma OtherEdgesUntouched(records: seq<Record>, plan: Plan, prune: bool, stamp: Edge -> string, i: nat, x: Edge)
    requires i < |records| && x !in plan.missing && x !in plan.extra
    ensures Stores(Applied(records, plan, prune, stamp), i, x) <==> Stores(records, i, x)
  {
    AppliedAt(records, plan, prune, stamp, i, x);
  }

  lemma ChangeKeepsOther(records: seq<Record>, e: Edge, stamp: Option<string>, i: nat, d: Dep)
    requires i < |records| && EdgeOf(d) != e
    ensures multiset(DepsOf(Change(records, e, stamp)[i]))[d] == multiset(DepsOf(records[i]))[d]
  {
    var deps := DepsOf(records[i]);
    if stamp.Some? {
      SortContents(deps + [Dep(e.0, e.1, stamp.value)], DepLe);
      assert EdgeOf(Dep(e.0, e.1, stamp.value)) == e;
    } else {
      WithoutEdges(deps, e);
    }
  }

  lemma {:induction false} AddAllKeepsOther(records: seq<Record>, edges: seq<Edge>, stamp: Edge -> string, i: nat,
                                            d: Dep)
    requires i < |records| && EdgeOf(d) !in edges
    ensures multiset(DepsOf(AddAll(records, edges, stamp)[i]))[d] == multiset(DepsOf(records[i]))[d]
  {
    if edges != [] {
      var n := |edges| - 1;
      assert edges[n] in edges;
      AddAllKeepsOther(records, edges[..n], stamp, i, d);
      ChangeKeepsOther(AddAll(records, edges[..n], stamp), edges[n], Some(stamp(edges[n])), i, d);
    }
  }

  lemma {:induction false} RemoveAllKeepsOther(records: seq<Record>, edges: seq<Edge>, i: nat, d: Dep)
    requires i < |records| && EdgeOf(d) !in edges
    ensures multiset(DepsOf(RemoveAll(records, edges)[i]))[d] == multiset(DepsOf(records[i]))[d]
  {
    if edges != [] {
      var n := |edges| - 1;
      assert edges[n] in edges;
      RemoveAllKeepsOther(records, edges[..n], i, d);
      ChangeKeepsOther(RemoveAll(records, edges[..n]), edges[n], None, i, d);
    }
  }

  /** Dependency entries of other edges survive a repair as they are, each as often as before. */
  lemma OtherDepsKept(records: seq<Record>, plan: Plan, prune: bool, stamp: Edge -> string, i: nat, d: Dep)
    requires i < |records| && EdgeOf(d) !in plan.missing && EdgeOf(d) !in plan.extra
    ensures multiset(DepsOf(Applied(records, plan, prune, stamp)[i]))[d] == multiset(DepsOf(records[i]))[d]
  {
    AddAllKeepsOther(records, plan.missing, stamp, i, d);
    RemoveAllKeepsOther(AddAll(records, plan.missing, stamp), plan.extra, i, d);
  }

  // ---------- replanning ----------

  lemma {:induction false} IdsTitledByHeads(a: seq<Record>, b: seq<Record>, title: string)
    requires SameHeads(a, b)
    ensures IdsTitled(a, title) == IdsTitled(b, title)
  {
    if a != [] {
      IdsTitledByHeads(a[..|a| - 1], b[..|b| - 1], title);
    }
  }

  /** Titles decide the mapping, so repaired records are planned for under the same ids and expectations. */
  lemma PlanByHeads(imported: Dict, a: seq<Record>, b: seq<Record>, plan: Plan, next: Plan)
    requires SameHeads(a, b) && IsPlan(imported, a, plan) && IsPlan(imported, b, next)
    ensures plan.importedIds == next.importedIds && plan.expected == next.expected
  {
    forall title ensures IdsTitled(a, title) == IdsTitled(b, title) {
      IdsTitledByHeads(a, b, title);
    }
    forall id | id in imported.issues ensures NewIdOf(imported, a, id) == NewIdOf(imported, b, id) {
    }
    assert ImportedIds(imported, a) == ImportedIds(imported, b);
    forall e ensures e in plan.expected <==> e in next.expected {
      ExpectedByHeads(imported, a, b, e);
      ExpectedByHeads(imported, b, a, e);
    }
  }

  lemma ExpectedByHeads(imported: Dict, a: seq<Record>, b: seq<Record>, e: Edge)
    requires Plannable(imported, a) && Plannable(imported, b)
    requires forall title :: IdsTitled(a, title) == IdsTitled(b, title)
    ensures Expected(imported, a, e) ==> Expected(imported, b, e)
  {
    if Expected(imported, a, e) {
      var id, k :| Expects(imported, a, e, id, k);
      assert Expects(imported, b, e, id, k);
    }
  }

  lemma PlannableByHeads(imported: Dict, a: seq<Record>, b: seq<Record>)
    requires SameHeads(a, b) && Plannable(imported, a)
    ensures Plannable(imported, b)
  {
    forall id | id in imported.issues ensures Unique(b, imported.issues[id].title) {
      IdsTitledByHeads(a, b, imported.issues[id].title);
    }
  }

  lemma {:induction false} TitledIdsAreIds(records: seq<Record>, title: string, id: string)
    requires id in IdsTitled(records, title)
    ensures Owner(records, id) >= 0
  {
    var n := |records| - 1;
    if records[n].id != id {
      TitledIdsAreIds(records[..n], title, id);
    }
  }

  lemma ImportedIdsOwned(imported: Dict, records: seq<Record>, id: string)
    requires AllUnique(imported, records) && id in ImportedIds(imported, records)
    ensures Owner(records, id) >= 0
  {
    var oldId :| oldId in imported.issues && NewIdOf(imported, records, oldId) == id;
    var title := imported.issues[oldId].title;
    assert IdsTitled(records, title)[0] in IdsTitled(records, title);
    TitledIdsAreIds(records, title, id);
  }

  lemma ExpectedInside(imported: Dict, records: seq<Record>, plan: Plan, e: Edge)
    requires IsPlan(imported, records, plan) && e in plan.expected
    ensures Inside(plan.importedIds, e)
  {
    assert Expected(imported, records, e);
    var id, k :| Expects(imported, records, e, id, k);
    var dep := imported.issues[id].deps[k];
    assert dep in imported.issues;
  }

  /** Applying a plan to the records it was made for never raises. */
  lemma PlansAreOwned(imported: Dict, records: seq<Record>, plan: Plan)
    requires IsPlan(imported, records, plan)
    ensures Owned(records, plan.missing) && Owned(records, plan.extra)
  {
    forall k | 0 <= k < |plan.missing| ensures Owner(records, plan.missing[k].0) >= 0 {
      var e := plan.missing[k];
      assert e in plan.missing;
      ExpectedInside(imported, records, plan, e);
      ImportedIdsOwned(imported, records, e.0);
    }
    forall k | 0 <= k < |plan.extra| ensures Owner(records, plan.extra[k].0) >= 0 {
      var e := plan.extra[k];
      assert e in plan.extra;
      ImportedIdsOwned(imported, records, e.0);
    }
  }

  /** An extra edge sits in a record that is not the one its issue's id leads to. */
  ghost predicate Stray(records: seq<Record>, e: Edge) {
    exists i :: Stores(records, i, e) && Owner(records, e.0) != i
  }

  /** The edges some record stores after applying a plan. */
  lemma AppliedEdges(imported: Dict, records: seq<Record>, plan: Plan, prune: bool, stamp: Edge -> string, e: Edge)
    requires IsPlan(imported, records, plan)
    ensures e in CurrentEdges(Applied(records, plan, prune, stamp))
            <==> if prune && e in plan.extra then Stray(records, e)
                 else e in CurrentEdges(records) || e in plan.missing
  {
    var after := Applied(records, plan, prune, stamp);
    CurrentEdgesIff(records, e);
    CurrentEdgesIff(after, e);
    PlansAreOwned(imported, records, plan);
    AppliedHeads(records, plan, prune, stamp);
    assert !(e in plan.extra && e in plan.missing);
    forall i | 0 <= i < |records|
      ensures Stores(after, i, e)
              <==> (Stores(records, i, e) || (e in plan.missing && Owner(records, e.0) == i))
                   && !(prune && e in plan.extra && Owner(records, e.0) == i)
    {
      AppliedAt(records, plan, prune, stamp, i, e);
    }
    EdgesFromStores(records, after, plan, prune, e);
  }

  lemma EdgesFromStores(records: seq<Record>, after: seq<Record>, plan: Plan, prune: bool, e: Edge)
    requires |after| == |records| && Owned(records, plan.missing) && !(e in plan.extra && e in plan.missing)
    requires forall i | 0 <= i < |records| :: Stores(after, i, e)
              <==> (Stores(records, i, e) || (e in plan.missing && Owner(records, e.0) == i))
                   && !(prune && e in plan.extra && Owner(records, e.0) == i)
    ensures (exists i :: Stores(after, i, e))
            <==> if prune && e in plan.extra then Stray(records, e)
                 else (exists i :: Stores(records, i, e)) || e in plan.missing
  {
    if e in plan.missing {
      var k :| 0 <= k < |plan.missing| && plan.missing[k] == e;
      assert Owner(records, e.0) >= 0;
      assert Stores(after, Owner(records, e.0), e);
    }
    if i :| Stores(after, i, e) {
      assert prune && e in plan.extra ==> Stores(records, i, e) && Owner(records, e.0) != i;
    }
    if i :| Stores(records, i, e) {
      assert !(prune && e in plan.extra) ==> Stores(after, i, e);
    }
    if Stray(records, e) {
      var i :| Stores(records, i, e) && Owner(records, e.0) != i;
      assert Stores(after, i, e);
    }
  }

  /** Planning again after applying: nothing is missing; without pruning the extra edges are the same; with pruning
      the extra edges left are exactly the strays. */
  lemma Replanned(imported: Dict, records: seq<Record>, plan: Plan, prune: bool, stamp: Edge -> string, next: Plan)
    requires IsPlan(imported, records, plan)
    requires IsPlan(imported, Applied(records, plan, prune, stamp), next)
    ensures next.missing == []
    ensures forall e :: e in next.extra <==> e in plan.extra && (prune ==> Stray(records, e))
    ensures !prune ==> next.extra == plan.extra
  {
    var after := Applied(records, plan, prune, stamp);
    AppliedHeads(records, plan, prune, stamp);
    PlanByHeads(imported, records, after, plan, next);
    assert next.missing == [] || next.missing[0] in next.missing;
    forall e ensures e !in next.missing && (e in next.extra <==> e in plan.extra && (prune ==> Stray(records, e))) {
      AppliedEdges(imported, records, plan, prune, stamp, e);
      ReplannedEdge(imported, records, plan, next, after, e, prune);
    }
    if !prune {
      EdgeLessIsStrict();
      StrictlyOrderedUnique(next.extra, plan.extra, EdgeLess);
    }
  }

  lemma ReplannedEdge(imported: Dict, records: seq<Record>, plan: Plan, next: Plan, after: seq<Record>, e: Edge,
                      prune: bool)
    requires IsPlan(imported, records, plan) && IsPlan(imported, after, next)
    requires plan.importedIds == next.importedIds && plan.expected == next.expected
    requires e in CurrentEdges(after)
             <==> if prune && e in plan.extra then Stray(records, e)
                  else e in CurrentEdges(records) || e in plan.missing
    ensures e !in next.missing
    ensures e in next.extra <==> e in plan.extra && (prune ==> Stray(records, e))
  {
    if e in plan.expected {
      ExpectedInside(imported, records, plan, e);
    }
    var ids := plan.importedIds;
    assert e in EdgesInside(after, ids) <==> e in CurrentEdges(after) && Inside(ids, e);
    assert e in EdgesInside(records, ids) <==> e in CurrentEdges(records) && Inside(ids, e);
    assert e in plan.missing <==> e in plan.expected - EdgesInside(records, ids);
    assert e in plan.extra <==> e in EdgesInside(records, ids) - plan.expected;
    assert e in next.missing <==> e in next.expected - EdgesInside(after, ids);
    assert e in next.extra <==> e in EdgesInside(after, ids) - next.expected;
  }

  /** A pruned repair is final exactly when no extra edge is stored outside its issue's own record. With unique record
      ids and every dependency stored under its own issue that is always so. */
  lemma PruneReachesFixedPointIff(imported: Dict, records: seq<Record>, plan: Plan, stamp: Edge -> string, next: Plan)
    requires IsPlan(imported, records, plan)
    requires IsPlan(imported, Applied(records, plan, true, stamp), next)
    ensures next.missing == [] && next.extra == [] <==> forall e | e in plan.extra :: !Stray(records, e)
  {
    Replanned(imported, records, plan, true, stamp, next);
    assert next.extra == [] || next.extra[0] in next.extra;
  }

  /** A repair that never ends: record "b" stores an unexpected edge of issue "a", and pruning looks for it in record
      "a" only. */
  lemma StraySurvives(stamp: Edge -> string) returns (imported: Dict, records: seq<Record>, plan: Plan)
    ensures IsPlan(imported, records, plan) && plan.extra == [("a", "b")]
    ensures IsPlan(imported, Applied(records, plan, true, stamp), plan)
  {
    var one, two := Issue("1", "A", []), Issue("2", "B", []);
    imported := Dict(["1", "2"], map["1" := one, "2" := two]);
    var a, b := Record("a", "A", None), Record("b", "B", Some([Dep("a", "b", "")]));
    records := [a, b];
    plan := Plan({"a", "b"}, {}, [], [("a", "b")]);
    TwoRecords(a, b);
    assert NewIdOf(imported, records, "1") == "a" && NewIdOf(imported, records, "2") == "b";
    forall e ensures !Expected(imported, records, e) {
      forall id, k ensures !Expects(imported, records, e, id, k) {
      }
    }
    assert EdgesInside(records, plan.importedIds) == {("a", "b")};
    assert Owner(records, "a") == 0;
    assert [("a", "b")][..0] == [];
    assert RemoveAll(records, [("a", "b")]) == Change(records, ("a", "b"), None);
    assert WithoutDep(a, ("a", "b")) == a;
    assert Applied(records, plan, true, stamp) == records;
  }

  lemma TwoRecords(a: Record, b: Record)
    requires a.title == "A" && b.title == "B" && a.id != b.id && a.deps == None && b.deps == Some([Dep("a", "b", "")])
    ensures IdsTitled([a, b], "A") == [a.id] && IdsTitled([a, b], "B") == [b.id]
    ensures CurrentEdges([a, b]) == {("a", "b")} && Owner([a, b], a.id) == 0
  {
    assert [a, b][..1] == [a] && [a][..0] == [];
    assert IdsTitled([a], "A") == [a.id] && IdsTitled([a], "B") == [];
    assert Edges(DepsOf(a)) == {};
    EdgesAppend([], Dep("a", "b", ""));
    assert DepsOf(b) == [] + [Dep("a", "b", "")] && Edges([]) == {};
    assert CurrentEdges([a]) == {};
  }

  ghost predicate WellStored(records: seq<Record>) {
    && (forall i, j | 0 <= i < j < |records| :: records[i].id != records[j].id)
    && (forall i, e | Stores(records, i, e) :: records[i].id == e.0)
  }

  lemma WellStoredHasNoStrays(records: seq<Record>, e: Edge)
    requires WellStored(records)
    ensures !Stray(records, e)
  {
    forall i | Stores(records, i, e) ensures Owner(records, e.0) == i {
      assert records[i].id == e.0;
    }
  }

  /** On well-stored records a pruned repair leaves, inside the imported set, exactly the expected edges. */
  lemma PrunedEdgesAreExpected(imported: Dict, records: seq<Record>, plan: Plan, stamp: Edge -> string, e: Edge)
    requires IsPlan(imported, records, plan) && WellStored(records)
    ensures e in EdgesInside(Applied(records, plan, true, stamp), plan.importedIds) <==> e in plan.expected
  {
    AppliedEdges(imported, records, plan, true, stamp, e);
    WellStoredHasNoStrays(records, e);
    if e in plan.expected {
      ExpectedInside(imported, records, plan, e);
    }
    var ids := plan.importedIds;
    assert e in EdgesInside(records, ids) <==> e in CurrentEdges(records) && Inside(ids, e);
    assert e in plan.missing <==> e in plan.expected - EdgesInside(records, ids);
    assert e in plan.extra <==> e in EdgesInside(records, ids) - plan.expected;
  }

  /** Repairing a second time changes nothing. */
  lemma SecondRepairIsIdle(imported: Dict, records: seq<Record>, plan: Plan, stamp: Edge -> string, next: Plan)
    requires IsPlan(imported, records, plan) && WellStored(records)
    requires IsPlan(imported, Applied(records, plan, true, stamp), next)
    ensures var once := Applied(records, plan, true, stamp); Applied(once, next, true, stamp) == once
  {
    forall e | e in plan.extra ensures !Stray(records, e) {
      WellStoredHasNoStrays(records, e);
    }
    PruneReachesFixedPointIff(imported, records, plan, stamp, next);
  }

  lemma RepairedIsPlannable(imported: Dict, records: seq<Record>, plan: Plan, prune: bool, stamp: Edge -> string)
    requires IsPlan(imported, records, plan)
    ensures Plannable(imported, Applied(records, plan, prune, stamp))
  {
    AppliedHeads(records, plan, prune, stamp);
    PlannableByHeads(imported, records, Applied(records, plan, prune, stamp));
  }

  /** Repaired records can always be planned for again, and that plan misses nothing; without pruning it has the same
      extra edges, with pruning exactly the strays. */
  lemma RepairReplans(imported: Dict, records: seq<Record>, plan: Plan, prune: bool, stamp: Edge -> string)
    returns (next: Plan)
    requires IsPlan(imported, records, plan)
    ensures IsPlan(imported, Applied(records, plan, prune, stamp), next)
    ensures next.missing == []
    ensures forall e :: e in next.extra <==> e in plan.extra && (prune ==> Stray(records, e))
  {
    RepairedIsPlannable(imported, records, plan, prune, stamp);
    next := PlanExists(imported, Applied(records, plan, prune, stamp));
    Replanned(imported, records, plan, prune, stamp, next);
  }
}
