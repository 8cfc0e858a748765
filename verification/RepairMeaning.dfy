/** A dependency repair in terms of the markdown and of the stored entries
    (scripts/repair_imported_bead_dependencies.py). */
module RepairMeaning {
  import opened Wrappers
  import opened Text
  import opened Sorting
  import opened ImportMarkdown
  import opened RepairPlan
  import opened RepairApply

  // ---------- what a plan lists ----------

  /** Some record has an entry that makes `issue` depend on `on`. */
  ghost predicate IsStored(records: seq<Record>, issue: string, on: string) {
    exists i, k :: 0 <= i < |records| && records[i].deps.Some? && 0 <= k < |records[i].deps.value|
                   && records[i].deps.value[k].issue == issue && records[i].deps.value[k].on == on
  }

  lemma StoredMeans(records: seq<Record>, e: Edge)
    ensures e in CurrentEdges(records) <==> IsStored(records, e.0, e.1)
  {
    CurrentEdgesIff(records, e);
    if e in CurrentEdges(records) {
      var i :| Stores(records, i, e);
      var k :| 0 <= k < |DepsOf(records[i])| && EdgeOf(DepsOf(records[i])[k]) == e;
      assert records[i].deps.value[k].issue == e.0;
    }
    if i, k :| 0 <= i < |records| && records[i].deps.Some? && 0 <= k < |records[i].deps.value|
               && records[i].deps.value[k].issue == e.0 && records[i].deps.value[k].on == e.1 {
      assert EdgeOf(DepsOf(records[i])[k]) == e;
      assert Stores(records, i, e);
    }
  }

  /** The record is the only one with the imported issue's title. */
  ghost predicate Stands(imported: Dict, records: seq<Record>, oldId: string, newId: string) {
    && oldId in imported.issues
    && exists i :: 0 <= i < |records| && records[i].id == newId && records[i].title == imported.issues[oldId].title
  }

  lemma {:induction false} IdsTitledContents(records: seq<Record>, title: string, id: string)
    ensures id in IdsTitled(records, title)
            <==> exists i :: 0 <= i < |records| && records[i].title == title && records[i].id == id
  {
    if records != [] {
      IdsTitledContents(records[..|records| - 1], title, id);
      assert records == records[..|records| - 1] + [records[|records| - 1]];
    }
  }

  lemma StandsMeans(imported: Dict, records: seq<Record>, oldId: string, newId: string)
    requires AllUnique(imported, records) && oldId in imported.issues
    ensures Stands(imported, records, oldId, newId) <==> NewIdOf(imported, records, oldId) == newId
  {
    var title := imported.issues[oldId].title;
    IdsTitledContents(records, title, newId);
    assert Unique(records, title);
    var ids := IdsTitled(records, title);
    assert |ids| == 1 && ids[0] in ids;
    assert newId in ids <==> newId == ids[0];
  }

  /** The markdown makes an issue that `issue` stands for depend on one that `on` stands for. */
  ghost predicate Wanted(imported: Dict, records: seq<Record>, issue: string, on: string) {
    exists id, k :: id in imported.issues && 0 <= k < |imported.issues[id].deps|
                    && Stands(imported, records, id, issue)
                    && Stands(imported, records, imported.issues[id].deps[k], on)
  }

  lemma WantedMeans(imported: Dict, records: seq<Record>, e: Edge)
    requires Plannable(imported, records)
    ensures Expected(imported, records, e) <==> Wanted(imported, records, e.0, e.1)
  {
    if id, k :| Expects(imported, records, e, id, k) {
      StandsMeans(imported, records, id, e.0);
      StandsMeans(imported, records, imported.issues[id].deps[k], e.1);
    }
    if id, k :| id in imported.issues && 0 <= k < |imported.issues[id].deps|
                && Stands(imported, records, id, e.0) && Stands(imported, records, imported.issues[id].deps[k], e.1) {
      StandsMeans(imported, records, id, e.0);
      StandsMeans(imported, records, imported.issues[id].deps[k], e.1);
      assert Expects(imported, records, e, id, k);
    }
  }

  ghost predicate IsImported(imported: Dict, records: seq<Record>, newId: string) {
    exists id :: id in imported.issues && Stands(imported, records, id, newId)
  }

  lemma ImportedMeans(imported: Dict, records: seq<Record>, newId: string)
    requires AllUnique(imported, records)
    ensures newId in ImportedIds(imported, records) <==> IsImported(imported, records, newId)
  {
    forall id | id in imported.issues
      ensures Stands(imported, records, id, newId) <==> NewIdOf(imported, records, id) == newId
    {
      StandsMeans(imported, records, id, newId);
    }
  }

  /** Missing is what the markdown wants and no record stores; extra is what some record stores between two imported
      issues and the markdown does not want. */
  lemma PlanMeans(imported: Dict, records: seq<Record>, plan: Plan, issue: string, on: string)
    requires IsPlan(imported, records, plan)
    ensures (issue, on) in plan.missing
            <==> Wanted(imported, records, issue, on) && !IsStored(records, issue, on)
    ensures (issue, on) in plan.extra <==>
      && IsStored(records, issue, on) && !Wanted(imported, records, issue, on)
      && IsImported(imported, records, issue) && IsImported(imported, records, on)
  {
    var e := (issue, on);
    StoredMeans(records, e);
    WantedMeans(imported, records, e);
    ImportedMeans(imported, records, issue);
    ImportedMeans(imported, records, on);
    if e in plan.expected {
      ExpectedInside(imported, records, plan, e);
    }
    var inside := EdgesInside(records, plan.importedIds);
    assert e in inside <==> IsStored(records, issue, on) && issue in plan.importedIds && on in plan.importedIds;
    assert e in plan.missing <==> e in plan.expected - inside;
    assert e in plan.extra <==> e in inside - plan.expected;
  }

  /** Both lists are sorted by issue and then by what it depends on, without repetition. */
  lemma PlanOrder(imported: Dict, records: seq<Record>, plan: Plan, i: nat, j: nat)
    requires IsPlan(imported, records, plan) && i < j
    ensures j < |plan.missing| ==> Precedes(plan.missing[i], plan.missing[j])
    ensures j < |plan.extra| ==> Precedes(plan.extra[i], plan.extra[j])
  {
  }

  predicate Precedes(a: Edge, b: Edge) {
    Less(a.0, b.0) || (a.0 == b.0 && Less(a.1, b.1))
  }

  // ---------- what applying it does to a record ----------

  /** Adding an edge: a record that has it keeps its entries, any other gets one new entry with the stamp, and its
      entries are then sorted by what they depend on and when they were made. */
  lemma WithDepMeans(r: Record, issue: string, on: string, stamp: string)
    ensures var has := exists d :: d in DepsOf(r) && d.issue == issue && d.on == on;
      var after := WithDep(r, (issue, on), stamp);
      && after.id == r.id && after.title == r.title && after.deps.Some?
      && (has ==> after.deps.value == DepsOf(r))
      && (!has ==>
            && multiset(after.deps.value) == multiset(DepsOf(r)) + multiset{Dep(issue, on, stamp)}
            && forall i, j | 0 <= i < j < |after.deps.value| ::
                 InDepOrder(after.deps.value[i], after.deps.value[j]))
  {
    var e := (issue, on);
    var longer := DepsOf(r) + [Dep(issue, on, stamp)];
    assert (exists d :: d in DepsOf(r) && d.issue == issue && d.on == on) <==> e in Edges(DepsOf(r)) by {
      assert forall k | 0 <= k < |DepsOf(r)| :: DepsOf(r)[k] in DepsOf(r);
    }
    SortContents(longer, DepLe);
    DepOrderIsTotal();
    SortOrdered(longer, DepLe);
    var sorted := Sort(longer, DepLe);
    forall i, j | 0 <= i < j < |sorted| ensures InDepOrder(sorted[i], sorted[j]) {
      assert DepLe(sorted[i], sorted[j]);
      DepOrderMeans(sorted[i], sorted[j]);
    }
  }

  predicate InDepOrder(a: Dep, b: Dep) {
    Less(a.on, b.on) || (a.on == b.on && !Less(b.createdAt, a.createdAt))
  }

  lemma DepOrderMeans(a: Dep, b: Dep)
    ensures DepLe(a, b) <==> InDepOrder(a, b)
  {
    LessTotal(a.on, b.on);
    LessTotal(a.on, a.on);
  }

  lemma DepOrderIsTotal()
    ensures TotalPreorder(DepLe)
  {
    forall x, y ensures DepLe(x, y) || DepLe(y, x) {
      LessTotal(x.on, y.on);
      LessTotal(x.createdAt, y.createdAt);
    }
    forall x, y, z | DepLe(x, y) && DepLe(y, z) ensures DepLe(x, z) {
      DepLeTransitive(x, y, z);
    }
  }

  lemma DepLeTransitive(x: Dep, y: Dep, z: Dep)
    requires DepLe(x, y) && DepLe(y, z)
    ensures DepLe(x, z)
  {
    LessTotal(x.on, y.on);
    LessTotal(y.on, z.on);
    LessTotal(x.on, z.on);
    LessTotal(x.createdAt, y.createdAt);
    LessTotal(y.createdAt, z.createdAt);
    LessTotal(x.createdAt, z.createdAt);
    if Less(x.on, y.on) && Less(y.on, z.on) {
      LessTransitive(x.on, y.on, z.on);
    }
    if Less(x.createdAt, y.createdAt) && Less(y.createdAt, z.createdAt) {
      LessTransitive(x.createdAt, y.createdAt, z.createdAt);
    }
  }

  /** Taking an edge out of a record: its entries for the edge go, the others stay, and an emptied list is dropped. */
  lemma WithoutDepMeans(r: Record, issue: string, on: string, d: Dep)
    ensures var after := WithoutDep(r, (issue, on));
      && after.id == r.id && after.title == r.title
      && multiset(DepsOf(after))[d] == (if d.issue == issue && d.on == on then 0 else multiset(DepsOf(r))[d])
      && (after.deps.Some? ==> after.deps.value != [])
  {
    WithoutEdges(DepsOf(r), (issue, on));
  }
}
