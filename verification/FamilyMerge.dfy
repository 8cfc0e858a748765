/** Merging from a run directory (`_merge_retry_family_artifacts` with `_discover_retry_family_run_roots` in
    repogauge/cli.py): the family is found by name among the sibling directories, in run order, and merged. */
module FamilyMerge {
  import opened Wrappers
  import opened Sorting
  import opened RunNames
  import opened RetryChain
  import opened RetryFamily

  /** The artefacts below each directory name. */
  type Contents = string -> Root

  function WithAttempts(names: seq<string>, at: Contents): seq<string> {
    if names == [] then []
    else
      var before := WithAttempts(names[..|names| - 1], at);
      if at(names[|names| - 1]).attempts.Some? then before + [names[|names| - 1]] else before
  }

  function RootsAt(names: seq<string>, at: Contents): (roots: seq<Root>)
    ensures |roots| == |names| && forall i | 0 <= i < |names| :: roots[i] == at(names[i])
  {
    if names == [] then [] else RootsAt(names[..|names| - 1], at) + [at(names[|names| - 1])]
  }

  /** The members of a run's family among the listed directories, in the order they are merged. */
  function FamilyInOrder(run: string, names: seq<string>, at: Contents): seq<string> {
    Sort(FamilyOf(BaseName(run), WithAttempts(names, at)), FamilyOrder(BaseName(run)))
  }

  /** `_merge_retry_family_artifacts`, with the directories as the file system lists them. */
  method MergeFamily(run: string, names: seq<string>, at: Contents) returns (r: Option<Artifacts>)
    ensures r == if FamilyOf(BaseName(run), WithAttempts(names, at)) == [] then None
                 else Merged(RootsAt(FamilyInOrder(run, names, at), at))
  {
    var siblings: seq<string> := [];
    for i := 0 to |names|
      invariant siblings == WithAttempts(names[..i], at)
    {
      assert names[..i + 1][..i] == names[..i];
      if at(names[i]).attempts.Some? {
        siblings := siblings + [names[i]];
      }
    }
    assert names[..|names|] == names;
    var family := Discover(run, siblings);
    if family == None {
      return None;
    }
    SortContents(FamilyOf(BaseName(run), siblings), FamilyOrder(BaseName(run)));
    r := MergeArtifacts(RootsAt(family.value, at));
  }

  // ---------- a family of default names that holds a chain ----------

  /** Among distinct directories, those of the family that hold attempts are the default names of the runs, each with
      the artefacts of its run. */
  ghost predicate HoldsChain(base: string, runs: seq<Run>, names: seq<string>, at: Contents) {
    && Distinct(names)
    && (forall i | 0 <= i < |runs| ::
          && DefaultName(base, i) in names
          && at(DefaultName(base, i)) == Root(Some(runs[i].attempts), Some(runs[i].results)))
    && (forall name | name in names && InFamily(base, name) && at(name).attempts.Some? ::
          exists i :: 0 <= i < |runs| && name == DefaultName(base, i))
  }

  lemma {:induction false} WithAttemptsContents(names: seq<string>, at: Contents)
    ensures forall name :: name in WithAttempts(names, at) <==> name in names && at(name).attempts.Some?
    ensures Distinct(names) ==> Distinct(WithAttempts(names, at))
  {
    if names != [] {
      var n := |names| - 1;
      WithAttemptsContents(names[..n], at);
      assert forall name :: name in names <==> name in names[..n] || name == names[n];
      KeptDistinct(names, WithAttempts(names[..n], at));
    }
  }

  lemma {:induction false} FamilyContents(base: string, names: seq<string>)
    ensures forall name :: name in FamilyOf(base, names) <==> name in names && InFamily(base, name)
    ensures Distinct(names) ==> Distinct(FamilyOf(base, names))
  {
    if names != [] {
      var n := |names| - 1;
      FamilyContents(base, names[..n]);
      assert forall name :: name in names <==> name in names[..n] || name == names[n];
      KeptDistinct(names, FamilyOf(base, names[..n]));
    }
  }

  lemma KeptDistinct(names: seq<string>, kept: seq<string>)
    requires names != [] && forall name | name in kept :: name in names[..|names| - 1]
    ensures Distinct(names) ==> Distinct(names[..|names| - 1])
    ensures Distinct(names) && Distinct(kept) ==> Distinct(kept + [names[|names| - 1]])
  {
    if Distinct(names) {
      assert names[..|names| - 1] + [names[|names| - 1]] == names;
      LastOfDistinct(names[..|names| - 1], names[|names| - 1]);
      if Distinct(kept) {
        DistinctAppended(kept, names[|names| - 1]);
      }
    }
  }

  lemma DefaultInFamily(base: string, i: nat)
    ensures InFamily(base, DefaultName(base, i))
  {
    if i >= 1 {
      SuffixOfDefault(base, i);
      var name := DefaultName(base, i);
      assert name[..|base|] == base;
      assert base + RETRY <= name by {
        assert name[|base|..][..6] == RETRY;
        assert name == name[..|base|] + name[|base|..];
      }
    }
  }

  lemma DefaultsDistinct(base: string, n: nat)
    ensures Distinct(DefaultNames(base, n))
  {
    forall i, j | 0 <= i < j < n ensures DefaultNames(base, n)[i] != DefaultNames(base, n)[j] {
      DefaultNamesIncrease(base, i, j);
    }
  }

  lemma FamilyIsDefaults(base: string, runs: seq<Run>, names: seq<string>, at: Contents)
    requires HoldsChain(base, runs, names, at)
    ensures multiset(FamilyOf(base, WithAttempts(names, at))) == multiset(DefaultNames(base, |runs|))
  {
    var defaults, family := DefaultNames(base, |runs|), FamilyOf(base, WithAttempts(names, at));
    WithAttemptsContents(names, at);
    FamilyContents(base, WithAttempts(names, at));
    DefaultsDistinct(base, |runs|);
    forall name ensures name in family <==> name in defaults {
      if name in family {
        var i :| 0 <= i < |runs| && name == DefaultName(base, i);
        assert defaults[i] == name;
      }
      if name in defaults {
        var i :| 0 <= i < |runs| && defaults[i] == name;
        DefaultInFamily(base, i);
      }
    }
    SameElements(family, defaults);
  }

  /** Whichever member the merge starts from, it merges just the runs of the chain, in run order. */
  lemma AnyMemberFindsTheChain(base: string, runs: seq<Run>, k: nat, names: seq<string>, at: Contents)
    requires base != "" && CleanBase(base) && k < |runs| && HoldsChain(base, runs, names, at)
    ensures var run := DefaultName(base, k);
      && FamilyOf(BaseName(run), WithAttempts(names, at)) != []
      && FamilyInOrder(run, names, at) == DefaultNames(base, |runs|)
      && RootsAt(FamilyInOrder(run, names, at), at) == RootsOf(runs)
  {
    var siblings := WithAttempts(names, at);
    FamilyBase(base, k);
    FamilyIsDefaults(base, runs, names, at);
    DefaultFamilyInRunOrder(base, |runs|, k, siblings);
    assert |multiset(FamilyOf(base, siblings))| == |multiset(DefaultNames(base, |runs|))|;
  }

  /** `row` is the last attempt under `key` of the last run that executed it. */
  ghost predicate LastExecution(runs: seq<Run>, key: Key, row: AttemptRow) {
    exists m :: ExecutedLast(runs, key, m) && LastAttempt(runs[m].attempts, key) == Some(row)
  }

  ghost predicate ExecutedLast(runs: seq<Run>, key: Key, m: int) {
    && 0 <= m < |runs| && key in Keys(runs[m].executed)
    && forall j | m < j < |runs| :: key !in Keys(runs[j].executed)
  }

  /** One row per planned key, each from the key's last execution. */
  ghost predicate HoldsLastExecutions(plan: seq<Job>, runs: seq<Run>, rows: seq<AttemptRow>) {
    && DistinctRows(rows)
    && (forall i | 0 <= i < |rows| ::
          AttemptKey(rows[i]).value in Keys(plan) && LastExecution(runs, AttemptKey(rows[i]).value, rows[i]))
    && (forall key | key in Keys(plan) :: exists i :: 0 <= i < |rows| && AttemptKey(rows[i]) == Some(key))
  }

  lemma {:induction false} LastExecutor(runs: seq<Run>, key: Key, n: nat) returns (m: nat)
    requires n <= |runs| && n > 0 && key in Keys(runs[0].executed)
    requires forall j | n <= j < |runs| :: key !in Keys(runs[j].executed)
    ensures ExecutedLast(runs, key, m)
    decreases n
  {
    if key in Keys(runs[n - 1].executed) {
      m := n - 1;
    } else {
      m := LastExecutor(runs, key, n - 1);
    }
  }

  lemma MergedIsLastExecution(plan: seq<Job>, runs: seq<Run>, key: Key, row: AttemptRow)
    requires IsChain(plan, runs) && runs != [] && key in Keys(plan)
    requires MergeRuns(runs).Some? && key in MergeRuns(runs).value.rows && MergeRuns(runs).value.rows[key] == row
    ensures LastExecution(runs, key, row)
  {
    var m := LastExecutor(runs, key, |runs|);
    MergeKeepsLastExecution(plan, runs, m, key);
    assert ExecutedLast(runs, key, m);
  }

  /** From any member run of an unbroken default family that holds a chain of at least one retry, merging succeeds and
      gives one row per planned key, each the last attempt of the last run that executed the key. */
  lemma AnyMemberMergesTheChain(base: string, plan: seq<Job>, runs: seq<Run>, k: nat, names: seq<string>, at: Contents)
    requires base != "" && CleanBase(base) && k < |runs| && HoldsChain(base, runs, names, at)
    requires IsChain(plan, runs) && |runs| >= 2
    ensures var run := DefaultName(base, k); var merged := Merged(RootsAt(FamilyInOrder(run, names, at), at));
      && FamilyOf(BaseName(run), WithAttempts(names, at)) != []
      && merged.Some? && merged.value.results.Some?
      && HoldsLastExecutions(plan, runs, merged.value.attempts)
  {
    AnyMemberFindsTheChain(base, runs, k, names, at);
    ChainArtifacts(plan, runs);
    ChainRowsAreLast(plan, runs, Merged(RootsOf(runs)).value.attempts, MergeRuns(runs).value.order);
  }

  lemma LastOfRunsIsLast(plan: seq<Job>, runs: seq<Run>, key: Key, row: AttemptRow)
    requires IsChain(plan, runs) && runs != [] && key in Keys(plan) && LastOfRuns(runs, key) == Some(row)
    ensures LastExecution(runs, key, row)
  {
    forall m | 0 <= m < |runs| ensures Keyed(runs[m]) {
      assert Records(runs[m]);
    }
    MergedValue(runs, key);
    MergedIsLastExecution(plan, runs, key, row);
  }

  ghost predicate KeyedBy(rows: seq<AttemptRow>, order: seq<Key>) {
    |rows| == |order| && forall i | 0 <= i < |rows| :: AttemptKey(rows[i]) == Some(order[i])
  }

  lemma RowsUnderKeys(rows: seq<AttemptRow>, order: seq<Key>, keys: set<Key>)
    requires KeyedBy(rows, order) && Distinct(order) && forall key :: key in order <==> key in keys
    ensures DistinctRows(rows)
    ensures forall i | 0 <= i < |rows| :: AttemptKey(rows[i]).value in keys
    ensures forall key | key in keys :: exists i :: 0 <= i < |rows| && AttemptKey(rows[i]) == Some(key)
  {
    assert forall i | 0 <= i < |order| :: order[i] in order;
    forall key | key in keys ensures exists i :: 0 <= i < |rows| && AttemptKey(rows[i]) == Some(key) {
      var i :| 0 <= i < |order| && order[i] == key;
      assert AttemptKey(rows[i]) == Some(key);
    }
  }

  lemma ChainRowsAreLast(plan: seq<Job>, runs: seq<Run>, rows: seq<AttemptRow>, order: seq<Key>)
    requires IsChain(plan, runs) && runs != [] && KeyedBy(rows, order) && Distinct(order)
    requires forall key :: key in order <==> key in Keys(plan)
    requires forall i | 0 <= i < |rows| :: Some(rows[i]) == LastOfRuns(runs, order[i])
    ensures HoldsLastExecutions(plan, runs, rows)
  {
    RowsUnderKeys(rows, order, Keys(plan));
    forall i | 0 <= i < |rows| ensures LastExecution(runs, AttemptKey(rows[i]).value, rows[i]) {
      LastOfRunsIsLast(plan, runs, AttemptKey(rows[i]).value, rows[i]);
    }
  }
}
