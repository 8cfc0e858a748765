/** Merging the artefacts of a retry family (`_merge_retry_family_artifacts` in repogauge/cli.py): the files of the
    runs in run order, some of which may be missing, become one attempts file and one instance-results file. */
module RetryFamily {
  import opened Wrappers
  import opened RetryChain

  /** The artefacts found in one run directory. */
  datatype Root = Root(attempts: Option<seq<AttemptRow>>, results: Option<seq<InstanceResult>>)

  datatype Artifacts = Artifacts(attempts: seq<AttemptRow>, results: Option<seq<InstanceResult>>)

  /** (solver, instance) */
  type Pair = (string, string)

  /** A Python dictionary of results: pairs in order of first appearance. */
  datatype ResultDict = ResultDict(order: seq<Pair>, rows: map<Pair, InstanceResult>)

  const NO_ATTEMPTS := Dict([], map[])
  const NO_RESULTS := ResultDict([], map[])

  function SetResult(d: ResultDict, r: InstanceResult): ResultDict {
    var pair := (r.solver, r.instance);
    ResultDict(if pair in d.rows then d.order else d.order + [pair], d.rows[pair := r])
  }

  function AddResultRows(d: ResultDict, results: seq<InstanceResult>): ResultDict {
    if results == [] then d
    else
      var before := AddResultRows(d, results[..|results| - 1]);
      var last := results[|results| - 1];
      if Named(last) then SetResult(before, last) else before
  }

  /** `list(d.values())` */
  function Values<K, V>(order: seq<K>, rows: map<K, V>): seq<V> {
    if order == [] then []
    else
      var before := Values(order[..|order| - 1], rows);
      if order[|order| - 1] in rows then before + [rows[order[|order| - 1]]] else before
  }

  // ---------- what the function returns ----------

  /** The two dictionaries after some runs, whether any run was merged, and whether every merged one had results. */
  datatype State = State(attempts: Dict, results: ResultDict, any: bool, complete: bool)

  function AddRoot(st: State, root: Root): Option<State> {
    match root.attempts
    case None => Some(st)
    case Some(rows) =>
      match AddRows(st.attempts, rows)
      case None => None
      case Some(d) =>
        match root.results
        case None => Some(State(d, st.results, true, false))
        case Some(results) => Some(State(d, AddResultRows(st.results, results), true, st.complete))
  }

  function AddRoots(roots: seq<Root>): Option<State> {
    if roots == [] then Some(State(NO_ATTEMPTS, NO_RESULTS, false, true))
    else
      match AddRoots(roots[..|roots| - 1])
      case None => None
      case Some(st) => AddRoot(st, roots[|roots| - 1])
  }

  /** A family of one run is passed on as it is; a larger one is merged, with instance results only if no merged run
      lacks them. `None` is a raised error: a defective row, or a single run without attempts. */
  function Merged(roots: seq<Root>): Option<Artifacts> {
    if |roots| == 1 then
      match roots[0].attempts
      case None => None
      case Some(rows) => Some(Artifacts(rows, roots[0].results))
    else
      match AddRoots(roots)
      case None => None
      case Some(st) =>
        Some(Artifacts(Values(st.attempts.order, st.attempts.rows),
                       if st.any && st.complete then Some(Values(st.results.order, st.results.rows)) else None))
  }

  // ---------- the method ----------

  method AddAttempts(start: Dict, rows: seq<AttemptRow>) returns (d: Option<Dict>)
    ensures d == AddRows(start, rows)
  {
    var current := start;
    for i := 0 to |rows|
      invariant AddRows(start, rows[..i]) == Some(current)
    {
      assert rows[..i + 1][..i] == rows[..i];
      var key := AttemptKey(rows[i]);
      if key == None {
        BadRowStays(start, rows, i);
        return None;
      }
      current := SetRow(current, key.value, rows[i]);
    }
    assert rows[..|rows|] == rows;
    d := Some(current);
  }

  method AddResultsTo(start: ResultDict, results: seq<InstanceResult>) returns (d: ResultDict)
    ensures d == AddResultRows(start, results)
  {
    d := start;
    for i := 0 to |results|
      invariant d == AddResultRows(start, results[..i])
    {
      assert results[..i + 1][..i] == results[..i];
      if results[i].solver != "" && results[i].instance != "" {
        d := SetResult(d, results[i]);
      }
    }
    assert results[..|results|] == results;
  }

  lemma {:induction false} BadRootStays(roots: seq<Root>, k: nat)
    requires k < |roots| && AddRoots(roots[..k + 1]) == None
    ensures AddRoots(roots) == None
  {
    var n := |roots| - 1;
    if k < n {
      assert roots[..n][..k + 1] == roots[..k + 1];
      BadRootStays(roots[..n], k);
    } else {
      assert roots[..k + 1] == roots;
    }
  }

  /** The loop over the runs: dictionary entries are overwritten row by row, run by run. */
  method MergeRoots(roots: seq<Root>) returns (r: Option<State>)
    ensures r == AddRoots(roots)
  {
    var st := State(NO_ATTEMPTS, NO_RESULTS, false, true);
    for k := 0 to |roots|
      invariant AddRoots(roots[..k]) == Some(st)
    {
      assert roots[..k + 1][..k] == roots[..k];
      if roots[k].attempts.Some? {
        var attempts := AddAttempts(st.attempts, roots[k].attempts.value);
        if attempts == None {
          BadRootStays(roots, k);
          return None;
        }
        if roots[k].results == None {
          st := State(attempts.value, st.results, true, false);
        } else {
          var results := AddResultsTo(st.results, roots[k].results.value);
          st := State(attempts.value, results, true, st.complete);
        }
      }
    }
    assert roots[..|roots|] == roots;
    r := Some(st);
  }

  /** `_merge_retry_family_artifacts`; discovery never gives it an empty family. */
  method MergeArtifacts(roots: seq<Root>) returns (r: Option<Artifacts>)
    requires roots != []
    ensures r == Merged(roots)
  {
    if |roots| == 1 {
      if roots[0].attempts == None {
        return None;
      }
      return Some(Artifacts(roots[0].attempts.value, roots[0].results));
    }
    var st := MergeRoots(roots);
    if st == None {
      return None;
    }
    var results := None;
    if st.value.any && st.value.complete {
      results := Some(Values(st.value.results.order, st.value.results.rows));
    }
    r := Some(Artifacts(Values(st.value.attempts.order, st.value.attempts.rows), results));
  }

  // ---------- dictionaries ----------

  /** Keys once each, exactly those with a row, and each row under its own key. */
  ghost predicate Good(d: Dict) {
    && (forall i, j | 0 <= i < j < |d.order| :: d.order[i] != d.order[j])
    && (forall key :: key in d.order <==> key in d.rows)
    && (forall key | key in d.rows :: AttemptKey(d.rows[key]) == Some(key))
  }

  lemma SetRowGood(d: Dict, key: Key, row: AttemptRow)
    requires Good(d) && AttemptKey(row) == Some(key)
    ensures Good(SetRow(d, key, row))
  {
    var next := SetRow(d, key, row);
    assert key !in d.rows ==> key !in d.order;
    forall other ensures other in next.order <==> other in next.rows {
      assert other in d.order <==> other in d.rows;
    }
  }

  lemma {:induction false} AddRowsGood(d: Dict, rows: seq<AttemptRow>)
    requires Good(d) && AddRows(d, rows).Some?
    ensures Good(AddRows(d, rows).value)
  {
    if rows != [] {
      var n := |rows| - 1;
      AddRowsGood(d, rows[..n]);
      SetRowGood(AddRows(d, rows[..n]).value, AttemptKey(rows[n]).value, rows[n]);
    }
  }

  lemma {:induction false} ValuesAt<K, V>(order: seq<K>, rows: map<K, V>)
    requires forall i | 0 <= i < |order| :: order[i] in rows
    ensures |Values(order, rows)| == |order|
    ensures forall i | 0 <= i < |order| :: Values(order, rows)[i] == rows[order[i]]
  {
    if order != [] {
      ValuesAt(order[..|order| - 1], rows);
    }
  }

  // ---------- the single-run shortcut ----------

  /** Every row has a key, and no two the same. */
  ghost predicate DistinctRows(rows: seq<AttemptRow>) {
    && (forall i | 0 <= i < |rows| :: AttemptKey(rows[i]).Some?)
    && (forall i, j | 0 <= i < j < |rows| :: AttemptKey(rows[i]) != AttemptKey(rows[j]))
  }

  lemma {:induction false} DistinctMerge(rows: seq<AttemptRow>)
    requires DistinctRows(rows)
    ensures AddRows(NO_ATTEMPTS, rows).Some?
    ensures var d := AddRows(NO_ATTEMPTS, rows).value;
      |d.order| == |rows|
      && forall i | 0 <= i < |rows| :: d.order[i] == AttemptKey(rows[i]).value && d.order[i] in d.rows
                                       && d.rows[d.order[i]] == rows[i]
  {
    if rows != [] {
      var n := |rows| - 1;
      DistinctMerge(rows[..n]);
      var d := AddRows(NO_ATTEMPTS, rows[..n]).value;
      AddRowsGood(NO_ATTEMPTS, rows[..n]);
      assert AttemptKey(rows[n]).value !in d.order;
    }
  }

  /** Passing a single run's attempts on unmerged makes no difference iff merging would keep every row: each has a key
      of its own. */
  lemma ShortcutAgreesIff(rows: seq<AttemptRow>)
    ensures (var d := AddRows(NO_ATTEMPTS, rows); d.Some? && Values(d.value.order, d.value.rows) == rows)
            <==> DistinctRows(rows)
  {
    var d := AddRows(NO_ATTEMPTS, rows);
    if DistinctRows(rows) {
      DistinctMerge(rows);
      ValuesAt(d.value.order, d.value.rows);
    } else if d.Some? && Values(d.value.order, d.value.rows) == rows {
      AddRowsGood(NO_ATTEMPTS, rows);
      assert forall i | 0 <= i < |d.value.order| :: d.value.order[i] in d.value.order;
      ValuesAt(d.value.order, d.value.rows);
      KeyedByOrder(d.value, rows);
      assert false;
    }
  }

  lemma KeyedByOrder(d: Dict, rows: seq<AttemptRow>)
    requires Good(d) && |rows| == |d.order|
    requires forall i | 0 <= i < |rows| :: d.order[i] in d.rows && rows[i] == d.rows[d.order[i]]
    ensures DistinctRows(rows)
  {
    forall i | 0 <= i < |rows| ensures AttemptKey(rows[i]) == Some(d.order[i]) {
    }
  }

  // ---------- a family that is a chain of retries ----------

  function RootsOf(runs: seq<Run>): (roots: seq<Root>)
    ensures |roots| == |runs|
    ensures forall k | 0 <= k < |runs| :: roots[k] == Root(Some(runs[k].attempts), Some(runs[k].results))
  {
    if runs == [] then []
    else
      RootsOf(runs[..|runs| - 1]) + [Root(Some(runs[|runs| - 1].attempts), Some(runs[|runs| - 1].results))]
  }

  lemma {:induction false} SameResults(d: ResultDict, results: seq<InstanceResult>)
    ensures AddResultRows(d, results).rows == AddResults(d.rows, results)
  {
    if results != [] {
      SameResults(d, results[..|results| - 1]);
    }
  }

  lemma {:induction false} ChainState(plan: seq<Job>, runs: seq<Run>)
    requires IsChain(plan, runs)
    ensures MergeRuns(runs).Some? && AddRoots(RootsOf(runs)).Some?
    ensures var st := AddRoots(RootsOf(runs)).value;
      && st.attempts == MergeRuns(runs).value && Good(st.attempts) && st.results.rows == MergeResults(runs)
      && st.complete && (st.any <==> runs != [])
  {
    MergeSucceeds(plan, runs);
    if runs != [] {
      var n := |runs| - 1;
      ChainPrefix(plan, runs, n);
      ChainState(plan, runs[..n]);
      assert RootsOf(runs)[..n] == RootsOf(runs[..n]);
      var st := AddRoots(RootsOf(runs[..n])).value;
      AddRowsGood(st.attempts, runs[n].attempts);
      SameResults(st.results, runs[n].results);
    }
  }

  /** Merging a chain of retries never raises and writes both files: one attempt row per planned key, in the order of
      the first run, each the last attempt of the last run that executed the key. */
  lemma ChainArtifacts(plan: seq<Job>, runs: seq<Run>)
    requires IsChain(plan, runs) && |runs| >= 2
    ensures Merged(RootsOf(runs)).Some? && MergeRuns(runs).Some? && MergeRuns(runs[..1]).Some?
    ensures var a, order := Merged(RootsOf(runs)).value, MergeRuns(runs).value.order;
      && a.results.Some? && |a.attempts| == |order| && order == MergeRuns(runs[..1]).value.order
      && (forall i, j | 0 <= i < j < |order| :: order[i] != order[j])
      && (forall key :: key in order <==> key in Keys(plan))
      && forall i | 0 <= i < |order| ::
           AttemptKey(a.attempts[i]) == Some(order[i]) && Some(a.attempts[i]) == LastOfRuns(runs, order[i])
  {
    ChainState(plan, runs);
    MergedOrder(plan, runs);
    ChainRows(plan, runs, MergeRuns(runs).value);
  }

  lemma ChainRows(plan: seq<Job>, runs: seq<Run>, d: Dict)
    requires IsChain(plan, runs) && MergeRuns(runs) == Some(d) && Good(d)
    ensures var rows := Values(d.order, d.rows);
      && |rows| == |d.order|
      && forall i | 0 <= i < |rows| ::
           AttemptKey(rows[i]) == Some(d.order[i]) && Some(rows[i]) == LastOfRuns(runs, d.order[i])
  {
    assert forall i | 0 <= i < |d.order| :: d.order[i] in d.order;
    ValuesAt(d.order, d.rows);
    forall key | key in d.rows ensures LastOfRuns(runs, key) == Some(d.rows[key]) {
      ChainValue(plan, runs, key);
    }
  }

  lemma ChainValue(plan: seq<Job>, runs: seq<Run>, key: Key)
    requires IsChain(plan, runs) && MergeRuns(runs).Some? && key in MergeRuns(runs).value.rows
    ensures LastOfRuns(runs, key) == Some(MergeRuns(runs).value.rows[key])
  {
    forall m | 0 <= m < |runs| ensures Keyed(runs[m]) {
      assert Records(runs[m]);
    }
    MergedValue(runs, key);
  }
}
