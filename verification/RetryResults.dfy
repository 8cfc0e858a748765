/** Which instance results a merged family holds (`_merge_retry_family_artifacts` in repogauge/cli.py). */
module RetryResults {
  import opened Wrappers
  import opened RetryChain
  import opened RetryFamily

  // ---------- when there are any ----------

  lemma {:induction false} AddRootsMeans(roots: seq<Root>)
    requires AddRoots(roots).Some?
    ensures AddRoots(roots).value.any <==> exists k :: 0 <= k < |roots| && roots[k].attempts.Some?
    ensures AddRoots(roots).value.complete
            <==> forall k | 0 <= k < |roots| && roots[k].attempts.Some? :: roots[k].results.Some?
  {
    if roots != [] {
      var n := |roots| - 1;
      AddRootsMeans(roots[..n]);
      assert roots == roots[..n] + [roots[n]];
    }
  }

  /** Of a family of several runs, results are written iff some run has attempts and every run that has them also has
      results; a run without attempts does not count. */
  lemma ResultsIff(roots: seq<Root>)
    requires |roots| >= 2 && Merged(roots).Some?
    ensures Merged(roots).value.results.Some? <==>
      && (exists k :: 0 <= k < |roots| && roots[k].attempts.Some?)
      && forall k | 0 <= k < |roots| && roots[k].attempts.Some? :: roots[k].results.Some?
  {
    AddRootsMeans(roots);
  }

  // ---------- which ones ----------

  /** The results of all runs that have attempts, one after the other. */
  function AllResults(roots: seq<Root>): seq<InstanceResult> {
    if roots == [] then []
    else
      var before, last := AllResults(roots[..|roots| - 1]), roots[|roots| - 1];
      if last.attempts.Some? && last.results.Some? then before + last.results.value else before
  }

  ghost predicate LastFor(results: seq<InstanceResult>, pair: Pair, i: int) {
    0 <= i < |results| && For(results[i], pair) && forall j | i < j < |results| :: !For(results[j], pair)
  }

  predicate For(r: InstanceResult, pair: Pair) {
    r.solver == pair.0 && r.instance == pair.1 && r.solver != "" && r.instance != ""
  }

  ghost predicate GoodResults(d: ResultDict) {
    && (forall i, j | 0 <= i < j < |d.order| :: d.order[i] != d.order[j])
    && (forall pair :: pair in d.order <==> pair in d.rows)
  }

  lemma {:induction false} AddResultRowsGood(d: ResultDict, results: seq<InstanceResult>)
    requires GoodResults(d)
    ensures GoodResults(AddResultRows(d, results))
  {
    if results != [] {
      AddResultRowsGood(d, results[..|results| - 1]);
    }
  }

  lemma {:induction false} AddResultRowsTwice(d: ResultDict, a: seq<InstanceResult>, b: seq<InstanceResult>)
    ensures AddResultRows(AddResultRows(d, a), b) == AddResultRows(d, a + b)
  {
    if b == [] {
      assert a + b == a;
    } else {
      AddResultRowsTwice(d, a, b[..|b| - 1]);
      assert (a + b)[..|a + b| - 1] == a + b[..|b| - 1];
    }
  }

  lemma {:induction false} AddRootsResults(roots: seq<Root>)
    requires AddRoots(roots).Some?
    ensures AddRoots(roots).value.results == AddResultRows(NO_RESULTS, AllResults(roots))
  {
    if roots != [] {
      var n := |roots| - 1;
      AddRootsResults(roots[..n]);
      if roots[n].attempts.Some? && roots[n].results.Some? {
        AddResultRowsTwice(NO_RESULTS, AllResults(roots[..n]), roots[n].results.value);
      }
    }
  }

  lemma {:induction false} ResultValue(results: seq<InstanceResult>, pair: Pair)
    ensures pair in AddResultRows(NO_RESULTS, results).rows <==> exists i :: LastFor(results, pair, i)
    ensures forall i | LastFor(results, pair, i) ::
      pair in AddResultRows(NO_RESULTS, results).rows && AddResultRows(NO_RESULTS, results).rows[pair] == results[i]
  {
    if results != [] {
      var n := |results| - 1;
      ResultValue(results[..n], pair);
      if For(results[n], pair) {
        assert LastFor(results, pair, n);
      } else {
        assert forall i :: LastFor(results[..n], pair, i) ==> LastFor(results, pair, i);
        assert forall i :: LastFor(results, pair, i) ==> LastFor(results[..n], pair, i);
      }
    }
  }

  /** The merged results: for every solver and instance that any result names, exactly the last such result. */
  lemma MergedResultsMean(roots: seq<Root>, pair: Pair)
    requires |roots| >= 2 && Merged(roots).Some? && Merged(roots).value.results.Some?
    ensures var all, merged := AllResults(roots), Merged(roots).value.results.value;
      && (forall m | 0 <= m < |merged| && For(merged[m], pair) ::
            exists i :: LastFor(all, pair, i) && merged[m] == all[i])
      && (forall i | LastFor(all, pair, i) :: exists m :: 0 <= m < |merged| && merged[m] == all[i])
      && (forall m, k | 0 <= m < k < |merged| :: !(For(merged[m], pair) && For(merged[k], pair)))
  {
    var all := AllResults(roots);
    var d := AddRoots(roots).value.results;
    AddRootsResults(roots);
    AddResultRowsGood(NO_RESULTS, all);
    forall m | 0 <= m < |d.order| ensures d.order[m] in d.rows {
      assert d.order[m] in d.order;
    }
    ValuesAt(d.order, d.rows);
    var merged := Merged(roots).value.results.value;
    forall m | 0 <= m < |merged| ensures For(merged[m], d.order[m]) {
      ResultValue(all, d.order[m]);
    }
    ResultValue(all, pair);
    if i :| LastFor(all, pair, i) {
      assert pair in d.order;
      var m :| 0 <= m < |d.order| && d.order[m] == pair;
      assert merged[m] == all[i];
      assert forall j :: LastFor(all, pair, j) ==> j == i;
    }
  }
}
