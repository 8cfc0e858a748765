/** What a retry executes, in terms of the rows and results of the run before (repogauge/cli.py). */
module RetryMeaning {
  import opened Wrappers
  import opened Text
  import opened RetryChain

  // ---------- seeds ----------

  ghost predicate LastColonAt(s: string, k: int) {
    0 <= k < |s| && s[k] == ':' && forall m | k < m < |s| :: s[m] != ':'
  }

  lemma {:induction false} LastColonMeans(s: string)
    ensures LastColon(s) >= 0 ==> LastColonAt(s, LastColon(s))
    ensures LastColon(s) < 0 ==> ':' !in s
  {
    if s != "" && s[|s| - 1] != ':' {
      LastColonMeans(s[..|s| - 1]);
    }
  }

  /** A job id has a seed iff something precedes its last colon and something but white space follows; the seed is what
      follows, stripped. */
  lemma SeedMeans(jobId: string)
    ensures SeedOf(jobId) == None
            <==> ':' !in jobId || exists k :: LastColonAt(jobId, k) && (k == 0 || Strip(jobId[k + 1..]) == "")
    ensures forall k | LastColonAt(jobId, k) && SeedOf(jobId).Some? :: SeedOf(jobId) == Some(Strip(jobId[k + 1..]))
  {
    LastColonMeans(jobId);
    assert forall k :: LastColonAt(jobId, k) ==> k == LastColon(jobId);
  }

  // ---------- the keys a retry takes over ----------

  /** The last row about a job; later rows of the file override earlier ones. */
  ghost predicate LastRow(rows: seq<JobRow>, key: Key, i: int) {
    && 0 <= i < |rows| && About(rows[i], key)
    && forall j | i < j < |rows| :: !About(rows[j], key)
  }

  predicate About(row: JobRow, key: Key) {
    row.instance == key.0 && row.solver == key.1 && row.seed == Some(key.2)
  }

  /** An explicit flag decides; else the status word; else whether any reason is given. */
  predicate SaysUnresolved(r: InstanceResult) {
    || r.resolved == Some(false)
    || (r.resolved == None && r.status != "" && r.status != "resolved" && r.status != "passed" && r.status != "pass")
    || (r.resolved == None && r.status == "" && r.hasReason)
  }

  ghost predicate Unresolved(results: seq<InstanceResult>, instance: string, solver: string) {
    exists j :: 0 <= j < |results| && results[j].instance == instance && results[j].solver == solver
                && SaysUnresolved(results[j])
  }

  predicate Retryable(status: string) {
    status == "failed" || status == "timed_out" || status == "invalid_patch" || status == "budget_exceeded"
  }

  /** Its last row is retryable, or its instance is unresolved for its solver. */
  ghost predicate NeedsRetry(rows: seq<JobRow>, results: seq<InstanceResult>, key: Key) {
    exists i :: LastRow(rows, key, i) && (Retryable(rows[i].status) || Unresolved(results, key.0, key.1))
  }

  ghost predicate Defective(row: JobRow) {
    row.instance == "" || row.solver == "" || row.status == "" || row.seed == None
  }

  lemma {:induction false} FinalStatusMeans(rows: seq<JobRow>, key: Key)
    ensures FinalStatus(rows) == None <==> exists i :: 0 <= i < |rows| && Defective(rows[i])
    ensures FinalStatus(rows).Some? ==> (key in FinalStatus(rows).value <==> exists i :: LastRow(rows, key, i))
    ensures forall i | FinalStatus(rows).Some? && LastRow(rows, key, i) ::
      key in FinalStatus(rows).value && FinalStatus(rows).value[key] == rows[i].status
  {
    if rows != [] {
      var n := |rows| - 1;
      FinalStatusMeans(rows[..n], key);
      assert rows == rows[..n] + [rows[n]];
      if About(rows[n], key) {
        assert LastRow(rows, key, n);
      } else {
        assert forall i :: LastRow(rows[..n], key, i) <==> LastRow(rows, key, i);
      }
      if i :| 0 <= i < |rows| && Defective(rows[i]) {
        assert i < n ==> Defective(rows[..n][i]);
      }
    }
  }

  lemma UnresolvedMeans(results: seq<InstanceResult>, instance: string, solver: string)
    requires instance != "" && solver != ""
    ensures (instance, solver) in UnresolvedPairs(results) <==> Unresolved(results, instance, solver)
  {
  }

  /** The keys a retry takes over: an error iff some row is defective; else exactly the jobs that need it. */
  lemma FailureKeysMean(rows: seq<JobRow>, results: seq<InstanceResult>, key: Key)
    ensures FailureKeys(rows, results) == None <==> exists i :: 0 <= i < |rows| && Defective(rows[i])
    ensures FailureKeys(rows, results).Some? ==>
              (key in FailureKeys(rows, results).value <==> NeedsRetry(rows, results, key))
  {
    FinalStatusMeans(rows, key);
    if FinalStatus(rows).Some? {
      if i :| LastRow(rows, key, i) {
        assert !Defective(rows[i]);
        UnresolvedMeans(results, key.0, key.1);
        assert forall j :: LastRow(rows, key, j) ==> j == i;
      }
    }
  }

  // ---------- along a chain ----------

  lemma {:induction false} SelectedMeans(plan: seq<Job>, keys: set<Key>, job: Job)
    ensures job in Selected(plan, keys) <==> job in plan && (job.instance, job.solver, job.seed) in keys
    ensures multiset(Selected(plan, keys))[job]
         == if (job.instance, job.solver, job.seed) in keys then multiset(plan)[job] else 0
  {
    if plan != [] {
      var n := |plan| - 1;
      SelectedMeans(plan[..n], keys, job);
      assert plan == plan[..n] + [plan[n]];
    }
  }

  /** A retry executes exactly the planned jobs that need it after the run before, each as often as planned. */
  lemma RetryMeans(plan: seq<Job>, runs: seq<Run>, k: nat, job: Job)
    requires IsChain(plan, runs) && k + 1 < |runs|
    ensures multiset(runs[k + 1].executed)[job]
         == if NeedsRetry(runs[k].rows, runs[k].results, (job.instance, job.solver, job.seed))
            then multiset(plan)[job] else 0
  {
    var m := k + 1;
    assert Retries(plan, runs[k], runs[m]);
    FailureKeysMean(runs[k].rows, runs[k].results, (job.instance, job.solver, job.seed));
    SelectedMeans(plan, FailureKeys(runs[k].rows, runs[k].results).value, job);
  }

  /** Jobs, their rows and their attempts go by the same instance, solver and seed. */
  lemma OneKey(job: Job, row: JobRow, attempt: AttemptRow, key: Key)
    ensures JobKey(job) == key <==> job.instance == key.0 && job.solver == key.1 && job.seed == key.2
    ensures RowKey(row) == Some(key) <==> !Defective(row) && About(row, key)
    ensures AttemptKey(attempt) == Some(key) <==>
      && key.0 != "" && key.1 != ""
      && attempt.instance == key.0 && attempt.solver == key.1 && attempt.seed == Some(key.2)
  {
  }
}
