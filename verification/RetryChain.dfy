/** Retry chains (repogauge/cli.py): which jobs a retry of a run executes, and how the runs of a family are merged.
    Rows are as read back: text fields stripped, the seed already parsed out of the job id (`ReadJobRow`), statuses
    of instance results also lower-cased. */
module RetryChain {
  import opened Wrappers
  import opened Text

  /** (instance, solver, seed) */
  type Key = (string, string, string)

  datatype Job = Job(instance: string, solver: string, seed: string)

  datatype RawJobRow = RawJobRow(jobId: string, instance: string, solver: string, status: string)

  datatype JobRow = JobRow(instance: string, solver: string, seed: Option<string>, status: string)

  datatype AttemptRow = AttemptRow(instance: string, solver: string, seed: Option<string>, payload: string)

  datatype InstanceResult = InstanceResult(instance: string, solver: string, resolved: Option<bool>, status: string,
                                           hasReason: bool, payload: string)

  const RETRYABLE := {"failed", "timed_out", "invalid_patch", "budget_exceeded"}

  function JobKey(job: Job): Key {
    (job.instance, job.solver, job.seed)
  }

  // ---------- the seed in a job id ----------

  function LastColon(s: string): (n: int)
    ensures -1 <= n < |s| && (n >= 0 ==> s[n] == ':')
  {
    if s == "" then -1 else if s[|s| - 1] == ':' then |s| - 1 else LastColon(s[..|s| - 1])
  }

  /** `_job_seed_from_job_id`: the stripped text after the last colon; the text before it must not be empty. */
  function SeedOf(jobId: string): Option<string> {
    var colon := LastColon(jobId);
    if colon <= 0 || Strip(jobId[colon + 1..]) == "" then None else Some(Strip(jobId[colon + 1..]))
  }

  /** The planner's job id. */
  function JobId(runId: string, job: Job): string {
    runId + ":" + job.instance + ":" + job.solver + ":" + job.seed
  }

  predicate IsSeed(seed: string) {
    seed != "" && ':' !in seed && Stripped(seed)
  }

  lemma {:induction false} LastColonAppend(s: string, tail: string)
    requires ':' !in tail
    ensures LastColon(s + ":" + tail) == |s|
  {
    var all := s + ":" + tail;
    if tail == "" {
      assert all[|all| - 1] == ':';
    } else {
      assert all[..|all| - 1] == s + ":" + tail[..|tail| - 1];
      assert all[|all| - 1] == tail[|tail| - 1];
      LastColonAppend(s, tail[..|tail| - 1]);
    }
  }

  /** The seed survives the round trip through the job id, whatever colons the other parts contain. */
  lemma SeedRoundTrip(runId: string, job: Job)
    requires IsSeed(job.seed)
    ensures SeedOf(JobId(runId, job)) == Some(job.seed)
  {
    var head := runId + ":" + job.instance + ":" + job.solver;
    assert JobId(runId, job) == head + ":" + job.seed;
    LastColonAppend(head, job.seed);
    assert JobId(runId, job)[|head| + 1..] == job.seed;
    StripFixed(job.seed);
  }

  /** The row a job leaves behind, and reading a row back. */
  function WriteJobRow(runId: string, job: Job, status: string): RawJobRow {
    RawJobRow(JobId(runId, job), job.instance, job.solver, status)
  }

  function ReadJobRow(raw: RawJobRow): JobRow {
    JobRow(Strip(raw.instance), Strip(raw.solver), SeedOf(Strip(raw.jobId)), Strip(raw.status))
  }

  /** A job's row is read back under the job's planned key iff the planned ids have no outer whitespace: a job
      planned with such an id is never matched by a retry. */
  lemma RowMatchesPlanIff(runId: string, job: Job, status: string)
    requires runId != "" && Stripped(runId) && IsSeed(job.seed) && Strip(status) != ""
    requires Strip(job.instance) != "" && Strip(job.solver) != ""
    ensures RowKey(ReadJobRow(WriteJobRow(runId, job, status))) == Some(JobKey(job))
            <==> Stripped(job.instance) && Stripped(job.solver)
  {
    JobIdStripped(runId, job);
    StripIsStripped(job.instance);
    StripIsStripped(job.solver);
    SeedRoundTrip(runId, job);
    if Stripped(job.instance) && Stripped(job.solver) {
      StripFixed(job.instance);
      StripFixed(job.solver);
    }
  }

  lemma JobIdStripped(runId: string, job: Job)
    requires runId != "" && Stripped(runId) && IsSeed(job.seed)
    ensures Strip(JobId(runId, job)) == JobId(runId, job)
  {
    var id := JobId(runId, job);
    assert id[0] == runId[0] && id[|id| - 1] == job.seed[|job.seed| - 1];
    StripFixed(id);
  }

  // ---------- the keys a retry takes over ----------

  function RowKey(row: JobRow): Option<Key> {
    if row.instance == "" || row.solver == "" || row.status == "" || row.seed == None then None
    else Some((row.instance, row.solver, row.seed.value))
  }

  predicate Unsuccessful(r: InstanceResult) {
    if r.resolved.Some? then !r.resolved.value
    else if r.status in {"resolved", "passed", "pass"} then false
    else r.status != "" || r.hasReason
  }

  /** `final_status_by_key`: the last row of a key counts; a defective row is an error, here `None`. */
  function FinalStatus(rows: seq<JobRow>): Option<map<Key, string>> {
    if rows == [] then Some(map[])
    else
      match FinalStatus(rows[..|rows| - 1])
      case None => None
      case Some(m) =>
        var last := rows[|rows| - 1];
        if RowKey(last) == None then None else Some(m[RowKey(last).value := last.status])
  }

  function UnresolvedPairs(results: seq<InstanceResult>): set<(string, string)> {
    set i | 0 <= i < |results| && results[i].instance != "" && results[i].solver != "" && Unsuccessful(results[i])
      :: (results[i].instance, results[i].solver)
  }

  /** A job has failed if its final status is retryable or its instance is unresolved for its solver. */
  function FailureKeys(rows: seq<JobRow>, results: seq<InstanceResult>): Option<set<Key>> {
    match FinalStatus(rows)
    case None => None
    case Some(m) => Some(set key | key in m && (m[key] in RETRYABLE || (key.0, key.1) in UnresolvedPairs(results)))
  }

  /** `_load_retry_failure_keys`; a missing results file is an empty list. */
  method LoadRetryFailureKeys(rows: seq<JobRow>, results: seq<InstanceResult>) returns (r: Option<set<Key>>)
    ensures r == FailureKeys(rows, results)
  {
    var status: map<Key, string> := map[];
    for i := 0 to |rows|
      invariant FinalStatus(rows[..i]) == Some(status)
    {
      assert rows[..i + 1][..i] == rows[..i];
      var key := RowKey(rows[i]);
      if key == None {
        DefectStays(rows, i);
        return None;
      }
      status := status[key.value := rows[i].status];
    }
    assert rows[..|rows|] == rows;
    var failures := set key | key in status && status[key] in RETRYABLE;
    var pairs: set<(string, string)> := {};
    for i := 0 to |results|
      invariant pairs == UnresolvedPairs(results[..i])
    {
      PairsAppend(results, i);
      if results[i].instance != "" && results[i].solver != "" && Unsuccessful(results[i]) {
        pairs := pairs + {(results[i].instance, results[i].solver)};
      }
    }
    assert results[..|results|] == results;
    assert FinalStatus(rows) == Some(status);
    var unresolved := set key | key in status && (key.0, key.1) in pairs;
    assert failures + unresolved
        == set key | key in status && (status[key] in RETRYABLE || (key.0, key.1) in UnresolvedPairs(results));
    r := Some(failures + unresolved);
  }

  lemma PairsAppend(results: seq<InstanceResult>, i: nat)
    requires i < |results|
    ensures UnresolvedPairs(results[..i + 1])
         == UnresolvedPairs(results[..i])
          + if results[i].instance != "" && results[i].solver != "" && Unsuccessful(results[i])
            then {(results[i].instance, results[i].solver)} else {}
  {
    assert results[..i + 1] == results[..i] + [results[i]];
  }

  lemma {:induction false} DefectStays(rows: seq<JobRow>, i: nat)
    requires i < |rows| && RowKey(rows[i]) == None
    ensures FinalStatus(rows) == None
  {
    var n := |rows| - 1;
    if i < n {
      DefectStays(rows[..n], i);
    }
  }

  // ---------- chains of retries ----------

  /** Planned jobs whose key is among `keys`, in plan order: the retry filter. */
  function Selected(plan: seq<Job>, keys: set<Key>): seq<Job> {
    if plan == [] then []
    else
      var before := Selected(plan[..|plan| - 1], keys);
      if JobKey(plan[|plan| - 1]) in keys then before + [plan[|plan| - 1]] else before
  }

  function Keys(jobs: seq<Job>): set<Key> {
    set i | 0 <= i < |jobs| :: JobKey(jobs[i])
  }

  datatype Run = Run(executed: seq<Job>, rows: seq<JobRow>, results: seq<InstanceResult>,
                     attempts: seq<AttemptRow>)

  /** A run records each executed job under its key, and nothing but executed jobs. */
  ghost predicate Records(run: Run) {
    && (forall i | 0 <= i < |run.rows| :: RowKey(run.rows[i]).Some? && RowKey(run.rows[i]).value in Keys(run.executed))
    && (forall key | key in Keys(run.executed) :: exists i :: 0 <= i < |run.rows| && RowKey(run.rows[i]) == Some(key))
    && (forall i | 0 <= i < |run.attempts| ::
          AttemptKey(run.attempts[i]).Some? && AttemptKey(run.attempts[i]).value in Keys(run.executed))
    && (forall key | key in Keys(run.executed) ::
          exists i :: 0 <= i < |run.attempts| && AttemptKey(run.attempts[i]) == Some(key))
  }

  /** `next` executes what the retry filter selects from `prior`; a retry with nothing to select is refused. */
  ghost predicate Retries(plan: seq<Job>, prior: Run, next: Run) {
    && FailureKeys(prior.rows, prior.results).Some?
    && next.executed == Selected(plan, FailureKeys(prior.rows, prior.results).value)
    && next.executed != []
  }

  /** The first run executes the plan, each later one retries the run before. */
  ghost predicate IsChain(plan: seq<Job>, runs: seq<Run>) {
    && (forall k | 0 <= k < |runs| :: Records(runs[k]))
    && (|runs| > 0 ==> runs[0].executed == plan)
    && (forall k, m | 0 <= k < |runs| && m == k + 1 && m < |runs| :: Retries(plan, runs[k], runs[m]))
  }

  lemma {:induction false} FinalStatusKeys(rows: seq<JobRow>)
    requires forall i | 0 <= i < |rows| :: RowKey(rows[i]).Some?
    ensures FinalStatus(rows).Some?
    ensures FinalStatus(rows).value.Keys == set i | 0 <= i < |rows| :: RowKey(rows[i]).value
  {
    if rows != [] {
      var n := |rows| - 1;
      FinalStatusKeys(rows[..n]);
      assert rows == rows[..n] + [rows[n]];
    }
  }

  lemma {:induction false} SelectedContents(plan: seq<Job>, keys: set<Key>)
    ensures Keys(Selected(plan, keys)) == Keys(plan) * keys
  {
    if plan != [] {
      var n := |plan| - 1;
      SelectedContents(plan[..n], keys);
      KeysAppend(plan[..n], plan[n]);
      KeysAppend(Selected(plan[..n], keys), plan[n]);
      assert plan == plan[..n] + [plan[n]];
    }
  }

  lemma KeysAppend(jobs: seq<Job>, job: Job)
    ensures Keys(jobs + [job]) == Keys(jobs) + {JobKey(job)}
  {
    var all := jobs + [job];
    assert all[|jobs|] == job && forall i | 0 <= i < |jobs| :: all[i] == jobs[i];
  }

  lemma ExecutedFromPlan(plan: seq<Job>, runs: seq<Run>, k: nat)
    requires IsChain(plan, runs) && k < |runs|
    ensures Keys(runs[k].executed) <= Keys(plan)
  {
    if k > 0 {
      assert Retries(plan, runs[k - 1], runs[k]);
      SelectedContents(plan, FailureKeys(runs[k - 1].rows, runs[k - 1].results).value);
    }
  }

  /** What a run records under keys: its executed jobs. */
  lemma RecordedKeys(run: Run)
    requires Records(run)
    ensures FinalStatus(run.rows).Some? && FinalStatus(run.rows).value.Keys == Keys(run.executed)
  {
    FinalStatusKeys(run.rows);
  }

  ghost function Failed(run: Run): set<Key>
    requires FailureKeys(run.rows, run.results).Some?
  {
    FailureKeys(run.rows, run.results).value
  }

  // ---------- main results on chains ----------

  /** Run k+1 executes exactly the keys that failed in run k; so what is executed, and what fails, only shrinks. */
  lemma RetryExecutesFailures(plan: seq<Job>, runs: seq<Run>, k: nat)
    requires IsChain(plan, runs) && k < |runs|
    ensures FailureKeys(runs[k].rows, runs[k].results).Some? && Failed(runs[k]) <= Keys(runs[k].executed)
    ensures k + 1 < |runs| ==>
      && Keys(runs[k + 1].executed) == Failed(runs[k])
      && FailureKeys(runs[k + 1].rows, runs[k + 1].results).Some? && Failed(runs[k + 1]) <= Failed(runs[k])
  {
    RecordedKeys(runs[k]);
    ExecutedFromPlan(plan, runs, k);
    if k + 1 < |runs| {
      var m := k + 1;
      assert Retries(plan, runs[k], runs[m]);
      RecordedKeys(runs[m]);
      SelectedContents(plan, Failed(runs[k]));
    }
  }

  lemma ExecutedShrinks(plan: seq<Job>, runs: seq<Run>, k: nat)
    requires IsChain(plan, runs) && k + 1 < |runs|
    ensures Keys(runs[k + 1].executed) <= Keys(runs[k].executed)
  {
    RetryExecutesFailures(plan, runs, k);
  }

  /** What run m executes had failed in every earlier run k. */
  lemma {:induction false} ExecutedHadFailed(plan: seq<Job>, runs: seq<Run>, k: nat, m: nat)
    requires IsChain(plan, runs) && k < m < |runs|
    ensures FailureKeys(runs[k].rows, runs[k].results).Some?
    ensures Keys(runs[m].executed) <= Failed(runs[k])
    decreases m
  {
    if k + 1 == m {
      RetryExecutesFailures(plan, runs, k);
    } else {
      var p := m - 1;
      ExecutedHadFailed(plan, runs, k, p);
      ExecutedShrinks(plan, runs, p);
    }
  }

  // ---------- merging a family ----------

  /** `_stable_attempt_merge_key` */
  function AttemptKey(row: AttemptRow): Option<Key> {
    if row.instance == "" || row.solver == "" || row.seed == None then None
    else Some((row.instance, row.solver, row.seed.value))
  }

  /** Keys in order of first appearance and the last row of each: a Python dictionary. */
  datatype Dict = Dict(order: seq<Key>, rows: map<Key, AttemptRow>)

  function SetRow(d: Dict, key: Key, row: AttemptRow): Dict {
    Dict(if key in d.rows then d.order else d.order + [key], d.rows[key := row])
  }

  function AddRows(d: Dict, rows: seq<AttemptRow>): Option<Dict> {
    if rows == [] then Some(d)
    else
      match AddRows(d, rows[..|rows| - 1])
      case None => None
      case Some(m) =>
        var last := rows[|rows| - 1];
        if AttemptKey(last) == None then None else Some(SetRow(m, AttemptKey(last).value, last))
  }

  /** The merged attempts of a family whose runs all left their files. */
  function MergeRuns(runs: seq<Run>): Option<Dict> {
    if runs == [] then Some(Dict([], map[]))
    else
      match MergeRuns(runs[..|runs| - 1])
      case None => None
      case Some(d) => AddRows(d, runs[|runs| - 1].attempts)
  }

  lemma {:induction false} BadRowStays(d: Dict, rows: seq<AttemptRow>, i: nat)
    requires i < |rows| && AttemptKey(rows[i]) == None
    ensures AddRows(d, rows) == None
  {
    if i < |rows| - 1 {
      BadRowStays(d, rows[..|rows| - 1], i);
    }
  }

  /** The last row of a run under a key. */
  function LastAttempt(rows: seq<AttemptRow>, key: Key): Option<AttemptRow> {
    if rows == [] then None
    else if AttemptKey(rows[|rows| - 1]) == Some(key) then Some(rows[|rows| - 1])
    else LastAttempt(rows[..|rows| - 1], key)
  }

  lemma {:induction false} AddRowsValue(d: Dict, rows: seq<AttemptRow>, key: Key)
    requires forall i | 0 <= i < |rows| :: AttemptKey(rows[i]).Some?
    ensures AddRows(d, rows).Some?
    ensures var m := AddRows(d, rows).value;
      match LastAttempt(rows, key)
      case Some(row) => key in m.rows && m.rows[key] == row
      case None => (key in m.rows <==> key in d.rows) && (key in d.rows ==> m.rows[key] == d.rows[key])
  {
    if rows != [] {
      AddRowsValue(d, rows[..|rows| - 1], key);
    }
  }

  lemma {:induction false} LastAttemptExists(rows: seq<AttemptRow>, key: Key)
    ensures LastAttempt(rows, key).Some? <==> exists i :: 0 <= i < |rows| && AttemptKey(rows[i]) == Some(key)
  {
    if rows != [] {
      LastAttemptExists(rows[..|rows| - 1], key);
      assert rows == rows[..|rows| - 1] + [rows[|rows| - 1]];
    }
  }

  lemma ChainPrefix(plan: seq<Job>, runs: seq<Run>, k: nat)
    requires IsChain(plan, runs) && k <= |runs|
    ensures IsChain(plan, runs[..k])
  {
  }

  /** A run leaves an attempt under exactly the keys it executed. */
  lemma AttemptsAreExecuted(run: Run, key: Key)
    requires Records(run)
    ensures LastAttempt(run.attempts, key).Some? <==> key in Keys(run.executed)
  {
    LastAttemptExists(run.attempts, key);
  }

  ghost predicate Keyed(run: Run) {
    forall i | 0 <= i < |run.attempts| :: AttemptKey(run.attempts[i]).Some?
  }

  /** The last attempt under a key in the last run that has one. */
  function LastOfRuns(runs: seq<Run>, key: Key): Option<AttemptRow> {
    if runs == [] then None
    else
      match LastAttempt(runs[|runs| - 1].attempts, key)
      case Some(row) => Some(row)
      case None => LastOfRuns(runs[..|runs| - 1], key)
  }

  lemma {:induction false} MergedValue(runs: seq<Run>, key: Key)
    requires forall k | 0 <= k < |runs| :: Keyed(runs[k])
    ensures MergeRuns(runs).Some?
    ensures LastOfRuns(runs, key)
         == if key in MergeRuns(runs).value.rows then Some(MergeRuns(runs).value.rows[key]) else None
  {
    if runs != [] {
      var n := |runs| - 1;
      MergedValue(runs[..n], key);
      assert Keyed(runs[n]);
      AddRowsValue(MergeRuns(runs[..n]).value, runs[n].attempts, key);
    }
  }

  lemma {:induction false} LastOfRunsAt(runs: seq<Run>, k: nat, key: Key)
    requires k < |runs| && LastAttempt(runs[k].attempts, key).Some?
    requires forall m | k < m < |runs| :: LastAttempt(runs[m].attempts, key) == None
    ensures LastOfRuns(runs, key) == LastAttempt(runs[k].attempts, key)
    decreases |runs|
  {
    var n := |runs| - 1;
    if k < n {
      LastOfRunsAt(runs[..n], k, key);
    }
  }

  /** Merging a chain always succeeds, and a planned key carries its last attempt of the last run that executed
      it. */
  lemma MergeKeepsLastExecution(plan: seq<Job>, runs: seq<Run>, k: nat, key: Key)
    requires IsChain(plan, runs) && k < |runs|
    requires key in Keys(runs[k].executed) && forall m | k < m < |runs| :: key !in Keys(runs[m].executed)
    ensures MergeRuns(runs).Some? && key in MergeRuns(runs).value.rows
    ensures Some(MergeRuns(runs).value.rows[key]) == LastAttempt(runs[k].attempts, key)
  {
    forall m | 0 <= m < |runs| ensures Keyed(runs[m]) {
      assert Records(runs[m]);
    }
    forall m | 0 <= m < |runs|
      ensures LastAttempt(runs[m].attempts, key).Some? <==> key in Keys(runs[m].executed)
    {
      AttemptsAreExecuted(runs[m], key);
    }
    LastOfRunsAt(runs, k, key);
    MergedValue(runs, key);
  }

  lemma {:induction false} MergeSucceeds(plan: seq<Job>, runs: seq<Run>)
    requires IsChain(plan, runs)
    ensures MergeRuns(runs).Some?
  {
    if runs != [] {
      var n := |runs| - 1;
      ChainPrefix(plan, runs, n);
      MergeSucceeds(plan, runs[..n]);
      AddRowsValue(MergeRuns(runs[..n]).value, runs[n].attempts, ("", "", ""));
    }
  }

  /** A key that did not fail in the run that executed it is never overwritten: the family merge holds the very row
      of that run, however many retries follow. */
  lemma SettledRowsAreFinal(plan: seq<Job>, runs: seq<Run>, k: nat, key: Key)
    requires IsChain(plan, runs) && k < |runs| && key in Keys(runs[k].executed)
    requires FailureKeys(runs[k].rows, runs[k].results).Some? ==> key !in Failed(runs[k])
    ensures MergeRuns(runs).Some? && key in MergeRuns(runs).value.rows
    ensures Some(MergeRuns(runs).value.rows[key]) == LastAttempt(runs[k].attempts, key)
  {
    forall m | k < m < |runs| ensures key !in Keys(runs[m].executed) {
      ExecutedHadFailed(plan, runs, k, m);
    }
    MergeKeepsLastExecution(plan, runs, k, key);
  }

  /** The merged rows come in the order of the first run: retries add no key and move none. */
  lemma {:induction false} MergedOrder(plan: seq<Job>, runs: seq<Run>)
    requires IsChain(plan, runs) && runs != []
    ensures MergeRuns(runs).Some? && MergeRuns(runs[..1]).Some?
    ensures MergeRuns(runs).value.order == MergeRuns(runs[..1]).value.order
    ensures MergeRuns(runs).value.rows.Keys == Keys(plan)
  {
    var n := |runs| - 1;
    ChainPrefix(plan, runs, n);
    MergeSucceeds(plan, runs);
    MergeSucceeds(plan, runs[..n]);
    var d := MergeRuns(runs[..n]).value;
    forall key ensures key in MergeRuns(runs).value.rows <==> key in d.rows || key in Keys(runs[n].executed) {
      AddRowsValue(d, runs[n].attempts, key);
      AttemptsAreExecuted(runs[n], key);
    }
    if n == 0 {
      assert runs[..1] == runs && runs[..0] == [];
    } else {
      MergedOrder(plan, runs[..n]);
      assert runs[..n][..1] == runs[..1];
      ExecutedFromPlan(plan, runs, n);
      forall i | 0 <= i < |runs[n].attempts| ensures AttemptKey(runs[n].attempts[i]).value in d.rows {
      }
      NoNewKeys(d, runs[n].attempts);
    }
  }

  lemma {:induction false} NoNewKeys(d: Dict, rows: seq<AttemptRow>)
    requires forall i | 0 <= i < |rows| :: AttemptKey(rows[i]).Some? && AttemptKey(rows[i]).value in d.rows
    ensures AddRows(d, rows).Some? && AddRows(d, rows).value.order == d.order
    ensures d.rows.Keys == AddRows(d, rows).value.rows.Keys
  {
    if rows != [] {
      NoNewKeys(d, rows[..|rows| - 1]);
    }
  }

  // ---------- merging instance results ----------

  /** The merge key of a result: solver, then instance; a result naming neither is skipped. */
  predicate Named(r: InstanceResult) {
    r.solver != "" && r.instance != ""
  }

  function AddResults(m: map<(string, string), InstanceResult>, results: seq<InstanceResult>)
    : map<(string, string), InstanceResult>
  {
    if results == [] then m
    else
      var before := AddResults(m, results[..|results| - 1]);
      var last := results[|results| - 1];
      if Named(last) then before[(last.solver, last.instance) := last] else before
  }

  /** The merged instance results, without their order. */
  function MergeResults(runs: seq<Run>): map<(string, string), InstanceResult> {
    if runs == [] then map[] else AddResults(MergeResults(runs[..|runs| - 1]), runs[|runs| - 1].results)
  }

  /** A run evaluates only what it executed. */
  ghost predicate ResultsAreExecuted(run: Run) {
    forall i | 0 <= i < |run.results| && Named(run.results[i]) ::
      Covers(Keys(run.executed), run.results[i].solver, run.results[i].instance)
  }

  ghost predicate Covers(keys: set<Key>, solver: string, instance: string) {
    exists key :: key in keys && key.0 == instance && key.1 == solver
  }

  ghost predicate Silent(run: Run, solver: string, instance: string) {
    forall i | 0 <= i < |run.results| && Named(run.results[i]) ::
      !(run.results[i].solver == solver && run.results[i].instance == instance)
  }

  ghost predicate SameAt(m: map<(string, string), InstanceResult>, n: map<(string, string), InstanceResult>,
                         pair: (string, string))
  {
    (pair in m <==> pair in n) && (pair in m ==> m[pair] == n[pair])
  }

  lemma {:induction false} UntouchedResult(m: map<(string, string), InstanceResult>, results: seq<InstanceResult>,
                                           solver: string, instance: string)
    requires forall i | 0 <= i < |results| && Named(results[i]) ::
      !(results[i].solver == solver && results[i].instance == instance)
    ensures SameAt(AddResults(m, results), m, (solver, instance))
  {
    if results != [] {
      UntouchedResult(m, results[..|results| - 1], solver, instance);
    }
  }

  lemma {:induction false} SilentRunsKeepResult(runs: seq<Run>, k: nat, solver: string, instance: string)
    requires k < |runs| && forall m | k < m < |runs| :: Silent(runs[m], solver, instance)
    ensures SameAt(MergeResults(runs), MergeResults(runs[..k + 1]), (solver, instance))
    decreases |runs|
  {
    var n := |runs| - 1;
    if k == n {
      assert runs[..k + 1] == runs;
    } else {
      SilentRunsKeepResult(runs[..n], k, solver, instance);
      assert runs[..n][..k + 1] == runs[..k + 1];
      assert Silent(runs[n], solver, instance);
      UntouchedResult(MergeResults(runs[..n]), runs[n].results, solver, instance);
    }
  }

  /** The merged result of a solver on an instance is final once none of its seeds failed. */
  lemma SettledResultsAreFinal(plan: seq<Job>, runs: seq<Run>, k: nat, solver: string, instance: string)
    requires IsChain(plan, runs) && k < |runs|
    requires forall j | 0 <= j < |runs| :: ResultsAreExecuted(runs[j])
    requires FailureKeys(runs[k].rows, runs[k].results).Some? ==> !Covers(Failed(runs[k]), solver, instance)
    ensures SameAt(MergeResults(runs), MergeResults(runs[..k + 1]), (solver, instance))
  {
    forall m | k < m < |runs| ensures Silent(runs[m], solver, instance) {
      NoResultFor(plan, runs, k, m, solver, instance);
    }
    SilentRunsKeepResult(runs, k, solver, instance);
  }

  lemma NoResultFor(plan: seq<Job>, runs: seq<Run>, k: nat, m: nat, solver: string, instance: string)
    requires IsChain(plan, runs) && k < m < |runs| && ResultsAreExecuted(runs[m])
    requires FailureKeys(runs[k].rows, runs[k].results).Some? ==> !Covers(Failed(runs[k]), solver, instance)
    ensures Silent(runs[m], solver, instance)
  {
    ExecutedHadFailed(plan, runs, k, m);
    forall i | 0 <= i < |runs[m].results| && Named(runs[m].results[i])
      ensures !(runs[m].results[i].solver == solver && runs[m].results[i].instance == instance)
    {
      var r := runs[m].results[i];
      var key :| key in Keys(runs[m].executed) && key.0 == r.instance && key.1 == r.solver;
      assert key in Failed(runs[k]);
    }
  }
}
