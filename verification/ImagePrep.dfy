/** Local evaluation images under concurrency (repogauge/runner/container_exec.py).

    Every solver thread makes sure its base image and then its env image exist.  For each of the two keys
    it fetches that key's lock from a registry (itself guarded by one global lock), takes it, asks the image
    store for the key, builds on a miss, and lets the lock go.  `Next` is one atomic move of one thread;
    a schedule picks the thread and whether the foreign call it makes (image lookup or build) returns or raises. */
module ImagePrep {
  import opened Wrappers

  datatype Phase = Base | Env

  datatype Job = Job(baseKey: string, envKey: string)

  datatype PC =
    | Lookup(phase: Phase)                          // about to enter the registry
    | InRegistry(phase: Phase)                      // holds the registry lock
    | Waiting(phase: Phase, lock: nat)              // has the key's lock object, wants it
    | Checking(phase: Phase, lock: nat)             // holds it, asks the store for the image
    | Building(phase: Phase, lock: nat)             // holds it, image missing, build running
    | Releasing(phase: Phase, lock: nat, ok: bool)  // leaving the locked block, normally or by exception
    | Done
    | Failed

  /** A finished build: which key, by which thread, in which phase, on top of which base, and whether it worked. */
  datatype Build = Build(key: string, tid: nat, phase: Phase, baseKey: string, ok: bool)

  datatype State = State(
    pcs: seq<PC>,
    registry: Option<nat>,    // thread inside the registry
    locks: map<string, nat>,  // key -> lock object
    nextLock: nat,            // lock objects below this one have been created
    owner: map<nat, nat>,     // lock object -> thread holding it
    images: set<string>,
    log: seq<Build>)

  function KeyOf(job: Job, phase: Phase): string {
    if phase == Base then job.baseKey else job.envKey
  }

  function Next(jobs: seq<Job>, s: State, t: nat, ok: bool): Option<State>
  {
    if t >= |jobs| || |s.pcs| != |jobs| then None else
    match s.pcs[t]
    case Lookup(phase) =>
      if s.registry == None then Some(s.(registry := Some(t), pcs := s.pcs[t := InRegistry(phase)])) else None
    case InRegistry(phase) =>
      var key := KeyOf(jobs[t], phase);
      if key in s.locks then
        Some(s.(registry := None, pcs := s.pcs[t := Waiting(phase, s.locks[key])]))
      else
        Some(s.(registry := None, locks := s.locks[key := s.nextLock], nextLock := s.nextLock + 1,
                pcs := s.pcs[t := Waiting(phase, s.nextLock)]))
    case Waiting(phase, lock) =>
      if lock in s.owner then None
      else Some(s.(owner := s.owner[lock := t], pcs := s.pcs[t := Checking(phase, lock)]))
    case Checking(phase, lock) =>
      Some(s.(pcs := s.pcs[t :=
        if !ok then Releasing(phase, lock, false)
        else if KeyOf(jobs[t], phase) in s.images then Releasing(phase, lock, true)
        else Building(phase, lock)]))
    case Building(phase, lock) =>
      var key := KeyOf(jobs[t], phase);
      Some(s.(images := if ok then s.images + {key} else s.images,
              log := s.log + [Build(key, t, phase, jobs[t].baseKey, ok)],
              pcs := s.pcs[t := Releasing(phase, lock, ok)]))
    case Releasing(phase, lock, built) =>
      Some(s.(owner := s.owner - {lock},
              pcs := s.pcs[t := if !built then Failed else if phase == Base then Lookup(Env) else Done]))
    case Done => None
    case Failed => None
  }

  /** Runs: a schedule of (thread, does the foreign call return?) pairs. */
  function Exec(jobs: seq<Job>, s: State, schedule: seq<(nat, bool)>): Option<State> {
    if schedule == [] then Some(s) else
    match Exec(jobs, s, schedule[..|schedule| - 1])
    case None => None
    case Some(m) => Next(jobs, m, schedule[|schedule| - 1].0, schedule[|schedule| - 1].1)
  }

  /** Threads about to start, nobody inside anything; locks and images may be left over from earlier calls. */
  ghost predicate Initial(jobs: seq<Job>, s: State) {
    && s.pcs == seq(|jobs|, _ => Lookup(Base))
    && s.registry == None && s.owner == map[] && s.log == []
    && LocksDistinct(s)
  }

  ghost predicate LocksDistinct(s: State) {
    && (forall k | k in s.locks :: s.locks[k] < s.nextLock)
    && (forall j, k | j in s.locks && k in s.locks && s.locks[j] == s.locks[k] :: j == k)
  }

  predicate HasHandle(pc: PC) {
    pc.Waiting? || Holds(pc)
  }

  /** Inside a locked block. */
  predicate Holds(pc: PC) {
    pc.Checking? || pc.Building? || pc.Releasing?
  }

  predicate BasePassed(pc: PC) {
    || (pc.Lookup? && pc.phase == Env) || (pc.InRegistry? && pc.phase == Env) || (HasHandle(pc) && pc.phase == Env)
    || pc.Done? || (pc.Releasing? && pc.ok)
  }

  predicate EnvPassed(pc: PC) {
    pc.Done? || (pc.Releasing? && pc.phase == Env && pc.ok)
  }

  /** A thread is inside the registry iff it has the registry lock, its lock object is the one registered for
      its current key, and inside a locked block it owns that object. */
  ghost predicate ThreadInv(jobs: seq<Job>, s: State, t: nat)
    requires t < |jobs| == |s.pcs|
  {
    var pc := s.pcs[t];
    && (pc.InRegistry? <==> s.registry == Some(t))
    && (HasHandle(pc) ==> var key := KeyOf(jobs[t], pc.phase); key in s.locks && s.locks[key] == pc.lock)
    && (Holds(pc) ==> pc.lock in s.owner && s.owner[pc.lock] == t)
  }

  ghost predicate OwnerInv(s: State, l: nat)
    requires l in s.owner
  {
    s.owner[l] < |s.pcs| && Holds(s.pcs[s.owner[l]]) && s.pcs[s.owner[l]].lock == l
  }

  ghost predicate LockInv(jobs: seq<Job>, s: State) {
    && |s.pcs| == |jobs|
    && LocksDistinct(s)
    && (s.registry.Some? ==> s.registry.value < |jobs|)
    && (forall t | 0 <= t < |jobs| :: ThreadInv(jobs, s, t))
    && (forall l | l in s.owner :: OwnerInv(s, l))
  }

  /** What holds of images and builds. */
  ghost predicate ImageInv(jobs: seq<Job>, images0: set<string>, s: State) {
    && |s.pcs| == |jobs|
    && (forall t | 0 <= t < |jobs| :: ThreadImages(jobs[t], s.pcs[t], s.images))
    && LogInv(jobs, images0, s.images, s.log)
  }

  ghost predicate ThreadImages(job: Job, pc: PC, images: set<string>) {
    && (pc.Building? ==> KeyOf(job, pc.phase) !in images)
    && (BasePassed(pc) ==> job.baseKey in images)
    && (EnvPassed(pc) ==> job.envKey in images)
  }

  ghost predicate LogInv(jobs: seq<Job>, images0: set<string>, images: set<string>, log: seq<Build>) {
    && images == images0 + Built(log)
    && BuiltOnce(images0, log)
    && BaseFirst(images0, log)
    && (forall i | 0 <= i < |log| :: FromJob(jobs, log[i]))
  }

  ghost predicate FromJob(jobs: seq<Job>, b: Build) {
    b.tid < |jobs| && b.key == KeyOf(jobs[b.tid], b.phase) && b.baseKey == jobs[b.tid].baseKey
  }

  /** Keys built successfully according to a log. */
  ghost function Built(log: seq<Build>): set<string> {
    set i | 0 <= i < |log| && log[i].ok :: log[i].key
  }

  /** No build, failed or not, is ever tried for a key that exists already; so none succeeds twice. */
  ghost predicate BuiltOnce(images0: set<string>, log: seq<Build>) {
    && (forall i | 0 <= i < |log| :: log[i].key !in images0)
    && (forall i, j | 0 <= i < j < |log| && log[i].ok :: log[i].key != log[j].key)
  }

  /** Every env build comes after its base image was there. */
  ghost predicate BaseFirst(images0: set<string>, log: seq<Build>) {
    forall i | 0 <= i < |log| && log[i].phase == Env :: log[i].baseKey in images0 + Built(log[..i])
  }

  lemma LockStep(jobs: seq<Job>, s: State, t: nat, ok: bool)
    requires LockInv(jobs, s) && Next(jobs, s, t, ok).Some?
    ensures LockInv(jobs, Next(jobs, s, t, ok).value)
  {
    assert ThreadInv(jobs, s, t);
    OnlyOneMoves(jobs, s, t, ok);
    if s.pcs[t].InRegistry? {
      RegistryStep(jobs, s, t, ok);
    } else {
      OtherStep(jobs, s, t, Next(jobs, s, t, ok).value);
    }
  }

  /** Moves that register nothing: the other threads and their lock objects are left alone. */
  lemma OtherStep(jobs: seq<Job>, s: State, t: nat, s': State)
    requires LockInv(jobs, s) && t < |jobs| == |s'.pcs| && s'.pcs == s.pcs[t := s'.pcs[t]]
    requires s'.locks == s.locks && s'.nextLock == s.nextLock
    requires s'.registry == s.registry || (s.registry == None && s'.registry == Some(t))
    requires forall l | l in s'.owner && s'.owner[l] == t :: Holds(s'.pcs[t]) && s'.pcs[t].lock == l
    requires forall l | l in s.owner && s.owner[l] != t :: l in s'.owner && s'.owner[l] == s.owner[l]
    requires forall l | l in s'.owner && s'.owner[l] != t :: l in s.owner && s.owner[l] == s'.owner[l]
    requires ThreadInv(jobs, s', t)
    ensures LockInv(jobs, s')
  {
    forall u | 0 <= u < |jobs| ensures ThreadInv(jobs, s', u) {
      assert ThreadInv(jobs, s, u);
    }
    forall l | l in s'.owner ensures OwnerInv(s', l) {
      assert l in s.owner ==> OwnerInv(s, l);
    }
  }

  lemma RegistryStep(jobs: seq<Job>, s: State, t: nat, ok: bool)
    requires LockInv(jobs, s) && t < |jobs| && s.pcs[t].InRegistry?
    ensures Next(jobs, s, t, ok).Some? && LockInv(jobs, Next(jobs, s, t, ok).value)
  {
    var s' := Next(jobs, s, t, ok).value;
    assert ThreadInv(jobs, s, t);
    forall u | 0 <= u < |jobs| ensures ThreadInv(jobs, s', u) {
      assert ThreadInv(jobs, s, u);
    }
    forall l | l in s'.owner ensures OwnerInv(s', l) {
      assert OwnerInv(s, l);
    }
  }

  /** A move changes its own thread's program counter, downwards, and no other. */
  lemma OnlyOneMoves(jobs: seq<Job>, s: State, t: nat, ok: bool)
    requires Next(jobs, s, t, ok).Some?
    ensures t < |s.pcs| == |jobs| && !s.pcs[t].Done? && !s.pcs[t].Failed?
    ensures var s' := Next(jobs, s, t, ok).value;
      |s'.pcs| == |jobs| && s'.pcs == s.pcs[t := s'.pcs[t]] && Rank(s'.pcs[t]) < Rank(s.pcs[t])
  {
    match s.pcs[t]
    case Lookup(_) =>
    case InRegistry(_) =>
    case Waiting(_, _) =>
    case Checking(_, _) =>
    case Building(_, _) =>
    case Releasing(_, _, _) =>
  }

  lemma ImageStep(jobs: seq<Job>, images0: set<string>, s: State, t: nat, ok: bool)
    requires LockInv(jobs, s) && ImageInv(jobs, images0, s) && Next(jobs, s, t, ok).Some?
    ensures ImageInv(jobs, images0, Next(jobs, s, t, ok).value)
  {
    var s' := Next(jobs, s, t, ok).value;
    OnlyOneMoves(jobs, s, t, ok);
    assert ThreadInv(jobs, s, t) && ThreadImages(jobs[t], s.pcs[t], s.images);
    if s.pcs[t].Building? {
      var b := Build(KeyOf(jobs[t], s.pcs[t].phase), t, s.pcs[t].phase, jobs[t].baseKey, ok);
      LogStep(jobs, images0, s.images, s.log, b);
      assert ThreadImages(jobs[t], s'.pcs[t], s'.images);
      forall u | 0 <= u < |jobs| && u != t ensures ThreadImages(jobs[u], s'.pcs[u], s'.images) {
        // mutual exclusion: u and t own different lock objects, so they work on different keys
        assert ThreadInv(jobs, s, u) && ThreadImages(jobs[u], s.pcs[u], s.images);
      }
    } else {
      assert s'.images == s.images && s'.log == s.log;
      assert ThreadImages(jobs[t], s'.pcs[t], s'.images);
      forall u | 0 <= u < |jobs| ensures ThreadImages(jobs[u], s'.pcs[u], s'.images) {
        assert ThreadImages(jobs[u], s.pcs[u], s.images);
      }
    }
  }

  lemma LogStep(jobs: seq<Job>, images0: set<string>, images: set<string>, log: seq<Build>, b: Build)
    requires LogInv(jobs, images0, images, log) && FromJob(jobs, b)
    requires b.key !in images && (b.phase == Env ==> b.baseKey in images)
    ensures LogInv(jobs, images0, if b.ok then images + {b.key} else images, log + [b])
  {
    var log' := log + [b];
    BuiltAppend(log, b);
    assert forall i | 0 <= i < |log| && log[i].ok :: log[i].key in Built(log);
    forall i | 0 <= i < |log'| && log'[i].phase == Env
      ensures log'[i].baseKey in images0 + Built(log'[..i])
    {
      assert log'[..i] == log[..i];
      assert log[..|log|] == log;
    }
  }

  lemma BuiltAppend(log: seq<Build>, b: Build)
    ensures Built(log + [b]) == Built(log) + (if b.ok then {b.key} else {})
  {
    var log' := log + [b];
    forall k ensures k in Built(log') <==> k in Built(log) + (if b.ok then {b.key} else {}) {
      if k in Built(log) {
        var i :| 0 <= i < |log| && log[i].ok && log[i].key == k;
        assert log'[i] == log[i];
      }
      if b.ok && k == b.key {
        assert log'[|log|] == b;
      }
    }
  }

  lemma {:induction false} Reachable(jobs: seq<Job>, s0: State, schedule: seq<(nat, bool)>)
    requires Initial(jobs, s0) && Exec(jobs, s0, schedule).Some?
    ensures LockInv(jobs, Exec(jobs, s0, schedule).value)
    ensures ImageInv(jobs, s0.images, Exec(jobs, s0, schedule).value)
  {
    if schedule != [] {
      var n := |schedule| - 1;
      Reachable(jobs, s0, schedule[..n]);
      var m := Exec(jobs, s0, schedule[..n]).value;
      LockStep(jobs, m, schedule[n].0, schedule[n].1);
      ImageStep(jobs, s0.images, m, schedule[n].0, schedule[n].1);
    }
  }

  // ---------- main results: safety on every run ----------

  /** Asking for one key gives one lock, asking for two keys gives two; and no two threads are ever inside
      the locked blocks of the same key, so no key is checked or built by two threads at once. */
  lemma OneLockPerKey(jobs: seq<Job>, s0: State, schedule: seq<(nat, bool)>, t: nat, u: nat)
    requires Initial(jobs, s0) && Exec(jobs, s0, schedule).Some? && t < |jobs| && u < |jobs|
    ensures var s := Exec(jobs, s0, schedule).value;
      && |s.pcs| == |jobs|
      && (HasHandle(s.pcs[t]) && HasHandle(s.pcs[u]) ==>
            (s.pcs[t].lock == s.pcs[u].lock <==> KeyOf(jobs[t], s.pcs[t].phase) == KeyOf(jobs[u], s.pcs[u].phase)))
      && (Holds(s.pcs[t]) && Holds(s.pcs[u]) && KeyOf(jobs[t], s.pcs[t].phase) == KeyOf(jobs[u], s.pcs[u].phase) ==>
            t == u)
  {
    Reachable(jobs, s0, schedule);
    var s := Exec(jobs, s0, schedule).value;
    assert ThreadInv(jobs, s, t) && ThreadInv(jobs, s, u);
  }

  /** A thread never owns two image locks, and the thread inside the registry owns none. */
  lemma NeverTwoLocks(jobs: seq<Job>, s0: State, schedule: seq<(nat, bool)>, l: nat, m: nat)
    requires Initial(jobs, s0) && Exec(jobs, s0, schedule).Some?
    ensures var s := Exec(jobs, s0, schedule).value;
      && (l in s.owner && m in s.owner && s.owner[l] == s.owner[m] ==> l == m)
      && (s.registry.Some? && l in s.owner ==> s.owner[l] != s.registry.value)
  {
    Reachable(jobs, s0, schedule);
    var s := Exec(jobs, s0, schedule).value;
    assert l in s.owner ==> OwnerInv(s, l) && ThreadInv(jobs, s, s.owner[l]);
    assert m in s.owner ==> OwnerInv(s, m);
  }

  /** At most one successful build per key, none for a key that was there from the start, and every env build
      finds its base image in place. */
  lemma BuildsAreExclusive(jobs: seq<Job>, s0: State, schedule: seq<(nat, bool)>)
    requires Initial(jobs, s0) && Exec(jobs, s0, schedule).Some?
    ensures var s := Exec(jobs, s0, schedule).value;
      && BuiltOnce(s0.images, s.log) && BaseFirst(s0.images, s.log)
      && s.images == s0.images + Built(s.log)
      && |s.pcs| == |jobs|
      && (forall t | 0 <= t < |jobs| && s.pcs[t].Building? && s.pcs[t].phase == Env :: jobs[t].baseKey in s.images)
  {
    Reachable(jobs, s0, schedule);
    var s := Exec(jobs, s0, schedule).value;
    assert forall t | 0 <= t < |jobs| && s.pcs[t].Building? && s.pcs[t].phase == Env ::
        BasePassed(s.pcs[t]) && ThreadImages(jobs[t], s.pcs[t], s.images);
  }

  // ---------- main results: every run ends, and ends well ----------

  function Rank(pc: PC): nat {
    match pc
    case Lookup(p) => 6 + Offset(p)
    case InRegistry(p) => 5 + Offset(p)
    case Waiting(p, _) => 4 + Offset(p)
    case Checking(p, _) => 3 + Offset(p)
    case Building(p, _) => 2 + Offset(p)
    case Releasing(p, _, _) => 1 + Offset(p)
    case Done => 0
    case Failed => 0
  }

  function Offset(p: Phase): nat {
    if p == Base then 6 else 0
  }

  function TotalRank(pcs: seq<PC>): nat {
    if pcs == [] then 0 else Rank(pcs[0]) + TotalRank(pcs[1..])
  }

  lemma {:induction false} TotalRankUpdate(pcs: seq<PC>, t: nat, pc: PC)
    requires t < |pcs|
    ensures TotalRank(pcs[t := pc]) == TotalRank(pcs) - Rank(pcs[t]) + Rank(pc)
  {
    if t == 0 {
      assert pcs[t := pc][1..] == pcs[1..];
    } else {
      assert pcs[t := pc][1..] == pcs[1..][t - 1 := pc];
      TotalRankUpdate(pcs[1..], t - 1, pc);
    }
  }

  lemma StepDescends(jobs: seq<Job>, s: State, t: nat, ok: bool)
    requires Next(jobs, s, t, ok).Some?
    ensures TotalRank(Next(jobs, s, t, ok).value.pcs) < TotalRank(s.pcs)
  {
    var s' := Next(jobs, s, t, ok).value;
    OnlyOneMoves(jobs, s, t, ok);
    TotalRankUpdate(s.pcs, t, s'.pcs[t]);
  }

  lemma {:induction false} InitialRank(n: nat)
    ensures TotalRank(seq(n, _ => Lookup(Base))) == 12 * n
  {
    if n > 0 {
      assert seq(n, _ => Lookup(Base))[1..] == seq(n - 1, _ => Lookup(Base));
      InitialRank(n - 1);
    }
  }

  /** No schedule is longer than twelve moves per thread, whatever fails: there is no endless run. */
  lemma {:induction false} RunsAreBounded(jobs: seq<Job>, s0: State, schedule: seq<(nat, bool)>)
    requires Initial(jobs, s0) && Exec(jobs, s0, schedule).Some?
    ensures |schedule| + TotalRank(Exec(jobs, s0, schedule).value.pcs) <= 12 * |jobs|
  {
    if schedule == [] {
      InitialRank(|jobs|);
    } else {
      var n := |schedule| - 1;
      RunsAreBounded(jobs, s0, schedule[..n]);
      StepDescends(jobs, Exec(jobs, s0, schedule[..n]).value, schedule[n].0, schedule[n].1);
    }
  }

  predicate Finished(s: State) {
    forall t | 0 <= t < |s.pcs| :: s.pcs[t].Done? || s.pcs[t].Failed?
  }

  /** Deadlock freedom: as long as some thread is unfinished, some thread can move. */
  lemma NoDeadlock(jobs: seq<Job>, s0: State, schedule: seq<(nat, bool)>) returns (t: nat)
    requires Initial(jobs, s0) && Exec(jobs, s0, schedule).Some?
    ensures var s := Exec(jobs, s0, schedule).value;
      Finished(s) || forall ok :: Next(jobs, s, t, ok).Some?
  {
    Reachable(jobs, s0, schedule);
    var s := Exec(jobs, s0, schedule).value;
    t := 0;
    if !Finished(s) {
      t :| 0 <= t < |s.pcs| && !s.pcs[t].Done? && !s.pcs[t].Failed?;
      if s.pcs[t].Lookup? && s.registry.Some? {
        t := s.registry.value;
        assert ThreadInv(jobs, s, t);
      } else if s.pcs[t].Waiting? && s.pcs[t].lock in s.owner {
        assert OwnerInv(s, s.pcs[t].lock);
        t := s.owner[s.pcs[t].lock];
      }
    }
  }

  /** Some foreign call of the thread, an image lookup or a build, has raised. */
  ghost predicate Raised(jobs: seq<Job>, s0: State, schedule: seq<(nat, bool)>, t: nat) {
    schedule != [] &&
    var n := |schedule| - 1;
    || Raised(jobs, s0, schedule[..n], t)
    || (schedule[n] == (t, false) && Exec(jobs, s0, schedule[..n]).Some?
        && Calls(Exec(jobs, s0, schedule[..n]).value, t))
  }

  predicate Calls(s: State, t: nat) {
    t < |s.pcs| && (s.pcs[t].Checking? || s.pcs[t].Building?)
  }

  /** On the way out of its locked block by an exception, or stopped by one. */
  predicate Aborted(pc: PC) {
    pc.Failed? || (pc.Releasing? && !pc.ok)
  }

  lemma AbortStep(jobs: seq<Job>, s: State, t: nat, ok: bool, u: nat)
    requires Next(jobs, s, t, ok).Some? && u < |s.pcs|
    ensures var s' := Next(jobs, s, t, ok).value;
      |s'.pcs| == |s.pcs| && (Aborted(s'.pcs[u]) <==> Aborted(s.pcs[u]) || (u == t && !ok && Calls(s, t)))
  {
  }

  lemma {:induction false} AbortedIffRaised(jobs: seq<Job>, s0: State, schedule: seq<(nat, bool)>, t: nat)
    requires Initial(jobs, s0) && Exec(jobs, s0, schedule).Some? && t < |jobs|
    ensures var s := Exec(jobs, s0, schedule).value;
      |s.pcs| == |jobs| && (Aborted(s.pcs[t]) <==> Raised(jobs, s0, schedule, t))
  {
    if schedule != [] {
      var n := |schedule| - 1;
      AbortedIffRaised(jobs, s0, schedule[..n], t);
      AbortStep(jobs, Exec(jobs, s0, schedule[..n]).value, schedule[n].0, schedule[n].1, t);
    }
  }

  ghost predicate Stuck(jobs: seq<Job>, s: State) {
    forall t: nat, ok :: Next(jobs, s, t, ok) == None
  }

  lemma NothingHeld(jobs: seq<Job>, s: State)
    requires LockInv(jobs, s) && Finished(s)
    ensures s.registry == None && s.owner == map[]
  {
    HoldersAreInside(jobs, s);
    assert s.owner.Keys == {};
  }

  lemma HoldersAreInside(jobs: seq<Job>, s: State)
    requires LockInv(jobs, s)
    ensures s.registry.Some? ==> s.registry.value < |s.pcs| && s.pcs[s.registry.value].InRegistry?
    ensures forall l | l in s.owner :: s.owner[l] < |s.pcs| && Holds(s.pcs[s.owner[l]])
  {
    assert s.registry.Some? ==> ThreadInv(jobs, s, s.registry.value);
    assert forall l | l in s.owner :: OwnerInv(s, l);
  }

  /** Whatever raises, a run that cannot go on has ended for every thread: failed are exactly the threads one of whose
      own calls raised, all others are done and find both their images, no lock is left held, and the store holds
      the old images and the keys of the successful builds. */
  lemma EveryRunEnds(jobs: seq<Job>, s0: State, schedule: seq<(nat, bool)>)
    requires Initial(jobs, s0) && Exec(jobs, s0, schedule).Some?
    requires Stuck(jobs, Exec(jobs, s0, schedule).value)
    ensures var s := Exec(jobs, s0, schedule).value;
      && |s.pcs| == |jobs| && s.registry == None && s.owner == map[]
      && s.images == s0.images + Built(s.log) && Built(s.log) <= Requested(jobs)
      && forall t | 0 <= t < |jobs| ::
           if Raised(jobs, s0, schedule, t) then s.pcs[t].Failed?
           else s.pcs[t].Done? && jobs[t].baseKey in s.images && jobs[t].envKey in s.images
  {
    var s := Exec(jobs, s0, schedule).value;
    Reachable(jobs, s0, schedule);
    var u := NoDeadlock(jobs, s0, schedule);
    assert Next(jobs, s, u, true) == None;
    NothingHeld(jobs, s);
    BuiltFromRequests(jobs, s.log);
    forall t | 0 <= t < |jobs|
      ensures if Raised(jobs, s0, schedule, t) then s.pcs[t].Failed?
              else s.pcs[t].Done? && jobs[t].baseKey in s.images && jobs[t].envKey in s.images
    {
      AbortedIffRaised(jobs, s0, schedule, t);
      assert ThreadImages(jobs[t], s.pcs[t], s.images);
    }
  }

  /** When nothing raises, a run that cannot go on has served every thread: all are done, and the store holds
      exactly the old images plus every requested key, each missing one built by exactly one build. */
  lemma CompleteRun(jobs: seq<Job>, s0: State, schedule: seq<(nat, bool)>)
    requires Initial(jobs, s0) && Exec(jobs, s0, schedule).Some?
    requires forall i | 0 <= i < |schedule| :: schedule[i].1
    requires Stuck(jobs, Exec(jobs, s0, schedule).value)
    ensures var s := Exec(jobs, s0, schedule).value;
      && s.pcs == seq(|jobs|, _ => Done)
      && s.images == s0.images + Requested(jobs)
      && (forall key | key in Requested(jobs) - s0.images ::
            exists i :: 0 <= i < |s.log| && s.log[i].key == key
                        && forall j | 0 <= j < |s.log| && s.log[j].key == key :: j == i)
  {
    var s := Exec(jobs, s0, schedule).value;
    Reachable(jobs, s0, schedule);
    EveryRunEnds(jobs, s0, schedule);
    NothingFails(jobs, s0, schedule);
    forall key | key in Requested(jobs) - s0.images
      ensures exists i :: 0 <= i < |s.log| && s.log[i].key == key
                          && forall j | 0 <= j < |s.log| && s.log[j].key == key :: j == i
    {
      assert key in Built(s.log);
      OneBuild(s0.images, s.log, key);
    }
  }

  lemma OneBuild(images0: set<string>, log: seq<Build>, key: string)
    requires BuiltOnce(images0, log) && key in Built(log) && forall i | 0 <= i < |log| :: log[i].ok
    ensures exists i :: 0 <= i < |log| && log[i].key == key
                        && forall j | 0 <= j < |log| && log[j].key == key :: j == i
  {
    var i :| 0 <= i < |log| && log[i].ok && log[i].key == key;
  }

  lemma BuiltFromRequests(jobs: seq<Job>, log: seq<Build>)
    requires forall i | 0 <= i < |log| :: FromJob(jobs, log[i])
    ensures Built(log) <= Requested(jobs)
  {
    forall key | key in Built(log) ensures key in Requested(jobs) {
      var i :| 0 <= i < |log| && log[i].ok && log[i].key == key;
      assert FromJob(jobs, log[i]);
    }
  }

  ghost function Requested(jobs: seq<Job>): set<string> {
    (set t | 0 <= t < |jobs| :: jobs[t].baseKey) + (set t | 0 <= t < |jobs| :: jobs[t].envKey)
  }

  lemma {:induction false} NothingFails(jobs: seq<Job>, s0: State, schedule: seq<(nat, bool)>)
    requires Initial(jobs, s0) && Exec(jobs, s0, schedule).Some?
    requires forall i | 0 <= i < |schedule| :: schedule[i].1
    ensures forall t: nat :: !Raised(jobs, s0, schedule, t)
    ensures var s := Exec(jobs, s0, schedule).value; forall i | 0 <= i < |s.log| :: s.log[i].ok
  {
    if schedule != [] {
      NothingFails(jobs, s0, schedule[..|schedule| - 1]);
    }
  }

  // ---------- the two keys ----------

  /** The keys `_local_eval_image_keys` builds from a slug, an architecture and a hex digest. */
  function Keys(slug: string, arch: string, digest: string): Job
    requires |digest| >= 22
  {
    Job("rg.local.base." + slug + "." + arch + "." + digest[..12] + ":latest",
        "rg.local.env." + slug + "." + arch + "." + digest[..22] + ":latest")
  }

  /** What follows the slug in an env key. */
  function EnvTail(arch: string, digest: string): string
    requires |digest| >= 22
  {
    "." + arch + "." + digest[..22] + ":latest"
  }

  lemma SlugsEqual(slug1: string, tail1: string, slug2: string, tail2: string)
    requires '.' !in slug1 && '.' !in slug2 && slug1 + tail1 == slug2 + tail2
    requires tail1 != "" && tail2 != "" && tail1[0] == '.' && tail2[0] == '.'
    ensures slug1 == slug2 && tail1 == tail2
  {
    var all := slug1 + tail1;
    assert all[|slug1|] == '.' && all[|slug2|] == '.';
    assert forall k | 0 <= k < |slug1| :: all[k] == slug1[k] != '.';
    assert forall k | 0 <= k < |slug2| :: all[k] == slug2[k] != '.';
    assert all[..|slug1|] == slug1 && all[..|slug2|] == slug2;
    assert all[|slug1|..] == tail1 && all[|slug2|..] == tail2;
  }

  lemma TailsEqual(arch: string, digest1: string, digest2: string)
    requires |digest1| >= 22 && |digest2| >= 22 && EnvTail(arch, digest1) == EnvTail(arch, digest2)
    ensures digest1[..12] == digest2[..12]
  {
    var k := 2 + |arch|;
    assert EnvTail(arch, digest1)[k..k + 22] == digest1[..22];
    assert EnvTail(arch, digest2)[k..k + 22] == digest2[..22];
    assert digest1[..12] == digest1[..22][..12] && digest2[..12] == digest2[..22][..12];
  }

  lemma AfterPrefix(slug: string, arch: string, digest: string)
    requires |digest| >= 22
    ensures Keys(slug, arch, digest).envKey[13..] == slug + EnvTail(arch, digest)
  {
  }

  lemma KindsDiffer(slug1: string, digest1: string, slug2: string, digest2: string, arch: string)
    requires |digest1| >= 22 && |digest2| >= 22
    ensures Keys(slug1, arch, digest1).baseKey != Keys(slug2, arch, digest2).envKey
  {
    assert Keys(slug1, arch, digest1).baseKey[9] == 'b' && Keys(slug2, arch, digest2).envKey[9] == 'e';
  }

  /** A base key is never an env key, and one env key belongs to one base key: threads that share an env image
      agree on the base it is built from, whichever of them builds it. */
  lemma EnvKeyDeterminesBaseKey(slug1: string, digest1: string, slug2: string, digest2: string, arch: string)
    requires |digest1| >= 22 && |digest2| >= 22
    requires '.' !in slug1 && '.' !in slug2
    ensures Keys(slug1, arch, digest1).baseKey != Keys(slug2, arch, digest2).envKey
    ensures Keys(slug1, arch, digest1).envKey == Keys(slug2, arch, digest2).envKey ==>
      Keys(slug1, arch, digest1) == Keys(slug2, arch, digest2)
  {
    KindsDiffer(slug1, digest1, slug2, digest2, arch);
    if Keys(slug1, arch, digest1).envKey == Keys(slug2, arch, digest2).envKey {
      AfterPrefix(slug1, arch, digest1);
      AfterPrefix(slug2, arch, digest2);
      SlugsEqual(slug1, EnvTail(arch, digest1), slug2, EnvTail(arch, digest2));
      TailsEqual(arch, digest1, digest2);
    }
  }

  lemma BaseAfterPrefix(slug: string, arch: string, digest: string)
    requires |digest| >= 22
    ensures Keys(slug, arch, digest).baseKey[14..] == slug + ("." + arch + "." + digest[..12] + ":latest")
  {
  }

  lemma DigestsEqual(arch: string, digest1: string, digest2: string, n: nat)
    requires n <= |digest1| && n <= |digest2|
    requires "." + arch + "." + digest1[..n] + ":latest" == "." + arch + "." + digest2[..n] + ":latest"
    ensures digest1[..n] == digest2[..n]
  {
    var k := 2 + |arch|;
    assert ("." + arch + "." + digest1[..n] + ":latest")[k..k + n] == digest1[..n];
    assert ("." + arch + "." + digest2[..n] + ":latest")[k..k + n] == digest2[..n];
  }

  /** On one architecture two specs share a base image iff their slugs and the first 12 digits of their digests agree,
      and an env image iff their slugs and the first 22 digits do. */
  lemma KeysEqualIff(slug1: string, digest1: string, slug2: string, digest2: string, arch: string)
    requires |digest1| >= 22 && |digest2| >= 22
    requires '.' !in slug1 && '.' !in slug2
    ensures Keys(slug1, arch, digest1).baseKey == Keys(slug2, arch, digest2).baseKey
            <==> slug1 == slug2 && digest1[..12] == digest2[..12]
    ensures Keys(slug1, arch, digest1).envKey == Keys(slug2, arch, digest2).envKey
            <==> slug1 == slug2 && digest1[..22] == digest2[..22]
  {
    if Keys(slug1, arch, digest1).baseKey == Keys(slug2, arch, digest2).baseKey {
      BaseAfterPrefix(slug1, arch, digest1);
      BaseAfterPrefix(slug2, arch, digest2);
      SlugsEqual(slug1, "." + arch + "." + digest1[..12] + ":latest",
                 slug2, "." + arch + "." + digest2[..12] + ":latest");
      DigestsEqual(arch, digest1, digest2, 12);
    }
    if Keys(slug1, arch, digest1).envKey == Keys(slug2, arch, digest2).envKey {
      AfterPrefix(slug1, arch, digest1);
      AfterPrefix(slug2, arch, digest2);
      SlugsEqual(slug1, EnvTail(arch, digest1), slug2, EnvTail(arch, digest2));
      DigestsEqual(arch, digest1, digest2, 22);
    }
  }

  // ---------- the registry as the module-level dictionary it is ----------

  class Lock {
    constructor () {}
  }

  class LockRegistry {
    var locks: map<string, Lock>

    constructor ()
      ensures locks == map[]
    {
      locks := map[];
    }

    /** `_image_prep_lock`: the key's lock, created on first request; nothing else in the registry moves. */
    method PrepLock(key: string) returns (lock: Lock)
      modifies this
      ensures locks == old(locks)[key := lock]
      ensures if key in old(locks) then lock == old(locks)[key] else fresh(lock)
    {
      if key in locks {
        lock := locks[key];
        assert locks == locks[key := lock];
      } else {
        lock := new Lock();
        locks := locks[key := lock];
      }
    }
  }

  // ---------- the registry method is the registry step ----------

  /** The program's lock objects stand for the numbers the transition system gives them. */
  ghost predicate Represents(locks: map<string, Lock>, number: map<Lock, nat>, s: State) {
    && locks.Keys == s.locks.Keys
    && (forall key | key in locks :: locks[key] in number && number[locks[key]] == s.locks[key])
    && (forall l | l in number :: number[l] < s.nextLock)
    && (forall l, m | l in number && m in number && number[l] == number[m] :: l == m)
  }

  lemma KnownKeyStep(key: string, locks: map<string, Lock>, number: map<Lock, nat>, s: State)
    requires Represents(locks, number, s) && key in locks
    ensures locks[key := locks[key]] == locks && number[locks[key]] == s.locks[key]
  {
  }

  lemma NewKeyStep(key: string, lock: Lock, locks: map<string, Lock>, number: map<Lock, nat>, s: State, next: State)
    requires Represents(locks, number, s) && key !in locks && lock !in number
    requires next.locks == s.locks[key := s.nextLock] && next.nextLock == s.nextLock + 1
    ensures Represents(locks[key := lock], number[lock := s.nextLock], next)
  {
    var more, renumbered := locks[key := lock], number[lock := s.nextLock];
    forall k | k in more ensures more[k] in renumbered && renumbered[more[k]] == next.locks[k] {
      assert k != key ==> more[k] == locks[k] && locks[k] in number;
    }
  }

  lemma SameLocks(locks: map<string, Lock>, number: map<Lock, nat>, s: State, next: State)
    requires Represents(locks, number, s) && next.locks == s.locks && next.nextLock == s.nextLock
    ensures Represents(locks, number, next)
  {
  }

  /** Calling `PrepLock` is the step of a thread inside the registry: from states that represent each other, what the
      method promises about the dictionary and the lock it returns is again represented by the state after the step,
      and the thread goes on to wait for just that lock. `number'` numbers one object more if the method made one. */
  lemma PrepLockIsRegistryStep(jobs: seq<Job>, s: State, t: nat, ok: bool, locks: map<string, Lock>,
                               number: map<Lock, nat>, lock: Lock)
    returns (next: State, number': map<Lock, nat>)
    requires t < |jobs| == |s.pcs| && s.pcs[t].InRegistry? && Represents(locks, number, s)
    requires var key := KeyOf(jobs[t], s.pcs[t].phase);
      if key in locks then lock == locks[key] else lock !in number
    ensures Next(jobs, s, t, ok) == Some(next)
    ensures Represents(locks[KeyOf(jobs[t], s.pcs[t].phase) := lock], number', next)
    ensures lock in number' && next.pcs[t] == Waiting(s.pcs[t].phase, number'[lock])
    ensures forall l | l in number :: l in number' && number'[l] == number[l]
  {
    next := Next(jobs, s, t, ok).value;
    var key := KeyOf(jobs[t], s.pcs[t].phase);
    if key in locks {
      number' := number;
      KnownKeyStep(key, locks, number, s);
      SameLocks(locks, number, s, next);
    } else {
      number' := number[lock := s.nextLock];
      NewKeyStep(key, lock, locks, number, s, next);
    }
  }
}
