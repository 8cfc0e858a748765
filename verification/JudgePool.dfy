/** The thread pool of `run_harness_evaluation` (repogauge/runner/judge.py): batches are submitted in order, at
    most `cap` run at once, finished ones are collected in any order, and the first one collected that raised
    ends the collection while the pool runs on to the end. */
module JudgePool {
  import opened Wrappers
  import opened MapMerge

  datatype Pool = Pool(
    next: nat,             // batches below this one have been started
    running: set<nat>,
    finished: set<nat>,    // done, not yet collected
    collected: seq<nat>,   // in order of collection
    raised: Option<nat>)   // the batch whose exception ended the collection

  datatype Action = Start | Finish(batch: nat) | Collect(batch: nat)

  const INITIAL := Pool(0, {}, {}, [], None)

  /** `raises[i]` says whether batch `i` ends in an exception. */
  function Next(cap: nat, raises: seq<bool>, s: Pool, a: Action): Option<Pool> {
    match a
    case Start =>
      if s.next < |raises| && |s.running| < cap then Some(s.(next := s.next + 1, running := s.running + {s.next}))
      else None
    case Finish(i) =>
      if i in s.running then Some(s.(running := s.running - {i}, finished := s.finished + {i})) else None
    case Collect(i) =>
      if i !in s.finished || s.raised.Some? || i >= |raises| then None
      else if raises[i] then Some(s.(finished := s.finished - {i}, raised := Some(i)))
      else Some(s.(finished := s.finished - {i}, collected := s.collected + [i]))
  }

  function Run(cap: nat, raises: seq<bool>, actions: seq<Action>): Option<Pool> {
    if actions == [] then Some(INITIAL)
    else
      match Run(cap, raises, actions[..|actions| - 1])
      case None => None
      case Some(s) => Next(cap, raises, s, actions[|actions| - 1])
  }

  /** The `as_completed` loop is over and the pool has shut down. */
  predicate Complete(raises: seq<bool>, s: Pool) {
    s.next == |raises| && s.running == {} && (s.raised.Some? || s.finished == {})
  }

  /** Where a started batch can be. */
  predicate Located(s: Pool, i: nat) {
    i in s.running || i in s.finished || i in s.collected || s.raised == Some(i)
  }

  ghost predicate Inv(cap: nat, raises: seq<bool>, s: Pool) {
    && s.next <= |raises| && |s.running| <= cap
    && (forall i: nat :: i < s.next <==> Located(s, i))
    && s.running !! s.finished
    && (forall p | 0 <= p < |s.collected| ::
          s.collected[p] < |raises| && !raises[s.collected[p]]
          && s.collected[p] !in s.running && s.collected[p] !in s.finished)
    && (forall p, q | 0 <= p < q < |s.collected| :: s.collected[p] != s.collected[q])
    && (s.raised.Some? ==> s.raised.value < |raises| && raises[s.raised.value])
  }

  lemma StartKeepsInv(cap: nat, raises: seq<bool>, s: Pool)
    requires Inv(cap, raises, s) && Next(cap, raises, s, Start).Some?
    ensures Inv(cap, raises, Next(cap, raises, s, Start).value)
  {
    var s' := Next(cap, raises, s, Start).value;
    assert !Located(s, s.next);
    forall i: nat ensures i < s'.next <==> Located(s', i) {
      assert i < s.next <==> Located(s, i);
    }
    assert forall p | 0 <= p < |s.collected| :: s.collected[p] in s.collected;
  }

  lemma FinishKeepsInv(cap: nat, raises: seq<bool>, s: Pool, b: nat)
    requires Inv(cap, raises, s) && Next(cap, raises, s, Finish(b)).Some?
    ensures Inv(cap, raises, Next(cap, raises, s, Finish(b)).value)
  {
    var s' := Next(cap, raises, s, Finish(b)).value;
    forall i: nat ensures i < s'.next <==> Located(s', i) {
      assert i < s.next <==> Located(s, i);
    }
  }

  lemma CollectKeepsInv(cap: nat, raises: seq<bool>, s: Pool, b: nat)
    requires Inv(cap, raises, s) && Next(cap, raises, s, Collect(b)).Some?
    ensures Inv(cap, raises, Next(cap, raises, s, Collect(b)).value)
  {
    var s' := Next(cap, raises, s, Collect(b)).value;
    assert b !in s.running;
    assert forall p | 0 <= p < |s.collected| :: s.collected[p] != b;
    forall i: nat ensures i < s'.next <==> Located(s', i) {
      assert i < s.next <==> Located(s, i);
    }
  }

  lemma StepKeepsInv(cap: nat, raises: seq<bool>, s: Pool, a: Action)
    requires Inv(cap, raises, s) && Next(cap, raises, s, a).Some?
    ensures Inv(cap, raises, Next(cap, raises, s, a).value)
  {
    match a
    case Start => StartKeepsInv(cap, raises, s);
    case Finish(b) => FinishKeepsInv(cap, raises, s, b);
    case Collect(b) => CollectKeepsInv(cap, raises, s, b);
  }

  lemma {:induction false} RunKeepsInv(cap: nat, raises: seq<bool>, actions: seq<Action>)
    requires Run(cap, raises, actions).Some?
    ensures Inv(cap, raises, Run(cap, raises, actions).value)
  {
    if actions != [] {
      var n := |actions| - 1;
      RunKeepsInv(cap, raises, actions[..n]);
      StepKeepsInv(cap, raises, Run(cap, raises, actions[..n]).value, actions[n]);
    }
  }

  /** Whatever the interleaving, a complete run has failed iff some batch raises, and otherwise has collected
      every batch exactly once. */
  lemma CompleteRunCollectsAll(cap: nat, raises: seq<bool>, actions: seq<Action>)
    requires Run(cap, raises, actions).Some? && Complete(raises, Run(cap, raises, actions).value)
    ensures var s := Run(cap, raises, actions).value;
      && (s.raised.Some? <==> true in raises)
      && (s.raised == None ==> IsOrder(s.collected, |raises|))
  {
    RunKeepsInv(cap, raises, actions);
    var s := Run(cap, raises, actions).value;
    if s.raised == None {
      forall i: nat | i < |raises| ensures i in s.collected && !raises[i] {
        assert Located(s, i);
        var p :| 0 <= p < |s.collected| && s.collected[p] == i;
      }
    }
  }

  function Measure(n: nat, s: Pool): nat
    requires s.next <= n
  {
    3 * (n - s.next) + 2 * |s.running| + |s.finished|
  }

  /** Every move uses up some of the measure: no run has more than three moves per batch. */
  lemma StepShrinks(cap: nat, raises: seq<bool>, s: Pool, a: Action)
    requires Inv(cap, raises, s) && Next(cap, raises, s, a).Some?
    ensures var s' := Next(cap, raises, s, a).value;
      s.next <= |raises| && s'.next <= |raises| && Measure(|raises|, s') < Measure(|raises|, s)
  {
    assert !Located(s, s.next);
  }

  lemma {:induction false} RunsEnd(cap: nat, raises: seq<bool>, actions: seq<Action>)
    requires Run(cap, raises, actions).Some?
    ensures var s := Run(cap, raises, actions).value;
      s.next <= |raises| && |actions| + Measure(|raises|, s) <= 3 * |raises|
  {
    if actions != [] {
      var n := |actions| - 1;
      RunsEnd(cap, raises, actions[..n]);
      RunKeepsInv(cap, raises, actions[..n]);
      StepShrinks(cap, raises, Run(cap, raises, actions[..n]).value, actions[n]);
    }
  }

  /** With a positive cap an incomplete run can always move. */
  lemma RunsCanMove(cap: nat, raises: seq<bool>, actions: seq<Action>) returns (a: Action)
    requires cap > 0 && Run(cap, raises, actions).Some?
    ensures var s := Run(cap, raises, actions).value;
      Complete(raises, s) || Next(cap, raises, s, a).Some?
  {
    RunKeepsInv(cap, raises, actions);
    var s := Run(cap, raises, actions).value;
    a := Start;
    if s.running != {} {
      var i :| i in s.running;
      a := Finish(i);
    } else if s.finished != {} {
      var i :| i in s.finished;
      assert Located(s, i);
      a := if s.next < |raises| then Start else Collect(i);
    }
  }
}
