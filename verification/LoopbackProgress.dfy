/** How many steps are left once `stop` has begun: for a woken `accept`, and for `stop` as a whole. */
module LoopbackProgress {
  import opened Wrappers
  import opened LoopbackMachine
  import opened LoopbackInvariant
  import opened LoopbackTheorems

  // ---------- a woken accept ----------

  /** The steps thread `t` takes in a run. */
  function StepsOf(run: seq<Action>, t: Thread): nat {
    if run == [] then 0 else (if IsStepOf(run[0], t) then 1 else 0) + StepsOf(run[1..], t)
  }

  /** The steps `t` still takes inside its call, while it cannot wait again. */
  function CallRank(s: State, t: Thread): nat {
    if t in s.entered then 2 else if s.lock == SawEmpty(t) then 1 else 0
  }

  /** `t` is neither parked nor about to park. */
  predicate Returning(s: State, t: Thread) {
    t !in s.parked && s.lock != WillPark(t)
  }

  /** The flag is down, the stop flag is up, and `t` is on its way out. */
  predicate OnItsWayOut(s: State, t: Thread) {
    StopRegion(s) && !s.generationLive && Returning(s, t)
  }

  lemma OwnStepLeaves(s: State, a: Action, t: Thread)
    requires Threads(s) && s.stopRequested && OnItsWayOut(s, t) && IsStepOf(a, t) && AcceptEnabled(s, a)
    ensures OnItsWayOut(AcceptApply(s, a), t)
    ensures CallRank(AcceptApply(s, a), t) == 0 || CallRank(AcceptApply(s, a), t) < CallRank(s, t)
  {
  }

  lemma OtherAcceptStep(s: State, a: Action, t: Thread)
    requires s.stopRequested && OnItsWayOut(s, t) && IsAcceptStep(a) && a.thread != t && AcceptEnabled(s, a)
    ensures OnItsWayOut(AcceptApply(s, a), t) && CallRank(AcceptApply(s, a), t) == CallRank(s, t)
  {
  }

  lemma ListenerStepBeside(s: State, woken: Option<Thread>, t: Thread)
    requires Threads(s) && OnItsWayOut(s, t) && ListenerEnabled(s, woken)
    ensures OnItsWayOut(ListenerApply(s, woken), t) && CallRank(ListenerApply(s, woken), t) == CallRank(s, t)
  {
  }

  lemma LifecycleStepBeside(s: State, bound: Address, t: Thread)
    requires Inv(s) && OnItsWayOut(s, t) && AdvanceEnabled(s)
    requires AdvanceApply(s, bound).generation == s.generation
    ensures OnItsWayOut(AdvanceApply(s, bound), t) && CallRank(AdvanceApply(s, bound), t) == CallRank(s, t)
  {
    AdvanceStaysStopped(s, bound);
  }

  lemma StepOnTheWayOut(s: State, a: Action, t: Thread)
    requires Inv(s) && OnItsWayOut(s, t) && Enabled(s, a) && Apply(s, a).generation == s.generation
    ensures OnItsWayOut(Apply(s, a), t)
    ensures if IsStepOf(a, t) then CallRank(Apply(s, a), t) == 0 || CallRank(Apply(s, a), t) < CallRank(s, t)
            else CallRank(Apply(s, a), t) == CallRank(s, t)
  {
    match a
    case BeginConnect(_) =>
    case FinishConnect(_, _) =>
    case Arrive(_) =>
    case Listen(woken) => ListenerStepBeside(s, woken, t);
    case Advance(bound) => LifecycleStepBeside(s, bound, t);
    case _ =>
      if a.thread == t {
        OwnStepLeaves(s, a, t);
      } else {
        OtherAcceptStep(s, a, t);
      }
  }

  /** Whatever the other threads do, the call is over after as many steps of its own as its rank. */
  lemma {:induction false} ReturnsInTime(s: State, t: Thread, run: seq<Action>)
    requires Inv(s) && OnItsWayOut(s, t) && CanRun(s, run) && After(s, run).generation == s.generation
    requires StepsOf(run, t) >= CallRank(s, t)
    ensures !InCall(After(s, run), t)
    decreases |run|
  {
    if run != [] {
      FirstStepStays(s, run);
      StepOnTheWayOut(s, run[0], t);
      ActionKeepsInv(s, run[0]);
      ReturnsInTime(Apply(s, run[0]), t, run[1..]);
    }
  }

  /**
   Every `accept` parked when either `notify_all` fires has returned, with a queued stream or with
   `Stopped`, in every run of the same generation in which its thread takes two more steps.
   */
  lemma NotifiedAcceptReturns(s: State, a: Action, t: Thread, run: seq<Action>)
    requires Reachable(s) && Enabled(s, a) && IsNotifyAll(s, a) && t in s.parked
    requires CanRun(Apply(s, a), run) && After(Apply(s, a), run).generation == s.generation
    requires StepsOf(run, t) >= 2
    ensures !InCall(After(Apply(s, a), run), t)
  {
    ReachableInv(s);
    ActionKeepsInv(s, a);
    NotifiedIsOnItsWayOut(s, a, t);
    ReturnsInTime(Apply(s, a), t, run);
  }

  lemma NotifiedIsOnItsWayOut(s: State, a: Action, t: Thread)
    requires Inv(s) && Enabled(s, a) && IsNotifyAll(s, a) && t in s.parked
    ensures OnItsWayOut(Apply(s, a), t) && CallRank(Apply(s, a), t) <= 2
  {
    if a.Advance? {
      assert Apply(s, a) == AdvanceApply(s, a.bound);
    } else {
      assert Apply(s, a) == ListenerApply(s, a.woken);
    }
  }

  // ---------- stop as a whole ----------

  /** The steps the accept callers still take, at most, once none can begin a new wait. */
  function CallersRank(s: State): nat {
    3 * |s.parked| + 2 * |s.entered| + if s.lock.Free? then 0 else if s.lock.SawEmpty? then 1 else 4
  }

  function TotalRank(s: State): nat {
    StopRank(s) + CallersRank(s)
  }

  /** A step that takes part in the stop; the others are calls that see the dead flag, and the environment. */
  predicate Effective(a: Action) {
    !a.Enter? && !a.BeginConnect? && !a.FinishConnect? && !a.Arrive?
  }

  function EffectiveSteps(run: seq<Action>): nat {
    if run == [] then 0 else (if Effective(run[0]) then 1 else 0) + EffectiveSteps(run[1..])
  }

  /** `run` goes from a state of `stop` after its second store to its return at most. */
  predicate WithinStop(s: State, run: seq<Action>)
    decreases |run|
  {
    run == [] || (Phase(s.lifecycle) >= 10 && Enabled(s, run[0]) && WithinStop(Apply(s, run[0]), run[1..]))
  }

  lemma AcceptLowers(s: State, a: Action)
    requires Inv(s) && Phase(s.lifecycle) >= 10 && IsAcceptStep(a) && AcceptEnabled(s, a)
    ensures Phase(AcceptApply(s, a).lifecycle) >= 10
    ensures if a.Enter? then TotalRank(AcceptApply(s, a)) == TotalRank(s)
            else TotalRank(AcceptApply(s, a)) < TotalRank(s)
  {
    AcceptKeepsRank(s, a);
    CallersRankFalls(s, a);
  }

  lemma CallersRankFalls(s: State, a: Action)
    requires Threads(s) && IsAcceptStep(a) && AcceptEnabled(s, a)
    requires s.stopRequested && !s.generationLive
    ensures if a.Enter? then AcceptApply(s, a) == s else CallersRank(AcceptApply(s, a)) < CallersRank(s)
  {
    if a.LockAndPop? {
      assert |s.entered - {a.thread}| == |s.entered| - 1;
    } else if a.Park? {
      assert |s.parked + {a.thread}| == |s.parked| + 1;
    } else if a.SpuriousWake? {
      OneWakes(s.parked, s.entered, a.thread);
    }
  }

  lemma OneWakes(parked: set<Thread>, entered: set<Thread>, t: Thread)
    requires parked !! entered && t in parked
    ensures |parked - {t}| == |parked| - 1 && |entered + {t}| == |entered| + 1
  {
  }

  lemma AllWake(parked: set<Thread>, entered: set<Thread>)
    requires parked !! entered
    ensures |entered + parked| == |entered| + |parked|
  {
  }

  lemma ListenerLowers(s: State, woken: Option<Thread>)
    requires Inv(s) && Phase(s.lifecycle) >= 10 && ListenerEnabled(s, woken)
    ensures Phase(ListenerApply(s, woken).lifecycle) >= 10
    ensures TotalRank(ListenerApply(s, woken)) < TotalRank(s)
  {
    ListenerRankFalls(s, woken);
    if s.listener.NotifyOne? && woken.Some? {
      OneWakes(s.parked, s.entered, woken.value);
    } else if s.listener.NotifyAll? {
      AllWake(s.parked, s.entered);
    }
  }

  lemma LifecycleLowers(s: State, bound: Address)
    requires Inv(s) && Phase(s.lifecycle) >= 10 && AdvanceEnabled(s)
    ensures s.lifecycle.Drained? ==> AdvanceApply(s, bound).lifecycle.Down?
    ensures !s.lifecycle.Drained? ==>
              && Phase(AdvanceApply(s, bound).lifecycle) >= 10
              && TotalRank(AdvanceApply(s, bound)) < TotalRank(s)
  {
    if !s.lifecycle.Drained? {
      AdvanceRankFalls(s, bound);
      AllWake(s.parked, s.entered);
    }
  }

  /** Every effective step during `stop` lowers the total rank, and no other step changes it. */
  lemma StepLowers(s: State, a: Action)
    requires Inv(s) && Phase(s.lifecycle) >= 10 && Enabled(s, a)
    ensures a.Advance? && s.lifecycle.Drained? ==> Apply(s, a).lifecycle.Down?
    ensures !(a.Advance? && s.lifecycle.Drained?) ==>
              && Phase(Apply(s, a).lifecycle) >= 10
              && (if Effective(a) then TotalRank(Apply(s, a)) < TotalRank(s)
                  else TotalRank(Apply(s, a)) == TotalRank(s))
  {
    match a
    case BeginConnect(_) =>
    case FinishConnect(_, _) =>
    case Arrive(_) =>
    case Listen(woken) => ListenerLowers(s, woken);
    case Advance(bound) => LifecycleLowers(s, bound);
    case _ => AcceptLowers(s, a);
  }

  lemma {:induction false} RunLowers(s: State, run: seq<Action>)
    requires Inv(s) && WithinStop(s, run)
    ensures EffectiveSteps(run) <= TotalRank(s)
    decreases |run|
  {
    if run != [] {
      var s1 := Apply(s, run[0]);
      StepLowers(s, run[0]);
      ActionKeepsInv(s, run[0]);
      if s1.lifecycle.Down? {
        assert run[1..] == [];
      } else {
        RunLowers(s1, run[1..]);
      }
    }
  }

  /**
   `stop` cannot be held up: from its second store on, no run contains more effective steps, of any
   threads together, than the rank of the state, and until it has returned one is always enabled.
   */
  lemma StopIsBounded(s: State, run: seq<Action>)
    requires Reachable(s) && Phase(s.lifecycle) >= 10
    ensures WithinStop(s, run) ==> EffectiveSteps(run) <= TotalRank(s)
    ensures exists a :: Effective(a) && Enabled(s, a)
  {
    ReachableInv(s);
    if WithinStop(s, run) {
      RunLowers(s, run);
    }
    var a := NextEffective(s);
  }

  /** A step of `stop`, of the listener, or of a caller that has nothing to take. */
  predicate MovesStop(a: Action) {
    a == Advance(0) || a.Listen? || a.LoadStop? || a.Park?
  }

  lemma MovingHandsOutNothing(s: State, a: Action)
    requires Enabled(s, a) && MovesStop(a) && Phase(s.lifecycle) >= 9
    ensures Apply(s, a).handedOut == s.handedOut && Apply(s, a).generation == s.generation
  {
    match a
    case Advance(_) => assert AdvanceApply(s, 0).handedOut == s.handedOut;
    case Listen(woken) => assert ListenerApply(s, woken).handedOut == s.handedOut;
    case _ =>
  }

  lemma NextEffective(s: State) returns (a: Action)
    requires Inv(s) && Phase(s.lifecycle) >= 9
    ensures Enabled(s, a) && MovesStop(a)
  {
    if Enabled(s, Advance(0)) {
      a := Advance(0);
    } else if !s.lock.Free? {
      a := LockRelease(s.lock);
    } else if s.listener.NotifyOne? && s.parked != {} {
      var w :| w in s.parked;
      a := Listen(Some(w));
    } else {
      a := Listen(None);
    }
  }

  /** From every state of `stop` some run completes it, handing out nothing. */
  lemma {:induction false} StopCanFinish(s: State) returns (run: seq<Action>)
    requires Inv(s) && Phase(s.lifecycle) >= 10
    ensures CanRun(s, run)
    ensures var s' := After(s, run);
      && Inv(s') && s'.lifecycle.Down? && s'.generation == s.generation && s'.handedOut == s.handedOut
    decreases TotalRank(s)
  {
    var a := NextEffective(s);
    var s1 := Apply(s, a);
    StepLowers(s, a);
    MovingHandsOutNothing(s, a);
    ActionKeepsInv(s, a);
    if s1.lifecycle.Down? {
      assert CanRun(s1, []);
      return [a];
    }
    var rest := StopCanFinish(s1);
    run := [a] + rest;
    assert run[1..] == rest;
  }
}
