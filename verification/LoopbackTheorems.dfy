/** What the loopback lifecycle promises over whole runs. */
module LoopbackTheorems {
  import opened Wrappers
  import opened LoopbackMachine
  import opened LoopbackInvariant

  // ---------- delivery ----------

  /**
   While some `accept` is parked, every queued stream has an awake `accept` or an owed
   `notify_one` to take it; with neither, the queue is empty.
   */
  lemma ParkedAcceptMissesNoStream(s: State)
    requires Reachable(s)
    ensures s.parked != {} ==> |s.queue| <= |s.entered| + Owed(s)
    ensures s.parked != {} && s.entered == {} && !s.listener.NotifyOne? ==> s.queue == []
  {
    ReachableInv(s);
  }

  /** Streams are handed out in push order, none twice and none skipped. */
  lemma StreamsAreConserved(s: State)
    requires Reachable(s)
    ensures s.returned <= s.pushed
    ensures s.pushed == s.returned + s.queue + s.dropped
    ensures s.acceptedConnections
         == (|s.returned| + |s.queue| + |s.dropped| + if s.listener.PushStream? then 1 else 0)
            % USIZE_MODULUS
    ensures s.lifecycle.Down? ==>
              && s.queue == []
              && s.acceptedConnections == (|s.returned| + |s.dropped|) % USIZE_MODULUS
  {
    ReachableInv(s);
    assert s.returned + s.queue + s.dropped == s.returned + (s.queue + s.dropped);
  }

  // ---------- why an accept waits ----------

  lemma {:induction false} StepOfRun(s: State, run: seq<Action>, n: nat)
    requires CanRun(s, run) && n < |run|
    ensures CanRun(s, run[..n]) && CanRun(s, run[..n + 1])
    ensures Enabled(After(s, run[..n]), run[n])
    ensures After(s, run[..n + 1]) == Apply(After(s, run[..n]), run[n])
    decreases n
  {
    if n > 0 {
      StepOfRun(Apply(s, run[0]), run[1..], n - 1);
      assert run[..n][1..] == run[1..][..n - 1] && run[..n + 1][1..] == run[1..][..n];
    } else {
      assert run[..1][1..] == [];
    }
  }

  lemma PrefixRuns(s: State, run: seq<Action>, n: nat)
    requires CanRun(s, run) && n <= |run|
    ensures CanRun(s, run[..n])
  {
    if n < |run| {
      StepOfRun(s, run, n);
    } else {
      assert run[..n] == run;
    }
  }

  /** The state of a run from the start after `n` steps. */
  ghost function At(run: seq<Action>, n: nat): State
    requires CanRun(INIT, run) && n <= |run|
  {
    PrefixRuns(INIT, run, n);
    After(INIT, run[..n])
  }

  /** At step `i` thread `t` took the lock and found the queue empty; it holds the lock up to `n`. */
  ghost predicate FoundEmpty(run: seq<Action>, t: Thread, i: nat, n: nat)
    requires CanRun(INIT, run) && n <= |run|
  {
    && i < n && run[i] == LockAndPop(t) && At(run, i).queue == []
    && forall m :: i < m <= n ==> !At(run, m).lock.Free? && At(run, m).lock.holder == t
  }

  /** At step `j` thread `t` loaded the stop flag as false; it holds the lock up to `n`. */
  ghost predicate FoundRunning(run: seq<Action>, t: Thread, j: nat, n: nat)
    requires CanRun(INIT, run) && n <= |run|
  {
    && j < n && run[j] == LoadStop(t) && !At(run, j).stopRequested && At(run, j).lock == SawEmpty(t)
    && forall m :: j < m <= n ==> !At(run, m).lock.Free? && At(run, m).lock.holder == t
  }

  lemma LockComesFrom(s: State, a: Action, t: Thread)
    requires Enabled(s, a)
    ensures Apply(s, a).lock == SawEmpty(t) ==> s.lock == SawEmpty(t) || (a == LockAndPop(t) && s.queue == [])
    ensures Apply(s, a).lock == WillPark(t) ==>
              s.lock == WillPark(t) || (a == LoadStop(t) && !s.stopRequested && s.lock == SawEmpty(t))
  {
    match a
    case BeginConnect(_) =>
    case FinishConnect(_, _) =>
    case Arrive(_) =>
    case Listen(woken) => assert ListenerApply(s, woken).lock == s.lock;
    case Advance(bound) => assert AdvanceApply(s, bound).lock == s.lock;
    case _ =>
  }

  lemma {:induction false} EmptyWasSeen(run: seq<Action>, t: Thread, n: nat)
    requires CanRun(INIT, run) && n <= |run| && At(run, n).lock == SawEmpty(t)
    ensures exists i: nat :: FoundEmpty(run, t, i, n)
    decreases n
  {
    assert n > 0;
    StepOfRun(INIT, run, n - 1);
    LockComesFrom(At(run, n - 1), run[n - 1], t);
    if At(run, n - 1).lock == SawEmpty(t) {
      EmptyWasSeen(run, t, n - 1);
      var i: nat :| FoundEmpty(run, t, i, n - 1);
      assert FoundEmpty(run, t, i, n);
    } else {
      assert FoundEmpty(run, t, n - 1, n);
    }
  }

  lemma {:induction false} FlagWasSeen(run: seq<Action>, t: Thread, n: nat)
    requires CanRun(INIT, run) && n <= |run| && At(run, n).lock == WillPark(t)
    ensures exists j: nat :: FoundRunning(run, t, j, n)
    decreases n
  {
    assert n > 0;
    StepOfRun(INIT, run, n - 1);
    LockComesFrom(At(run, n - 1), run[n - 1], t);
    if At(run, n - 1).lock == WillPark(t) {
      FlagWasSeen(run, t, n - 1);
      var j: nat :| FoundRunning(run, t, j, n - 1);
      assert FoundRunning(run, t, j, n);
    } else {
      assert FoundRunning(run, t, n - 1, n);
    }
  }

  /**
   An `accept` waits only after it has, under one hold of the lock, found the queue empty and then
   loaded the stop flag as false.
   */
  lemma WaitingIsJustified(run: seq<Action>, k: nat, t: Thread)
    requires CanRun(INIT, run) && k < |run| && run[k] == Park(t)
    ensures exists i: nat, j: nat :: i < j < k && FoundEmpty(run, t, i, j) && FoundRunning(run, t, j, k)
  {
    StepOfRun(INIT, run, k);
    FlagWasSeen(run, t, k);
    var j: nat :| FoundRunning(run, t, j, k);
    EmptyWasSeen(run, t, j);
    var i: nat :| FoundEmpty(run, t, i, j);
  }

  /** How often `t` has waited is the number of its parks in the run. */
  lemma {:induction false} WaitsAreCounted(s: State, run: seq<Action>, t: Thread)
    requires CanRun(s, run)
    ensures After(s, run).parks[t] == s.parks[t] + Waits(run, t)
    decreases |run|
  {
    if run != [] {
      WaitIsCounted(s, run[0], t);
      WaitsAreCounted(Apply(s, run[0]), run[1..], t);
    }
  }

  function Waits(run: seq<Action>, t: Thread): nat {
    if run == [] then 0 else (if run[0] == Park(t) then 1 else 0) + Waits(run[1..], t)
  }

  lemma WaitIsCounted(s: State, a: Action, t: Thread)
    requires Enabled(s, a)
    ensures Apply(s, a).parks[t] == s.parks[t] + if a == Park(t) then 1 else 0
  {
    match a
    case BeginConnect(_) =>
    case FinishConnect(_, _) =>
    case Arrive(_) =>
    case Listen(woken) => assert ListenerApply(s, woken).parks == s.parks;
    case Advance(bound) => assert AdvanceApply(s, bound).parks == s.parks;
    case _ =>
  }

  // ---------- generations ----------

  /**
   The liveness flag is up exactly from its store in `start` to its clear in `stop` or by the ending
   listener of the same generation, whatever earlier generations' threads did; a stopped state holds
   nothing.
   */
  lemma GenerationsAreIsolated(s: State)
    requires Reachable(s)
    ensures s.generationLive <==> FlagUp(s)
    ensures s.lifecycle.Up? ==> s.generationLive && !s.stopRequested && s.address.Some?
    ensures s.lifecycle.Down? || s.lifecycle.Bound? || s.lifecycle.StopCleared? ==>
              !s.generationLive && s.queue == [] && s.address.None? && s.listener.Absent?
  {
    ReachableInv(s);
  }

  /** Some run that lets the holder of the queue lock go on until the lock is free. */
  lemma FreeLock(s: State) returns (run: seq<Action>)
    requires Inv(s)
    ensures CanRun(s, run)
    ensures After(s, run).lock.Free?
    ensures After(s, run).lifecycle == s.lifecycle && After(s, run).generation == s.generation
    ensures After(s, run).handedOut == s.handedOut
  {
    if s.lock.Free? {
      return [];
    }
    var a := LockRelease(s.lock);
    var s1 := Apply(s, a);
    if s1.lock.Free? {
      assert CanRun(s1, []);
      return [a];
    }
    var b := LockRelease(s1.lock);
    var s2 := Apply(s1, b);
    assert [a, b][1..] == [b] && CanRun(s2, []) && CanRun(s1, [b]) && After(s1, [b]) == s2;
    return [a, b];
  }

  /** `n` lifecycle steps in a row. */
  function Advances(n: nat): (run: seq<Action>)
    ensures |run| == n
  {
    if n == 0 then [] else [Advance(0)] + Advances(n - 1)
  }

  lemma StartOnce(s: State)
    requires Inv(s) && Phase(s.lifecycle) < 8 && s.lock.Free?
    ensures AdvanceEnabled(s)
    ensures var s' := AdvanceApply(s, 0);
      && Phase(s'.lifecycle) == Phase(s.lifecycle) + 1
      && s'.lock.Free? && s'.entered == s.entered && s'.parked == s.parked && s'.handedOut == s.handedOut
      && (s.queue == [] ==> s'.queue == []) && (s.backlog == [] ==> s'.backlog == [])
      && (s'.lifecycle.Spawned? ==> s'.listener.AwaitIncoming?)
      && (s.lifecycle.Spawned? ==> s'.listener == s.listener)
      && s'.generation == s.generation + if s.lifecycle.Bound? then 1 else 0
  {
  }

  /** `start` on its own, from any of its points. */
  lemma {:induction false} StartRuns(s: State, n: nat)
    requires Inv(s) && Phase(s.lifecycle) + n == 8 && s.lock.Free?
    ensures CanRun(s, Advances(n))
    ensures var s' := After(s, Advances(n));
      && Inv(s') && s'.lifecycle.Up? && s'.lock.Free?
      && s'.entered == s.entered && s'.parked == s.parked && s'.handedOut == s.handedOut
      && (s.queue == [] ==> s'.queue == []) && (s.backlog == [] ==> s'.backlog == [])
      && (n >= 2 || (n == 1 && s.listener.AwaitIncoming?) ==> s'.listener.AwaitIncoming?)
      && s'.generation == s.generation + if Phase(s.lifecycle) <= 1 then 1 else 0
    decreases n
  {
    if n > 0 {
      StartOnce(s);
      ActionKeepsInv(s, Advance(0));
      assert Advances(n)[0] == Advance(0) && Advances(n)[1..] == Advances(n - 1);
      StartRuns(AdvanceApply(s, 0), n - 1);
    }
  }

  lemma StopOnce(s: State)
    requires Inv(s) && 8 <= Phase(s.lifecycle) <= 13
    ensures AdvanceEnabled(s)
    ensures var s' := AdvanceApply(s, 0);
      && Phase(s'.lifecycle) == Phase(s.lifecycle) + 1
      && s'.lock == s.lock && s'.listener == s.listener && s'.handedOut == s.handedOut
      && s'.generation == s.generation
  {
  }

  /** `stop` on its own, up to the join; nothing blocks it there. */
  lemma {:induction false} StopRuns(s: State, n: nat)
    requires Inv(s) && 8 <= Phase(s.lifecycle) && Phase(s.lifecycle) + n == 14
    ensures CanRun(s, Advances(n))
    ensures var s' := After(s, Advances(n));
      && Inv(s') && s'.lifecycle.Joining?
      && s'.lock == s.lock && s'.listener == s.listener && s'.handedOut == s.handedOut
      && s'.generation == s.generation
    decreases n
  {
    if n > 0 {
      StopOnce(s);
      ActionKeepsInv(s, Advance(0));
      assert Advances(n)[0] == Advance(0) && Advances(n)[1..] == Advances(n - 1);
      StopRuns(AdvanceApply(s, 0), n - 1);
    }
  }

  // ---------- stop: who is unblocked ----------

  /** Threads that are parked or can no longer avoid parking. */
  function Stuck(s: State): set<Thread> {
    s.parked + if s.lock.WillPark? then {s.lock.holder} else {}
  }

  predicate SameStop(s: State, s': State) {
    && s'.window == s.window && s'.pushing == s.pushing && s'.pushedAtStop == s.pushedAtStop
  }

  lemma AcceptAfterStop(s: State, a: Action)
    requires IsAcceptStep(a) && AcceptEnabled(s, a) && s.stopRequested
    ensures SameStop(s, AcceptApply(s, a)) && Stuck(AcceptApply(s, a)) <= Stuck(s)
    ensures AcceptApply(s, a).lifecycle == s.lifecycle
  {
  }

  lemma ListenerAfterStop(s: State, woken: Option<Thread>)
    requires ListenerEnabled(s, woken)
    ensures SameStop(s, ListenerApply(s, woken)) && Stuck(ListenerApply(s, woken)) <= Stuck(s)
    ensures ListenerApply(s, woken).lifecycle == s.lifecycle
  {
  }

  lemma PhaseMovesOn(s: State, bound: Address)
    requires AdvanceEnabled(s)
    ensures var next := Phase(AdvanceApply(s, bound).lifecycle);
      next == (Phase(s.lifecycle) + 1) % 17 || (s.lifecycle.Notified? && next == 15)
  {
  }

  lemma AdvanceStaysStopped(s: State, bound: Address)
    requires AdvanceEnabled(s) && StopRegion(s)
    requires AdvanceApply(s, bound).generation == s.generation > 0
    ensures StopRegion(AdvanceApply(s, bound))
  {
    PhaseMovesOn(s, bound);
    AdvanceKeepsConnections(s, bound);
  }

  lemma AdvanceKeepsStop(s: State, bound: Address)
    requires AdvanceEnabled(s) && StopRegion(s)
    ensures SameStop(s, AdvanceApply(s, bound))
  {
  }

  lemma AdvanceFreesWaiters(s: State, bound: Address)
    requires AdvanceEnabled(s)
    ensures Stuck(AdvanceApply(s, bound)) <= Stuck(s)
  {
  }

  /** What lasts from the stop store to the next start. */
  predicate Later(s: State, s': State) {
    && StopRegion(s')
    && SameStop(s, s')
    && Stuck(s') <= Stuck(s)
    && s'.generation == s.generation
  }

  lemma AfterStopStep(s: State, a: Action)
    requires Inv(s) && StopRegion(s) && Enabled(s, a)
    requires Apply(s, a).generation == s.generation
    ensures Later(s, Apply(s, a))
  {
    match a
    case BeginConnect(_) =>
    case FinishConnect(_, _) =>
    case Arrive(_) =>
    case Listen(woken) => ListenerAfterStop(s, woken);
    case Advance(bound) =>
      AdvanceStaysStopped(s, bound);
      AdvanceKeepsStop(s, bound);
      AdvanceFreesWaiters(s, bound);
    case _ => AcceptAfterStop(s, a);
  }

  lemma {:induction false} GenerationsOnlyGrow(s: State, run: seq<Action>)
    requires CanRun(s, run)
    ensures s.generation <= After(s, run).generation
    decreases |run|
  {
    if run != [] {
      GenerationsOnlyGrow(Apply(s, run[0]), run[1..]);
    }
  }

  lemma LaterIsTransitive(s: State, s1: State, s2: State)
    requires Later(s, s1) && Later(s1, s2)
    ensures Later(s, s2)
  {
  }

  lemma FirstStepStays(s: State, run: seq<Action>)
    requires CanRun(s, run) && run != [] && After(s, run).generation == s.generation
    ensures Apply(s, run[0]).generation == s.generation
  {
    GenerationsOnlyGrow(Apply(s, run[0]), run[1..]);
    GenerationsOnlyGrow(s, [run[0]]);
  }

  /** Between the stop store and the next start no further `accept` gets stuck. */
  lemma {:induction false} AfterStop(s: State, run: seq<Action>)
    requires Inv(s) && StopRegion(s) && CanRun(s, run)
    requires After(s, run).generation == s.generation
    ensures Inv(After(s, run)) && Later(s, After(s, run))
    decreases |run|
  {
    if run != [] {
      var s1 := Apply(s, run[0]);
      FirstStepStays(s, run);
      AfterStopStep(s, run[0]);
      ActionKeepsInv(s, run[0]);
      AfterStop(s1, run[1..]);
      LaterIsTransitive(s, s1, After(s1, run[1..]));
    }
  }

  /** The two `notify_all` calls that follow the stop store. */
  predicate IsNotifyAll(s: State, a: Action) {
    || (a.Advance? && s.lifecycle.Connected?)
    || (a.Listen? && s.listener.NotifyAll?)
  }

  /**
   Every `accept` parked when either `notify_all` fires wakes up and does not park again before
   the next `start`.
   */
  lemma NotifiedAcceptsNeverParkAgain(s: State, a: Action, t: Thread, run: seq<Action>)
    requires Reachable(s) && Enabled(s, a) && IsNotifyAll(s, a) && t in s.parked
    requires CanRun(Apply(s, a), run) && After(Apply(s, a), run).generation == s.generation
    ensures t in Apply(s, a).entered
    ensures t !in After(Apply(s, a), run).parked
  {
    ReachableInv(s);
    ActionKeepsInv(s, a);
    AfterStop(Apply(s, a), run);
  }

  /** `stop` leaves at most one `accept` parked: the one past its load when the flag was stored. */
  lemma StopLeavesAtMostTheWindowThread(s: State)
    requires Reachable(s) && s.lifecycle.Down?
    ensures forall t :: t in s.parked ==> s.window == Some(t)
    ensures |s.parked| <= 1
  {
    ReachableInv(s);
    if s.parked != {} {
      assert s.parked == {s.window.value};
    }
  }

  /** An upper bound on the steps the listener still takes once `stop_requested` is set. */
  function ListenerRank(l: Listener): nat {
    match l
    case Absent => 0
    case Finished => 0
    case NotifyAll => 1
    case StoreDead => 2
    case FirstCheck(_) => 3
    case SecondCheck(_) => 3
    case ErrorCheck => 3
    case AwaitIncoming => 4
    case NotifyOne => 5
    case PushStream(_) => 6
    case CountConnection(_) => 7
  }

  /** A run of the listener alone, to its end, while an `accept` sits between load and park. */
  lemma {:induction false} ListenerRunsOut(s: State, t: Thread) returns (run: seq<Action>)
    requires Inv(s) && s.lifecycle.Joining? && s.lock == WillPark(t) && !BeforePush(s.listener)
    ensures CanRun(s, run)
    ensures var s' := After(s, run);
      && Inv(s') && s'.lifecycle.Joining? && s'.listener.Finished? && s'.lock == WillPark(t)
      && s'.generation == s.generation
    decreases ListenerRank(s.listener)
  {
    if s.listener.Finished? {
      return [];
    }
    assert s.parked == {};  // after the first `notify_all` only `t` itself could be parked
    var a := Listen(None);
    ActionKeepsInv(s, a);
    var rest := ListenerRunsOut(Apply(s, a), t);
    run := [a] + rest;
    assert run[1..] == rest;
  }

  /** `run` is a whole `stop` call begun in `s`, after which some `accept` is still parked. */
  ghost predicate StopStrands(s: State, run: seq<Action>) {
    && run != [] && run[0].Advance?
    && CanRun(s, run)
    && After(s, run).lifecycle.Down?
    && After(s, run).generation == s.generation
    && After(s, run).parked != {}
  }

  /** The end of a stranding schedule: the `accept` parks, `stop` joins, clears and returns. */
  lemma ParkAndReturn(s: State, t: Thread) returns (run: seq<Action>)
    requires s.lifecycle.Joining? && s.listener.Finished? && s.lock == WillPark(t)
    ensures CanRun(s, run)
    ensures After(s, run).lifecycle.Down? && t in After(s, run).parked
    ensures After(s, run).generation == s.generation
  {
    var s1 := AcceptApply(s, Park(t));
    run := [Park(t), Advance(0), Advance(0), Advance(0)];
    assert run[1..] == [Advance(0), Advance(0), Advance(0)];
    LastSteps(s1);
  }

  /** The steps of `stop` after the join. */
  lemma LastSteps(s: State)
    requires s.lifecycle.Joining? && s.listener.Finished? && s.lock.Free?
    ensures CanRun(s, [Advance(0), Advance(0), Advance(0)])
    ensures var s' := After(s, [Advance(0), Advance(0), Advance(0)]);
      s'.lifecycle.Down? && s'.parked == s.parked && s'.generation == s.generation
  {
    var s2 := AdvanceApply(s, 0);
    var s3 := AdvanceApply(s2, 0);
    var s4 := AdvanceApply(s3, 0);
    assert [Advance(0), Advance(0), Advance(0)][1..] == [Advance(0), Advance(0)];
    assert [Advance(0), Advance(0)][1..] == [Advance(0)] && [Advance(0)][1..] == [];
    assert CanRun(s4, []) && After(s4, []) == s4;
    assert CanRun(s3, [Advance(0)]) && After(s3, [Advance(0)]) == s4;
    assert CanRun(s2, [Advance(0), Advance(0)]) && After(s2, [Advance(0), Advance(0)]) == s4;
  }

  /** Until the listener has ended, while `t` stays between its load and its park. */
  lemma StopUntilQuiet(s: State, t: Thread) returns (run: seq<Action>)
    requires Inv(s) && s.lifecycle.Up? && s.lock == WillPark(t) && !BeforePush(s.listener)
    ensures run != [] && run[0].Advance? && CanRun(s, run)
    ensures var s' := After(s, run);
      && s'.lifecycle.Joining? && s'.listener.Finished? && s'.lock == WillPark(t)
      && s'.generation == s.generation
  {
    var first := StopToJoin(s, 6);
    run := ThenListener(s, first, t);
  }

  /** `stop` on its own, up to the join. */
  lemma StopToJoin(s: State, n: nat) returns (run: seq<Action>)
    requires Inv(s) && s.lifecycle.Up? && Phase(s.lifecycle) + n == 14
    ensures CanRun(s, run) && run != [] && run[0].Advance?
    ensures var s' := After(s, run);
      && Inv(s') && s'.lifecycle.Joining? && s'.lock == s.lock && s'.listener == s.listener
      && s'.generation == s.generation
  {
    run := Advances(n);
    StopRuns(s, n);
  }

  lemma ThenListener(s: State, first: seq<Action>, t: Thread) returns (run: seq<Action>)
    requires CanRun(s, first) && first != [] && Inv(After(s, first)) && After(s, first).lifecycle.Joining?
    requires After(s, first).lock == WillPark(t) && !BeforePush(After(s, first).listener)
    ensures run != [] && run[0] == first[0] && CanRun(s, run)
    ensures var s' := After(s, run);
      && s'.lifecycle.Joining? && s'.listener.Finished? && s'.lock == WillPark(t)
      && s'.generation == After(s, first).generation
  {
    var listening := ListenerRunsOut(After(s, first), t);
    RunsCompose(s, first, listening);
    run := first + listening;
  }

  /** The schedule that strands `t`: it parks only after the listener's `notify_all`. */
  lemma StrandingSchedule(s: State, t: Thread) returns (run: seq<Action>)
    requires Inv(s) && s.lifecycle.Up? && s.lock == WillPark(t) && !BeforePush(s.listener)
    ensures StopStrands(s, run) && t in After(s, run).parked
  {
    var first := StopUntilQuiet(s, t);
    var tail := ParkAndReturn(After(s, first), t);
    RunsCompose(s, first, tail);
    run := first + tail;
  }

  lemma StrandingNeedsTheWindow(s: State, run: seq<Action>)
    requires Inv(s) && s.lifecycle.Up? && StopStrands(s, run)
    ensures s.lock.WillPark? && !BeforePush(s.listener)
  {
    ActionKeepsInv(s, run[0]);
    AfterStop(Apply(s, run[0]), run[1..]);
    var s' := After(s, run);
    var t :| t in s'.parked;
  }

  /**
   `stop` can leave an `accept` parked if and only if, at its first store, some `accept` holds the
   lock past a false load of the flag and the listener is not between its last check and its push.
   */
  lemma StopStrandsExactly(s: State)
    requires Reachable(s) && s.lifecycle.Up?
    ensures (exists run :: StopStrands(s, run)) <==> s.lock.WillPark? && !BeforePush(s.listener)
  {
    ReachableInv(s);
    if s.lock.WillPark? && !BeforePush(s.listener) {
      var run := StrandingSchedule(s, s.lock.holder);
    }
    if exists run :: StopStrands(s, run) {
      var run :| StopStrands(s, run);
      StrandingNeedsTheWindow(s, run);
    }
  }

  /**
   After the stop store the listener pushes at most one more stream, and exactly one if and only
   if it was past its last check at the store and has pushed it by now.
   */
  lemma AtMostOneLatePush(s: State, bound: Address, run: seq<Action>)
    requires Reachable(s) && s.lifecycle.Up?
    requires CanRun(Apply(s, Advance(bound)), run)
    requires After(Apply(s, Advance(bound)), run).generation == s.generation
    ensures var s' := After(Apply(s, Advance(bound)), run);
      |s'.pushed| == |s.pushed| + if BeforePush(s.listener) && !BeforePush(s'.listener) then 1 else 0
  {
    ReachableInv(s);
    ActionKeepsInv(s, Advance(bound));
    AfterStop(Apply(s, Advance(bound)), run);
  }

  // ---------- stop: it returns ----------

  /** Steps `stop` and the listener still take, at most. */
  function StopRank(s: State): nat {
    8 * (17 - Phase(s.lifecycle)) + ListenerRank(s.listener)
  }

  lemma ListenerRankFalls(s: State, woken: Option<Thread>)
    requires ListenerEnabled(s, woken) && s.stopRequested
    ensures ListenerRank(ListenerApply(s, woken).listener) < ListenerRank(s.listener)
    ensures ListenerApply(s, woken).lifecycle == s.lifecycle
  {
    match s.listener
    case NotifyOne =>
    case _ =>
  }

  lemma AdvanceRankFalls(s: State, bound: Address)
    requires Inv(s) && Phase(s.lifecycle) >= 9 && AdvanceEnabled(s) && !s.lifecycle.Drained?
    ensures StopRank(AdvanceApply(s, bound)) < StopRank(s)
  {
  }

  lemma AcceptKeepsRank(s: State, a: Action)
    requires IsAcceptStep(a) && AcceptEnabled(s, a)
    ensures StopRank(AcceptApply(s, a)) == StopRank(s)
  {
  }

  /** Each step of `stop` or of the listener lowers the rank; no other thread changes it. */
  lemma StopRankFalls(s: State, a: Action)
    requires Reachable(s) && Phase(s.lifecycle) >= 9 && Enabled(s, a)
    ensures a.Listen? ==> StopRank(Apply(s, a)) < StopRank(s)
    ensures a.Advance? ==> s.lifecycle.Drained? || StopRank(Apply(s, a)) < StopRank(s)
    ensures !a.Listen? && !a.Advance? ==> StopRank(Apply(s, a)) == StopRank(s)
  {
    ReachableInv(s);
    match a
    case BeginConnect(_) =>
    case FinishConnect(_, _) =>
    case Arrive(_) =>
    case Listen(woken) => ListenerRankFalls(s, woken);
    case Advance(bound) =>
      if !s.lifecycle.Drained? {
        AdvanceRankFalls(s, bound);
      }
    case _ => AcceptKeepsRank(s, a);
  }

  /**
   `stop` never deadlocks: it can go on, or it waits for a listener that can go on, or for a lock
   whose holder can go on.
   */
  lemma StopNeverDeadlocks(s: State)
    requires Reachable(s) && Phase(s.lifecycle) >= 9
    ensures || Enabled(s, Advance(0))
            || (s.lifecycle.Joining? && exists woken :: Enabled(s, Listen(woken)))
            || (!s.lock.Free? && Enabled(s, LockRelease(s.lock)))
  {
    ReachableInv(s);
    if !Enabled(s, Advance(0)) && s.lock.Free? {
      if s.listener.NotifyOne? && s.parked != {} {
        var w :| w in s.parked;
        assert Enabled(s, Listen(Some(w)));
      } else {
        assert Enabled(s, Listen(None));
      }
    }
  }
}
