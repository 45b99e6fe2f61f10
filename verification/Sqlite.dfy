/**
 The SQLite connection lifecycle: `start` and `stop` publish and withdraw one connection through two
 flags and a locked slot, while any number of calls look at the flags and then run under the lock.
 */
module Sqlite {
  import opened Wrappers

  type Thread = nat

  /** Connections are numbered in the order they are opened. */
  type Connection = nat

  datatype Outcome = NotStarted | Stopped | Ran(connection: Connection)

  /** The last thing the lifecycle caller did. */
  datatype Lifecycle =
    | Down
    | Opening(opening: Connection)
    | Placed
    | StopCleared
    | Up
    | LiveCleared
    | StopStored
    | Closing(closing: Connection)

  /** Where a call is; `began` is the number of lifecycle steps before it was made. */
  datatype Call =
    | Begun(began: nat)
    | SawDown(began: nat)
    | SawLive(began: nat)
    | Running(began: nat, on: Connection)

  datatype State = State(
    connection: Option<Connection>,
    live: bool,
    stopped: bool,
    lock: Option<Thread>,       // held across steps only by a call that runs its operation
    lifecycle: Lifecycle,
    calls: map<Thread, Call>,
    lifecycleSteps: nat,
    closed: seq<Connection>)

  const INIT: State := State(None, false, false, None, Down, map[], 0, [])

  datatype Action =
    | Invoke(thread: Thread)
    | LoadLive(thread: Thread)
    | LoadStopped(thread: Thread)
    | Lock(thread: Thread)
    | Finish(thread: Thread)
    | Advance                   // one step of `start` or `stop`

  predicate AdvanceEnabled(s: State) {
    s.lifecycle.Opening? || s.lifecycle.StopStored? ==> s.lock.None?
  }

  function AdvanceApply(s: State): State
    requires AdvanceEnabled(s)
  {
    var s := s.(lifecycleSteps := s.lifecycleSteps + 1);
    match s.lifecycle
    // start
    case Down => s.(lifecycle := Opening(|s.closed|))
    case Opening(c) => s.(connection := Some(c), lifecycle := Placed)
    case Placed => s.(stopped := false, lifecycle := StopCleared)
    case StopCleared => s.(live := true, lifecycle := Up)
    // stop
    case Up => s.(live := false, lifecycle := LiveCleared)
    case LiveCleared => s.(stopped := true, lifecycle := StopStored)
    case StopStored =>
      s.(connection := None, lifecycle := if s.connection.Some? then Closing(s.connection.value) else Down)
    case Closing(c) => s.(closed := s.closed + [c], lifecycle := Down)
  }

  predicate Enabled(s: State, a: Action) {
    match a
    case Invoke(t) => t !in s.calls
    case LoadLive(t) => t in s.calls && s.calls[t].Begun?
    case LoadStopped(t) => t in s.calls && s.calls[t].SawDown?
    case Lock(t) => t in s.calls && s.calls[t].SawLive? && s.lock.None?
    case Finish(t) => t in s.calls && s.calls[t].Running?
    case Advance => AdvanceEnabled(s)
  }

  function Apply(s: State, a: Action): State
    requires Enabled(s, a)
  {
    match a
    case Invoke(t) => s.(calls := s.calls[t := Begun(s.lifecycleSteps)])
    case LoadLive(t) =>
      var began := s.calls[t].began;
      s.(calls := s.calls[t := if s.live then SawLive(began) else SawDown(began)])
    case LoadStopped(t) => s.(calls := s.calls - {t})
    case Lock(t) =>
      if s.connection.None? then s.(calls := s.calls - {t})
      else s.(lock := Some(t), calls := s.calls[t := Running(s.calls[t].began, s.connection.value)])
    case Finish(t) => s.(lock := None, calls := s.calls - {t})
    case Advance => AdvanceApply(s)
  }

  /** What a call returns in this step, if it returns. */
  function Reported(s: State, a: Action): Option<Outcome>
    requires Enabled(s, a)
  {
    match a
    case LoadStopped(_) => Some(if s.stopped then Stopped else NotStarted)
    case Lock(_) => if s.connection.None? then Some(NotStarted) else None
    case Finish(t) => Some(Ran(s.calls[t].on))
    case _ => None
  }

  predicate CanRun(s: State, run: seq<Action>)
    decreases |run|
  {
    run == [] || (Enabled(s, run[0]) && CanRun(Apply(s, run[0]), run[1..]))
  }

  function After(s: State, run: seq<Action>): State
    requires CanRun(s, run)
    decreases |run|
  {
    if run == [] then s else After(Apply(s, run[0]), run[1..])
  }

  ghost predicate Reachable(s: State) {
    exists run :: CanRun(INIT, run) && After(INIT, run) == s
  }

  // ---------- the invariant ----------

  predicate Flags(s: State) {
    match s.lifecycle
    case Down => !s.live && s.connection.None? && s.stopped == (s.closed != [])
    case Opening(c) => !s.live && s.connection.None? && s.stopped == (s.closed != []) && c == |s.closed|
    case Placed => !s.live && s.connection == Some(|s.closed|)
    case StopCleared => !s.live && s.connection == Some(|s.closed|) && !s.stopped
    case Up => s.live && s.connection == Some(|s.closed|) && !s.stopped
    case LiveCleared => !s.live && s.connection == Some(|s.closed|) && !s.stopped
    case StopStored => !s.live && s.connection == Some(|s.closed|) && s.stopped
    case Closing(c) => !s.live && s.connection.None? && s.stopped && c == |s.closed|
  }

  /** A call runs only while it holds the lock, on the connection in the slot. */
  predicate CallFits(s: State, t: Thread, call: Call) {
    && call.began <= s.lifecycleSteps
    && (call.Running? ==> s.lock == Some(t) && s.connection == Some(call.on))
    && (call.began == s.lifecycleSteps ==> (call.SawDown? ==> !s.live) && (call.SawLive? ==> s.live))
  }

  predicate Inv(s: State) {
    && Flags(s)
    && (forall i :: 0 <= i < |s.closed| ==> s.closed[i] == i)
    && (s.lock.Some? ==> s.lock.value in s.calls && s.calls[s.lock.value].Running?)
    && (forall t :: t in s.calls ==> CallFits(s, t, s.calls[t]))
  }

  lemma ActionKeepsInv(s: State, a: Action)
    requires Inv(s) && Enabled(s, a)
    ensures Inv(Apply(s, a))
  {
    var s' := Apply(s, a);
    forall t | t in s'.calls
      ensures CallFits(s', t, s'.calls[t])
    {
      if t in s.calls {
        assert CallFits(s, t, s.calls[t]);
      }
    }
  }

  lemma {:induction false} RunKeepsInv(s: State, run: seq<Action>)
    requires Inv(s) && CanRun(s, run)
    ensures Inv(After(s, run))
    decreases |run|
  {
    if run != [] {
      ActionKeepsInv(s, run[0]);
      RunKeepsInv(Apply(s, run[0]), run[1..]);
    }
  }

  lemma ReachableInv(s: State)
    requires Reachable(s)
    ensures Inv(s)
  {
    var run :| CanRun(INIT, run) && After(INIT, run) == s;
    RunKeepsInv(INIT, run);
  }

  lemma SlotIsOpen(s: State)
    requires Inv(s) && s.connection.Some?
    ensures s.connection.value !in s.closed
  {
  }

  // ---------- what it gives ----------

  /**
   An operation only ever runs on the connection in the slot, alone, before that connection is
   taken for closing; none runs from the moment `stop` takes the connection until the next `start`
   has placed another.
   */
  lemma OperationsUseTheOpenConnection(s: State, t: Thread)
    requires Reachable(s) && t in s.calls && s.calls[t].Running?
    ensures s.connection == Some(s.calls[t].on) && s.calls[t].on !in s.closed
    ensures forall u :: u in s.calls && s.calls[u].Running? ==> u == t
    ensures !s.lifecycle.Closing? && !s.lifecycle.Down? && !s.lifecycle.Opening?
  {
    ReachableInv(s);
    assert CallFits(s, t, s.calls[t]);
    forall u | u in s.calls && s.calls[u].Running?
      ensures u == t
    {
      assert CallFits(s, u, s.calls[u]);
    }
  }

  /** No connection is closed twice, and once `stop` has returned every connection opened is closed. */
  lemma ConnectionsCloseOnce(s: State)
    requires Reachable(s)
    ensures forall i, j :: 0 <= i < j < |s.closed| ==> s.closed[i] != s.closed[j]
    ensures s.connection.Some? ==> s.connection.value !in s.closed
    ensures s.lifecycle.Closing? ==> s.lifecycle.closing !in s.closed
    ensures s.lifecycle.Down? ==> s.connection.None? && forall c: Connection :: c in s.closed <==> c < |s.closed|
  {
    ReachableInv(s);
    forall c: Connection
      ensures c in s.closed <==> c < |s.closed|
    {
      if c < |s.closed| {
        assert s.closed[c] == c;
      }
    }
  }

  /** No `start` or `stop` is under way. */
  predicate AtRest(s: State) {
    s.lifecycle.Down? || s.lifecycle.Up?
  }

  /** What the last completed lifecycle event calls for. */
  function Due(s: State): Outcome {
    if s.lifecycle.Up? && s.connection.Some? then Ran(s.connection.value)
    else if s.closed == [] then NotStarted
    else Stopped
  }

  /** A call that overlaps no `start` and no `stop` returns what the last completed one calls for. */
  lemma QuietCallsAreDecided(s: State, a: Action)
    requires Reachable(s) && Enabled(s, a) && Reported(s, a).Some?
    requires AtRest(s) && s.calls[a.thread].began == s.lifecycleSteps
    ensures Reported(s, a).value == Due(s)
  {
    ReachableInv(s);
    assert CallFits(s, a.thread, s.calls[a.thread]);
  }

  /**
   When the report of any call, quiet or not, is what the last completed lifecycle event calls for:
   always for one that ran its operation; otherwise only while the database is stopped, and then for
   one that read the stopped flag, or while it was never started.
   */
  lemma ReportIsRightExactly(s: State, a: Action)
    requires Reachable(s) && AtRest(s) && Enabled(s, a) && Reported(s, a).Some?
    ensures Reported(s, a).value == Due(s)
            <==> a.Finish? || (s.lifecycle.Down? && (a.LoadStopped? || s.closed == []))
  {
    ReachableInv(s);
    assert CallFits(s, a.thread, s.calls[a.thread]);
  }

  /** A call returns exactly in the step that reports its outcome, and always can take one of its steps. */
  lemma CallsReturnOnce(s: State, a: Action, t: Thread)
    requires Reachable(s) && t in s.calls && Enabled(s, a)
    ensures t !in Apply(s, a).calls <==> !a.Advance? && a.thread == t && Reported(s, a).Some?
    ensures s.lock.None? || s.lock == Some(t) || !s.calls[t].SawLive? ==>
              Enabled(s, LoadLive(t)) || Enabled(s, LoadStopped(t)) || Enabled(s, Lock(t)) || Enabled(s, Finish(t))
  {
    ReachableInv(s);
    assert CallFits(s, t, s.calls[t]);
  }

  /** `stop` and `start` wait only for the operation in progress, which can always finish. */
  lemma LifecycleWaitsForOneCall(s: State)
    requires Reachable(s) && !AdvanceEnabled(s)
    ensures s.lock.Some? && Enabled(s, Finish(s.lock.value))
    ensures AdvanceEnabled(Apply(s, Finish(s.lock.value)))
  {
    ReachableInv(s);
  }

  lemma {:induction false} RunsExtend(s: State, run: seq<Action>, a: Action)
    requires CanRun(s, run) && Enabled(After(s, run), a)
    ensures CanRun(s, run + [a]) && After(s, run + [a]) == Apply(After(s, run), a)
    decreases |run|
  {
    if run == [] {
      assert [a][1..] == [];
    } else {
      assert (run + [a])[1..] == run[1..] + [a];
      RunsExtend(Apply(s, run[0]), run[1..], a);
    }
  }

  lemma Extend(s: State, a: Action) returns (s': State)
    requires Reachable(s) && Enabled(s, a)
    ensures Reachable(s') && s' == Apply(s, a)
  {
    var run :| CanRun(INIT, run) && After(INIT, run) == s;
    RunsExtend(INIT, run, a);
    s' := Apply(s, a);
  }

  lemma ExtendLifecycle(s: State) returns (s': State)
    requires Reachable(s) && s.lock.None?
    ensures Reachable(s') && s' == AdvanceApply(s)
  {
    s' := Extend(s, Advance);
  }

  /** A whole `start` with nothing in between. */
  lemma SwitchOn(s: State) returns (s': State)
    requires Reachable(s) && s.lifecycle.Down? && s.lock.None?
    ensures Reachable(s') && s'.lifecycle.Up? && s'.lock.None? && s'.closed == s.closed
    ensures s'.calls == s.calls && s'.lifecycleSteps == s.lifecycleSteps + 4
  {
    s' := ExtendLifecycle(s);
    s' := ExtendLifecycle(s');
    s' := ExtendLifecycle(s');
    s' := ExtendLifecycle(s');
  }

  /** A whole `stop` with nothing in between. */
  lemma SwitchOff(s: State) returns (s': State)
    requires Reachable(s) && s.lifecycle.Up? && s.lock.None?
    ensures Reachable(s') && s'.lifecycle.Down? && s'.lock.None? && s'.closed == s.closed + [|s.closed|]
    ensures s'.calls == s.calls && s'.lifecycleSteps == s.lifecycleSteps + 4
  {
    ReachableInv(s);
    s' := ExtendLifecycle(s);
    s' := ExtendLifecycle(s');
    s' := ExtendLifecycle(s');
    s' := ExtendLifecycle(s');
  }

  /**
   Quietness is needed: a call that saw the database live and takes the lock only after `stop` has
   returned reports `NotStarted`, although the database was started and stopped.
   */
  lemma LateLockReportsNotStarted() returns (s: State)
    ensures Reachable(s) && AtRest(s) && Enabled(s, Lock(0))
    ensures Reported(s, Lock(0)) == Some(NotStarted) && Due(s) == Stopped
    ensures s.calls[0].began < s.lifecycleSteps
  {
    assert CanRun(INIT, []) && After(INIT, []) == INIT;
    s := SwitchOn(INIT);
    ReachableInv(s);
    s := Extend(s, Invoke(0));
    s := Extend(s, LoadLive(0));
    s := SwitchOff(s);
    ReachableInv(s);
  }
}
