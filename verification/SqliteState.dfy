/**
 `SqliteDatabaseState` as a program: its methods store and load in the order of the source, other
 threads act between any two accesses, and every access is one step of the machine in `Sqlite`.
 */
module SqliteState {
  import opened Wrappers
  import opened Sqlite

  datatype CallResult<T> = Value(value: T) | NotStartedError | StoppedError

  /** Everything but the calls and the lock, which is what calls never change. */
  predicate SameLifecycle(s: State, s': State) {
    s' == s.(calls := s'.calls, lock := s'.lock)
  }

  /** What other threads may have done since `s`, as far as a call of `t` can tell. */
  predicate Others(t: Thread, s: State, s': State) {
    && s.lifecycleSteps <= s'.lifecycleSteps
    && (s.lifecycleSteps == s'.lifecycleSteps ==> SameLifecycle(s, s'))
    && (t in s.calls <==> t in s'.calls)
    && (t in s.calls ==> s'.calls[t] == s.calls[t])
  }

  lemma {:induction false} OthersCoversRuns(t: Thread, s: State, run: seq<Action>)
    requires CanRun(s, run)
    requires forall i :: 0 <= i < |run| ==> run[i].Advance? || run[i].thread != t
    ensures Others(t, s, After(s, run))
    ensures (forall i :: 0 <= i < |run| ==> !run[i].Advance?) ==> SameLifecycle(s, After(s, run))
    decreases |run|
  {
    if run != [] {
      OthersCoversRuns(t, Apply(s, run[0]), run[1..]);
    }
  }

  class SqliteDatabaseState {
    var connection: Option<Connection>
    var live: bool
    var stopped: bool
    ghost var model: State

    ghost predicate Valid()
      reads this
    {
      && connection == model.connection
      && live == model.live
      && stopped == model.stopped
      && Inv(model)
    }

    constructor ()
      ensures Valid() && model == INIT
    {
      connection, live, stopped, model := None, false, false, INIT;
    }

    /** The other threads, as the lifecycle caller sees them: calls come, go and hold the lock. */
    method LetCallsRun()
      requires Valid()
      modifies this
      ensures Valid() && SameLifecycle(old(model), model)
    {
    }

    /** Blocks until no call holds the lock. */
    method AwaitLock()
      requires Valid()
      modifies this
      ensures Valid() && SameLifecycle(old(model), model) && model.lock.None?
    {
      LetCallsRun();
      ghost var holder := model.lock;
      if holder.Some? {
        ActionKeepsInv(model, Finish(holder.value));
        model := Apply(model, Finish(holder.value));
      }
    }

    ghost method Step(a: Action)
      requires Inv(model) && Enabled(model, a)
      modifies this`model
      ensures model == Apply(old(model), a) && Inv(model)
    {
      ActionKeepsInv(model, a);
      model := Apply(model, a);
    }

    /** `start` once `open_connection` has succeeded. */
    method MarkStarted(opening: Connection)
      requires Valid() && model.lifecycle == Opening(opening)
      modifies this
      ensures Valid() && model.lifecycle.Up? && model.closed == old(model.closed)
      ensures connection == Some(opening) && live && !stopped
    {
      AwaitLock();
      connection := Some(opening);
      Step(Advance);
      LetCallsRun();
      stopped := false;
      Step(Advance);
      LetCallsRun();
      live := true;
      Step(Advance);
    }

    /** Returns the connection it took and closed. */
    method Stop() returns (taken: Option<Connection>)
      requires Valid() && model.lifecycle.Up?
      modifies this
      ensures Valid() && model.lifecycle.Down?
      ensures taken == old(connection) && taken.Some? && model.closed == old(model.closed) + [taken.value]
      ensures connection == None && !live && stopped
    {
      live := false;
      Step(Advance);
      LetCallsRun();
      stopped := true;
      Step(Advance);
      AwaitLock();
      taken := connection;
      connection := None;
      Step(Advance);
      LetCallsRun();
      if taken.Some? {
        Step(Advance);
      }
    }

    /** The other threads, as a call of `t` sees them. */
    method LetOthersRun(t: Thread)
      requires Valid()
      modifies this
      ensures Valid() && Others(t, old(model), model)
    {
    }

    method Lock(t: Thread)
      requires Valid() && model.lock != Some(t)
      modifies this
      ensures Valid() && Others(t, old(model), model) && model.lock.None?
    {
      LetOthersRun(t);
      ghost var holder := model.lock;
      if holder.Some? {
        Step(Finish(holder.value));
      }
    }

    /**
     One call of thread `t`. Its operation runs on a connection that is in the slot and not closed;
     a call during which no lifecycle step was taken, outside `start` and `stop`, returns what the
     last completed lifecycle event calls for.
     */
    method WithConnection<T>(t: Thread, operation: Connection -> T) returns (r: CallResult<T>, ghost on: Connection)
      requires Valid() && t !in model.calls
      modifies this
      ensures Valid() && t !in model.calls
      ensures r.Value? ==> r.value == operation(on) && connection == Some(on) && on !in model.closed
      ensures AtRest(model) && model.lifecycleSteps == old(model.lifecycleSteps) ==>
                r == match Due(model)
                     case Ran(c) => Value(operation(c))
                     case NotStarted => NotStartedError
                     case Stopped => StoppedError
    {
      on := 0;
      Step(Invoke(t));
      LetOthersRun(t);
      var isLive := live;
      Step(LoadLive(t));
      LetOthersRun(t);
      if !isLive {
        var isStopped := stopped;
        Step(LoadStopped(t));
        return if isStopped then StoppedError else NotStartedError, on;
      }
      r, on := RunLocked(t, operation);
    }

    /** The part of a call that takes the lock. */
    method RunLocked<T>(t: Thread, operation: Connection -> T) returns (r: CallResult<T>, ghost on: Connection)
      requires Valid() && t in model.calls && model.calls[t].SawLive?
      modifies this
      ensures Valid() && t !in model.calls && old(model.lifecycleSteps) <= model.lifecycleSteps
      ensures r.Value? ==> r.value == operation(on) && connection == Some(on) && on !in model.closed
      ensures AtRest(model) && model.lifecycleSteps == old(model.calls[t].began) ==>
                Due(model).Ran? && r == Value(operation(Due(model).connection))
      ensures !r.StoppedError?
    {
      on := 0;
      Lock(t);
      var slot := connection;
      assert CallFits(model, t, model.calls[t]);
      Step(Action.Lock(t));
      if slot.None? {
        return NotStartedError, on;
      }
      LetOthersRun(t);
      on := slot.value;
      assert CallFits(model, t, model.calls[t]);
      SlotIsOpen(model);
      r := Value(operation(slot.value));
      Step(Finish(t));
    }
  }
}
