/**
 What becomes of the connections handed out: by `accept` to its caller, and by `connect`. Each holds
 a clone of the one liveness flag of the transport, and each of its operations checks it first.
 */
module LoopbackConnections {
  import opened Wrappers
  import opened LoopbackMachine
  import opened LoopbackInvariant
  import opened LoopbackTheorems
  import opened LoopbackProgress

  /** An operation on `c` gets past its liveness check; if not, it fails with `Stopped`. */
  predicate Passes(s: State, c: HandedOut)
    requires c in s.handedOut
  {
    s.generationLive
  }

  /** The generation that accepted or dialed `c` has cleared the flag. */
  predicate OwnerStopped(s: State, c: HandedOut) {
    c.generation < s.generation || (StopRegion(s) && !FlagUp(s))
  }

  /** A later `start` has stored the flag, and neither its `stop` nor its listener has cleared it. */
  predicate RevivedBy(s: State, c: HandedOut) {
    c.generation < s.generation && FlagUp(s)
  }

  /**
   Operations on a connection pass exactly while the flag of the transport is up. Until its own
   generation clears the flag they pass; from then on they fail if and only if no later `start` has
   raised the flag again.
   */
  lemma OperationsPassExactly(s: State, c: HandedOut)
    requires Reachable(s) && c in s.handedOut
    ensures Passes(s, c) <==> FlagUp(s)
    ensures !OwnerStopped(s, c) ==> Passes(s, c)
    ensures OwnerStopped(s, c) ==> (Passes(s, c) <==> RevivedBy(s, c))
  {
    ReachableInv(s);
  }

  /**
   In every run from a state in which the flag is down after a stop, up to the next `start`, every
   operation on every connection, old or handed out meanwhile, fails.
   */
  lemma StoppedConnectionsFail(s: State, run: seq<Action>, c: HandedOut)
    requires Reachable(s) && StopRegion(s) && !s.generationLive
    requires CanRun(s, run) && After(s, run).generation == s.generation
    requires c in After(s, run).handedOut
    ensures !Passes(After(s, run), c) && OwnerStopped(After(s, run), c)
  {
    ReachableInv(s);
    FlagStaysDown(s, run);
    KeepsConnections(s, run);
  }

  lemma {:induction false} FlagStaysDown(s: State, run: seq<Action>)
    requires Inv(s) && StopRegion(s) && !s.generationLive
    requires CanRun(s, run) && After(s, run).generation == s.generation
    ensures Inv(After(s, run)) && StopRegion(After(s, run)) && !After(s, run).generationLive
    decreases |run|
  {
    if run != [] {
      FirstStepStays(s, run);
      AfterStopStep(s, run[0]);
      ActionKeepsInv(s, run[0]);
      FlagStaysDownOnce(s, run[0]);
      FlagStaysDown(Apply(s, run[0]), run[1..]);
    }
  }

  lemma FlagStaysDownOnce(s: State, a: Action)
    requires StopRegion(s) && !s.generationLive && Enabled(s, a)
    ensures !Apply(s, a).generationLive
  {
    match a
    case BeginConnect(_) =>
    case FinishConnect(_, _) =>
    case Arrive(_) =>
    case Listen(woken) => assert !ListenerApply(s, woken).generationLive;
    case Advance(bound) => assert !AdvanceApply(s, bound).generationLive;
    case _ => assert !AcceptApply(s, a).generationLive;
  }

  /** Connections are never taken back. */
  lemma {:induction false} KeepsConnections(s: State, run: seq<Action>)
    requires CanRun(s, run)
    ensures s.handedOut <= After(s, run).handedOut
    decreases |run|
  {
    if run != [] {
      KeepsConnectionsOnce(s, run[0]);
      KeepsConnections(Apply(s, run[0]), run[1..]);
    }
  }

  lemma KeepsConnectionsOnce(s: State, a: Action)
    requires Enabled(s, a)
    ensures s.handedOut <= Apply(s, a).handedOut
  {
    match a
    case BeginConnect(_) =>
    case FinishConnect(_, _) =>
    case Arrive(_) =>
    case Listen(woken) => assert ListenerApply(s, woken).handedOut == s.handedOut;
    case Advance(bound) => assert AdvanceApply(s, bound).handedOut == s.handedOut;
    case _ => assert s.handedOut <= AcceptApply(s, a).handedOut;
  }

  /**
   The flag is shared by all generations of one transport: from every state in which `stop` has
   returned, some run of the next `start` makes every connection handed out before, all of which
   fail now, pass its check again.
   */
  lemma RestartRevivesOldConnections(s: State) returns (run: seq<Action>)
    requires Reachable(s) && s.lifecycle.Down?
    ensures CanRun(s, run)
    ensures After(s, run).lifecycle.Up? && After(s, run).handedOut == s.handedOut
    ensures After(s, run).generation == s.generation + 1
    ensures forall c :: c in s.handedOut ==>
              !Passes(s, c) && RevivedBy(After(s, run), c) && Passes(After(s, run), c)
  {
    ReachableInv(s);
    var free := FreeLock(s);
    RunKeepsInv(s, free);
    run := ThenStart(s, free, 8);
  }

  lemma ThenStart(s: State, free: seq<Action>, n: nat) returns (run: seq<Action>)
    requires CanRun(s, free) && Inv(After(s, free)) && After(s, free).lock.Free?
    requires After(s, free).lifecycle.Down? && Phase(After(s, free).lifecycle) + n == 8
    ensures CanRun(s, run)
    ensures var s' := After(s, run);
      && Inv(s') && s'.lifecycle.Up? && s'.handedOut == After(s, free).handedOut
      && s'.generation == After(s, free).generation + 1
  {
    StartRuns(After(s, free), n);
    RunsCompose(s, free, Advances(n));
    run := free + Advances(n);
  }

  // ---------- concrete runs ----------

  lemma {:induction false} RunsExtend(s: State, run: seq<Action>, a: Action)
    requires CanRun(s, run) && Enabled(After(s, run), a)
    ensures CanRun(s, run + [a]) && After(s, run + [a]) == Apply(After(s, run), a)
  {
    RunsCompose(s, run, [a]);
  }

  lemma Extend(s: State, a: Action) returns (s': State)
    requires Reachable(s) && Enabled(s, a)
    ensures Reachable(s') && s' == Apply(s, a)
  {
    var run :| CanRun(INIT, run) && After(INIT, run) == s;
    RunsExtend(INIT, run, a);
    s' := Apply(s, a);
  }

  lemma ExtendRun(s: State, more: seq<Action>)
    requires Reachable(s) && CanRun(s, more)
    ensures Reachable(After(s, more))
  {
    var run :| CanRun(INIT, run) && After(INIT, run) == s;
    RunsCompose(INIT, run, more);
  }

  lemma FirstStart(n: nat) returns (s: State)
    requires n == 8
    ensures Reachable(s) && s.lifecycle.Up? && s.generation == 1 && s.lock.Free?
    ensures s.queue == [] && s.backlog == [] && s.entered == {} && s.parked == {} && s.listener.AwaitIncoming?
  {
    InitInv();
    assert CanRun(INIT, []) && After(INIT, []) == INIT;
    StartRuns(INIT, n);
    ExtendRun(INIT, Advances(n));
    s := After(INIT, Advances(n));
  }

  /** The window of `StopStrandsExactly` is real: the first accept of a first generation is in it. */
  lemma WindowIsReachable() returns (s: State)
    ensures Reachable(s) && s.lifecycle.Up? && s.lock == WillPark(0) && !BeforePush(s.listener)
    ensures exists run :: StopStrands(s, run)
  {
    s := FirstStart(8);
    ReachableInv(s);
    s := Extend(s, Enter(0));
    s := Extend(s, LockAndPop(0));
    s := Extend(s, LoadStop(0));
    StopStrandsExactly(s);
  }

  /** The listener takes the only connection waiting and queues it. */
  lemma Deliver(s: State, stream: Stream) returns (s': State)
    requires Reachable(s) && s.lifecycle.Up? && s.lock.Free? && s.parked == {} && s.backlog == [Connection(stream)]
    requires s.listener.AwaitIncoming? && s.queue == [] && s.entered == {}
    ensures Reachable(s') && s'.lifecycle.Up? && s'.generation == s.generation
    ensures s'.lock.Free? && s'.queue == [stream] && s'.entered == {} && s'.parked == {}
  {
    ReachableInv(s);
    s' := Extend(s, Listen(None));
    s' := Extend(s', Listen(None));
    s' := Extend(s', Listen(None));
    s' := Extend(s', Listen(None));
    s' := Extend(s', Listen(None));
  }

  /** An accepted connection of the first generation. */
  lemma FirstConnection(stream: Stream) returns (s: State)
    ensures Reachable(s) && s.lifecycle.Up? && HandedOut(stream, 1) in s.handedOut && s.generation == 1
  {
    s := FirstStart(8);
    s := Extend(s, Arrive(Connection(stream)));
    s := Deliver(s, stream);
    ReachableInv(s);
    s := Extend(s, Enter(0));
    s := Extend(s, LockAndPop(0));
  }

  /** From every running state, `stop` run to its end. */
  lemma StopCompletes(s: State) returns (s': State)
    requires Reachable(s) && s.lifecycle.Up?
    ensures Reachable(s') && s'.lifecycle.Down?
    ensures s'.generation == s.generation && s'.handedOut == s.handedOut
  {
    ReachableInv(s);
    s' := Extend(s, Advance(0));
    s' := Extend(s', Advance(0));
    ReachableInv(s');
    var run := StopCanFinish(s');
    ExtendRun(s', run);
    s' := After(s', run);
  }

  /**
   A stale connection that does not fail: accepted in the first generation, stopped with it, and
   passing its check in the second.
   */
  lemma StaleConnectionPasses(stream: Stream) returns (s: State, c: HandedOut)
    ensures Reachable(s) && c in s.handedOut && c == HandedOut(stream, 1)
    ensures s.generation == 2 && OwnerStopped(s, c) && Passes(s, c)
  {
    s := FirstConnection(stream);
    c := HandedOut(stream, 1);
    var down := StopCompletes(s);
    var run := RestartRevivesOldConnections(down);
    ExtendRun(down, run);
    s := After(down, run);
  }
}
