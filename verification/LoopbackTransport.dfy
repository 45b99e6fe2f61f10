/**
 The loopback transport as a program. Its methods load and store the shared variables in the order
 of the source; between any two accesses the other threads act, and every access is one step of the
 transition system in `LoopbackMachine`, carried along as the ghost field `model`.
 */
module LoopbackTransport {
  import opened Wrappers
  import opened LoopbackMachine
  import opened LoopbackInvariant
  import opened TcpConnections
  import HttpText

  /** What the peer of a socket delivers, and how that ends. */
  datatype Socket = Socket(incoming: seq<HttpText.Byte>, ending: Ending)

  datatype AcceptResult = Accepted(connection: TcpConnection) | Stopped

  datatype ConnectResult = Connected(connection: TcpConnection) | NotStarted | ConnectFailed

  // ---------- what the other threads may do ----------

  /** Since `s`, as far as `start` and `stop` can tell. */
  predicate OthersOfLifecycle(s: State, s': State) {
    && s'.lifecycle == s.lifecycle && s'.generation == s.generation
    && s'.stopRequested == s.stopRequested && s'.address == s.address && s'.handle == s.handle
    && s'.window == s.window && s'.pushing == s.pushing && s'.pushedAtStop == s.pushedAtStop
    && (s.listener.Finished? ==> s'.listener.Finished?)
  }

  /** Since `s`, as far as an `accept` or `connect` of thread `t` can tell. */
  predicate OthersOfAccept(t: Thread, s: State, s': State) {
    && s.generation <= s'.generation
    && s'.parks[t] == s.parks[t]
    && (t in s.dialing <==> t in s'.dialing)
    && (t in s.dialing ==> s'.dialing[t] == s.dialing[t])
    && (t in s.entered ==> t in s'.entered)
    && (!s.lock.Free? && s.lock.holder == t ==> s'.lock == s.lock)
    && (!InCall(s, t) ==> !InCall(s', t))
  }

  /** Since `s`, as far as the listener thread can tell. */
  predicate OthersOfListener(s: State, s': State) {
    && s'.listener == s.listener && s'.taken == s.taken
    && SameStreams(s, s')
    && (s.stopRequested ==> s'.stopRequested)
    && (!s.generationLive ==> !s'.generationLive)
  }

  predicate SameStreams(s: State, s': State) {
    s'.pushed == s.pushed && s'.acceptedConnections == s.acceptedConnections
  }

  predicate ListenerRuns(s: State) {
    !s.listener.Absent? && !s.listener.Finished?
  }

  /** A step thread `t` takes in a call of its own. */
  predicate IsMoveOf(a: Action, t: Thread) {
    (IsAcceptStep(a) || IsConnectStep(a)) && a.thread == t
  }

  lemma AcceptBesideLifecycle(s: State, a: Action)
    requires IsAcceptStep(a) && AcceptEnabled(s, a)
    ensures OthersOfLifecycle(s, AcceptApply(s, a))
  {
  }

  lemma AcceptBesideAccept(s: State, a: Action, t: Thread)
    requires IsAcceptStep(a) && AcceptEnabled(s, a) && a.thread != t
    ensures OthersOfAccept(t, s, AcceptApply(s, a))
  {
  }

  lemma AcceptBesideListener(s: State, a: Action)
    requires IsAcceptStep(a) && AcceptEnabled(s, a)
    ensures OthersOfListener(s, AcceptApply(s, a))
  {
  }

  lemma ListenerBesideLifecycle(s: State, woken: Option<Thread>)
    requires ListenerEnabled(s, woken)
    ensures OthersOfLifecycle(s, ListenerApply(s, woken))
  {
  }

  lemma ListenerBesideAccept(s: State, woken: Option<Thread>, t: Thread)
    requires Threads(s) && ListenerEnabled(s, woken)
    ensures OthersOfAccept(t, s, ListenerApply(s, woken))
  {
  }

  lemma LifecycleBesideAccept(s: State, bound: Address, t: Thread)
    requires AdvanceEnabled(s)
    ensures OthersOfAccept(t, s, AdvanceApply(s, bound))
  {
  }

  lemma LifecycleBesideListener(s: State, bound: Address)
    requires Inv(s) && AdvanceEnabled(s) && ListenerRuns(s)
    ensures OthersOfListener(s, AdvanceApply(s, bound))
  {
  }

  lemma OthersStep(s: State, a: Action, t: Thread)
    requires Inv(s) && Enabled(s, a)
    ensures !a.Advance? ==> OthersOfLifecycle(s, Apply(s, a))
    ensures !IsMoveOf(a, t) ==> OthersOfAccept(t, s, Apply(s, a))
    ensures !a.Listen? && ListenerRuns(s) ==> OthersOfListener(s, Apply(s, a))
  {
    match a
    case BeginConnect(_) => ConnectKeepsTheRest(s, a);
    case FinishConnect(_, _) => ConnectKeepsTheRest(s, a);
    case Arrive(_) =>
    case Listen(woken) =>
      ListenerBesideLifecycle(s, woken);
      ListenerBesideAccept(s, woken, t);
    case Advance(bound) =>
      LifecycleBesideAccept(s, bound, t);
      if ListenerRuns(s) {
        LifecycleBesideListener(s, bound);
      }
    case _ =>
      AcceptBesideLifecycle(s, a);
      AcceptBesideListener(s, a);
      if a.thread != t {
        AcceptBesideAccept(s, a, t);
      }
  }

  lemma {:induction false} LifecycleCoversRuns(s: State, run: seq<Action>)
    requires Inv(s) && CanRun(s, run) && forall i :: 0 <= i < |run| ==> !run[i].Advance?
    ensures OthersOfLifecycle(s, After(s, run))
    decreases |run|
  {
    if run != [] {
      OthersStep(s, run[0], 0);
      ActionKeepsInv(s, run[0]);
      LifecycleCoversRuns(Apply(s, run[0]), run[1..]);
    }
  }

  lemma {:induction false} AcceptCoversRuns(s: State, run: seq<Action>, t: Thread)
    requires Inv(s) && CanRun(s, run) && forall i :: 0 <= i < |run| ==> !IsMoveOf(run[i], t)
    ensures OthersOfAccept(t, s, After(s, run))
    decreases |run|
  {
    if run != [] {
      OthersStep(s, run[0], t);
      ActionKeepsInv(s, run[0]);
      AcceptCoversRuns(Apply(s, run[0]), run[1..], t);
    }
  }

  lemma {:induction false} ListenerCoversRuns(s: State, run: seq<Action>)
    requires Inv(s) && CanRun(s, run) && ListenerRuns(s) && forall i :: 0 <= i < |run| ==> !run[i].Listen?
    ensures OthersOfListener(s, After(s, run))
    decreases |run|
  {
    if run != [] {
      OthersStep(s, run[0], 0);
      ActionKeepsInv(s, run[0]);
      ListenerCoversRuns(Apply(s, run[0]), run[1..]);
    }
  }

  /** The three relations allow everything the other threads can do, in any number of steps. */
  lemma OthersCoverRuns(s: State, run: seq<Action>, t: Thread)
    requires Inv(s) && CanRun(s, run)
    ensures (forall i :: 0 <= i < |run| ==> !run[i].Advance?) ==> OthersOfLifecycle(s, After(s, run))
    ensures (forall i :: 0 <= i < |run| ==> !IsMoveOf(run[i], t)) ==> OthersOfAccept(t, s, After(s, run))
    ensures (forall i :: 0 <= i < |run| ==> !run[i].Listen?) && ListenerRuns(s) ==>
              OthersOfListener(s, After(s, run))
  {
    if forall i :: 0 <= i < |run| ==> !run[i].Advance? {
      LifecycleCoversRuns(s, run);
    }
    if forall i :: 0 <= i < |run| ==> !IsMoveOf(run[i], t) {
      AcceptCoversRuns(s, run, t);
    }
    if (forall i :: 0 <= i < |run| ==> !run[i].Listen?) && ListenerRuns(s) {
      ListenerCoversRuns(s, run);
    }
  }

  /** The pop that is the n-th of the generation takes the n-th stream pushed. */
  lemma PopTakesNext(s: State, t: Thread)
    requires Inv(s) && t in s.entered && s.lock.Free? && s.queue != []
    ensures var s' := AcceptApply(s, LockAndPop(t));
      && s'.pushed == s.pushed
      && s'.returned == s.returned + [s.queue[0]]
      && |s'.returned| <= |s'.pushed|
      && s.queue[0] == s'.pushed[|s'.returned| - 1]
      && !InCall(s', t)
  {
  }

  class LoopbackTransport {
    const generationLive: AtomicBool   // shared with every connection handed out
    const sockets: Stream -> Socket    // the peer behind each accepted stream
    var stopRequested: bool
    var acceptedConnections: nat
    var queue: seq<Stream>
    var address: Option<Address>
    var handle: bool
    ghost var model: State
    ghost var connections: seq<TcpConnection>  // the connections handed out, as `model.handedOut` lists them

    /** Every connection handed out holds the flag of this transport. */
    ghost predicate SharesFlag()
      reads this
    {
      && |connections| == |model.handedOut|
      && forall i :: 0 <= i < |connections| ==> connections[i].generationLive == generationLive
    }

    ghost predicate Valid()
      reads this, generationLive
    {
      && SharesFlag()
      && stopRequested == model.stopRequested
      && generationLive.value == model.generationLive
      && acceptedConnections == model.acceptedConnections
      && queue == model.queue
      && address == model.address
      && handle == model.handle
      && Inv(model)
    }

    constructor (sockets: Stream -> Socket)
      ensures Valid() && model == INIT && this.sockets == sockets && fresh(generationLive)
    {
      InitInv();
      this.sockets := sockets;
      generationLive := new AtomicBool(false);
      stopRequested, acceptedConnections := false, 0;
      queue, address, handle, model, connections := [], None, false, INIT, [];
    }

    ghost method StepLifecycle(bound: Address)
      requires Inv(model) && AdvanceEnabled(model)
      modifies this`model
      ensures model == AdvanceApply(old(model), bound) && Inv(model)
    {
      ActionKeepsInv(model, Advance(bound));
      model := AdvanceApply(model, bound);
    }

    ghost method StepListener(woken: Option<Thread>)
      requires Inv(model) && ListenerEnabled(model, woken)
      modifies this`model
      ensures model == ListenerApply(old(model), woken) && Inv(model)
    {
      ActionKeepsInv(model, Listen(woken));
      model := ListenerApply(model, woken);
    }

    ghost method StepAccept(a: Action)
      requires Inv(model) && IsAcceptStep(a) && AcceptEnabled(model, a)
      modifies this`model
      ensures model == AcceptApply(old(model), a) && Inv(model)
    {
      ActionKeepsInv(model, a);
      model := AcceptApply(model, a);
    }

    ghost method StepConnect(a: Action)
      requires Inv(model) && IsConnectStep(a) && ConnectEnabled(model, a)
      modifies this`model
      ensures model == ConnectApply(old(model), a) && Inv(model)
    {
      ActionKeepsInv(model, a);
      model := ConnectApply(model, a);
    }

    /** The other threads, between two accesses of `start` or `stop`. */
    method LetOthersRun()
      requires Valid()
      modifies this, generationLive
      ensures Valid() && OthersOfLifecycle(old(model), model)
    {
    }

    /** Blocks until the queue lock is free. */
    method LockQueue()
      requires Valid()
      modifies this, generationLive
      ensures Valid() && OthersOfLifecycle(old(model), model) && model.lock.Free?
      ensures OthersOfListener(old(model), model)
      ensures old(model.entered) <= model.entered
      ensures forall t :: t in old(model.entered) ==> model.parks[t] == old(model.parks[t])
    {
      if !model.lock.Free? {
        LetHolderGoOn();
      }
      if !model.lock.Free? {
        LetHolderGoOn();
      }
    }

    /** One step of the holder of the queue lock. */
    ghost method LetHolderGoOn()
      requires Valid() && !model.lock.Free?
      modifies this`model
      ensures Valid() && OthersOfLifecycle(old(model), model) && OthersOfListener(old(model), model)
      ensures model.entered == old(model.entered)
      ensures forall t :: t in model.entered ==> model.parks[t] == old(model.parks[t])
      ensures model.lock.Free? || (old(model.lock.SawEmpty?) && model.lock.WillPark?)
    {
      StepAccept(LockRelease(model.lock));
    }

    // ---------- start and stop ----------

    /** `bound` is the address the requested one was bound to, if it could be parsed and bound. */
    method Start(bound: Option<Address>) returns (ok: bool)
      requires Valid() && model.lifecycle.Down?
      modifies this, generationLive
      ensures Valid() && (ok <==> bound.Some?)
      ensures ok ==> model.lifecycle.Up? && model.generation == old(model.generation) + 1
      ensures ok ==> generationLive.value && !stopRequested && address == bound && handle
      ensures !ok ==> model == old(model)
    {
      ok := bound.Some?;
      if ok {
        RaiseFlags();
        ClearGeneration();
        SpawnListener(bound.value);
      }
    }

    method RaiseFlags()
      requires Valid() && model.lifecycle.Down?
      modifies this, generationLive
      ensures Valid() && model.lifecycle.LiveStored? && model.generation == old(model.generation) + 1
    {
      StepLifecycle(0);  // the socket is bound
      LetOthersRun();
      stopRequested := false;
      StepLifecycle(0);
      LetOthersRun();
      generationLive.value := true;
      StepLifecycle(0);
      LetOthersRun();
    }

    method ClearGeneration()
      requires Valid() && model.lifecycle.LiveStored?
      modifies this, generationLive
      ensures Valid() && model.lifecycle.QueueCleared? && model.generation == old(model.generation)
    {
      acceptedConnections := 0;
      StepLifecycle(0);
      LetOthersRun();
      LockQueue();
      queue := [];
      StepLifecycle(0);
      LetOthersRun();
    }

    method SpawnListener(bound: Address)
      requires Valid() && model.lifecycle.QueueCleared?
      modifies this, generationLive
      ensures Valid() && model.lifecycle.Up? && model.generation == old(model.generation)
      ensures address == Some(bound)
    {
      address := Some(bound);
      StepLifecycle(bound);
      LetOthersRun();
      StepLifecycle(0);  // the listener thread starts
      LetOthersRun();
      handle := true;
      StepLifecycle(0);
    }

    /** `stop` up to the point where it waits for the listener thread. */
    method RequestStop()
      requires Valid() && model.lifecycle.Up?
      modifies this, generationLive
      ensures Valid() && model.lifecycle.Joining? && model.generation == old(model.generation)
      ensures stopRequested && !generationLive.value && !handle
      ensures forall t :: t in model.parked ==> model.window == Some(t)
    {
      LowerFlags();
      ConnectToListener();
      WakeWaiters();
    }

    method LowerFlags()
      requires Valid() && model.lifecycle.Up?
      modifies this, generationLive
      ensures Valid() && model.lifecycle.LiveCleared? && model.generation == old(model.generation)
    {
      stopRequested := true;
      StepLifecycle(0);
      LetOthersRun();
      generationLive.value := false;
      StepLifecycle(0);
      LetOthersRun();
    }

    method ConnectToListener()
      requires Valid() && model.lifecycle.LiveCleared?
      modifies this, generationLive
      ensures Valid() && model.lifecycle.Connected? && model.generation == old(model.generation)
    {
      StepLifecycle(0);  // reads the address
      LetOthersRun();
      StepLifecycle(0);
      LetOthersRun();
    }

    method WakeWaiters()
      requires Valid() && model.lifecycle.Connected?
      modifies this, generationLive
      ensures Valid() && model.lifecycle.Joining? && model.generation == old(model.generation)
    {
      StepLifecycle(0);  // `notify_all`
      LetOthersRun();
      handle := false;
      StepLifecycle(0);
    }

    /** The rest of `stop`, once the listener thread has ended. */
    method FinishStop()
      requires Valid() && model.lifecycle.Joining? && model.listener.Finished?
      modifies this, generationLive
      ensures Valid() && model.lifecycle.Down? && model.generation == old(model.generation)
      ensures queue == [] && address == None && !generationLive.value && stopRequested
      ensures model.pushed == model.returned + model.dropped
      ensures acceptedConnections == (|model.returned| + |model.dropped|) % USIZE_MODULUS
      ensures forall t :: t in model.parked ==> model.window == Some(t)
    {
      Join();
      DiscardQueue();
      ForgetAddress();
      assert model.returned + model.queue + model.dropped == model.returned + model.dropped;
    }

    method Join()
      requires Valid() && model.lifecycle.Joining? && model.listener.Finished?
      modifies this, generationLive
      ensures Valid() && model.lifecycle.Joined? && model.generation == old(model.generation)
    {
      LetOthersRun();
      StepLifecycle(0);
      LetOthersRun();
    }

    method DiscardQueue()
      requires Valid() && model.lifecycle.Joined?
      modifies this, generationLive
      ensures Valid() && model.lifecycle.Drained? && model.generation == old(model.generation)
    {
      LockQueue();
      queue := [];
      StepLifecycle(0);
      LetOthersRun();
    }

    method ForgetAddress()
      requires Valid() && model.lifecycle.Drained?
      modifies this, generationLive
      ensures Valid() && model.lifecycle.Down? && model.generation == old(model.generation)
      ensures queue == []
    {
      address := None;
      StepLifecycle(0);
    }

    // ---------- accept ----------

    /** The other threads, between two accesses of an `accept` of thread `t`. */
    method LetOthersRunBeside(t: Thread)
      requires Valid()
      modifies this, generationLive
      ensures Valid() && OthersOfAccept(t, old(model), model)
    {
    }

    /** `c` was handed out last, for this stream, as a connection of this generation. */
    ghost predicate IsNewest(c: TcpConnection, stream: Stream)
      reads this, c
    {
      && |connections| == |model.handedOut| > 0
      && c == connections[|connections| - 1]
      && model.handedOut[|connections| - 1] == HandedOut(stream, model.generation)
      && c.incoming == sockets(stream).incoming && c.ending == sockets(stream).ending
      && c.position == 0 && c.outgoing == []
    }

    /**
     `accept`, observed for `passes` passes of its loop: `None` is a call still waiting for a stream.
     The loop ends by itself only when a stream is taken or a stop is seen.
     */
    method Accept(t: Thread, passes: nat) returns (r: Option<AcceptResult>)
      requires Valid() && !InCall(model, t)
      modifies this, generationLive
      ensures Valid() && (if r.None? then t in model.entered else !InCall(model, t))
      ensures r.None? ==> model.parks[t] == old(model.parks[t]) + passes
      ensures r == Some(AcceptResult.Stopped) ==> !generationLive.value || (stopRequested && queue == [])
      ensures r.Some? && r.value.Accepted? ==>
                && 0 < |model.returned| <= |model.pushed|
                && IsNewest(r.value.connection, model.pushed[|model.returned| - 1])
    {
      var live := BeginAccept(t);
      if !live {
        return Some(AcceptResult.Stopped);
      }
      r := AcceptLoop(t, passes);
    }

    /** The loop in `accept`, for `passes` passes. */
    method AcceptLoop(t: Thread, passes: nat) returns (r: Option<AcceptResult>)
      requires Valid() && t in model.entered
      modifies this, generationLive
      ensures Valid() && (if r.None? then t in model.entered else !InCall(model, t))
      ensures r.None? ==> model.parks[t] == old(model.parks[t]) + passes
      ensures r == Some(AcceptResult.Stopped) ==> stopRequested && queue == []
      ensures r.Some? && r.value.Accepted? ==>
                && 0 < |model.returned| <= |model.pushed|
                && IsNewest(r.value.connection, model.pushed[|model.returned| - 1])
    {
      r := None;
      for n := 0 to passes
        invariant Valid() && r.None? && t in model.entered
        invariant model.parks[t] == old(model.parks[t]) + n
      {
        r := AcceptRound(t);
        if r.Some? {
          return;
        }
      }
    }

    /** The liveness check that opens `accept`. */
    method BeginAccept(t: Thread) returns (live: bool)
      requires Valid() && !InCall(model, t)
      modifies this, generationLive
      ensures Valid() && live == generationLive.value && (if live then t in model.entered else !InCall(model, t))
      ensures model.parks[t] == old(model.parks[t])
    {
      LetOthersRunBeside(t);
      live := generationLive.value;
      StepAccept(Enter(t));
    }

    /**
     One pass of the loop in `accept`. The pop that is the n-th of the generation gets the n-th
     stream pushed; `Stopped` is returned only on a queue found empty and a stop flag found set;
     otherwise the thread has waited exactly once, which `WaitingIsJustified`, and is awake again.
     */
    method AcceptRound(t: Thread) returns (r: Option<AcceptResult>)
      requires Valid() && t in model.entered
      modifies this, generationLive
      ensures Valid()
      ensures r.Some? ==> !InCall(model, t)
      ensures r.Some? && r.value.Accepted? ==>
                && 0 < |model.returned| <= |model.pushed|
                && IsNewest(r.value.connection, model.pushed[|model.returned| - 1])
      ensures r == Some(AcceptResult.Stopped) ==> stopRequested && queue == []
      ensures r.None? ==> t in model.entered
      ensures model.parks[t] == old(model.parks[t]) + if r.None? then 1 else 0
    {
      var taken := TakeStream(t);
      if taken.Some? {
        return Some(Accepted(taken.value));
      }
      var stop := SeesStop(t);
      if stop {
        return Some(AcceptResult.Stopped);
      }
      Wait(t);
      r := None;
    }

    /** Locks the queue and pops, keeping the lock if there is nothing to pop. */
    method TakeStream(t: Thread) returns (taken: Option<TcpConnection>)
      requires Valid() && t in model.entered
      modifies this, generationLive
      ensures Valid()
      ensures taken.Some? ==> !InCall(model, t)
      ensures taken.Some? ==>
                && 0 < |model.returned| <= |model.pushed|
                && IsNewest(taken.value, model.pushed[|model.returned| - 1])
      ensures taken.None? ==> model.lock == SawEmpty(t)
      ensures model.parks[t] == old(model.parks[t])
    {
      LetOthersRunBeside(t);
      LockQueue();
      if queue == [] {
        taken := None;
        MissStream(t);
      } else {
        var connection := PopOldest(t);
        taken := Some(connection);
      }
    }

    ghost method MissStream(t: Thread)
      requires Valid() && t in model.entered && model.lock.Free? && queue == []
      modifies this`model
      ensures Valid() && model.lock == SawEmpty(t) && model.parks == old(model.parks)
    {
      StepAccept(LockAndPop(t));
    }

    method PopOldest(t: Thread) returns (connection: TcpConnection)
      requires Valid() && t in model.entered && model.lock.Free? && queue != []
      modifies this
      ensures Valid() && !InCall(model, t) && model.parks == old(model.parks)
      ensures 0 < |model.returned| <= |model.pushed|
      ensures IsNewest(connection, model.pushed[|model.returned| - 1])
    {
      PopTakesNext(model, t);
      var stream := queue[0];
      queue := queue[1..];
      connection := new TcpConnection(generationLive, sockets(stream).incoming, sockets(stream).ending);
      StepAccept(LockAndPop(t));
      connections := connections + [connection];
    }

    /** Loads the stop flag under the lock, releasing the lock if it is set. */
    method SeesStop(t: Thread) returns (stop: bool)
      requires Valid() && model.lock == SawEmpty(t)
      modifies this, generationLive
      ensures Valid()
      ensures stop ==> stopRequested && queue == [] && !InCall(model, t)
      ensures !stop ==> model.lock == WillPark(t)
      ensures model.parks[t] == old(model.parks[t])
    {
      LetOthersRunBeside(t);
      stop := stopRequested;
      StepAccept(LoadStop(t));
    }

    /** `available.wait`: parks without the lock until a notification, or nothing at all, wakes it. */
    method Wait(t: Thread)
      requires Valid() && model.lock == WillPark(t)
      modifies this, generationLive
      ensures Valid() && t in model.entered && model.parks[t] == old(model.parks[t]) + 1
    {
      LetOthersRunBeside(t);
      StepAccept(Park(t));
      StepAccept(SpuriousWake(t));
    }

    // ---------- connections ----------

    /**
     `connect` of thread `t`; `dialed` is the socket to the remote address, if there is one. A call
     that found the flag up hands out exactly that socket, as a connection of the generation whose
     flag it loaded, or reports that there is none; one that found it down hands out nothing.
     */
    method Connect(t: Thread, stream: Stream, dialed: Option<Socket>) returns (r: ConnectResult)
      requires Valid() && t !in model.dialing
      modifies this, generationLive
      ensures Valid() && t !in model.dialing
      ensures r.NotStarted? ==> !FlagUp(model)
      ensures r.ConnectFailed? ==> dialed.None?
      ensures r.Connected? ==>
                && dialed.Some? && r.connection.incoming == dialed.value.incoming
                && r.connection.ending == dialed.value.ending && r.connection.position == 0
                && |connections| == |model.handedOut| > 0
                && r.connection == connections[|connections| - 1]
                && model.handedOut[|connections| - 1].stream == stream
                && old(model.generation) <= model.handedOut[|connections| - 1].generation <= model.generation
    {
      var live := BeginDial(t);
      if !live {
        return NotStarted;
      }
      LetOthersRunBeside(t);
      if dialed.None? {
        StepConnect(FinishConnect(t, None));
        return ConnectFailed;
      }
      var connection := HandOut(t, stream, dialed.value);
      r := ConnectResult.Connected(connection);
    }

    /** The liveness check that opens `connect`. */
    method BeginDial(t: Thread) returns (live: bool)
      requires Valid() && t !in model.dialing
      modifies this, generationLive
      ensures Valid() && (live <==> FlagUp(model)) && (live <==> t in model.dialing)
      ensures live ==> old(model.generation) <= model.dialing[t]
    {
      LetOthersRunBeside(t);
      live := generationLive.value;
      StepConnect(BeginConnect(t));
    }

    method HandOut(t: Thread, stream: Stream, socket: Socket) returns (connection: TcpConnection)
      requires Valid() && t in model.dialing
      modifies this
      ensures Valid() && t !in model.dialing
      ensures connection.incoming == socket.incoming && connection.ending == socket.ending
      ensures connection.position == 0 && connections == old(connections) + [connection]
      ensures model.handedOut == old(model.handedOut) + [HandedOut(stream, old(model.dialing[t]))]
      ensures model.generation == old(model.generation) && old(model.dialing[t]) <= model.generation
    {
      connection := new TcpConnection(generationLive, socket.incoming, socket.ending);
      StepConnect(FinishConnect(t, Some(stream)));
      connections := connections + [connection];
    }

    /** The flag a connection handed out holds is up exactly from `start` to `stop`, of any generation. */
    lemma ConnectionFollowsLifecycle(c: TcpConnection)
      requires Valid() && c in connections
      ensures c.generationLive.value <==> FlagUp(model)
    {
    }

    /** Reading from a connection handed out: the flag decides between `Stopped` and the next bytes. */
    method Read(c: TcpConnection, maxBytes: nat) returns (r: Result<seq<HttpText.Byte>, TcpErrorKind>)
      requires Valid() && c in connections && c.Valid()
      modifies c`position, c`requests
      ensures Valid() && c.Valid()
      ensures !FlagUp(model) ==> r == Err(TcpErrorKind.Stopped) && c.position == old(c.position)
      ensures FlagUp(model) && r == Err(TcpErrorKind.Stopped) ==> c.ending.GenerationStopped?
      ensures old(c.position) <= c.position
      ensures r.Ok? ==> |r.value| <= maxBytes && r.value == c.incoming[old(c.position)..c.position]
      ensures r.Ok? && r.value == [] ==> maxBytes == 0 || (c.ending.Eof? && c.position == |c.incoming|)
    {
      ConnectionFollowsLifecycle(c);
      r := c.ReadSome(maxBytes);
    }

    /** Writing to a connection handed out fails with `Stopped` exactly while the flag is down. */
    method Write(c: TcpConnection, bytes: seq<HttpText.Byte>) returns (r: Result<(), TcpErrorKind>)
      requires Valid() && c in connections
      modifies c`outgoing
      ensures Valid()
      ensures r == Err(TcpErrorKind.Stopped) <==> !FlagUp(model)
      ensures r == Err(TcpErrorKind.Stopped) ==> c.outgoing == old(c.outgoing)
      ensures r.Ok? ==> c.outgoing == old(c.outgoing) + bytes
      ensures FlagUp(model) && c.writable ==> r.Ok?
    {
      ConnectionFollowsLifecycle(c);
      r := c.WriteAll(bytes);
    }

    // ---------- the listener thread ----------

    /** The other threads, between two accesses of the listener thread. */
    method LetOthersRunBesideListener()
      requires Valid() && ListenerRuns(model)
      modifies this, generationLive
      ensures Valid() && OthersOfListener(old(model), model)
    {
    }

    /**
     One pass of the listener loop over `event`. A pass that goes on has counted, pushed and
     announced the stream of a connection; one that ends the thread has pushed nothing, saw the
     stop flag set, and leaves the generation dead and every waiter awake.
     */
    method ListenerRound(event: Incoming) returns (again: bool)
      requires Valid() && model.listener.AwaitIncoming? && model.backlog != [] && model.backlog[0] == event
      modifies this, generationLive
      ensures Valid() && model.listener == if again then AwaitIncoming else Finished
      ensures model.taken == old(model.taken) + 1
      ensures again ==> model.pushed == old(model.pushed) + if event.Connection? then [event.stream] else []
      ensures again ==> acceptedConnections ==
                        (old(acceptedConnections) + if event.Connection? then 1 else 0) % USIZE_MODULUS
      ensures !again ==> model.pushed == old(model.pushed) && acceptedConnections == old(acceptedConnections)
      ensures !again ==> stopRequested && !generationLive.value && model.parked == {}
    {
      again := FirstLoad(event);
      if again {
        again := SecondLoad(event);
      }
      if !again {
        EndListener();
      } else if event.Connection? {
        CountStream(event.stream);
        QueueStream(event.stream);
        NotifyOneWaiter();
      }
    }

    method FirstLoad(event: Incoming) returns (again: bool)
      requires Valid() && model.listener.AwaitIncoming? && model.backlog != [] && model.backlog[0] == event
      modifies this, generationLive
      ensures Valid() && SameStreams(old(model), model) && model.taken == old(model.taken) + 1
      ensures model.listener == if !again then StoreDead
                                else if event.Connection? then SecondCheck(event.stream) else ErrorCheck
    {
      StepListener(None);
      LetOthersRunBesideListener();
      again := !stopRequested;
      StepListener(None);
    }

    method SecondLoad(event: Incoming) returns (again: bool)
      requires Valid()
      requires model.listener == if event.Connection? then SecondCheck(event.stream) else ErrorCheck
      modifies this, generationLive
      ensures Valid() && SameStreams(old(model), model)
      ensures model.taken == old(model.taken)
      ensures model.listener == if !again then StoreDead
                                else if event.Connection? then CountConnection(event.stream) else AwaitIncoming
    {
      LetOthersRunBesideListener();
      again := !stopRequested;
      StepListener(None);
    }

    method CountStream(stream: Stream)
      requires Valid() && model.listener == CountConnection(stream)
      modifies this, generationLive
      ensures Valid() && model.listener == PushStream(stream) && model.pushed == old(model.pushed)
      ensures model.taken == old(model.taken)
      ensures acceptedConnections == (old(acceptedConnections) + 1) % USIZE_MODULUS
    {
      LetOthersRunBesideListener();
      acceptedConnections := (acceptedConnections + 1) % USIZE_MODULUS;
      StepListener(None);
    }

    method QueueStream(stream: Stream)
      requires Valid() && model.listener == PushStream(stream)
      modifies this, generationLive
      ensures Valid() && model.listener.NotifyOne? && model.pushed == old(model.pushed) + [stream]
      ensures model.taken == old(model.taken)
      ensures acceptedConnections == old(acceptedConnections)
    {
      LetOthersRunBesideListener();
      LockQueue();
      queue := queue + [stream];
      StepListener(None);
    }

    /** Wakes some waiter, if there is one. */
    method NotifyOneWaiter()
      requires Valid() && model.listener.NotifyOne?
      modifies this, generationLive
      ensures Valid() && model.listener.AwaitIncoming? && SameStreams(old(model), model)
      ensures model.taken == old(model.taken)
    {
      ghost var woken := None;
      if model.parked != {} {
        ghost var t :| t in model.parked;
        woken := Some(t);
      }
      StepListener(woken);
    }

    /** What follows the loop. */
    method EndListener()
      requires Valid() && model.listener.StoreDead?
      modifies this, generationLive
      ensures Valid() && model.listener.Finished? && model.parked == {}
      ensures model.taken == old(model.taken)
      ensures stopRequested && !generationLive.value && SameStreams(old(model), model)
    {
      LetOthersRunBesideListener();
      generationLive.value := false;
      StepListener(None);
      LetOthersRunBesideListener();
      StepListener(None);
    }
  }
}
