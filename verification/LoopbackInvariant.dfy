/** The inductive invariant of the loopback machine: what every action of every thread keeps. */
module LoopbackInvariant {
  import opened Wrappers
  import opened LoopbackMachine

  /** Position in the start/stop cycle, in program order. */
  function Phase(l: Lifecycle): nat {
    match l
    case Down => 0
    case Bound => 1
    case StopCleared => 2
    case LiveStored => 3
    case CountReset => 4
    case QueueCleared => 5
    case AddressStored => 6
    case Spawned => 7
    case Up => 8
    case StopStored => 9
    case LiveCleared => 10
    case AddressRead(_) => 11
    case Connected => 12
    case Notified => 13
    case Joining => 14
    case Joined => 15
    case Drained => 16
  }

  /** From the store of `stop_requested` in `stop` to the store that clears it in the next `start`. */
  predicate StopRegion(s: State) {
    Phase(s.lifecycle) >= 9 || (Phase(s.lifecycle) <= 1 && s.generation > 0)
  }

  /** The listener passed both of its checks and has not finished its push. */
  predicate BeforePush(l: Listener) {
    l.CountConnection? || l.PushStream?
  }

  predicate Exiting(l: Listener) {
    l.StoreDead? || l.NotifyAll? || l.Finished?
  }

  predicate Threads(s: State) {
    && s.entered !! s.parked
    && (!s.lock.Free? ==> s.lock.holder !in s.entered && s.lock.holder !in s.parked)
    && (!s.lock.Free? ==> s.queue == [])
    && (s.generation == 0 ==> s.lock.Free? && s.entered == {} && s.parked == {})
  }

  /** The `notify_one` calls the listener still owes for streams it pushed. */
  function Owed(s: State): nat {
    if s.listener.NotifyOne? then 1 else 0
  }

  predicate NoLostWakeup(s: State) {
    s.parked != {} ==> |s.queue| <= |s.entered| + Owed(s)
  }

  /** The listener of this generation has stored the liveness flag as false. */
  predicate DeadStored(l: Listener) {
    l.NotifyAll? || l.Finished?
  }

  /** From the store of the flag in `start` until `stop` or the ending listener clears it. */
  predicate FlagUp(s: State) {
    3 <= Phase(s.lifecycle) <= 8 || (s.lifecycle.StopStored? && !DeadStored(s.listener))
  }

  predicate Flags(s: State) {
    var phase := Phase(s.lifecycle);
    && s.stopRequested == StopRegion(s)
    && s.generationLive == FlagUp(s)
    && (s.address.Some? <==> phase >= 6)
    && (s.handle <==> 8 <= phase <= 13)
    && (s.lifecycle.AddressRead? ==> s.lifecycle.target.Some?)
    && (2 <= phase ==> s.generation > 0)
  }

  predicate ListenerPlace(s: State) {
    var phase := Phase(s.lifecycle);
    && (s.listener.Absent? <==> phase <= 6 || phase >= 15)
    && (Exiting(s.listener) ==> phase >= 9)
    && (phase <= 6 ==> s.queue == [])
    && (phase == 16 ==> s.queue == [])
  }

  /** Until `stop` has joined, an accept loop that will not exit by itself has an event to take. */
  predicate SelfConnect(s: State) {
    12 <= Phase(s.lifecycle) <= 14 && (s.listener.AwaitIncoming? || BeforePush(s.listener) || s.listener.NotifyOne?)
    ==> s.backlog != []
  }

  predicate Conservation(s: State) {
    && s.pushed == s.returned + s.queue + s.dropped
    && (4 <= Phase(s.lifecycle) <= 15 ==> s.dropped == [])
    && s.acceptedConnections
       == (|s.pushed| + if s.listener.PushStream? then 1 else 0) % USIZE_MODULUS
    && (4 <= Phase(s.lifecycle) <= 6 ==> s.pushed == [])
  }

  /** A connection, or a `connect` under way, belongs to a generation whose `start` has stored the flag. */
  predicate OwnerFits(s: State, owner: nat) {
    1 <= owner <= s.generation && (owner == s.generation ==> !s.lifecycle.StopCleared?)
  }

  predicate Owners(s: State) {
    && (forall c :: c in s.handedOut ==> OwnerFits(s, c.generation))
    && (forall t :: t in s.dialing ==> OwnerFits(s, s.dialing[t]))
  }

  predicate StopWindow(s: State) {
    StopRegion(s) ==>
      && (s.lock.WillPark? ==> s.window == Some(s.lock.holder))
      && (Phase(s.lifecycle) >= 13 || Phase(s.lifecycle) <= 1 ==>
            forall t :: t in s.parked ==> s.window == Some(t))
      && (BeforePush(s.listener) ==> s.pushing)
      && (s.pushing && s.lock.WillPark? ==> BeforePush(s.listener))
      && (s.pushing && (s.listener.Finished? || s.listener.Absent?) ==> s.parked == {})
      && |s.pushed| == s.pushedAtStop + if s.pushing && !BeforePush(s.listener) then 1 else 0
  }

  predicate Inv(s: State) {
    && Threads(s)
    && NoLostWakeup(s)
    && Flags(s)
    && ListenerPlace(s)
    && SelfConnect(s)
    && Conservation(s)
    && StopWindow(s)
    && Owners(s)
  }

  lemma InitInv()
    ensures Inv(INIT)
  {
  }

  lemma CountStep(n: nat)
    ensures (n % USIZE_MODULUS + 1) % USIZE_MODULUS == (n + 1) % USIZE_MODULUS
  {
  }

  lemma AcceptKeepsPlaces(s: State, a: Action)
    requires IsAcceptStep(a) && AcceptEnabled(s, a)
    requires Threads(s) && Flags(s) && ListenerPlace(s) && SelfConnect(s)
    ensures Threads(AcceptApply(s, a)) && Flags(AcceptApply(s, a))
    ensures ListenerPlace(AcceptApply(s, a)) && SelfConnect(AcceptApply(s, a))
  {
  }

  lemma AcceptKeepsHistory(s: State, a: Action)
    requires IsAcceptStep(a) && AcceptEnabled(s, a)
    requires Conservation(s) && ListenerPlace(s)
    ensures Conservation(AcceptApply(s, a))
  {
    if a.LockAndPop? && s.queue != [] {
      assert s.queue == [s.queue[0]] + s.queue[1..];
    }
  }

  lemma AcceptKeepsWindow(s: State, a: Action)
    requires IsAcceptStep(a) && AcceptEnabled(s, a)
    requires Flags(s) && StopWindow(s)
    ensures StopWindow(AcceptApply(s, a))
  {
  }

  lemma AcceptKeepsWakeups(s: State, a: Action)
    requires IsAcceptStep(a) && AcceptEnabled(s, a)
    requires Threads(s) && NoLostWakeup(s)
    ensures NoLostWakeup(AcceptApply(s, a))
  {
  }

  lemma ListenerKeepsPlaces(s: State, woken: Option<Thread>)
    requires ListenerEnabled(s, woken)
    requires Threads(s) && Flags(s) && ListenerPlace(s)
    ensures Threads(ListenerApply(s, woken))
    ensures ListenerPlace(ListenerApply(s, woken))
  {
  }

  lemma ListenerKeepsFlags(s: State, woken: Option<Thread>)
    requires ListenerEnabled(s, woken)
    requires Flags(s) && ListenerPlace(s)
    ensures Flags(ListenerApply(s, woken))
  {
  }

  lemma ListenerKeepsSelfConnect(s: State, woken: Option<Thread>)
    requires ListenerEnabled(s, woken)
    requires Flags(s) && ListenerPlace(s) && SelfConnect(s)
    ensures SelfConnect(ListenerApply(s, woken))
  {
  }

  lemma ListenerKeepsHistory(s: State, woken: Option<Thread>)
    requires ListenerEnabled(s, woken)
    requires Flags(s) && ListenerPlace(s) && Conservation(s)
    ensures Conservation(ListenerApply(s, woken))
  {
    CountStep(|s.pushed|);
    assert s.dropped == [] ==> s.pushed == s.returned + s.queue;
  }

  lemma ListenerKeepsWindow(s: State, woken: Option<Thread>)
    requires ListenerEnabled(s, woken)
    requires Flags(s) && ListenerPlace(s) && StopWindow(s)
    ensures StopWindow(ListenerApply(s, woken))
  {
  }

  lemma ListenerKeepsWakeups(s: State, woken: Option<Thread>)
    requires ListenerEnabled(s, woken)
    requires Threads(s) && NoLostWakeup(s)
    ensures NoLostWakeup(ListenerApply(s, woken))
  {
  }

  lemma AdvanceKeepsPlaces(s: State, bound: Address)
    requires AdvanceEnabled(s)
    requires Threads(s) && Flags(s) && ListenerPlace(s) && SelfConnect(s)
    ensures Threads(AdvanceApply(s, bound)) && Flags(AdvanceApply(s, bound))
    ensures ListenerPlace(AdvanceApply(s, bound)) && SelfConnect(AdvanceApply(s, bound))
  {
  }

  lemma AdvanceKeepsHistory(s: State, bound: Address)
    requires AdvanceEnabled(s)
    requires Flags(s) && ListenerPlace(s) && Conservation(s) && StopWindow(s)
    ensures Conservation(AdvanceApply(s, bound)) && StopWindow(AdvanceApply(s, bound))
  {
  }

  lemma AdvanceKeepsWakeups(s: State, bound: Address)
    requires AdvanceEnabled(s)
    requires Threads(s) && NoLostWakeup(s) && ListenerPlace(s)
    ensures NoLostWakeup(AdvanceApply(s, bound))
  {
  }

  lemma ConnectKeepsInv(s: State, a: Action)
    requires Inv(s) && IsConnectStep(a) && ConnectEnabled(s, a)
    ensures Inv(ConnectApply(s, a))
  {
    ConnectKeepsTheRest(s, a);
    if a.BeginConnect? {
      assert s.generationLive ==> OwnerFits(s, s.generation);
    }
  }

  /** All that a `connect` leaves as it was. */
  predicate SameButConnections(s: State, s': State) {
    s' == s.(dialing := s'.dialing, handedOut := s'.handedOut)
  }

  lemma ConnectKeepsTheRest(s: State, a: Action)
    requires IsConnectStep(a) && ConnectEnabled(s, a)
    ensures SameButConnections(s, ConnectApply(s, a)) && s.handedOut <= ConnectApply(s, a).handedOut
  {
  }

  lemma AcceptKeepsOwners(s: State, a: Action)
    requires IsAcceptStep(a) && AcceptEnabled(s, a) && Owners(s)
    requires Threads(s) && ListenerPlace(s)
    ensures Owners(AcceptApply(s, a))
  {
  }

  lemma ListenerKeepsOwners(s: State, woken: Option<Thread>)
    requires ListenerEnabled(s, woken) && Owners(s)
    ensures Owners(ListenerApply(s, woken))
  {
  }

  lemma AdvanceKeepsOwners(s: State, bound: Address)
    requires AdvanceEnabled(s) && Owners(s)
    ensures Owners(AdvanceApply(s, bound))
  {
    AdvanceKeepsConnections(s, bound);
    var s' := AdvanceApply(s, bound);
    assert forall n :: OwnerFits(s, n) ==> OwnerFits(s', n);
  }

  lemma AdvanceKeepsConnections(s: State, bound: Address)
    requires AdvanceEnabled(s)
    ensures SameConnections(s, AdvanceApply(s, bound))
    ensures AdvanceApply(s, bound).generation == s.generation + if s.lifecycle.Bound? then 1 else 0
    ensures AdvanceApply(s, bound).lifecycle.StopCleared? <==> s.lifecycle.Bound?
  {
  }

  lemma AcceptKeepsInv(s: State, a: Action)
    requires Inv(s) && IsAcceptStep(a) && AcceptEnabled(s, a)
    ensures Inv(AcceptApply(s, a))
  {
    AcceptKeepsPlaces(s, a);
    AcceptKeepsHistory(s, a);
    AcceptKeepsWindow(s, a);
    AcceptKeepsWakeups(s, a);
    AcceptKeepsOwners(s, a);
  }

  lemma ListenerKeepsInv(s: State, woken: Option<Thread>)
    requires Inv(s) && ListenerEnabled(s, woken)
    ensures Inv(ListenerApply(s, woken))
  {
    ListenerKeepsPlaces(s, woken);
    ListenerKeepsFlags(s, woken);
    ListenerKeepsSelfConnect(s, woken);
    ListenerKeepsHistory(s, woken);
    ListenerKeepsWindow(s, woken);
    ListenerKeepsWakeups(s, woken);
    ListenerKeepsOwners(s, woken);
  }

  lemma AdvanceKeepsInv(s: State, bound: Address)
    requires Inv(s) && AdvanceEnabled(s)
    ensures Inv(AdvanceApply(s, bound))
  {
    AdvanceKeepsPlaces(s, bound);
    AdvanceKeepsHistory(s, bound);
    AdvanceKeepsWakeups(s, bound);
    AdvanceKeepsOwners(s, bound);
  }

  /** Every action of every thread keeps the invariant. */
  lemma ActionKeepsInv(s: State, a: Action)
    requires Inv(s) && Enabled(s, a)
    ensures Inv(Apply(s, a))
  {
    match a
    case BeginConnect(_) => ConnectKeepsInv(s, a);
    case FinishConnect(_, _) => ConnectKeepsInv(s, a);
    case Arrive(_) =>
    case Listen(woken) => ListenerKeepsInv(s, woken);
    case Advance(bound) => AdvanceKeepsInv(s, bound);
    case _ => AcceptKeepsInv(s, a);
  }

  lemma {:induction false} RunKeepsInv(s: State, run: seq<Action>)
    requires Inv(s) && CanRun(s, run)
    ensures Inv(After(s, run))
    decreases |run|
  {
    if run != [] {
      ActionKeepsInv(s, run[0]);
      RunKeepsInv(Apply(s, run[0]), run[1..]);
    }
  }

  lemma ReachableInv(s: State)
    requires Reachable(s)
    ensures Inv(s)
  {
    var run :| CanRun(INIT, run) && After(INIT, run) == s;
    InitInv();
    RunKeepsInv(INIT, run);
  }
}
