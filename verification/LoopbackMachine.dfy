/**
 The loopback TCP realization as a transition system: one listener thread, any number of
 `accept` callers and one lifecycle caller share two flags, a counter, a locked queue and a
 condition variable. One transition is one atomic load or store, one section under the queue
 lock, one park, one notification or one join, in the order the source performs them.
 */
module LoopbackMachine {
  import opened Wrappers

  type Thread = nat
  type Stream = nat
  type Address = nat

  const USIZE_MODULUS: nat := 0x1_0000_0000_0000_0000

  /** What `listener.incoming()` yields: an accepted socket or an accept error. */
  datatype Incoming = Connection(stream: Stream) | Failure

  /** The next thing the listener thread does. */
  datatype Listener =
    | Absent
    | AwaitIncoming
    | FirstCheck(event: Incoming)
    | SecondCheck(stream: Stream)
    | ErrorCheck
    | CountConnection(stream: Stream)
    | PushStream(stream: Stream)
    | NotifyOne
    | StoreDead
    | NotifyAll
    | Finished

  /** Who holds the queue lock across a transition: only an `accept` that found the queue empty. */
  datatype Lock = Free | SawEmpty(holder: Thread) | WillPark(holder: Thread)

  /** The last thing the lifecycle caller did. */
  datatype Lifecycle =
    | Down
    | Bound
    | StopCleared
    | LiveStored
    | CountReset
    | QueueCleared
    | AddressStored
    | Spawned
    | Up
    | StopStored
    | LiveCleared
    | AddressRead(target: Option<Address>)
    | Connected
    | Notified
    | Joining
    | Joined
    | Drained

  /** A connection given to a caller, with the generation that accepted it or let it be dialed. */
  datatype HandedOut = HandedOut(stream: Stream, generation: nat)

  /**
   `queue` to `handle` are the shared variables of the source; `lifecycle`, `listener`, `lock`,
   `entered` and `parked` say where each thread is; the remaining fields record history.
   */
  datatype State = State(
    stopRequested: bool,
    generationLive: bool,
    acceptedConnections: nat,
    queue: seq<Stream>,
    address: Option<Address>,
    handle: bool,
    backlog: seq<Incoming>,       // arrived but not yet taken by `incoming()`
    lifecycle: Lifecycle,
    listener: Listener,
    lock: Lock,
    entered: set<Thread>,         // inside `accept`, awake and wanting the lock
    parked: set<Thread>,          // inside `available.wait`
    generation: nat,              // `start` calls that cleared `stop_requested`
    pushed: seq<Stream>,          // pushed by the listener of this generation
    returned: seq<Stream>,        // popped by an `accept`, in pop order
    dropped: seq<Stream>,         // discarded by the clear in `stop`
    handedOut: seq<HandedOut>,    // connections of all generations, in the order callers got them
    taken: nat,                   // events the listeners of all generations took from `incoming()`
    parks: multiset<Thread>,      // how often each thread has waited
    dialing: map<Thread, nat>,    // `connect` calls past their load, with the generation they found live
    window: Option<Thread>,       // lock holder past its load when `stop_requested` was set
    pushing: bool,                // listener was past its last check when `stop_requested` was set
    pushedAtStop: nat)            // streams pushed when `stop_requested` was set

  const INIT: State := State(
    false, false, 0, [], None, false, [], Down, Absent, Free, {}, {},
    0, [], [], [], [], 0, multiset{}, map[], None, false, 0)

  datatype Action =
    | Enter(thread: Thread)            // the `generation_live` load of `accept`
    | LockAndPop(thread: Thread)       // lock, then `pop_front`
    | LoadStop(thread: Thread)         // the `stop_requested` load under the lock
    | Park(thread: Thread)             // release the lock and wait
    | SpuriousWake(thread: Thread)
    | BeginConnect(thread: Thread)     // the `generation_live` load of `connect`
    | FinishConnect(thread: Thread, dialed: Option<Stream>)  // the socket is connected, or cannot be
    | Arrive(event: Incoming)          // the environment connects
    | Listen(woken: Option<Thread>)    // one step of the listener thread
    | Advance(bound: Address)          // one step of `start` or `stop`

  predicate InCall(s: State, t: Thread) {
    || t in s.entered
    || t in s.parked
    || (!s.lock.Free? && s.lock.holder == t)
  }

  /** The listening socket exists from `bind` until the listener thread ends. */
  predicate SocketOpen(s: State) {
    || (!s.listener.Absent? && !s.listener.Finished?)
    || s.lifecycle in {Bound, StopCleared, LiveStored, CountReset, QueueCleared, AddressStored}
  }

  predicate ListenerEnabled(s: State, woken: Option<Thread>) {
    match s.listener
    case Absent => false
    case Finished => false
    case AwaitIncoming => s.backlog != []
    case PushStream(_) => s.lock.Free?
    case NotifyOne =>
      if s.parked == {} then woken.None? else woken.Some? && woken.value in s.parked
    case _ => true
  }

  predicate AdvanceEnabled(s: State) {
    match s.lifecycle
    case CountReset => s.lock.Free?
    case Joining => s.listener.Finished?
    case Joined => s.lock.Free?
    case _ => true
  }

  function ListenerApply(s: State, woken: Option<Thread>): (r: State)
    requires ListenerEnabled(s, woken)
    ensures r.lifecycle == s.lifecycle && r.generation == s.generation && r.lock == s.lock
    ensures SameConnections(s, r) && r.parks == s.parks
    ensures s.entered <= r.entered <= s.entered + s.parked && r.parked <= s.parked
  {
    match s.listener
    case AwaitIncoming =>
      s.(listener := FirstCheck(s.backlog[0]), backlog := s.backlog[1..], taken := s.taken + 1)
    case FirstCheck(event) =>
      s.(listener := if s.stopRequested then StoreDead
                     else if event.Connection? then SecondCheck(event.stream)
                     else ErrorCheck)
    case SecondCheck(stream) =>
      s.(listener := if s.stopRequested then StoreDead else CountConnection(stream))
    case ErrorCheck => s.(listener := if s.stopRequested then StoreDead else AwaitIncoming)
    case CountConnection(stream) =>
      s.(acceptedConnections := (s.acceptedConnections + 1) % USIZE_MODULUS,
         listener := PushStream(stream))
    case PushStream(stream) =>
      s.(queue := s.queue + [stream], pushed := s.pushed + [stream], listener := NotifyOne)
    case NotifyOne =>
      if woken.None? then s.(listener := AwaitIncoming)
      else s.(parked := s.parked - {woken.value}, entered := s.entered + {woken.value},
              listener := AwaitIncoming)
    case StoreDead => s.(generationLive := false, listener := NotifyAll)
    case NotifyAll =>
      s.(entered := s.entered + s.parked, parked := {}, listener := Finished, backlog := [])
  }

  /** No connection is handed out, and no `connect` begins or ends. */
  predicate SameConnections(s: State, s': State) {
    s'.handedOut == s.handedOut && s'.dialing == s.dialing
  }

  /** What the lifecycle caller has done last, after one more step. */
  function NextLifecycle(s: State): Lifecycle {
    match s.lifecycle
    // start
    case Down => Bound
    case Bound => StopCleared
    case StopCleared => LiveStored
    case LiveStored => CountReset
    case CountReset => QueueCleared
    case QueueCleared => AddressStored
    case AddressStored => Spawned
    case Spawned => Up
    // stop
    case Up => StopStored
    case StopStored => LiveCleared
    case LiveCleared => AddressRead(s.address)
    case AddressRead(_) => Connected
    case Connected => Notified
    case Notified => if s.handle then Joining else Joined
    case Joining => Joined
    case Joined => Drained
    case Drained => Down
  }

  /** What one step of `start` or `stop` does to the rest of the state. */
  function Effect(s: State, bound: Address): (r: State)
    requires AdvanceEnabled(s)
    ensures r.lifecycle == s.lifecycle && r.lock == s.lock && SameConnections(s, r)
    ensures r.parks == s.parks && r.taken == s.taken
    ensures r.generation == s.generation + if s.lifecycle.Bound? then 1 else 0
    ensures r.entered == if s.lifecycle.Connected? then s.entered + s.parked else s.entered
    ensures r.parked == if s.lifecycle.Connected? then {} else s.parked
  {
    match s.lifecycle
    // start
    case Down => s.(backlog := [])
    case Bound => s.(stopRequested := false, generation := s.generation + 1)
    case StopCleared => s.(generationLive := true)
    case LiveStored => s.(acceptedConnections := 0, pushed := [], returned := [], dropped := [])
    case CountReset => s.(queue := [])
    case QueueCleared => s.(address := Some(bound))
    case AddressStored => s.(listener := AwaitIncoming)
    case Spawned => s.(handle := true)
    // stop
    case Up =>
      s.(stopRequested := true,
         window := if s.lock.WillPark? then Some(s.lock.holder) else None,
         pushing := s.listener.CountConnection? || s.listener.PushStream?,
         pushedAtStop := |s.pushed|)
    case StopStored => s.(generationLive := false)
    case LiveCleared => s
    case AddressRead(target) =>
      // connecting to the bound address delivers one event while the socket is open
      s.(backlog := if target.Some? && SocketOpen(s) then s.backlog + [Connection(0)] else s.backlog)
    case Connected => s.(entered := s.entered + s.parked, parked := {})
    case Notified => s.(handle := false)
    case Joining => s.(listener := Absent)
    case Joined => s.(dropped := s.queue, queue := [])
    case Drained => s.(address := None)
  }

  function AdvanceApply(s: State, bound: Address): State
    requires AdvanceEnabled(s)
  {
    Effect(s, bound).(lifecycle := NextLifecycle(s))
  }

  /** The steps a thread takes inside `accept`. */
  predicate IsAcceptStep(a: Action) {
    !a.BeginConnect? && !a.FinishConnect? && !a.Arrive? && !a.Listen? && !a.Advance?
  }

  predicate IsStepOf(a: Action, t: Thread) {
    IsAcceptStep(a) && a.thread == t
  }

  predicate AcceptEnabled(s: State, a: Action)
    requires IsAcceptStep(a)
  {
    match a
    case Enter(t) => !InCall(s, t)
    case LockAndPop(t) => t in s.entered && s.lock.Free?
    case LoadStop(t) => s.lock == SawEmpty(t)
    case Park(t) => s.lock == WillPark(t)
    case SpuriousWake(t) => t in s.parked
  }

  function AcceptApply(s: State, a: Action): State
    requires IsAcceptStep(a) && AcceptEnabled(s, a)
  {
    match a
    case Enter(t) => if s.generationLive then s.(entered := s.entered + {t}) else s
    case LockAndPop(t) =>
      if s.queue != [] then
        s.(queue := s.queue[1..], returned := s.returned + [s.queue[0]], entered := s.entered - {t},
           handedOut := s.handedOut + [HandedOut(s.queue[0], s.generation)])
      else
        s.(lock := SawEmpty(t), entered := s.entered - {t})
    case LoadStop(t) => s.(lock := if s.stopRequested then Free else WillPark(t))
    case Park(t) => s.(lock := Free, parked := s.parked + {t}, parks := s.parks + multiset{t})
    case SpuriousWake(t) => s.(parked := s.parked - {t}, entered := s.entered + {t})
  }

  /** The steps of `connect`. */
  predicate IsConnectStep(a: Action) {
    a.BeginConnect? || a.FinishConnect?
  }

  predicate ConnectEnabled(s: State, a: Action)
    requires IsConnectStep(a)
  {
    a.FinishConnect? <==> a.thread in s.dialing
  }

  function ConnectApply(s: State, a: Action): State
    requires IsConnectStep(a) && ConnectEnabled(s, a)
  {
    match a
    case BeginConnect(t) => if s.generationLive then s.(dialing := s.dialing[t := s.generation]) else s
    case FinishConnect(t, dialed) =>
      s.(dialing := s.dialing - {t},
         handedOut := if dialed.None? then s.handedOut
                      else s.handedOut + [HandedOut(dialed.value, s.dialing[t])])
  }

  /** The step that lets the holder of the queue lock go on. */
  function LockRelease(lock: Lock): Action
    requires !lock.Free?
  {
    if lock.SawEmpty? then LoadStop(lock.holder) else Park(lock.holder)
  }

  predicate Enabled(s: State, a: Action) {
    match a
    case BeginConnect(_) => ConnectEnabled(s, a)
    case FinishConnect(_, _) => ConnectEnabled(s, a)
    case Arrive(_) => SocketOpen(s)
    case Listen(woken) => ListenerEnabled(s, woken)
    case Advance(_) => AdvanceEnabled(s)
    case _ => AcceptEnabled(s, a)
  }

  function Apply(s: State, a: Action): State
    requires Enabled(s, a)
  {
    match a
    case BeginConnect(_) => ConnectApply(s, a)
    case FinishConnect(_, _) => ConnectApply(s, a)
    case Arrive(event) => s.(backlog := s.backlog + [event])
    case Listen(woken) => ListenerApply(s, woken)
    case Advance(bound) => AdvanceApply(s, bound)
    case _ => AcceptApply(s, a)
  }

  /** `run` can be performed from `s`, one action after the other. */
  predicate CanRun(s: State, run: seq<Action>)
    decreases |run|
  {
    run == [] || (Enabled(s, run[0]) && CanRun(Apply(s, run[0]), run[1..]))
  }

  function After(s: State, run: seq<Action>): State
    requires CanRun(s, run)
    decreases |run|
  {
    if run == [] then s else After(Apply(s, run[0]), run[1..])
  }

  ghost predicate Reachable(s: State) {
    exists run :: CanRun(INIT, run) && After(INIT, run) == s
  }

  lemma {:induction false} RunsCompose(s: State, first: seq<Action>, second: seq<Action>)
    requires CanRun(s, first) && CanRun(After(s, first), second)
    ensures CanRun(s, first + second)
    ensures After(s, first + second) == After(After(s, first), second)
    decreases |first|
  {
    if first == [] {
      assert first + second == second;
    } else {
      assert (first + second)[0] == first[0] && (first + second)[1..] == first[1..] + second;
      RunsCompose(Apply(s, first[0]), first[1..], second);
    }
  }
}
