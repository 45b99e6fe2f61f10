/** The bounded FIFO queue, and the producer that counts its outcomes. */
module ObservedQueue {
  import opened Wrappers
  import Counter

  type Thread = nat

  type Payload = seq<nat>

  datatype SendResult = Accepted | Full(capacity: nat)

  // ---------- the queue ----------

  class InMemoryQueue {
    const capacity: nat
    var messages: seq<Payload>
    ghost var accepted: seq<Payload>  // every payload accepted so far, in order
    ghost var received: seq<Payload>  // every payload received so far, in order
    ghost var refused: nat            // sends that found the queue full
    ghost var foreignAccepted: nat    // those of `accepted` that other callers sent
    ghost var foreignRefused: nat     // those of `refused` that other callers met
    ghost var foreignReceived: nat    // those of `received` that other callers took

    /** What any run of sends and receives keeps: first in, first out, nothing lost, never too deep. */
    ghost predicate Valid()
      reads this
    {
      accepted == received + messages && |messages| <= capacity
    }

    constructor (capacity: nat)
      ensures Valid() && this.capacity == capacity && accepted == [] && refused == 0
      ensures foreignAccepted == foreignRefused == foreignReceived == 0
    {
      this.capacity := capacity;
      messages, accepted, received, refused := [], [], [], 0;
      foreignAccepted, foreignRefused, foreignReceived := 0, 0, 0;
    }

    /** One section under the lock: append, or refuse when full. */
    method Send(payload: Payload) returns (r: SendResult)
      requires Valid()
      modifies this`messages, this`accepted, this`refused
      ensures Valid() && received == old(received)
      ensures r == if |old(messages)| >= capacity then Full(capacity) else Accepted
      ensures accepted == if r.Accepted? then old(accepted) + [payload] else old(accepted)
      ensures refused == old(refused) + if r.Accepted? then 0 else 1
    {
      if |messages| >= capacity {
        refused := refused + 1;
        r := Full(capacity);
      } else {
        messages := messages + [payload];
        accepted := accepted + [payload];
        r := Accepted;
      }
    }

    /** One section under the lock: take the oldest message, if any. */
    method TryReceive() returns (r: Option<Payload>)
      requires Valid()
      modifies this`messages, this`received
      ensures Valid()
      ensures received == old(received) + if r.Some? then [r.value] else []
      ensures r.None? <==> |old(received)| == |accepted|
      ensures r.Some? ==> r.value == accepted[|old(received)|]
    {
      if messages == [] {
        r := None;
      } else {
        r := Some(messages[0]);
        received := received + [messages[0]];
        messages := messages[1..];
      }
    }

    /** Payloads accepted and not yet received. */
    method Depth() returns (n: nat)
      requires Valid()
      ensures n == |accepted| - |received| <= capacity
    {
      n := |messages|;
    }

    /** What other callers may do between two calls of one thread. */
    method LetOthersRun()
      requires Valid()
      modifies this
      ensures Valid() && old(accepted) <= accepted && old(received) <= received && old(refused) <= refused
      ensures |accepted| - |old(accepted)| == foreignAccepted - old(foreignAccepted)
      ensures refused - old(refused) == foreignRefused - old(foreignRefused)
      ensures |received| - |old(received)| == foreignReceived - old(foreignReceived)
    {
    }
  }

  // ---------- the producer ----------

  class ObservedQueueProducer {
    const queue: InMemoryQueue
    const successes: Counter.InMemoryCounterState
    const failures: Counter.InMemoryCounterState

    constructor (queue: InMemoryQueue, successes: Counter.InMemoryCounterState, failures: Counter.InMemoryCounterState)
      ensures this.queue == queue && this.successes == successes && this.failures == failures
    {
      this.queue, this.successes, this.failures := queue, successes, failures;
    }

    /**
     Sends, then counts, while other threads send, receive and count at any point. An accepted payload
     takes a place `at` behind all accepted before the call; a refused one is a refusal. The call adds
     nothing else to what others send and receive: one acceptance or one refusal, as it reports. The
     counter of the outcome gets one more than other calls add, unless it is at its limit, and the
     other counter gets only what other calls add.
     */
    method SendObserved(payload: Payload) returns (r: SendResult, ghost at: nat)
      requires successes != failures && queue.Valid()
      requires successes.value <= Counter.U64_MAX && failures.value <= Counter.U64_MAX
      modifies queue, successes, failures
      ensures queue.Valid() && old(queue.accepted) <= queue.accepted
      ensures r.Accepted? ==> |old(queue.accepted)| <= at < |queue.accepted| && queue.accepted[at] == payload
      ensures r.Full? ==> r.capacity == queue.capacity
      ensures |queue.accepted| - |old(queue.accepted)|
           == queue.foreignAccepted - old(queue.foreignAccepted) + if r.Accepted? then 1 else 0
      ensures queue.refused - old(queue.refused)
           == queue.foreignRefused - old(queue.foreignRefused) + if r.Full? then 1 else 0
      ensures |queue.received| - |old(queue.received)| == queue.foreignReceived - old(queue.foreignReceived)
      ensures Counted(old(successes.value), old(successes.foreign), successes.value, successes.foreign, r.Accepted?)
      ensures Counted(old(failures.value), old(failures.foreign), failures.value, failures.foreign, r.Full?)
    {
      queue.LetOthersRun();
      at := |queue.accepted|;
      r := queue.Send(payload);
      queue.LetOthersRun();
      match r {
        case Accepted =>
          failures.Interfere();
          var _ := successes.Increment(1);
        case Full(_) =>
          successes.Interfere();
          var _ := failures.Increment(1);
      }
      queue.LetOthersRun();
    }
  }

  /** A counter moved by what others added, and by one more if `mine`, unless it is at its limit. */
  predicate Counted(value: nat, foreign: nat, value': nat, foreign': nat, mine: bool) {
    var own := (value' - value) - (foreign' - foreign);
    if mine then own == 1 || (own == 0 && value' == Counter.U64_MAX) else own == 0
  }

  function AtMost(limit: nat, n: int): int {
    if n <= limit then n else limit
  }

  // ---------- many calls at once ----------

  /**
   A `send_observed` call sends in one step and counts in a later one; between the two its thread
   is in `countingAccepted` or `countingFull`. `accepted` and `received` record payloads in order;
   `fulls` counts refused sends.
   */
  datatype State = State(
    capacity: nat,
    messages: seq<Payload>,
    successes: nat,
    failures: nat,
    countingAccepted: set<Thread>,
    countingFull: set<Thread>,
    accepted: seq<Payload>,
    received: seq<Payload>,
    fulls: nat)

  function Start(capacity: nat): State {
    State(capacity, [], 0, 0, {}, {}, [], [], 0)
  }

  datatype Action =
    | SendOne(thread: Thread, payload: Payload)
    | CountSuccess(thread: Thread)
    | CountFailure(thread: Thread)
    | Receive

  predicate Enabled(s: State, a: Action) {
    match a
    case SendOne(t, _) => t !in s.countingAccepted && t !in s.countingFull
    case CountSuccess(t) => t in s.countingAccepted
    case CountFailure(t) => t in s.countingFull
    case Receive => true
  }

  /** `increment(1)` at its linearization point: an overflow leaves the counter alone. */
  function Bump(counter: nat): nat {
    match Counter.CheckedAdd(counter, 1)
    case None => counter
    case Some(next) => next
  }

  function Apply(s: State, a: Action): State
    requires Enabled(s, a)
  {
    match a
    case SendOne(t, payload) =>
      if |s.messages| >= s.capacity then s.(countingFull := s.countingFull + {t}, fulls := s.fulls + 1)
      else s.(messages := s.messages + [payload], accepted := s.accepted + [payload],
              countingAccepted := s.countingAccepted + {t})
    case CountSuccess(t) =>
      s.(successes := Bump(s.successes), countingAccepted := s.countingAccepted - {t})
    case CountFailure(t) =>
      s.(failures := Bump(s.failures), countingFull := s.countingFull - {t})
    case Receive =>
      if s.messages == [] then s
      else s.(messages := s.messages[1..], received := s.received + [s.messages[0]])
  }

  /** Nothing is lost or invented, and the counters lag by the calls between send and increment. */
  predicate Conserved(s: State) {
    && s.accepted == s.received + s.messages
    && |s.messages| <= s.capacity
    && |s.countingAccepted| <= |s.accepted| && |s.countingFull| <= s.fulls
    && s.successes == AtMost(Counter.U64_MAX, |s.accepted| - |s.countingAccepted|)
    && s.failures == AtMost(Counter.U64_MAX, s.fulls - |s.countingFull|)
  }

  lemma SendConserves(s: State, t: Thread, payload: Payload)
    requires Conserved(s) && Enabled(s, SendOne(t, payload))
    ensures Conserved(Apply(s, SendOne(t, payload)))
  {
    if |s.messages| >= s.capacity {
      assert |s.countingFull + {t}| == |s.countingFull| + 1;
    } else {
      assert |s.countingAccepted + {t}| == |s.countingAccepted| + 1;
      assert s.received + s.messages + [payload] == s.received + (s.messages + [payload]);
    }
  }

  lemma CountConserves(s: State, t: Thread)
    requires Conserved(s)
    ensures t in s.countingAccepted ==> Conserved(Apply(s, CountSuccess(t)))
    ensures t in s.countingFull ==> Conserved(Apply(s, CountFailure(t)))
  {
    if t in s.countingAccepted {
      assert |s.countingAccepted - {t}| == |s.countingAccepted| - 1;
    }
    if t in s.countingFull {
      assert |s.countingFull - {t}| == |s.countingFull| - 1;
    }
  }

  lemma ReceiveConserves(s: State)
    requires Conserved(s)
    ensures Conserved(Apply(s, Receive))
  {
    if s.messages != [] {
      assert s.messages == [s.messages[0]] + s.messages[1..];
      assert s.received + ([s.messages[0]] + s.messages[1..]) == s.received + [s.messages[0]] + s.messages[1..];
    }
  }

  lemma ActionConserves(s: State, a: Action)
    requires Conserved(s) && Enabled(s, a)
    ensures Conserved(Apply(s, a)) && Apply(s, a).capacity == s.capacity
  {
    match a
    case SendOne(t, payload) => SendConserves(s, t, payload);
    case CountSuccess(t) => CountConserves(s, t);
    case CountFailure(t) => CountConserves(s, t);
    case Receive => ReceiveConserves(s);
  }

  /** No caller ever waits: a thread can count what it sent, or else send; receiving is always possible. */
  lemma CallersNeverBlock(s: State, t: Thread, payload: Payload)
    ensures Enabled(s, Receive)
    ensures Enabled(s, CountSuccess(t)) || Enabled(s, CountFailure(t)) || Enabled(s, SendOne(t, payload))
  {
  }

  predicate CanRun(s: State, run: seq<Action>)
    decreases |run|
  {
    run == [] || (Enabled(s, run[0]) && CanRun(Apply(s, run[0]), run[1..]))
  }

  function After(s: State, run: seq<Action>): State
    requires CanRun(s, run)
    decreases |run|
  {
    if run == [] then s else After(Apply(s, run[0]), run[1..])
  }

  lemma {:induction false} RunConserves(s: State, run: seq<Action>)
    requires Conserved(s) && CanRun(s, run)
    ensures Conserved(After(s, run)) && After(s, run).capacity == s.capacity
    decreases |run|
  {
    if run != [] {
      ActionConserves(s, run[0]);
      RunConserves(Apply(s, run[0]), run[1..]);
    }
  }

  /**
   In every interleaving of producers and consumers: payloads are received in the order they were
   accepted, the depth never exceeds the capacity, and once no call is between its send and its
   increment the counters tell the outcomes, up to the 64-bit limit.
   */
  lemma OutcomesAreConserved(capacity: nat, run: seq<Action>)
    requires CanRun(Start(capacity), run)
    ensures var s := After(Start(capacity), run);
      && s.accepted == s.received + s.messages
      && |s.messages| <= capacity
      && s.successes == AtMost(Counter.U64_MAX, |s.accepted| - |s.countingAccepted|)
      && s.failures == AtMost(Counter.U64_MAX, s.fulls - |s.countingFull|)
  {
    RunConserves(Start(capacity), run);
  }
}
