/**
 The in-memory counter: a compare-exchange retry loop over a checked 64-bit addition, first as one
 method running against arbitrary interference, then for any number of threads.
 */
module Counter {
  import opened Wrappers

  const U64_MAX: nat := 0xFFFF_FFFF_FFFF_FFFF

  datatype IncrementResult = Updated(value: nat) | Overflow(current: nat, attempted: nat)

  /** `checked_add` on `u64`. */
  function CheckedAdd(a: nat, b: nat): Option<nat> {
    if a + b <= U64_MAX then Some(a + b) else None
  }

  // ---------- one call against interference ----------

  class InMemoryCounterState {
    var value: nat
    ghost var foreign: nat  // what other callers have added

    constructor ()
      ensures value == 0 && foreign == 0
    {
      value, foreign := 0, 0;
    }

    /** What other callers may do between two atomic accesses of this one. */
    method Interfere()
      requires value <= U64_MAX
      modifies this
      ensures old(value) <= value <= U64_MAX
      ensures value - old(value) == foreign - old(foreign)
    {
      var later: nat :| value <= later <= U64_MAX;
      foreign := foreign + (later - value);
      value := later;
    }

    method Load() returns (current: nat)
      requires value <= U64_MAX
      modifies this
      ensures old(value) <= value <= U64_MAX && current == value
      ensures value - old(value) == foreign - old(foreign)
    {
      Interfere();
      current := value;
    }

    /** `compare_exchange`: on failure it reports the value it saw. */
    method CompareExchange(current: nat, next: nat) returns (r: Result<nat, nat>)
      requires value <= U64_MAX && current <= value && current <= next <= U64_MAX
      modifies this
      ensures old(value) <= value <= U64_MAX
      ensures r.Ok? ==> r.value == current && value == next && old(value) <= current
      ensures r.Err? ==> r.error == value != current
      ensures value - old(value) == foreign - old(foreign) + if r.Ok? then next - current else 0
    {
      Interfere();
      if value == current {
        value := next;
        r := Ok(current);
      } else {
        r := Err(value);
      }
    }

    /**
     Whatever the other callers do in between: an update adds exactly `amount` to what they add, and
     reports the value it left; an overflow adds nothing, was true when seen and stays true; the
     loop ends.
     */
    method Increment(amount: nat) returns (r: IncrementResult)
      requires value <= U64_MAX && amount <= U64_MAX
      modifies this
      ensures old(value) <= value <= U64_MAX
      ensures value - old(value) == foreign - old(foreign) + if r.Updated? then amount else 0
      ensures r.Updated? ==> r.value == value
      ensures r.Overflow? ==>
                && r.attempted == amount
                && old(value) <= r.current <= value
                && r.current + amount > U64_MAX
    {
      var current := Load();
      while true
        invariant old(value) <= current <= value <= U64_MAX
        invariant value - old(value) == foreign - old(foreign)
        decreases U64_MAX - current
      {
        var next := CheckedAdd(current, amount);
        if next.None? {
          return Overflow(current, amount);
        }
        var exchanged := CompareExchange(current, next.value);
        if exchanged.Ok? {
          return Updated(next.value);
        }
        current := exchanged.error;
      }
    }
  }

  // ---------- any number of callers ----------

  type Thread = nat

  /** Where a caller is: about to load, or holding `current`, loaded after `seen` updates. */
  datatype Call = Loading(amount: nat) | Trying(amount: nat, current: nat, seen: nat)

  /** A returned result, with the amount it was asked to add. */
  datatype Return = Return(thread: Thread, amount: nat, result: IncrementResult)

  /** `updates` are the amounts of the successful exchanges, in order; `results` all results, in order. */
  datatype State = State(value: nat, calls: map<Thread, Call>, updates: seq<nat>, results: seq<Return>)

  const INIT: State := State(0, map[], [], [])

  datatype Action = Begin(thread: Thread, amount: nat) | LoadValue(thread: Thread) | Attempt(thread: Thread)

  predicate Enabled(s: State, a: Action) {
    match a
    case Begin(t, amount) => t !in s.calls && amount <= U64_MAX
    case LoadValue(t) => t in s.calls && s.calls[t].Loading?
    case Attempt(t) => t in s.calls && s.calls[t].Trying?
  }

  function Finish(s: State, t: Thread, amount: nat, result: IncrementResult): State {
    s.(calls := s.calls - {t}, results := s.results + [Return(t, amount, result)])
  }

  function Apply(s: State, a: Action): State
    requires Enabled(s, a)
  {
    match a
    case Begin(t, amount) => s.(calls := s.calls[t := Loading(amount)])
    case LoadValue(t) => s.(calls := s.calls[t := Trying(s.calls[t].amount, s.value, |s.updates|)])
    case Attempt(t) =>
      var call := s.calls[t];
      match CheckedAdd(call.current, call.amount)
      case None => Finish(s, t, call.amount, Overflow(call.current, call.amount))
      case Some(next) =>
        if s.value == call.current then
          Finish(s.(value := next, updates := s.updates + [call.amount]), t, call.amount, Updated(next))
        else
          s.(calls := s.calls[t := Trying(call.amount, s.value, |s.updates|)])
  }

  function Sum(amounts: seq<nat>): nat {
    if amounts == [] then 0 else Sum(amounts[..|amounts| - 1]) + amounts[|amounts| - 1]
  }

  /** The amounts of the returned updates, in order. */
  function UpdatedAmounts(results: seq<Return>): seq<nat> {
    if results == [] then []
    else
      var last := results[|results| - 1];
      UpdatedAmounts(results[..|results| - 1]) + if last.result.Updated? then [last.amount] else []
  }

  lemma {:induction false} SumOfPrefix(amounts: seq<nat>, n: nat)
    requires n <= |amounts|
    ensures Sum(amounts[..n]) <= Sum(amounts)
    ensures (forall i :: n <= i < |amounts| ==> amounts[i] == 0) ==> Sum(amounts[..n]) == Sum(amounts)
    decreases |amounts|
  {
    if n < |amounts| {
      var front := amounts[..|amounts| - 1];
      SumOfPrefix(front, n);
      assert front[..n] == amounts[..n];
    } else {
      assert amounts[..n] == amounts;
    }
  }

  /** A call in the loop holds the value left by the first `seen` updates. */
  predicate CallFits(s: State, call: Call) {
    && call.amount <= U64_MAX
    && (call.Trying? ==> call.seen <= |s.updates| && call.current == Sum(s.updates[..call.seen]))
  }

  /** An update returned the total up to and including itself; an overflow is still one now. */
  predicate ReturnFits(s: State, k: nat)
    requires k < |s.results|
  {
    match s.results[k].result
    case Updated(value) => value == Sum(UpdatedAmounts(s.results[..k + 1]))
    case Overflow(current, attempted) =>
      attempted == s.results[k].amount && current <= s.value && current + attempted > U64_MAX
  }

  ghost predicate Inv(s: State) {
    && s.value == Sum(s.updates) <= U64_MAX
    && s.updates == UpdatedAmounts(s.results)
    && (forall t :: t in s.calls ==> CallFits(s, s.calls[t]))
    && (forall k :: 0 <= k < |s.results| ==> ReturnFits(s, k))
  }

  lemma CallStillFits(s: State, s': State, call: Call)
    requires CallFits(s, call) && s.updates <= s'.updates
    ensures CallFits(s', call)
  {
    if call.Trying? {
      assert s'.updates[..call.seen] == s.updates[..call.seen];
    }
  }

  lemma ReturnStillFits(s: State, s': State, k: nat)
    requires k < |s.results| && ReturnFits(s, k) && s.results <= s'.results && s.value <= s'.value
    ensures ReturnFits(s', k)
  {
    assert s'.results[..k + 1] == s.results[..k + 1];
  }

  lemma OneMoreUpdate(updates: seq<nat>, amount: nat, results: seq<Return>, last: Return)
    requires updates == UpdatedAmounts(results) && last.result.Updated? && last.amount == amount
    ensures Sum(updates + [amount]) == Sum(updates) + amount
    ensures UpdatedAmounts(results + [last]) == updates + [amount]
  {
    assert (updates + [amount])[..|updates|] == updates;
    assert (results + [last])[..|results|] == results;
  }

  lemma UpdateKeepsInv(s: State, t: Thread)
    requires Inv(s) && Enabled(s, Attempt(t)) && s.value == s.calls[t].current
    requires s.value + s.calls[t].amount <= U64_MAX
    ensures Inv(Apply(s, Attempt(t)))
  {
    var amount := s.calls[t].amount;
    var last := Return(t, amount, Updated(s.value + amount));
    var s' := Finish(s.(value := s.value + amount, updates := s.updates + [amount]), t, amount,
                     Updated(s.value + amount));
    assert Apply(s, Attempt(t)) == s';
    OneMoreUpdate(s.updates, amount, s.results, last);
    CallsStillFit(s, s');
    ReturnsStillFit(s, s', last);
  }

  lemma CallsStillFit(s: State, s': State)
    requires Inv(s) && s.updates <= s'.updates
    requires forall u :: u in s'.calls ==> u in s.calls && s'.calls[u] == s.calls[u]
    ensures forall u :: u in s'.calls ==> CallFits(s', s'.calls[u])
  {
    forall u | u in s'.calls
      ensures CallFits(s', s'.calls[u])
    {
      CallStillFits(s, s', s.calls[u]);
    }
  }

  lemma ReturnsStillFit(s: State, s': State, last: Return)
    requires Inv(s) && s.value <= s'.value && s'.results == s.results + [last]
    requires last.result.Updated? && last.result.value == Sum(UpdatedAmounts(s'.results))
    ensures forall k :: 0 <= k < |s'.results| ==> ReturnFits(s', k)
  {
    forall k | 0 <= k < |s'.results|
      ensures ReturnFits(s', k)
    {
      if k < |s.results| {
        assert ReturnFits(s, k);
        ReturnStillFits(s, s', k);
      } else {
        assert s'.results[..k + 1] == s'.results;
      }
    }
  }

  lemma OverflowKeepsInv(s: State, t: Thread)
    requires Inv(s) && Enabled(s, Attempt(t)) && s.calls[t].current + s.calls[t].amount > U64_MAX
    ensures Inv(Apply(s, Attempt(t)))
  {
    var s', call := Apply(s, Attempt(t)), s.calls[t];
    assert CallFits(s, call);
    SumOfPrefix(s.updates, call.seen);
    assert s'.results[..|s.results|] == s.results;
    forall u | u in s'.calls
      ensures CallFits(s', s'.calls[u])
    {
      assert CallFits(s, s.calls[u]);
    }
    forall k | 0 <= k < |s'.results|
      ensures ReturnFits(s', k)
    {
      if k < |s.results| {
        assert ReturnFits(s, k) && s'.results[..k + 1] == s.results[..k + 1];
      }
    }
  }

  lemma ReloadKeepsInv(s: State, t: Thread, s': State)
    requires Inv(s) && t in s.calls
    requires s' == s.(calls := s.calls[t := Trying(s.calls[t].amount, s.value, |s.updates|)])
    ensures Inv(s')
  {
    assert s.updates[..|s.updates|] == s.updates;
    assert CallFits(s, s.calls[t]);
    forall u | u in s'.calls
      ensures CallFits(s', s'.calls[u])
    {
      if u != t {
        assert CallFits(s, s.calls[u]);
      }
    }
    forall k | 0 <= k < |s'.results|
      ensures ReturnFits(s', k)
    {
      assert ReturnFits(s, k);
    }
  }

  /** Every action of every caller keeps the invariant. */
  lemma ActionKeepsInv(s: State, a: Action)
    requires Inv(s) && Enabled(s, a)
    ensures Inv(Apply(s, a)) && s.value <= Apply(s, a).value
  {
    match a
    case Begin(t, amount) =>
      var s' := Apply(s, a);
      forall u | u in s'.calls
        ensures CallFits(s', s'.calls[u])
      {
        if u != t {
          assert CallFits(s, s.calls[u]);
        }
      }
      forall k | 0 <= k < |s'.results|
        ensures ReturnFits(s', k)
      {
        assert ReturnFits(s, k);
      }
    case LoadValue(t) => ReloadKeepsInv(s, t, Apply(s, a));
    case Attempt(t) =>
      if s.calls[t].current + s.calls[t].amount > U64_MAX {
        OverflowKeepsInv(s, t);
      } else if s.value == s.calls[t].current {
        UpdateKeepsInv(s, t);
      } else {
        ReloadKeepsInv(s, t, Apply(s, a));
      }
  }

  predicate CanRun(s: State, run: seq<Action>)
    decreases |run|
  {
    run == [] || (Enabled(s, run[0]) && CanRun(Apply(s, run[0]), run[1..]))
  }

  function After(s: State, run: seq<Action>): State
    requires CanRun(s, run)
    decreases |run|
  {
    if run == [] then s else After(Apply(s, run[0]), run[1..])
  }

  lemma {:induction false} RunKeepsInv(s: State, run: seq<Action>)
    requires Inv(s) && CanRun(s, run)
    ensures Inv(After(s, run)) && s.value <= After(s, run).value
    decreases |run|
  {
    if run != [] {
      ActionKeepsInv(s, run[0]);
      RunKeepsInv(Apply(s, run[0]), run[1..]);
    }
  }

  /** In every run the value is the sum of the amounts reported as updated, and never overflows. */
  lemma NoIncrementIsLost(run: seq<Action>)
    requires CanRun(INIT, run)
    ensures var s := After(INIT, run);
      s.value == Sum(UpdatedAmounts(s.results)) && s.value <= U64_MAX
  {
    RunKeepsInv(INIT, run);
  }

  /** Each reported update is the total at its place in the order of updates. */
  lemma UpdatesAreLinearized(run: seq<Action>, k: nat)
    requires CanRun(INIT, run) && k < |After(INIT, run).results|
    requires After(INIT, run).results[k].result.Updated?
    ensures var results := After(INIT, run).results;
      results[k].result.value == Sum(UpdatedAmounts(results[..k])) + results[k].amount
  {
    RunKeepsInv(INIT, run);
    var s := After(INIT, run);
    assert ReturnFits(s, k);
    assert s.results[..k + 1][..k] == s.results[..k];
  }

  /** A reported overflow remains an overflow in every later state. */
  lemma OverflowStaysTrue(run: seq<Action>, k: nat)
    requires CanRun(INIT, run) && k < |After(INIT, run).results|
    requires After(INIT, run).results[k].result.Overflow?
    ensures var s := After(INIT, run);
      s.value + s.results[k].amount > U64_MAX && s.results[k].result.current <= s.value
  {
    RunKeepsInv(INIT, run);
    assert ReturnFits(After(INIT, run), k);
  }

  lemma {:induction false} SomePositive(amounts: seq<nat>, n: nat)
    requires n <= |amounts| && Sum(amounts[..n]) != Sum(amounts)
    ensures exists i :: n <= i < |amounts| && amounts[i] > 0
  {
    SumOfPrefix(amounts, n);
  }

  /**
   A retry happens only because some other call completed a positive update since the last look,
   and it continues with a strictly larger value: no ABA, and a bound on the retries.
   */
  lemma RetryMeansProgressElsewhere(run: seq<Action>, t: Thread)
    requires CanRun(INIT, run)
    requires var s := After(INIT, run);
      Enabled(s, Attempt(t)) && t in Apply(s, Attempt(t)).calls
    ensures var s, s' := After(INIT, run), Apply(After(INIT, run), Attempt(t));
      && s'.calls[t].Trying?
      && s.calls[t].current < s'.calls[t].current <= U64_MAX
      && exists i :: s.calls[t].seen <= i < |s.updates| && s.updates[i] > 0
  {
    var s := After(INIT, run);
    RunKeepsInv(INIT, run);
    assert CallFits(s, s.calls[t]);
    SumOfPrefix(s.updates, s.calls[t].seen);
    SomePositive(s.updates, s.calls[t].seen);
  }
}
