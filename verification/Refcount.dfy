/** Reference counts: one counter under a lock, and the lock-free one, whose loads and weak
    compare-and-swaps any number of threads interleave. */
module Refcount {
  import opened Wrappers

  const MAX: nat := 0xFFFF_FFFF

  // ---------------------------------------------------------------- the locked counter

  function Incremented(count: nat): nat {
    if count < MAX then count + 1 else count
  }

  function Decremented(count: nat): nat
    requires count > 0
  {
    if count < MAX then count - 1 else count
  }

  class LockedCount {
    var count: nat

    constructor (count: nat)
      ensures this.count == count
    {
      this.count := count;
    }

    method Inc()
      modifies this
      ensures count == Incremented(old(count))
    {
      if count < MAX {
        count := count + 1;
      }
    }

    /** Decrementing zero aborts the process. */
    method DecAndTestZero() returns (zero: bool)
      requires count != 0
      modifies this
      ensures count == Decremented(old(count)) && zero == (count == 0)
    {
      if count < MAX {
        count := count - 1;
      }
      zero := count == 0;
    }
  }

  // ---------------------------------------------------------------- the lock-free counter

  /** Where a thread is: outside, before the first load, or before a compare-and-swap with the
      value it last saw. */
  datatype Thread = Idle | IncLoad | IncSwap(expected: nat) | DecLoad | DecSwap(expected: nat) | Aborted

  /** The shared counter, the threads, and how many references each holds. A reference being
      dropped is no longer held. */
  datatype State = State(count: nat, threads: seq<Thread>, held: seq<nat>)

  /** What the scheduler lets thread t do next: call an operation, or take one atomic step, in
      which a compare-and-swap may fail spuriously, or hand one of its references to another thread. */
  datatype Action = CallInc(t: nat) | CallDec(t: nat) | Run(t: nat, spurious: bool) | Give(t: nat, to: nat)

  /** What a step completes. */
  datatype Event = Nothing | Inc | Dec(zero: bool) | Abort

  datatype Outcome = Outcome(state: State, event: Event)

  predicate Wf(s: State) {
    |s.threads| == |s.held| && s.count <= MAX
  }

  /** Going round the loop of CRYPTO_refcount_inc with a value just loaded. */
  function IncLoop(s: State, t: nat): Outcome
    requires Wf(s) && t < |s.threads|
  {
    if s.count == MAX then Outcome(s.(threads := s.threads[t := Idle], held := s.held[t := s.held[t] + 1]), Inc)
    else Outcome(s.(threads := s.threads[t := IncSwap(s.count)]), Nothing)
  }

  /** Going round the loop of CRYPTO_refcount_dec_and_test_zero with a value just loaded. */
  function DecLoop(s: State, t: nat): Outcome
    requires Wf(s) && t < |s.threads|
  {
    if s.count == 0 then Outcome(s.(threads := s.threads[t := Aborted]), Abort)
    else if s.count == MAX then Outcome(s.(threads := s.threads[t := Idle]), Dec(false))
    else Outcome(s.(threads := s.threads[t := DecSwap(s.count)]), Nothing)
  }

  /** A reference changes hands. */
  function Handed(held: seq<nat>, t: nat, to: nat): seq<nat>
    requires t < |held| && to < |held| && held[t] > 0
  {
    var taken := held[t := held[t] - 1];
    taken[to := taken[to] + 1]
  }

  /** A thread calls only while idle and holding a reference; dropping one gives it up. A failed
      compare-and-swap loads the counter. */
  function Step(s: State, a: Action): Outcome
    requires Wf(s)
  {
    if a.t >= |s.threads| then Outcome(s, Nothing)
    else
      match (a, s.threads[a.t])
      case (CallInc(t), Idle) =>
        if s.held[t] == 0 then Outcome(s, Nothing) else Outcome(s.(threads := s.threads[t := IncLoad]), Nothing)
      case (CallDec(t), Idle) =>
        if s.held[t] == 0 then Outcome(s, Nothing)
        else Outcome(s.(threads := s.threads[t := DecLoad], held := s.held[t := s.held[t] - 1]), Nothing)
      case (Give(t, to), Idle) =>
        if s.held[t] == 0 || to >= |s.held| then Outcome(s, Nothing)
        else Outcome(s.(held := Handed(s.held, t, to)), Nothing)
      case (Run(t, _), IncLoad) => IncLoop(s, t)
      case (Run(t, spurious), IncSwap(expected)) =>
        if s.count == expected && !spurious then
          Outcome(State(expected + 1, s.threads[t := Idle], s.held[t := s.held[t] + 1]), Inc)
        else IncLoop(s, t)
      case (Run(t, _), DecLoad) => DecLoop(s, t)
      case (Run(t, spurious), DecSwap(expected)) =>
        if s.count == expected && !spurious && expected > 0 then
          Outcome(State(expected - 1, s.threads[t := Idle], s.held), Dec(expected - 1 == 0))
        else DecLoop(s, t)
      case _ => Outcome(s, Nothing)
  }

  /** The values a thread waits to swap are never the saturated one, and never zero on the way
      down. */
  predicate Sane(s: State) {
    && Wf(s)
    && forall t :: 0 <= t < |s.threads| ==> ThreadSane(s.threads[t])
  }

  predicate ThreadSane(th: Thread) {
    match th
    case IncSwap(e) => e < MAX
    case DecSwap(e) => 0 < e < MAX
    case _ => true
  }

  /** What an event makes of the locked counter, if the locked counter can show it. */
  function LockedStep(count: nat, e: Event): Option<nat> {
    match e
    case Nothing => Some(count)
    case Inc => Some(Incremented(count))
    case Dec(zero) => if count > 0 && zero == (Decremented(count) == 0) then Some(Decremented(count)) else None
    case Abort => if count == 0 then Some(0) else None
  }

  /** Every atomic step of the lock-free counter is a step of the locked counter or none. */
  lemma StepRefines(s: State, a: Action)
    requires Sane(s)
    ensures Sane(Step(s, a).state) && LockedStep(s.count, Step(s, a).event) == Some(Step(s, a).state.count)
  {
    var o := Step(s, a);
    if a.t < |s.threads| {
      assert ThreadSane(s.threads[a.t]);
      forall t | 0 <= t < |o.state.threads|
        ensures ThreadSane(o.state.threads[t])
      {
        assert t != a.t ==> o.state.threads[t] == s.threads[t];
      }
    }
  }

  // ---------------------------------------------------------------- whole runs

  /** The state after a run. */
  function After(s: State, actions: seq<Action>): State
    requires Sane(s)
    ensures Sane(After(s, actions))
  {
    if actions == [] then s
    else
      var n := |actions| - 1;
      StepRefines(After(s, actions[..n]), actions[n]);
      Step(After(s, actions[..n]), actions[n]).state
  }

  /** The events of a run, in order. */
  function Trace(s: State, actions: seq<Action>): seq<Event>
    requires Sane(s)
  {
    if actions == [] then []
    else
      var n := |actions| - 1;
      Trace(s, actions[..n]) + [Step(After(s, actions[..n]), actions[n]).event]
  }

  /** Where the locked counter gets through these events, if it can. */
  function LockedRun(count: nat, events: seq<Event>): Option<nat> {
    if events == [] then Some(count)
    else
      match LockedRun(count, events[..|events| - 1])
      case None => None
      case Some(mid) => LockedStep(mid, events[|events| - 1])
  }

  /** Refinement: under any interleaving, with any spurious failures, the completed operations
      are a run of the locked counter, with the same results. */
  lemma {:induction false} RefinesLocked(s: State, actions: seq<Action>)
    requires Sane(s)
    ensures LockedRun(s.count, Trace(s, actions)) == Some(After(s, actions).count)
  {
    if actions != [] {
      var n := |actions| - 1;
      RefinesLocked(s, actions[..n]);
      StepRefines(After(s, actions[..n]), actions[n]);
      var tr := Trace(s, actions);
      assert tr[..|tr| - 1] == Trace(s, actions[..n]);
    }
  }

  /** Once saturated, always saturated. */
  lemma {:induction false} StaysSaturated(s: State, actions: seq<Action>)
    requires Sane(s) && s.count == MAX
    ensures After(s, actions).count == MAX
  {
    if actions != [] {
      var n := |actions| - 1;
      StaysSaturated(s, actions[..n]);
      StepRefines(After(s, actions[..n]), actions[n]);
    }
  }

  function Count(events: seq<Event>, e: Event): nat {
    if events == [] then 0
    else Count(events[..|events| - 1], e) + if events[|events| - 1] == e then 1 else 0
  }

  // ---------------------------------------------------------------- references

  function Total(held: seq<nat>): nat {
    if held == [] then 0 else Total(held[..|held| - 1]) + held[|held| - 1]
  }

  function InFlight(threads: seq<Thread>): nat {
    if threads == [] then 0
    else
      var th := threads[|threads| - 1];
      InFlight(threads[..|threads| - 1]) + if th.DecLoad? || th.DecSwap? then 1 else 0
  }

  /** All references there are: held, or on the way to being dropped. */
  function References(s: State): nat {
    Total(s.held) + InFlight(s.threads)
  }

  lemma {:induction false} TotalUpdate(held: seq<nat>, t: nat, n: nat)
    requires t < |held|
    ensures Total(held[t := n]) == Total(held) - held[t] + n && held[t] <= Total(held)
  {
    var k := |held| - 1;
    if t == k {
      assert held[t := n][..k] == held[..k];
    } else {
      assert held[t := n][..k] == held[..k][t := n];
      TotalUpdate(held[..k], t, n);
    }
  }

  function Dropping(th: Thread): nat {
    if th.DecLoad? || th.DecSwap? then 1 else 0
  }

  lemma {:induction false} InFlightUpdate(threads: seq<Thread>, t: nat, th: Thread)
    requires t < |threads|
    ensures InFlight(threads[t := th]) == InFlight(threads) - Dropping(threads[t]) + Dropping(th)
    ensures Dropping(threads[t]) <= InFlight(threads)
  {
    var k := |threads| - 1;
    if t == k {
      assert threads[t := th][..k] == threads[..k];
    } else {
      assert threads[t := th][..k] == threads[..k][t := th];
      InFlightUpdate(threads[..k], t, th);
    }
  }

  /** The counter counts the references, no thread has aborted, and a thread that is making a new
      reference still holds the one it makes it from. */
  ghost predicate Counted(s: State) {
    Sane(s) && s.count == References(s) && forall t :: 0 <= t < |s.threads| ==> ThreadCounted(s.threads[t], s.held[t])
  }

  predicate ThreadCounted(th: Thread, held: nat) {
    !th.Aborted? && (th.IncLoad? || th.IncSwap? ==> held > 0)
  }

  lemma {:induction false} TotalHanded(held: seq<nat>, t: nat, to: nat)
    requires t < |held| && to < |held| && held[t] > 0
    ensures Total(Handed(held, t, to)) == Total(held)
  {
    var taken := held[t := held[t] - 1];
    TotalUpdate(held, t, held[t] - 1);
    TotalUpdate(taken, to, taken[to] + 1);
  }

  lemma {:induction false} GiveCounts(s: State, a: Action)
    requires Counted(s) && a.Give?
    ensures Counted(Step(s, a).state) && Step(s, a).event == Nothing
  {
    if a.t < |s.threads| && s.threads[a.t].Idle? && s.held[a.t] > 0 && a.to < |s.held| {
      TotalHanded(s.held, a.t, a.to);
      var held := Handed(s.held, a.t, a.to);
      forall t | 0 <= t < |s.threads|
        ensures ThreadCounted(s.threads[t], held[t])
      {
        assert ThreadCounted(s.threads[t], s.held[t]);
      }
    }
  }

  /** Among threads that only drop references they hold, the counter keeps counting them until it
      saturates: each event moves it by one, and a decrement returns true exactly when the last
      reference is gone. */
  lemma {:induction false} StepCounts(s: State, a: Action)
    requires Counted(s)
    ensures var o := Step(s, a);
            o.state.count < MAX ==>
              && Counted(o.state) && !o.event.Abort?
              && (o.event.Dec? ==> o.event.zero == (References(o.state) == 0))
  {
    hide Handed, Total, InFlight;
    var o := Step(s, a);
    StepRefines(s, a);
    if a.t < |s.threads| {
      if a.Give? {
        GiveCounts(s, a);
        return;
      }
      TotalUpdate(s.held, a.t, o.state.held[a.t]);
      InFlightUpdate(s.threads, a.t, o.state.threads[a.t]);
      assert ThreadCounted(s.threads[a.t], s.held[a.t]) && ThreadSane(s.threads[a.t]);
      forall t | 0 <= t < |s.threads| && t != a.t
        ensures ThreadCounted(o.state.threads[t], o.state.held[t])
      {
        assert ThreadCounted(s.threads[t], s.held[t]);
      }
    }
  }

  /** With no references left nothing more happens. */
  lemma NoReferencesNoSteps(s: State, a: Action)
    requires Counted(s) && s.count == 0
    ensures Step(s, a).event == Nothing && Step(s, a).state.count == 0
  {
    if a.t < |s.threads| {
      TotalUpdate(s.held, a.t, 0);
      InFlightUpdate(s.threads, a.t, Idle);
      assert ThreadCounted(s.threads[a.t], s.held[a.t]);
    }
  }

  /** Below saturation the count is what it started as, plus increments, minus decrements; no
      thread aborts; and exactly one decrement, the last, returned true if no reference is left,
      none otherwise. */
  lemma {:induction false} ExactlyOneZero(s: State, actions: seq<Action>)
    requires Counted(s) && s.count > 0 && After(s, actions).count < MAX
    ensures var tr := Trace(s, actions);
            && Counted(After(s, actions)) && Count(tr, Abort) == 0
            && After(s, actions).count == s.count + Count(tr, Inc) - Count(tr, Dec(false)) - Count(tr, Dec(true))
            && Count(tr, Dec(true)) == if After(s, actions).count == 0 then 1 else 0
  {
    hide Step, After;
    AfterUnfolds(s, actions);
    if actions != [] {
      var n := |actions| - 1;
      var before := After(s, actions[..n]);
      StepRefines(before, actions[n]);
      ExactlyOneZero(s, actions[..n]);
      StepCounts(before, actions[n]);
      if before.count == 0 {
        NoReferencesNoSteps(before, actions[n]);
      }
      var tr := Trace(s, actions);
      assert tr[..|tr| - 1] == Trace(s, actions[..n]);
      CountedCounts(before);
      CountedCounts(After(s, actions));
    }
  }

  lemma AfterUnfolds(s: State, actions: seq<Action>)
    requires Sane(s)
    ensures After(s, actions) ==
            if actions == [] then s
            else Step(After(s, actions[..|actions| - 1]), actions[|actions| - 1]).state
  {
  }

  lemma CountedCounts(s: State)
    requires Counted(s)
    ensures s.count == References(s)
  {
  }
}
