/** `ScanBytes::try_reserve`, file_manager.rs: any number of threads reserve
    bytes from one shared budget with a weak compare-exchange loop. */
module ScanBytes {
  import opened Text
  import opened Counting

  const U64_MAX: nat := 0xFFFF_FFFF_FFFF_FFFF

  function SaturatingAdd(a: nat, b: nat): nat { if a + b > U64_MAX then U64_MAX else a + b }

  // `cur + n` on u64.
  function WrappingAdd(a: nat, b: nat): nat { (a + b) % (U64_MAX + 1) }

  type ThreadId = nat

  datatype Phase =
    | Idle
    | Called(n: nat)
    | Loaded(n: nat, cur: nat)  // about to test and exchange from `cur`

  // `accepted` is what this thread's accepted reservations add up to.
  datatype Thread = Thread(phase: Phase, accepted: nat)

  datatype State = State(counter: nat, threads: map<ThreadId, Thread>)

  predicate Init(s: State) {
    s.counter == 0 && forall t :: t in s.threads ==> s.threads[t] == Thread(Idle, 0)
  }

  function Move(s: State, t: ThreadId, phase: Phase): State
    requires t in s.threads
  {
    s.(threads := s.threads[t := s.threads[t].(phase := phase)])
  }

  datatype Step =
    | Call(n: nat)
    | ReturnUnlimited
    | Load(seen: nat)
    | Reject
    | Exchange
    | ExchangeFails(seen: nat)

  // One step of thread `t`, when it can take it. A relaxed load may return any
  // value the counter has held, never a later one; a weak exchange may fail
  // although the counter is unchanged.
  function Do(s: State, t: ThreadId, step: Step, max: nat): Option<State> {
    if t !in s.threads then None else
    match (step, s.threads[t].phase)
    case (Call(n), Idle) => if n <= U64_MAX then Some(Move(s, t, Called(n))) else None
    case (ReturnUnlimited, Called(n)) => if max == 0 then Some(Move(s, t, Idle)) else None
    case (Load(seen), Called(n)) => if max > 0 && seen <= s.counter then Some(Move(s, t, Loaded(n, seen))) else None
    case (Reject, Loaded(n, cur)) => if SaturatingAdd(cur, n) > max then Some(Move(s, t, Idle)) else None
    case (Exchange, Loaded(n, cur)) =>
      if SaturatingAdd(cur, n) <= max && s.counter == cur
      then Some(State(WrappingAdd(cur, n), s.threads[t := Thread(Idle, s.threads[t].accepted + n)]))
      else None
    case (ExchangeFails(seen), Loaded(n, cur)) =>
      if SaturatingAdd(cur, n) <= max && seen <= s.counter then Some(Move(s, t, Loaded(n, seen))) else None
    case _ => None
  }

  function Accepted(s: State): map<ThreadId, nat> { map t | t in s.threads :: s.threads[t].accepted }

  ghost function Reserved(s: State): nat { Sum(Accepted(s)) }

  ghost predicate Inv(s: State, max: nat) {
    && s.counter == Reserved(s) <= max
    && forall t :: t in s.threads && s.threads[t].phase.Loaded? ==> s.threads[t].phase.cur <= s.counter
  }

  lemma ReservedChanges(s: State, s': State, t: ThreadId)
    requires t in s.threads && t in s'.threads && s'.threads == s.threads[t := s'.threads[t]]
    ensures Reserved(s') == Reserved(s) - s.threads[t].accepted + s'.threads[t].accepted
  {
    assert Accepted(s') == Accepted(s)[t := s'.threads[t].accepted];
    SumUpdate(Accepted(s), t, s'.threads[t].accepted);
  }

  lemma InitInv(s: State, max: nat)
    requires Init(s)
    ensures Inv(s, max)
  {
    SumPositive(Accepted(s));
  }

  // One step of one thread. The exchange never overflows, and a refusal is
  // right at the moment it is made, however stale the value it was judged on.
  lemma DoInv(s: State, t: ThreadId, step: Step, max: nat)
    requires 0 < max < U64_MAX && Inv(s, max) && Do(s, t, step, max).Some?
    ensures Inv(Do(s, t, step, max).value, max) && s.counter <= Do(s, t, step, max).value.counter
    ensures step.Exchange? ==> s.threads[t].phase.cur + s.threads[t].phase.n <= max
    ensures step.Reject? ==> s.counter + s.threads[t].phase.n > max
  {
    ReservedChanges(s, Do(s, t, step, max).value, t);
  }

  // Where a schedule of steps leads, if every step of it can be taken.
  function After(s: State, schedule: seq<(ThreadId, Step)>, max: nat): Option<State>
    decreases |schedule|
  {
    if schedule == [] then Some(s)
    else
      match Do(s, schedule[0].0, schedule[0].1, max)
      case None => None
      case Some(s1) => After(s1, schedule[1..], max)
  }

  lemma {:induction false} AfterInv(s: State, schedule: seq<(ThreadId, Step)>, max: nat)
    requires 0 < max < U64_MAX && Inv(s, max) && After(s, schedule, max).Some?
    ensures Inv(After(s, schedule, max).value, max)
    decreases |schedule|
  {
    if schedule != [] {
      DoInv(s, schedule[0].0, schedule[0].1, max);
      AfterInv(Do(s, schedule[0].0, schedule[0].1, max).value, schedule[1..], max);
    }
  }

  lemma AfterStep(s: State, t: ThreadId, step: Step, s1: State, rest: seq<(ThreadId, Step)>, max: nat)
    requires Do(s, t, step, max) == Some(s1)
    ensures After(s, [(t, step)] + rest, max) == After(s1, rest, max)
  {
  }

  // A thread that runs alone has its reservation accepted when it fits.
  lemma ReservesAlone(counter: nat, accepted: nat, n: nat, rest: seq<(ThreadId, Step)>, max: nat)
    requires 0 < max && n <= U64_MAX && SaturatingAdd(counter, n) <= max
    ensures After(State(counter, map[0 := Thread(Idle, accepted)]),
                  [(0, Call(n))] + ([(0, Load(counter))] + ([(0, Exchange)] + rest)), max)
         == After(State(WrappingAdd(counter, n), map[0 := Thread(Idle, accepted + n)]), rest, max)
  {
    var idle, called := map[0 := Thread(Idle, accepted)], map[0 := Thread(Called(n), accepted)];
    var loaded, done := map[0 := Thread(Loaded(n, counter), accepted)], map[0 := Thread(Idle, accepted + n)];
    assert idle[0 := called[0]] == called && called[0 := loaded[0]] == loaded && loaded[0 := done[0]] == done;
    AfterStep(State(counter, idle), 0, Call(n), State(counter, called),
              [(0, Load(counter))] + ([(0, Exchange)] + rest), max);
    AfterStep(State(counter, called), 0, Load(counter), State(counter, loaded), [(0, Exchange)] + rest, max);
    AfterStep(State(counter, loaded), 0, Exchange, State(WrappingAdd(counter, n), done), rest, max);
  }

  // ---- Every call ends -----------------------------------------------------------

  // Where a call with n bytes leaves the state when nothing else runs meanwhile:
  // without a limit nothing is counted, and under one the bytes are counted
  // exactly when they fit.
  ghost function Settled(s: State, t: ThreadId, n: nat, max: nat): State
    requires t in s.threads
  {
    if max > 0 && s.counter + n <= max then
      State(s.counter + n, s.threads[t := Thread(Idle, s.threads[t].accepted + n)])
    else
      Move(s, t, Idle)
  }

  ghost predicate Alone(schedule: seq<(ThreadId, Step)>, t: ThreadId) {
    forall k :: 0 <= k < |schedule| ==> schedule[k].0 == t
  }

  ghost predicate Settles(s: State, t: ThreadId, n: nat, max: nat) {
    t in s.threads
    && exists schedule :: Alone(schedule, t) && After(s, schedule, max) == Some(Settled(s, t, n, max))
  }

  lemma SettlesFirst(s: State, t: ThreadId, step: Step, n: nat, max: nat)
    requires Do(s, t, step, max).Some? && Settles(Do(s, t, step, max).value, t, n, max)
    requires t in s.threads && Settled(Do(s, t, step, max).value, t, n, max) == Settled(s, t, n, max)
    ensures Settles(s, t, n, max)
  {
    hide Do;
    var s1 := Do(s, t, step, max).value;
    var rest :| Alone(rest, t) && After(s1, rest, max) == Some(Settled(s1, t, n, max));
    AfterStep(s, t, step, s1, rest, max);
    var all := [(t, step)] + rest;
    assert Alone(all, t);
  }

  lemma SettlesAtOnce(s: State, t: ThreadId, step: Step, n: nat, max: nat)
    requires t in s.threads && Do(s, t, step, max) == Some(Settled(s, t, n, max))
    ensures Settles(s, t, n, max)
  {
    hide Do;
    AfterStep(s, t, step, Settled(s, t, n, max), [], max);
    var all := [(t, step)];
    assert all == [(t, step)] + [] && Alone(all, t);
  }

  lemma MovedSettlesAlike(s: State, t: ThreadId, phase: Phase, n: nat, max: nat)
    requires t in s.threads
    ensures Settled(Move(s, t, phase), t, n, max) == Settled(s, t, n, max)
  {
    var moved, kept, taken := Move(s, t, phase), Thread(Idle, s.threads[t].accepted), s.threads[t].accepted + n;
    assert moved.threads[t := kept] == s.threads[t := kept];
    assert moved.threads[t := Thread(Idle, taken)] == s.threads[t := Thread(Idle, taken)];
  }

  // However stale the value it holds, a thread can end its call on its own.
  lemma LoadedSettles(s: State, t: ThreadId, max: nat)
    requires 0 < max < U64_MAX && Inv(s, max) && t in s.threads && s.threads[t].phase.Loaded?
    ensures Settles(s, t, s.threads[t].phase.n, max)
  {
    hide Settles, Reserved;
    var n, cur := s.threads[t].phase.n, s.threads[t].phase.cur;
    if cur + n > max {
      SettlesAtOnce(s, t, Reject, n, max);
    } else if cur == s.counter {
      SettlesAtOnce(s, t, Exchange, n, max);
    } else {
      var again := Move(s, t, Loaded(n, s.counter));
      MovedSettlesAlike(s, t, Loaded(n, s.counter), n, max);
      SettlesAtOnce(again, t, if s.counter + n > max then Reject else Exchange, n, max);
      SettlesFirst(s, t, ExchangeFails(s.counter), n, max);
    }
  }

  // Every call with every size ends, accepted exactly when it fits at that moment;
  // with no limit it is accepted and not counted.
  lemma CallsSettle(s: State, t: ThreadId, n: nat, max: nat)
    requires max == 0 || (max < U64_MAX && Inv(s, max))
    requires t in s.threads && s.threads[t].phase == Idle && n <= U64_MAX
    ensures Settles(s, t, n, max)
  {
    hide Settles, Reserved;
    var called := Move(s, t, Called(n));
    MovedSettlesAlike(s, t, Called(n), n, max);
    if max == 0 {
      SettlesAtOnce(called, t, ReturnUnlimited, n, max);
    } else {
      var loaded := Move(called, t, Loaded(n, s.counter));
      MovedSettlesAlike(called, t, Loaded(n, s.counter), n, max);
      SettlesAtOnce(loaded, t, if s.counter + n > max then Reject else Exchange, n, max);
      SettlesFirst(called, t, Load(s.counter), n, max);
    }
    SettlesFirst(s, t, Call(n), n, max);
  }

  // Without a limit nothing is ever counted or refused, and only then does a call
  // return unexamined; a thread that holds too high a value is refused.
  lemma OnlyLimitsCount(s: State, t: ThreadId, step: Step, max: nat)
    requires Do(s, t, step, max).Some?
    requires max == 0 ==> !s.threads[t].phase.Loaded?
    ensures max == 0 ==>
              !Do(s, t, step, max).value.threads[t].phase.Loaded? && Do(s, t, step, max).value.counter == s.counter
              && step != Reject
    ensures step == ReturnUnlimited ==> max == 0
    ensures s.threads[t].phase.Loaded? && s.threads[t].phase.cur + s.threads[t].phase.n > max && max < U64_MAX ==>
              step == Reject
  {
  }

  // The budget is kept by every interleaving of every set of threads: the
  // counter is exactly what was accepted and never passes the limit.
  ghost predicate BudgetKept(max: nat) {
    forall s, schedule :: Init(s) && After(s, schedule, max).Some? ==>
      var end := After(s, schedule, max).value;
      end.counter == Reserved(end) <= max
  }

  // With a limit of u64::MAX the saturating test hides an overflow: after a
  // full reservation one more byte wraps the counter to zero.
  lemma SaturationHidesOverflow()
    ensures !BudgetKept(U64_MAX)
  {
    hide Do;
    var start := State(0, map[0 := Thread(Idle, 0)]);
    var one := [(0, Call(1))] + ([(0, Load(U64_MAX))] + ([(0, Exchange)] + []));
    var schedule := [(0, Call(U64_MAX))] + ([(0, Load(0))] + ([(0, Exchange)] + one));
    ReservesAlone(0, 0, U64_MAX, one, U64_MAX);
    ReservesAlone(U64_MAX, U64_MAX, 1, [], U64_MAX);
    var end := State(0, map[0 := Thread(Idle, U64_MAX + 1)]);
    assert After(start, schedule, U64_MAX) == Some(end);
    SumPick(Accepted(end), 0);
  }

  // A limit keeps its budget exactly when it is below u64::MAX (0 is no limit).
  lemma BudgetKeptIffBelowMax(max: nat)
    requires 0 < max <= U64_MAX
    ensures BudgetKept(max) <==> max < U64_MAX
  {
    if max < U64_MAX {
      forall s, schedule | Init(s) && After(s, schedule, max).Some?
        ensures After(s, schedule, max).value.counter == Reserved(After(s, schedule, max).value) <= max
      {
        InitInv(s, max);
        AfterInv(s, schedule, max);
      }
    } else {
      SaturationHidesOverflow();
    }
  }
}
