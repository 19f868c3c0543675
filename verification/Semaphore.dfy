/** The semaphore of tsemaphore.c: a counter, a mutex and a condition variable.  Each critical
    section is one step; a wait on the condition ends one step, and the thread's next step, when
    it has been woken and has the mutex again, is to test the counter once more. */
module Semaphore {

  type Thread = nat

  /** semval is an unsigned int. */
  const UINT_RANGE: nat := 0x1_0000_0000

  function Decremented(v: nat): nat {
    if v == 0 then UINT_RANGE - 1 else v - 1
  }

  /** sleeping: in pthread_cond_wait or pthread_cond_timedwait; woken: out of it, about to test
      again; timed: of these, the threads in tsem_timed_down. */
  datatype State = State(semval: nat, sleeping: set<Thread>, woken: set<Thread>, timed: set<Thread>)

  /** pthread_cond_signal wakes at least one sleeping thread, and may wake more; a thread may
      also wake for no reason or because its time is over. */
  datatype Step =
    | Down(t: Thread, timed: bool)
    | Retry(t: Thread, timedOut: bool)
    | Up(wakes: set<Thread>)
    | Signal(wakes: set<Thread>)
    | Reset
    | Wakeup(t: Thread)

  ghost function Initial(val: nat): State {
    State(val, {}, {}, {})
  }

  predicate Signals(s: State, wakes: set<Thread>) {
    wakes <= s.sleeping && (s.sleeping != {} ==> wakes != {})
  }

  predicate Enabled(s: State, step: Step) {
    match step
    case Down(t, _) => t !in s.sleeping && t !in s.woken
    case Retry(t, timedOut) => t in s.woken && (timedOut ==> t in s.timed)
    case Up(wakes) => Signals(s, wakes)
    case Signal(wakes) => Signals(s, wakes)
    case Reset => true
    case Wakeup(t) => t in s.sleeping
  }

  /** The loop test of tsem_down and tsem_timed_down, for a thread that is neither asleep nor
      woken any more. */
  function Test(s: State, t: Thread): State {
    if s.semval == 0 then s.(sleeping := s.sleeping + {t}) else s.(semval := s.semval - 1, timed := s.timed - {t})
  }

  /** A wait that timed out takes a unit before the test. */
  function TimeOut(s: State): State {
    s.(semval := Decremented(s.semval))
  }

  function Wake(s: State, wakes: set<Thread>): State {
    s.(sleeping := s.sleeping - wakes, woken := s.woken + wakes)
  }

  function Do(s: State, step: Step): State {
    match step
    case Down(t, timed) => Test(s.(timed := if timed then s.timed + {t} else s.timed), t)
    case Retry(t, timedOut) =>
      var left := s.(woken := s.woken - {t});
      Test(if timedOut then TimeOut(left) else left, t)
    case Up(wakes) => Wake(s.(semval := s.semval + 1), wakes)
    case Signal(wakes) => Wake(s, wakes)
    case Reset => s.(semval := 0)
    case Wakeup(t) => Wake(s, {t})
  }

  // ---------------------------------------------------------------- what a run consists of

  /** The calls of tsem_up. */
  function Ups(steps: seq<Step>): nat {
    if steps == [] then 0 else (if steps[0].Up? then 1 else 0) + Ups(steps[1..])
  }

  /** The calls of tsem_down and tsem_timed_down. */
  function Downs(steps: seq<Step>): nat {
    if steps == [] then 0 else (if steps[0].Down? then 1 else 0) + Downs(steps[1..])
  }

  /** The waits that timed out. */
  function TimedOut(steps: seq<Step>): nat {
    if steps == [] then 0 else (if steps[0].Retry? && steps[0].timedOut then 1 else 0) + TimedOut(steps[1..])
  }

  /** Those of them that found the counter at zero, which wraps around. */
  ghost function Wraps(s: State, steps: seq<Step>): nat
    decreases |steps|
  {
    if steps == [] then 0
    else (if steps[0].Retry? && steps[0].timedOut && s.semval == 0 then 1 else 0) + Wraps(Do(s, steps[0]), steps[1..])
  }

  /** The units that calls of tsem_reset found. */
  ghost function Discarded(s: State, steps: seq<Step>): nat
    decreases |steps|
  {
    if steps == [] then 0
    else (if steps[0].Reset? then s.semval else 0) + Discarded(Do(s, steps[0]), steps[1..])
  }

  predicate Inside(s: State, t: Thread) {
    t in s.sleeping || t in s.woken
  }

  /** The step is of a thread in one of the down functions, and the thread has left it after it. */
  ghost predicate Through(s: State, step: Step) {
    (step.Down? || step.Retry?) && !Inside(Do(s, step), step.t)
  }

  /** The calls of the down functions that have returned. */
  ghost function Returned(s: State, steps: seq<Step>): nat
    decreases |steps|
  {
    if steps == [] then 0
    else (if Through(s, steps[0]) then 1 else 0) + Returned(Do(s, steps[0]), steps[1..])
  }

  // ---------------------------------------------------------------- the invariant

  /** fair: no wait has timed out at zero. */
  ghost predicate Inv(s: State, fair: bool) {
    && s.sleeping !! s.woken
    && s.timed <= s.sleeping + s.woken
    && (fair && s.sleeping != {} ==> s.semval <= |s.woken|)
  }

  ghost predicate Fair(s: State, step: Step) {
    !(step.Retry? && step.timedOut && s.semval == 0)
  }

  lemma {:induction false} DisjointSizes(a: set<Thread>, b: set<Thread>)
    requires a !! b
    ensures |a + b| == |a| + |b|
  {
  }

  lemma {:induction false} WakeMoves(s: State, wakes: set<Thread>)
    requires s.sleeping !! s.woken && wakes <= s.sleeping
    ensures |s.sleeping - wakes| + |s.woken + wakes| == |s.sleeping| + |s.woken|
    ensures |s.woken + wakes| == |s.woken| + |wakes|
  {
    DisjointSizes(s.sleeping - wakes, wakes);
    assert s.sleeping - wakes + wakes == s.sleeping;
    DisjointSizes(s.woken, wakes);
  }

  lemma {:induction false} StepKeepsInv(s: State, fair: bool, step: Step)
    requires Inv(s, fair) && Enabled(s, step)
    ensures Inv(Do(s, step), fair && Fair(s, step))
  {
    match step
    case Down(_, _) =>
    case Retry(t, _) => assert |s.woken - {t}| == |s.woken| - 1;
    case Up(wakes) => WakeMoves(s, wakes);
    case Signal(wakes) => WakeMoves(s, wakes);
    case Reset =>
    case Wakeup(t) => WakeMoves(s, {t});
  }

  // ---------------------------------------------------------------- over all interleavings

  ghost predicate Schedulable(s: State, steps: seq<Step>)
    decreases |steps|
  {
    steps == [] || (Enabled(s, steps[0]) && Schedulable(Do(s, steps[0]), steps[1..]))
  }

  ghost function Run(s: State, steps: seq<Step>): State
    decreases |steps|
  {
    if steps == [] then s else Run(Do(s, steps[0]), steps[1..])
  }

  lemma {:induction false} RunKeepsInv(s: State, fair: bool, steps: seq<Step>)
    requires Inv(s, fair) && Schedulable(s, steps)
    ensures Inv(Run(s, steps), fair && Wraps(s, steps) == 0)
    decreases |steps|
  {
    if steps != [] {
      StepKeepsInv(s, fair, steps[0]);
      RunKeepsInv(Do(s, steps[0]), fair && Fair(s, steps[0]), steps[1..]);
    }
  }

  ghost predicate Reached(val: nat, steps: seq<Step>, s: State) {
    Schedulable(Initial(val), steps) && s == Run(Initial(val), steps)
  }

  lemma {:induction false} ReachedInv(val: nat, steps: seq<Step>, s: State)
    requires Reached(val, steps, s)
    ensures Inv(s, Wraps(Initial(val), steps) == 0)
  {
    RunKeepsInv(Initial(val), true, steps);
  }

  /** No wake-up is lost, as long as no wait timed out at zero: while some thread sleeps, every
      available unit is matched by a woken thread that has yet to test the counter; with none on
      its way, no unit is available. */
  lemma {:induction false} NoLostWakeup(val: nat, steps: seq<Step>, s: State)
    requires Reached(val, steps, s) && s.sleeping != {} && Wraps(Initial(val), steps) == 0
    ensures s.semval <= |s.woken|
    ensures s.woken == {} ==> s.semval == 0
  {
    ReachedInv(val, steps, s);
  }

  /** A wait that times out at zero breaks this exactly when some thread sleeps (and fewer than
      2^32 - 1 are on their way): the counter is then almost full. */
  lemma {:induction false} TimeoutAtZeroLosesWakeupIff(val: nat, steps: seq<Step>, s: State, t: Thread)
    requires Reached(val, steps, s) && Enabled(s, Retry(t, true)) && s.semval == 0
    ensures var after := Do(s, Retry(t, true));
            && after.semval == UINT_RANGE - 2
            && ((after.sleeping != {} && after.semval > |after.woken|) <==>
                  (s.sleeping != {} && |s.woken| < UINT_RANGE - 1))
  {
    ReachedInv(val, steps, s);
    assert |s.woken - {t}| == |s.woken| - 1;
  }

  /** Thread 1 sleeps in tsem_down, and thread 2 times out: thread 1 sleeps on. */
  lemma {:induction false} TimeoutLosesWakeup()
    ensures var steps := [Down(1, false), Down(2, true), Wakeup(2), Retry(2, true)];
            Reached(0, steps, State(0xFFFF_FFFE, {1}, {}, {}))
  {
    var s0 := Initial(0);
    var s1 := Do(s0, Down(1, false));
    var s2 := Do(s1, Down(2, true));
    var s3 := Do(s2, Wakeup(2));
    var s4 := Do(s3, Retry(2, true));
    assert s2.sleeping == {1, 2} && s2.timed == {2};
    assert s3.sleeping == {1} && s3.woken == {2};
    assert s4 == State(0xFFFF_FFFE, {1}, {}, {});
    assert [Retry(2, true)][1..] == [];
    FirstStep(s3, Retry(2, true), []);
    FirstStep(s2, Wakeup(2), [Retry(2, true)]);
    FirstStep(s1, Down(2, true), [Wakeup(2), Retry(2, true)]);
    FirstStep(s0, Down(1, false), [Down(2, true), Wakeup(2), Retry(2, true)]);
  }

  lemma {:induction false} FirstStep(s: State, step: Step, steps: seq<Step>)
    requires Enabled(s, step) && Schedulable(Do(s, step), steps)
    ensures Schedulable(s, [step] + steps) && Run(s, [step] + steps) == Run(Do(s, step), steps)
  {
    assert ([step] + steps)[1..] == steps;
  }

  lemma {:induction false} WrapsAreTimeouts(s: State, steps: seq<Step>)
    ensures Wraps(s, steps) <= TimedOut(steps)
    decreases |steps|
  {
    if steps != [] {
      WrapsAreTimeouts(Do(s, steps[0]), steps[1..]);
    }
  }

  lemma {:induction false} UnitsMove(s: State, steps: seq<Step>)
    requires Schedulable(s, steps) && s.sleeping !! s.woken
    ensures Run(s, steps).semval + Returned(s, steps) + Discarded(s, steps) + TimedOut(steps)
         == s.semval + Ups(steps) + UINT_RANGE * Wraps(s, steps)
    decreases |steps|
  {
    if steps != [] {
      UnitsMove(Do(s, steps[0]), steps[1..]);
    }
  }

  lemma {:induction false} ThreadsMoveOnce(s: State, step: Step)
    requires Enabled(s, step) && s.sleeping !! s.woken
    ensures var t := Do(s, step);
            && t.sleeping !! t.woken
            && |t.sleeping| + |t.woken| + (if Through(s, step) then 1 else 0)
               == |s.sleeping| + |s.woken| + if step.Down? then 1 else 0
  {
    match step
    case Down(_, _) =>
    case Retry(t, _) => assert |s.woken - {t}| == |s.woken| - 1;
    case Up(wakes) => WakeMoves(s, wakes);
    case Signal(wakes) => WakeMoves(s, wakes);
    case Reset =>
    case Wakeup(t) => WakeMoves(s, {t});
  }

  lemma {:induction false} ThreadsMove(s: State, steps: seq<Step>)
    requires Schedulable(s, steps) && s.sleeping !! s.woken
    ensures |Run(s, steps).sleeping| + |Run(s, steps).woken| + Returned(s, steps)
         == |s.sleeping| + |s.woken| + Downs(steps)
    decreases |steps|
  {
    if steps != [] {
      ThreadsMoveOnce(s, steps[0]);
      ThreadsMove(Do(s, steps[0]), steps[1..]);
    }
  }

  /** Units are conserved over every run: the counter is its initial value plus one for each
      tsem_up, minus one for each down that has returned, one for each wait that timed out and
      what each tsem_reset found, plus 2^32 for each decrement at zero.  The downs that have not
      returned are asleep or about to test. */
  lemma {:induction false} UnitsConserved(val: nat, steps: seq<Step>, s: State)
    requires Reached(val, steps, s)
    ensures var start := Initial(val);
            s.semval + Returned(start, steps) + Discarded(start, steps) + TimedOut(steps)
            == val + Ups(steps) + UINT_RANGE * Wraps(start, steps)
    ensures Returned(Initial(val), steps) + |s.sleeping| + |s.woken| == Downs(steps)
    ensures TimedOut(steps) == 0 ==> Wraps(Initial(val), steps) == 0
  {
    UnitsMove(Initial(val), steps);
    ThreadsMove(Initial(val), steps);
    WrapsAreTimeouts(Initial(val), steps);
  }

  function Min(a: int, b: int): int {
    if a <= b then a else b
  }

  /** Once no woken thread is left to test, the semaphore has let through exactly as many downs
      as an ideal one: all that were called, or as many as there were units. */
  lemma {:induction false} AsManyAsIdeal(val: nat, steps: seq<Step>, s: State)
    requires Reached(val, steps, s) && s.woken == {} && Wraps(Initial(val), steps) == 0
    ensures Returned(Initial(val), steps)
         == Min(Downs(steps), val + Ups(steps) - Discarded(Initial(val), steps) - TimedOut(steps))
  {
    ReachedInv(val, steps, s);
    UnitsConserved(val, steps, s);
  }

  // ---------------------------------------------------------------- settling

  function Retries(order: seq<Thread>): (steps: seq<Step>)
    ensures |steps| == |order|
  {
    if order == [] then [] else [Retry(order[0], false)] + Retries(order[1..])
  }

  ghost function Elems(order: seq<Thread>): set<Thread> {
    set t | t in order
  }

  /** Letting the woken threads test, in whatever order, is always possible, and reaches such a
      state: min(semval, |woken|) downs complete and the other woken threads sleep again. */
  lemma {:induction false} WokenThreadsSettle(s: State, order: seq<Thread>)
    requires s.sleeping !! s.woken
    requires |order| == |s.woken| && Elems(order) == s.woken
    ensures Schedulable(s, Retries(order))
    ensures var t := Run(s, Retries(order));
            && t.woken == {}
            && Returned(s, Retries(order)) == Min(s.semval, |s.woken|)
            && t.semval == s.semval - Min(s.semval, |s.woken|)
    decreases |order|
  {
    if order != [] {
      var x := order[0];
      var next := Do(s, Retry(x, false));
      assert x in order;
      OthersRemain(order, s.woken);
      assert next.woken == s.woken - {x};
      WokenThreadsSettle(next, order[1..]);
      assert Retries(order)[1..] == Retries(order[1..]);
    } else {
      assert s.woken == {};
    }
  }

  lemma {:induction false} OthersRemain(order: seq<Thread>, woken: set<Thread>)
    requires order != [] && |order| == |woken| && Elems(order) == woken
    ensures Elems(order[1..]) == woken - {order[0]}
    ensures |woken - {order[0]}| == |order| - 1
  {
    assert order[0] in woken;
    assert order == [order[0]] + order[1..];
    if order[0] in Elems(order[1..]) {
      assert Elems(order[1..]) == woken;
      SetNoLarger(order[1..]);
      assert false;
    }
  }

  lemma {:induction false} SetNoLarger(order: seq<Thread>)
    ensures |Elems(order)| <= |order|
  {
    if order != [] {
      SetNoLarger(order[1..]);
      assert order == [order[0]] + order[1..];
      assert Elems(order) - {order[0]} <= Elems(order[1..]);
      SubsetSize(Elems(order) - {order[0]}, Elems(order[1..]));
    }
  }

  lemma {:induction false} SubsetSize(a: set<Thread>, b: set<Thread>)
    requires a <= b
    ensures |a| <= |b|
  {
    DisjointSizes(a, b - a);
    assert a + (b - a) == b;
  }

  // ---------------------------------------------------------------- the code

  /** tsem_t, with the threads waiting on its condition. */
  class TSem {
    var semval: nat
    var sleeping: set<Thread>
    var woken: set<Thread>
    ghost var model: State

    ghost predicate Models()
      reads this
    {
      model.semval == semval && model.sleeping == sleeping && model.woken == woken
    }

    /** tsem_init */
    constructor (val: nat)
      ensures Models() && model == Initial(val)
    {
      semval, sleeping, woken := val, {}, {};
      model := Initial(val);
    }

    /** tsem_down and tsem_timed_down, from the lock to the unlock or to the wait. */
    method Down(t: Thread, timed: bool) returns (through: bool)
      requires Models() && Enabled(model, Step.Down(t, timed))
      modifies this
      ensures Models() && model == Do(old(model), Step.Down(t, timed))
      ensures through <==> old(semval) > 0
      ensures semval == old(semval) - (if through then 1 else 0)
      ensures sleeping == old(sleeping) + (if through then {} else {t}) && woken == old(woken)
    {
      through := TestOnce(t);
      model := Do(old(model), Step.Down(t, timed));
    }

    /** tsem_down, from the return of the wait on. */
    method Retry(t: Thread) returns (through: bool)
      requires Models() && Enabled(model, Step.Retry(t, false))
      modifies this
      ensures Models() && model == Do(old(model), Step.Retry(t, false))
      ensures through <==> old(semval) > 0
      ensures semval == old(semval) - (if through then 1 else 0)
      ensures sleeping == old(sleeping) + (if through then {} else {t}) && woken == old(woken) - {t}
    {
      woken := woken - {t};
      through := TestOnce(t);
      model := Do(old(model), Step.Retry(t, false));
    }

    /** tsem_timed_down, from the return of the wait on: err is what the wait returned. */
    method TimedRetry(t: Thread, err: int) returns (through: bool)
      requires Models() && Enabled(model, Step.Retry(t, err != 0))
      modifies this
      ensures Models() && model == Do(old(model), Step.Retry(t, err != 0))
      ensures through <==> if err != 0 then old(semval) != 1 else old(semval) > 0
      ensures var found := if err == 0 then old(semval) else if old(semval) == 0 then 0xFFFF_FFFF else old(semval) - 1;
              semval == found - (if through then 1 else 0)
      ensures sleeping == old(sleeping) + (if through then {} else {t}) && woken == old(woken) - {t}
    {
      woken := woken - {t};
      if err != 0 {
        semval := Decremented(semval);
      }
      through := TestOnce(t);
      model := Do(old(model), Step.Retry(t, err != 0));
    }

    method TestOnce(t: Thread) returns (through: bool)
      modifies this`semval, this`sleeping
      ensures through <==> old(semval) > 0
      ensures semval == (if through then old(semval) - 1 else 0)
      ensures sleeping == (if through then old(sleeping) else old(sleeping) + {t})
    {
      if semval == 0 {
        sleeping := sleeping + {t};
        return false;
      }
      semval := semval - 1;
      through := true;
    }

    /** pthread_cond_signal: wakes is the system's choice. */
    method CondSignal(wakes: set<Thread>)
      requires Models() && Signals(model, wakes)
      modifies this`sleeping, this`woken
      ensures sleeping == old(sleeping) - wakes && woken == old(woken) + wakes
    {
      sleeping := sleeping - wakes;
      woken := woken + wakes;
    }

    /** tsem_up */
    method Up(wakes: set<Thread>)
      requires Models() && Enabled(model, Step.Up(wakes))
      modifies this
      ensures Models() && model == Do(old(model), Step.Up(wakes))
      ensures semval == old(semval) + 1 && sleeping == old(sleeping) - wakes && woken == old(woken) + wakes
    {
      CondSignal(wakes);
      semval := semval + 1;
      model := Do(model, Step.Up(wakes));
    }

    /** tsem_signal */
    method Signal(wakes: set<Thread>)
      requires Models() && Enabled(model, Step.Signal(wakes))
      modifies this
      ensures Models() && model == Do(old(model), Step.Signal(wakes))
      ensures semval == old(semval) && sleeping == old(sleeping) - wakes && woken == old(woken) + wakes
    {
      CondSignal(wakes);
      model := Do(model, Step.Signal(wakes));
    }

    /** tsem_reset */
    method Reset()
      requires Models()
      modifies this
      ensures Models() && model == Do(old(model), Step.Reset)
      ensures semval == 0 && sleeping == old(sleeping) && woken == old(woken)
    {
      semval := 0;
      model := Do(model, Step.Reset);
    }
  }

  // ---------------------------------------------------------------- one tsem_timed_down

  /** One return of pthread_cond_timedwait: whether it timed out, and the counter then found. */
  datatype Return = Return(timedOut: bool, found: nat)

  /** The call, given what its waits return: the counter it leaves, how many waits it used and
      how many units it took; Blocked while it still waits. */
  datatype Outcome = Blocked | Left(semval: nat, waits: nat, taken: nat)

  function TimedDown(semval: nat, rets: seq<Return>): (o: Outcome)
    ensures o.Left? ==> o.waits <= |rets|
    decreases |rets|
  {
    if semval != 0 then Left(semval - 1, 0, 1)
    else if rets == [] then Blocked
    else
      var r := rets[0];
      match TimedDown(if r.timedOut then Decremented(r.found) else r.found, rets[1..])
      case Blocked => Blocked
      case Left(v, k, taken) => Left(v, k + 1, taken + if r.timedOut then 1 else 0)
  }

  function TimeOuts(rets: seq<Return>, waits: nat): nat
    requires waits <= |rets|
  {
    if waits == 0 then 0 else (if rets[0].timedOut then 1 else 0) + TimeOuts(rets[1..], waits - 1)
  }

  /** The call takes one unit and one more for each of its waits that timed out; so it takes the
      one unit it should exactly when none of them did. */
  lemma {:induction false} TimedDownTakesOneIff(semval: nat, rets: seq<Return>)
    requires TimedDown(semval, rets).Left?
    ensures var o := TimedDown(semval, rets);
            && o.taken == 1 + TimeOuts(rets, o.waits)
            && (o.taken == 1 <==> forall i :: 0 <= i < o.waits ==> !rets[i].timedOut)
    decreases |rets|
  {
    if semval == 0 {
      var r := rets[0];
      var o := TimedDown(semval, rets);
      TimedDownTakesOneIff(if r.timedOut then Decremented(r.found) else r.found, rets[1..]);
      NoTimeOuts(rets, o.waits);
    }
  }

  lemma {:induction false} NoTimeOuts(rets: seq<Return>, waits: nat)
    requires waits <= |rets|
    ensures TimeOuts(rets, waits) == 0 <==> forall i :: 0 <= i < waits ==> !rets[i].timedOut
  {
    if waits > 0 {
      NoTimeOuts(rets[1..], waits - 1);
      if TimeOuts(rets, waits) == 0 {
        forall i | 0 <= i < waits ensures !rets[i].timedOut {
          if i > 0 { assert rets[i] == rets[1..][i - 1]; }
        }
      } else if TimeOuts(rets[1..], waits - 1) != 0 {
        var i :| 0 <= i < waits - 1 && rets[1..][i].timedOut;
        assert rets[i + 1].timedOut;
      }
    }
  }

  /** Two units, although the last wait was woken and the call reports no timeout. */
  lemma {:induction false} EarlierTimeoutTakesToo()
    ensures TimedDown(0, [Return(true, 1), Return(false, 1)]) == Left(0, 2, 2)
  {
    assert [Return(true, 1), Return(false, 1)][1..] == [Return(false, 1)];
    assert TimedDown(0, [Return(false, 1)]) == Left(0, 1, 1);
  }

  /** A plain timeout on an empty semaphore leaves it nearly full. */
  lemma {:induction false} TimeoutAtZeroOverflows()
    ensures TimedDown(0, [Return(true, 0)]) == Left(0xFFFF_FFFE, 1, 2)
  {
  }
}
