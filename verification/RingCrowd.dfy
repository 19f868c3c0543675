/** Any number of producer and consumer threads on the ring of queue.c.  Each call is two steps:
    the test, and the update under the mutex. */
module RingCrowd {
  import opened RingQueue
  import opened Sequences

  /** producers: the data of each producer that has passed the test, else NULL; consumers: whether
      each consumer has passed it; got: what the consumers were handed. */
  datatype State = State(ring: Ring, producers: seq<Ptr>, consumers: seq<bool>, got: seq<Ptr>)

  datatype Step = TestPut(t: nat, data: Ptr) | DoPut(t: nat) | TestTake(t: nat) | DoTake(t: nat)

  ghost function Initial(n: nat, producers: nat, consumers: nat): State {
    State(Ring(seq(n, _ => NULL), 0, 0, 0), seq(producers, _ => NULL), seq(consumers, _ => false), [])
  }

  ghost predicate Enabled(s: State, step: Step) {
    && Shaped(s.ring)
    && match step
       case TestPut(t, data) => t < |s.producers| && s.producers[t] == NULL && data != NULL
       case DoPut(t) => t < |s.producers| && s.producers[t] != NULL
       case TestTake(t) => t < |s.consumers| && !s.consumers[t]
       case DoTake(t) => t < |s.consumers| && s.consumers[t]
  }

  /** A test that fails returns at once. */
  ghost function Do(s: State, step: Step): State
    requires Enabled(s, step)
  {
    match step
    case TestPut(t, data) => if s.ring.slots[s.ring.last] != NULL then s else s.(producers := s.producers[t := data])
    case DoPut(t) => s.(ring := Put(s.ring, s.producers[t]), producers := s.producers[t := NULL])
    case TestTake(t) => if s.ring.slots[s.ring.first] == NULL then s else s.(consumers := s.consumers[t := true])
    case DoTake(t) =>
      s.(ring := Take(s.ring), consumers := s.consumers[t := false], got := s.got + [s.ring.slots[s.ring.first]])
  }

  ghost predicate Schedulable(s: State, steps: seq<Step>)
    decreases |steps|
  {
    steps == [] || (Enabled(s, steps[0]) && Schedulable(Do(s, steps[0]), steps[1..]))
  }

  ghost function Run(s: State, steps: seq<Step>): State
    requires Schedulable(s, steps)
    decreases |steps|
  {
    if steps == [] then s else Run(Do(s, steps[0]), steps[1..])
  }

  /** The ring holds some FIFO. */
  ghost predicate Intact(s: State) {
    exists q :: Holds(s.ring, q)
  }

  // ---------------------------------------------------------------- few enough threads

  predicate FewEnough(producers: nat, consumers: nat) {
    producers <= 1 && (consumers <= 1 || producers == 0)
  }

  /** Whoever has passed a test can still rely on it; without producers nobody passes one. */
  ghost predicate Inv(s: State, q: seq<Ptr>) {
    && FewEnough(|s.producers|, |s.consumers|)
    && Holds(s.ring, q)
    && (|s.producers| == 1 && s.producers[0] != NULL ==> |q| < |s.ring.slots|)
    && (|s.consumers| == 1 && s.consumers[0] ==> q != [])
    && (|s.producers| == 0 ==> q == [] && forall t :: 0 <= t < |s.consumers| ==> !s.consumers[t])
  }

  /** The element accepted by a test and not yet written. */
  ghost function ToWrite(s: State): seq<Ptr> {
    if |s.producers| == 1 && s.producers[0] != NULL then s.producers else []
  }

  /** The element that this step accepts: it is passed to queue() and finds a free node. */
  ghost function AcceptedNow(s: State, step: Step): seq<Ptr>
    requires Shaped(s.ring)
  {
    if step.TestPut? && s.ring.slots[s.ring.last] == NULL then [step.data] else []
  }

  ghost function Accepted(s: State, steps: seq<Step>): seq<Ptr>
    requires Schedulable(s, steps)
    decreases |steps|
  {
    if steps == [] then [] else AcceptedNow(s, steps[0]) + Accepted(Do(s, steps[0]), steps[1..])
  }

  /** What this step returns from dequeue(). */
  ghost function ReturnedNow(s: State, step: Step): seq<Ptr>
    requires Shaped(s.ring)
  {
    if step.DoTake? then [s.ring.slots[s.ring.first]] else []
  }

  ghost function Returned(s: State, steps: seq<Step>): seq<Ptr>
    requires Schedulable(s, steps)
    decreases |steps|
  {
    if steps == [] then [] else ReturnedNow(s, steps[0]) + Returned(Do(s, steps[0]), steps[1..])
  }

  /** What is in the ring moves as in a FIFO. */
  lemma {:induction false} StepKeepsInv(s: State, q: seq<Ptr>, step: Step) returns (q': seq<Ptr>)
    requires Inv(s, q) && Enabled(s, step)
    ensures Inv(Do(s, step), q')
    ensures q + ToWrite(s) + AcceptedNow(s, step) == ReturnedNow(s, step) + (q' + ToWrite(Do(s, step)))
  {
    TestsExact(s.ring, q);
    match step
    case TestPut(_, _) => q' := q;
    case TestTake(_) => q' := q;
    case DoPut(t) =>
      PutAppends(s.ring, q, s.producers[t]);
      q' := q + [s.producers[t]];
    case DoTake(t) =>
      TakeRemoves(s.ring, q);
      q' := q[1..];
  }

  lemma {:induction false} RunMovesAsFifo(s: State, q: seq<Ptr>, steps: seq<Step>) returns (q': seq<Ptr>)
    requires Inv(s, q) && Schedulable(s, steps)
    ensures Inv(Run(s, steps), q')
    ensures q + ToWrite(s) + Accepted(s, steps) == Returned(s, steps) + (q' + ToWrite(Run(s, steps)))
    decreases |steps|
  {
    if steps == [] {
      q' := q;
    } else {
      var step, next := steps[0], Do(s, steps[0]);
      var q1 := StepKeepsInv(s, q, step);
      q' := RunMovesAsFifo(next, q1, steps[1..]);
      Assoc(q + ToWrite(s), AcceptedNow(s, step), Accepted(next, steps[1..]));
      Assoc(ReturnedNow(s, step), q1 + ToWrite(next), Accepted(next, steps[1..]));
      Assoc(ReturnedNow(s, step), Returned(next, steps[1..]), q' + ToWrite(Run(s, steps)));
    }
  }

  lemma {:induction false} GotIsReturned(s: State, steps: seq<Step>)
    requires Schedulable(s, steps)
    ensures Run(s, steps).got == s.got + Returned(s, steps)
    decreases |steps|
  {
    if steps != [] {
      GotIsReturned(Do(s, steps[0]), steps[1..]);
      Assoc(s.got, ReturnedNow(s, steps[0]), Returned(Do(s, steps[0]), steps[1..]));
    }
  }

  /** With few enough threads, in every run what dequeue() returned, then what the ring holds, then
      what is about to be written, is what queue() accepted, in order. */
  lemma {:induction false} FewDeliverInOrder(n: nat, producers: nat, consumers: nat, steps: seq<Step>)
    requires n >= 1 && FewEnough(producers, consumers) && Schedulable(Initial(n, producers, consumers), steps)
    ensures var s, t := Initial(n, producers, consumers), Run(Initial(n, producers, consumers), steps);
            && t.got == Returned(s, steps)
            && exists q :: Holds(t.ring, q) && Accepted(s, steps) == Returned(s, steps) + (q + ToWrite(t))
  {
    var s := Initial(n, producers, consumers);
    assert Inv(s, []);
    var q := RunMovesAsFifo(s, [], steps);
    GotIsReturned(s, steps);
    assert [] + ToWrite(s) + Accepted(s, steps) == Accepted(s, steps);
  }

  // ---------------------------------------------------------------- too many

  lemma {:induction false} FirstStep(s: State, step: Step, steps: seq<Step>)
    requires Enabled(s, step) && Schedulable(Do(s, step), steps)
    ensures Schedulable(s, [step] + steps) && Run(s, [step] + steps) == Run(Do(s, step), steps)
  {
    assert ([step] + steps)[1..] == steps;
  }

  /** Nobody is between a test and its update. */
  ghost predicate Quiet(s: State) {
    && (forall t :: 0 <= t < |s.producers| ==> s.producers[t] == NULL)
    && (forall t :: 0 <= t < |s.consumers| ==> !s.consumers[t])
  }

  /** Producer 0 puts k elements, one after the other. */
  function Fill(k: nat): seq<Step> {
    if k == 0 then [] else [TestPut(0, 1), DoPut(0)] + Fill(k - 1)
  }

  lemma {:induction false} PutOne(s: State, q: seq<Ptr>)
    requires Holds(s.ring, q) && Quiet(s) && |s.producers| >= 1 && |q| < |s.ring.slots|
    ensures Enabled(s, TestPut(0, 1)) && Enabled(Do(s, TestPut(0, 1)), DoPut(0))
    ensures var t := Do(Do(s, TestPut(0, 1)), DoPut(0));
            && Holds(t.ring, q + [1]) && Quiet(t)
            && |t.producers| == |s.producers| && |t.consumers| == |s.consumers| && |t.ring.slots| == |s.ring.slots|
  {
    TestsExact(s.ring, q);
    PutAppends(s.ring, q, 1);
  }

  lemma {:induction false} FillRuns(s: State, q: seq<Ptr>, k: nat) returns (r: seq<Ptr>)
    requires Holds(s.ring, q) && Quiet(s) && |s.producers| >= 1 && |q| + k <= |s.ring.slots|
    ensures Schedulable(s, Fill(k)) && |r| == |q| + k
    ensures var t := Run(s, Fill(k));
            && Holds(t.ring, r) && Quiet(t)
            && |t.producers| == |s.producers| && |t.consumers| == |s.consumers| && |t.ring.slots| == |s.ring.slots|
    decreases k
  {
    if k == 0 {
      r := q;
    } else {
      PutOne(s, q);
      var s1 := Do(s, TestPut(0, 1));
      var s2 := Do(s1, DoPut(0));
      r := FillRuns(s2, q + [1], k - 1);
      FirstStep(s1, DoPut(0), Fill(k - 1));
      FirstStep(s, TestPut(0, 1), [DoPut(0)] + Fill(k - 1));
      assert [TestPut(0, 1)] + ([DoPut(0)] + Fill(k - 1)) == Fill(k);
    }
  }

  lemma {:induction false} RunAppend(s: State, a: seq<Step>, b: seq<Step>)
    requires Schedulable(s, a) && Schedulable(Run(s, a), b)
    ensures Schedulable(s, a + b) && Run(s, a + b) == Run(Run(s, a), b)
    decreases |a|
  {
    if a == [] {
      assert a + b == b;
    } else {
      RunAppend(Do(s, a[0]), a[1..], b);
      FirstStep(s, a[0], a[1..] + b);
      assert [a[0]] + (a[1..] + b) == a + b;
    }
  }

  /** Two producers find the one free node, and both write. */
  function BothPut(): seq<Step> {
    [TestPut(0, 1), TestPut(1, 2), DoPut(0), DoPut(1)]
  }

  lemma {:induction false} BothPutBreaks(s: State, q: seq<Ptr>)
    requires Holds(s.ring, q) && Quiet(s) && |s.producers| >= 2 && |q| + 1 == |s.ring.slots|
    ensures Schedulable(s, BothPut()) && !Intact(Run(s, BothPut()))
  {
    TestsExact(s.ring, q);
    var s1 := Do(s, TestPut(0, 1));
    var s2 := Do(s1, TestPut(1, 2));
    var s3 := Do(s2, DoPut(0));
    var s4 := Do(s3, DoPut(1));
    assert s4.ring.nelem == |s.ring.slots| + 1;
    FirstStep(s3, DoPut(1), []);
    FirstStep(s2, DoPut(0), [DoPut(1)]);
    FirstStep(s1, TestPut(1, 2), [DoPut(0), DoPut(1)]);
    FirstStep(s, TestPut(0, 1), [TestPut(1, 2), DoPut(0), DoPut(1)]);
  }

  /** Two consumers find the one element, and both take. */
  function BothTake(): seq<Step> {
    [TestTake(0), TestTake(1), DoTake(0), DoTake(1)]
  }

  lemma {:induction false} BothTakeBreaks(s: State, q: seq<Ptr>)
    requires Holds(s.ring, q) && Quiet(s) && |s.consumers| >= 2 && |q| == 1
    ensures Schedulable(s, BothTake()) && !Intact(Run(s, BothTake()))
  {
    TestsExact(s.ring, q);
    var s1 := Do(s, TestTake(0));
    var s2 := Do(s1, TestTake(1));
    var s3 := Do(s2, DoTake(0));
    var s4 := Do(s3, DoTake(1));
    assert s4.ring.nelem == -1;
    FirstStep(s3, DoTake(1), []);
    FirstStep(s2, DoTake(0), [DoTake(1)]);
    FirstStep(s1, TestTake(1), [DoTake(0), DoTake(1)]);
    FirstStep(s, TestTake(0), [TestTake(1), DoTake(0), DoTake(1)]);
  }

  lemma {:induction false} BreaksWithTooMany(n: nat, producers: nat, consumers: nat)
    requires n >= 1 && !FewEnough(producers, consumers)
    ensures exists steps :: Schedulable(Initial(n, producers, consumers), steps)
              && !Intact(Run(Initial(n, producers, consumers), steps))
  {
    var s := Initial(n, producers, consumers);
    assert Holds(s.ring, []);
    if producers >= 2 {
      var r := FillRuns(s, [], n - 1);
      BothPutBreaks(Run(s, Fill(n - 1)), r);
      RunAppend(s, Fill(n - 1), BothPut());
    } else {
      var r := FillRuns(s, [], 1);
      BothTakeBreaks(Run(s, Fill(1)), r);
      RunAppend(s, Fill(1), BothTake());
    }
  }

  /** On a ring of any size, every run of any number of threads keeps the ring a FIFO if and only
      if there is at most one producer, and at most one consumer unless nobody produces. */
  lemma {:induction false} AlwaysIntactIff(n: nat, producers: nat, consumers: nat)
    requires n >= 1
    ensures (forall steps :: Schedulable(Initial(n, producers, consumers), steps) ==>
               Intact(Run(Initial(n, producers, consumers), steps)))
        <==> FewEnough(producers, consumers)
  {
    var s := Initial(n, producers, consumers);
    if FewEnough(producers, consumers) {
      forall steps | Schedulable(s, steps) ensures Intact(Run(s, steps)) {
        FewDeliverInOrder(n, producers, consumers, steps);
      }
    } else {
      BreaksWithTooMany(n, producers, consumers);
    }
  }
}
