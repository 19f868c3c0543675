/** One producer thread and one consumer thread on the ring of queue.c.  queue() and dequeue()
    test their node before they take the mutex and then update the ring in four separate writes;
    every interleaving of the tests, the locking and the writes is a run of this state machine. */
module RingProtocol {
  import opened RingQueue
  import opened Sequences

  /** Where each thread is.  Held values are the data being passed. */
  datatype Producer = PIdle | PTested(data: Ptr) | PLocked(data: Ptr) | PWritten | PMoved | PCounted
  datatype Consumer =
    | CIdle | CTested | CLocked
    | CRead(data: Ptr) | CCleared(data: Ptr) | CMoved(data: Ptr) | CCounted(data: Ptr)
  datatype Mutex = Unlocked | ByProducer | ByConsumer

  /** put and got record, in order, the data written into the ring and those returned. */
  datatype State = State(
    slots: seq<Ptr>, first: nat, last: nat, nelem: int,
    mutex: Mutex, p: Producer, c: Consumer,
    put: seq<Ptr>, got: seq<Ptr>)

  datatype Step =
    | TestFree(data: Ptr) | LockP | Write | MoveLast | CountUp | UnlockP
    | TestFull | LockC | Read | Clear | MoveFirst | CountDown | UnlockC

  ghost function Initial(n: nat): State {
    State(seq(n, i => NULL), 0, 0, 0, Unlocked, PIdle, CIdle, [], [])
  }

  ghost predicate InRange(s: State) {
    s.first < |s.slots| && s.last < |s.slots|
  }

  ghost predicate Enabled(s: State, step: Step) {
    match step
    case TestFree(data) => s.p == PIdle && data != NULL
    case LockP => s.p.PTested? && s.mutex == Unlocked
    case Write => s.p.PLocked?
    case MoveLast => s.p == PWritten
    case CountUp => s.p == PMoved
    case UnlockP => s.p == PCounted
    case TestFull => s.c == CIdle
    case LockC => s.c == CTested && s.mutex == Unlocked
    case Read => s.c == CLocked
    case Clear => s.c.CRead?
    case MoveFirst => s.c.CCleared?
    case CountDown => s.c.CMoved?
    case UnlockC => s.c.CCounted?
  }

  /** A test that fails returns at once, with -1 or with NULL, and leaves the thread idle. */
  ghost function Do(s: State, step: Step): State
    requires InRange(s) && Enabled(s, step)
  {
    match step
    case TestFree(data) => if s.slots[s.last] != NULL then s else s.(p := PTested(data))
    case LockP => s.(mutex := ByProducer, p := PLocked(s.p.data))
    case Write => s.(slots := s.slots[s.last := s.p.data], p := PWritten, put := s.put + [s.p.data])
    case MoveLast => s.(last := Next(s.last, |s.slots|), p := PMoved)
    case CountUp => s.(nelem := s.nelem + 1, p := PCounted)
    case UnlockP => s.(mutex := Unlocked, p := PIdle)
    case TestFull => if s.slots[s.first] == NULL then s else s.(c := CTested)
    case LockC => s.(mutex := ByConsumer, c := CLocked)
    case Read => s.(c := CRead(s.slots[s.first]))
    case Clear => s.(slots := s.slots[s.first := NULL], c := CCleared(s.c.data))
    case MoveFirst => s.(first := Next(s.first, |s.slots|), c := CMoved(s.c.data))
    case CountDown => s.(nelem := s.nelem - 1, c := CCounted(s.c.data))
    case UnlockC => s.(mutex := Unlocked, c := CIdle, got := s.got + [s.c.data])
  }

  // ---------------------------------------------------------------- the invariant

  /** How many elements have been cleared from the ring. */
  ghost function Taken(s: State): nat {
    |s.got| + if s.c.CCleared? || s.c.CMoved? || s.c.CCounted? then 1 else 0
  }

  ghost function HeldData(c: Consumer): Ptr {
    if c.CRead? || c.CCleared? || c.CMoved? || c.CCounted? then c.data else NULL
  }

  /** k modulo n, for n >= 1, counted down in rounds of the ring. */
  function Node(k: nat, n: nat): (node: nat)
    ensures n >= 1 ==> node < n
  {
    if n == 0 || k < n then k else Node(k - n, n)
  }

  /** The k-th element ever written lives in node k modulo the ring length; the elements from
      Taken(s) up to |put| are in their nodes and the other nodes are free. */
  ghost predicate Contents(slots: seq<Ptr>, put: seq<Ptr>, taken: nat) {
    var n := |slots|;
    && n >= 1 && taken <= |put| <= taken + n
    && (forall k :: 0 <= k < |put| ==> put[k] != NULL)
    && (forall k :: taken <= k < |put| ==> slots[Node(k, n)] == put[k])
    && (forall k :: |put| <= k < taken + n ==> slots[Node(k, n)] == NULL)
  }

  ghost predicate Inv(s: State) {
    var n := |s.slots|;
    && Contents(s.slots, s.put, Taken(s))
    && (s.p == PWritten ==> |s.put| >= 1)
    && s.last == Node(|s.put| - (if s.p == PWritten then 1 else 0), n)
    && s.first == Node(Taken(s) - (if s.c.CCleared? then 1 else 0), n)
    && s.nelem == (|s.put| - if s.p == PWritten || s.p == PMoved then 1 else 0)
                - (Taken(s) - if s.c.CCleared? || s.c.CMoved? then 1 else 0)
    && (s.mutex == ByProducer <==> s.p.PLocked? || s.p == PWritten || s.p == PMoved || s.p == PCounted)
    && (s.mutex == ByConsumer <==>
          s.c == CLocked || s.c.CRead? || s.c.CCleared? || s.c.CMoved? || s.c.CCounted?)
    && (s.p.PTested? || s.p.PLocked? ==> |s.put| < Taken(s) + n && s.p.data != NULL)
    && (s.c == CTested || s.c == CLocked || s.c.CRead? ==> Taken(s) < |s.put|)
    && |s.got| <= |s.put| && s.put[..|s.got|] == s.got
    && (HeldData(s.c) != NULL || s.c == CIdle || s.c == CTested || s.c == CLocked)
    && (HeldData(s.c) != NULL ==> |s.got| < |s.put| && HeldData(s.c) == s.put[|s.got|])
  }

  // ---------------------------------------------------------------- arithmetic of the ring

  lemma {:induction false} NodeNext(k: nat, n: nat)
    requires n >= 1
    ensures Node(k + 1, n) == Next(Node(k, n), n)
  {
    if k >= n {
      NodeNext(k - n, n);
    }
  }

  lemma {:induction false} NodesDistinct(a: nat, b: nat, n: nat)
    requires n >= 1 && a < b < a + n
    ensures Node(a, n) != Node(b, n)
  {
    if a >= n {
      NodesDistinct(a - n, b - n, n);
    }
  }

  // ---------------------------------------------------------------- every step keeps it

  lemma {:induction false} WriteContents(slots: seq<Ptr>, put: seq<Ptr>, taken: nat, data: Ptr)
    requires Contents(slots, put, taken) && |put| < taken + |slots| && data != NULL
    ensures slots[Node(|put|, |slots|)] == NULL
    ensures Contents(slots[Node(|put|, |slots|) := data], put + [data], taken)
  {
    var n := |slots|;
    var t := slots[Node(|put|, n) := data];
    forall k | taken <= k < taken + n && k != |put| ensures t[Node(k, n)] == slots[Node(k, n)] {
      if k < |put| { NodesDistinct(k, |put|, n); } else { NodesDistinct(|put|, k, n); }
    }
  }

  lemma {:induction false} ClearContents(slots: seq<Ptr>, put: seq<Ptr>, taken: nat)
    requires Contents(slots, put, taken) && taken < |put|
    ensures slots[Node(taken, |slots|)] == put[taken]
    ensures Contents(slots[Node(taken, |slots|) := NULL], put, taken + 1)
  {
    var n := |slots|;
    var t := slots[Node(taken, n) := NULL];
    forall k | taken < k < taken + n ensures t[Node(k, n)] == slots[Node(k, n)] {
      NodesDistinct(taken, k, n);
    }
    assert Node(taken + n, n) == Node(taken, n);
  }

  lemma {:induction false} InvInRange(s: State)
    requires Inv(s)
    ensures InRange(s)
  {
  }

  lemma {:induction false} InitialInv(n: nat)
    requires n >= 1
    ensures Inv(Initial(n))
  {
  }

  lemma {:induction false} TestFreeKeepsInv(s: State, data: Ptr)
    requires Inv(s) && InRange(s) && Enabled(s, TestFree(data))
    ensures Inv(Do(s, TestFree(data)))
  {
    if |s.put| == Taken(s) + |s.slots| {
      ClearContents(s.slots, s.put, Taken(s));
    }
  }

  lemma {:induction false} LockPKeepsInv(s: State)
    requires Inv(s) && InRange(s) && Enabled(s, LockP)
    ensures Inv(Do(s, LockP))
  {
  }

  lemma {:induction false} WriteKeepsInv(s: State)
    requires Inv(s) && InRange(s) && Enabled(s, Write)
    ensures Inv(Do(s, Write))
  {
    WriteContents(s.slots, s.put, Taken(s), s.p.data);
  }

  lemma {:induction false} MoveLastKeepsInv(s: State)
    requires Inv(s) && InRange(s) && Enabled(s, MoveLast)
    ensures Inv(Do(s, MoveLast))
  {
    NodeNext(|s.put| - 1, |s.slots|);
  }

  lemma {:induction false} CountUpKeepsInv(s: State)
    requires Inv(s) && InRange(s) && Enabled(s, CountUp)
    ensures Inv(Do(s, CountUp))
  {
  }

  lemma {:induction false} UnlockPKeepsInv(s: State)
    requires Inv(s) && InRange(s) && Enabled(s, UnlockP)
    ensures Inv(Do(s, UnlockP))
  {
  }

  lemma {:induction false} TestFullKeepsInv(s: State)
    requires Inv(s) && InRange(s) && Enabled(s, TestFull)
    ensures Inv(Do(s, TestFull))
  {
  }

  lemma {:induction false} LockCKeepsInv(s: State)
    requires Inv(s) && InRange(s) && Enabled(s, LockC)
    ensures Inv(Do(s, LockC))
  {
  }

  lemma {:induction false} ReadKeepsInv(s: State)
    requires Inv(s) && InRange(s) && Enabled(s, Read)
    ensures Inv(Do(s, Read))
  {
  }

  lemma {:induction false} ClearKeepsInv(s: State)
    requires Inv(s) && InRange(s) && Enabled(s, Clear)
    ensures Inv(Do(s, Clear))
  {
    ClearContents(s.slots, s.put, Taken(s));
  }

  lemma {:induction false} MoveFirstKeepsInv(s: State)
    requires Inv(s) && InRange(s) && Enabled(s, MoveFirst)
    ensures Inv(Do(s, MoveFirst))
  {
    NodeNext(Taken(s) - 1, |s.slots|);
  }

  lemma {:induction false} CountDownKeepsInv(s: State)
    requires Inv(s) && InRange(s) && Enabled(s, CountDown)
    ensures Inv(Do(s, CountDown))
  {
  }

  lemma {:induction false} UnlockCKeepsInv(s: State)
    requires Inv(s) && InRange(s) && Enabled(s, UnlockC)
    ensures Inv(Do(s, UnlockC))
  {
    assert s.put[..|s.got| + 1] == s.put[..|s.got|] + [s.put[|s.got|]];
  }

  lemma {:induction false} StepKeepsInv(s: State, step: Step)
    requires Inv(s) && Enabled(s, step)
    ensures InRange(s) && Inv(Do(s, step))
  {
    InvInRange(s);
    match step
    case TestFree(data) => TestFreeKeepsInv(s, data);
    case LockP => LockPKeepsInv(s);
    case Write => WriteKeepsInv(s);
    case MoveLast => MoveLastKeepsInv(s);
    case CountUp => CountUpKeepsInv(s);
    case UnlockP => UnlockPKeepsInv(s);
    case TestFull => TestFullKeepsInv(s);
    case LockC => LockCKeepsInv(s);
    case Read => ReadKeepsInv(s);
    case Clear => ClearKeepsInv(s);
    case MoveFirst => MoveFirstKeepsInv(s);
    case CountDown => CountDownKeepsInv(s);
    case UnlockC => UnlockCKeepsInv(s);
  }

  // ---------------------------------------------------------------- over all interleavings

  ghost predicate Schedulable(s: State, steps: seq<Step>)
    decreases |steps|
  {
    steps == [] ||
    (InRange(s) && Enabled(s, steps[0]) && Schedulable(Do(s, steps[0]), steps[1..]))
  }

  ghost function Run(s: State, steps: seq<Step>): State
    requires Schedulable(s, steps)
    decreases |steps|
  {
    if steps == [] then s else Run(Do(s, steps[0]), steps[1..])
  }

  lemma {:induction false} RunKeepsInv(s: State, steps: seq<Step>)
    requires Inv(s) && Schedulable(s, steps)
    ensures Inv(Run(s, steps)) && |Run(s, steps).slots| == |s.slots|
    decreases |steps|
  {
    if steps != [] {
      StepKeepsInv(s, steps[0]);
      RunKeepsInv(Do(s, steps[0]), steps[1..]);
    }
  }

  ghost predicate Reached(n: nat, steps: seq<Step>, s: State) {
    n >= 1 && Schedulable(Initial(n), steps) && s == Run(Initial(n), steps)
  }

  lemma {:induction false} ReachedInv(n: nat, steps: seq<Step>, s: State)
    requires Reached(n, steps, s)
    ensures Inv(s) && |s.slots| == n
  {
    InitialInv(n);
    RunKeepsInv(Initial(n), steps);
  }

  /** The tests made before taking the mutex still hold when they are relied on: the producer
      writes into a free node, the consumer reads and clears the oldest element undelivered. */
  lemma {:induction false} TestsStayTrue(n: nat, steps: seq<Step>, s: State)
    requires Reached(n, steps, s)
    ensures InRange(s)
    ensures s.p.PTested? || s.p.PLocked? ==> s.slots[s.last] == NULL
    ensures s.c == CTested || s.c == CLocked || s.c.CRead? ==>
              |s.got| < |s.put| && s.slots[s.first] == s.put[|s.got|] != NULL
    ensures s.c.CRead? ==> s.c.data == s.put[|s.got|]
  {
    ReachedInv(n, steps, s);
    InvInRange(s);
    if s.p.PTested? || s.p.PLocked? {
      WriteContents(s.slots, s.put, Taken(s), s.p.data);
    }
    if s.c == CTested || s.c == CLocked || s.c.CRead? {
      ClearContents(s.slots, s.put, Taken(s));
    }
  }

  /** The data passed to queue() by the calls that found a free node, in order. */
  ghost function Accepted(s: State, steps: seq<Step>): seq<Ptr>
    requires Schedulable(s, steps)
    decreases |steps|
  {
    if steps == [] then []
    else
      (if steps[0].TestFree? && s.slots[s.last] == NULL then [steps[0].data] else [])
      + Accepted(Do(s, steps[0]), steps[1..])
  }

  /** What the calls of dequeue() that have returned an element returned, in order. */
  ghost function Returned(s: State, steps: seq<Step>): seq<Ptr>
    requires Schedulable(s, steps)
    decreases |steps|
  {
    if steps == [] then []
    else (if steps[0].UnlockC? then [s.c.data] else []) + Returned(Do(s, steps[0]), steps[1..])
  }

  /** The element of a call that has found a free node and not yet written into it. */
  ghost function ToWrite(p: Producer): seq<Ptr> {
    if p.PTested? || p.PLocked? then [p.data] else []
  }

  lemma {:induction false} AcceptedStep(s: State, step: Step)
    requires InRange(s) && Enabled(s, step)
    ensures Do(s, step).put + ToWrite(Do(s, step).p)
         == s.put + ToWrite(s.p) + (if step.TestFree? && s.slots[s.last] == NULL then [step.data] else [])
    ensures Do(s, step).got == s.got + (if step.UnlockC? then [s.c.data] else [])
  {
  }

  lemma {:induction false} AcceptedMoves(s: State, steps: seq<Step>)
    requires Schedulable(s, steps)
    ensures Run(s, steps).put + ToWrite(Run(s, steps).p) == s.put + ToWrite(s.p) + Accepted(s, steps)
    ensures Run(s, steps).got == s.got + Returned(s, steps)
    decreases |steps|
  {
    if steps != [] {
      var next := Do(s, steps[0]);
      AcceptedStep(s, steps[0]);
      AcceptedMoves(next, steps[1..]);
      var passed := if steps[0].TestFree? && s.slots[s.last] == NULL then [steps[0].data] else [];
      var returned := if steps[0].UnlockC? then [s.c.data] else [];
      Assoc(s.put + ToWrite(s.p), passed, Accepted(next, steps[1..]));
      Assoc(s.got, returned, Returned(next, steps[1..]));
    }
  }

  /** In every interleaving the elements that dequeue() has returned are a prefix of those passed to
      queue() by calls that found room, so that none is lost, changed, delivered twice or
      overtaken; all but the one about to be written are in put, and at most n + 1 are under way. */
  lemma {:induction false} DeliveredInOrder(n: nat, steps: seq<Step>, s: State)
    requires Reached(n, steps, s)
    ensures Accepted(Initial(n), steps) == s.put + ToWrite(s.p)
    ensures Returned(Initial(n), steps) == s.got <= Accepted(Initial(n), steps)
    ensures |Accepted(Initial(n), steps)| - |s.got| <= n + 1
  {
    ReachedInv(n, steps, s);
    AcceptedMoves(Initial(n), steps);
    assert [] + ToWrite(PIdle) + Accepted(Initial(n), steps) == Accepted(Initial(n), steps);
    assert [] + Returned(Initial(n), steps) == Returned(Initial(n), steps);
  }

  /** A call fails its test exactly when it should: queue() refuses its element exactly if n elements
      written have not been cleared, dequeue() returns NULL at once exactly if all are delivered. */
  lemma {:induction false} FailuresExact(n: nat, steps: seq<Step>, s: State)
    requires Reached(n, steps, s)
    ensures InRange(s)
    ensures s.p == PIdle ==> (s.slots[s.last] != NULL <==> |s.put| == Taken(s) + n)
    ensures s.c == CIdle ==> (s.slots[s.first] == NULL <==> |s.put| == |s.got|)
    ensures forall data :: s.p == PIdle && data != NULL ==>
              && Enabled(s, TestFree(data))
              && Do(s, TestFree(data)) == if |s.put| == Taken(s) + n then s else s.(p := PTested(data))
    ensures s.c == CIdle ==>
              && Enabled(s, TestFull)
              && Do(s, TestFull) == if |s.put| == |s.got| then s else s.(c := CTested)
  {
    ReachedInv(n, steps, s);
    InvInRange(s);
    if |s.put| < Taken(s) + n {
      WriteContents(s.slots, s.put, Taken(s), 1);
    }
    if Taken(s) < |s.put| {
      ClearContents(s.slots, s.put, Taken(s));
    }
  }

  lemma {:induction false} NodeAt(h: nat, k: nat, n: nat)
    requires n >= 1 && k < n
    ensures Node(h + k, n) == At(Node(h, n), k, n)
  {
    if h >= n {
      NodeAt(h - n, k, n);
    }
  }

  /** Whenever both threads are outside the queue functions, the ring is the FIFO of what has
      been written and not yet returned. */
  lemma {:induction false} QuietRingHoldsRest(n: nat, steps: seq<Step>, s: State)
    requires Reached(n, steps, s) && s.p == PIdle && s.c == CIdle
    ensures s.got <= s.put
    ensures Holds(Ring(s.slots, s.first, s.last, s.nelem), s.put[|s.got|..])
  {
    ReachedInv(n, steps, s);
    var h, fifo := |s.got|, s.put[|s.got|..];
    forall k | 0 <= k < n ensures Node(h + k, n) == At(s.first, k, n) {
      NodeAt(h, k, n);
    }
    if |fifo| < n {
      assert s.last == Node(h + |fifo|, n);
    }
  }

  /** How many steps the thread with the mutex has to take until it gives it back. */
  function StepsToUnlock(s: State): nat {
    if s.mutex == ByProducer then
      if s.p.PLocked? then 4 else if s.p == PWritten then 3 else if s.p == PMoved then 2 else 1
    else if s.mutex == ByConsumer then
      if s.c == CLocked then 5 else if s.c.CRead? then 4 else if s.c.CCleared? then 3
      else if s.c.CMoved? then 2 else 1
    else 0
  }

  function NextInside(s: State): Step {
    if s.mutex == ByProducer then
      if s.p.PLocked? then Write else if s.p == PWritten then MoveLast
      else if s.p == PMoved then CountUp else UnlockP
    else
      if s.c == CLocked then Read else if s.c.CRead? then Clear else if s.c.CCleared? then MoveFirst
      else if s.c.CMoved? then CountDown else UnlockC
  }

  /** The two threads never block each other for good: the one with the mutex can always go on,
      gives it back within five of its own steps, and no step of the other thread delays it. */
  lemma {:induction false} MutexIsGivenBack(n: nat, steps: seq<Step>, s: State)
    requires Reached(n, steps, s) && s.mutex != Unlocked
    ensures InRange(s) && Enabled(s, NextInside(s))
    ensures StepsToUnlock(Do(s, NextInside(s))) == StepsToUnlock(s) - 1 <= 4
    ensures forall step :: Enabled(s, step) && step != NextInside(s) ==>
              StepsToUnlock(Do(s, step)) == StepsToUnlock(s)
  {
    ReachedInv(n, steps, s);
    InvInRange(s);
  }
}
