/** The queue of queue.c: a ring of linked nodes in which a null data pointer marks a free node.
    First the ring on values and the bounded FIFO it refines, then the ring in memory. */
module RingQueue {
  import opened Sequences

  /** A void pointer; NULL is 0. */
  type Ptr = int
  const NULL: Ptr := 0

  // ---------------------------------------------------------------- the ring on values

  /** Nodes are numbered in ring order. */
  datatype Ring = Ring(slots: seq<Ptr>, first: nat, last: nat, nelem: int)

  function Next(i: nat, n: nat): nat {
    if i + 1 == n then 0 else i + 1
  }

  /** The node k steps after node f, for k up to n. */
  function At(f: nat, k: nat, n: nat): nat {
    if f + k < n then f + k else f + k - n
  }

  ghost predicate Shaped(r: Ring) {
    r.first < |r.slots| && r.last < |r.slots|
  }

  /** The body of queue() under the lock, and that of dequeue(). */
  function Put(r: Ring, data: Ptr): Ring
    requires r.last < |r.slots|
  {
    Ring(r.slots[r.last := data], r.first, Next(r.last, |r.slots|), r.nelem + 1)
  }

  function Take(r: Ring): Ring
    requires r.first < |r.slots|
  {
    Ring(r.slots[r.first := NULL], Next(r.first, |r.slots|), r.last, r.nelem - 1)
  }

  /** The ring holds exactly this FIFO: its elements from first onward, then free nodes. */
  ghost predicate Holds(r: Ring, fifo: seq<Ptr>) {
    var n := |r.slots|;
    && r.first < n && r.nelem == |fifo| <= n
    && r.last == (if |fifo| < n then At(r.first, |fifo|, n) else r.first)
    && (forall k :: 0 <= k < |fifo| ==> fifo[k] != NULL && r.slots[At(r.first, k, n)] == fifo[k])
    && (forall k :: |fifo| <= k < n ==> r.slots[At(r.first, k, n)] == NULL)
  }

  /** The test of queue() tells exactly whether the FIFO is full, that of dequeue() whether it
      is empty. */
  lemma {:induction false} TestsExact(r: Ring, fifo: seq<Ptr>)
    requires Holds(r, fifo)
    ensures Shaped(r)
    ensures r.slots[r.last] != NULL <==> |fifo| == |r.slots|
    ensures r.slots[r.first] == NULL <==> fifo == []
  {
    var n := |r.slots|;
    assert At(r.first, 0, n) == r.first;
    if |fifo| < n {
      assert r.last == At(r.first, |fifo|, n);
    } else {
      assert r.last == At(r.first, 0, n);
    }
  }

  lemma {:induction false} PutAppends(r: Ring, fifo: seq<Ptr>, data: Ptr)
    requires Holds(r, fifo) && |fifo| < |r.slots| && data != NULL
    ensures r.last < |r.slots|
    ensures Holds(Put(r, data), fifo + [data])
  {
  }

  /** Writing keeps the ring a FIFO exactly when the pointer written is not null. */
  lemma {:induction false} PutNeedsNonNull(r: Ring, fifo: seq<Ptr>, data: Ptr)
    requires Holds(r, fifo) && |fifo| < |r.slots|
    ensures r.last < |r.slots|
    ensures (exists q :: Holds(Put(r, data), q)) <==> data != NULL
  {
    if data != NULL {
      PutAppends(r, fifo, data);
    } else {
      forall q ensures !Holds(Put(r, data), q) {
        NullHoldsNothing(r, fifo, q);
      }
    }
  }

  /** A null element put into an empty ring of two nodes: it counts, and the ring looks empty. */
  lemma {:induction false} NullIsLost()
    ensures var t := Put(Ring([NULL, NULL], 0, 0, 0), NULL);
            Holds(Ring([NULL, NULL], 0, 0, 0), []) && t.nelem == 1 && RingCall(t, Dequeue) == (t, NULL)
  {
    var r := Ring([NULL, NULL], 0, 0, 0);
    assert r.slots[0] == NULL && r.slots[1] == NULL;
  }

  lemma {:induction false} NullHoldsNothing(r: Ring, fifo: seq<Ptr>, q: seq<Ptr>)
    requires Holds(r, fifo) && |fifo| < |r.slots|
    ensures r.last < |r.slots| && !Holds(Put(r, NULL), q)
  {
  }

  lemma {:induction false} TakeRemoves(r: Ring, fifo: seq<Ptr>)
    requires Holds(r, fifo) && fifo != []
    ensures r.slots[r.first] == fifo[0]
    ensures Holds(Take(r), fifo[1..])
  {
    var n := |r.slots|;
    var t := Take(r);
    assert At(r.first, 0, n) == r.first;
    forall k | 0 <= k < n - 1
      ensures t.slots[At(t.first, k, n)] == r.slots[At(r.first, k + 1, n)]
    {
      assert At(t.first, k, n) == At(r.first, k + 1, n) != r.first;
    }
    assert At(t.first, n - 1, n) == r.first;
    forall k | |fifo[1..]| <= k < n ensures t.slots[At(t.first, k, n)] == NULL {
    }
  }

  /** The writes of several producers that have all passed the test, one after the other. */
  function PutAll(r: Ring, ds: seq<Ptr>): Ring
    requires r.last < |r.slots|
    decreases |ds|
  {
    if ds == [] then r else PutAll(Put(r, ds[0]), ds[1..])
  }

  /** The reads of several consumers that have all passed the test. */
  function TakeAll(r: Ring, k: nat): Ring
    requires r.first < |r.slots|
    decreases k
  {
    if k == 0 then r else TakeAll(Take(r), k - 1)
  }

  lemma {:induction false} PutAllCounts(r: Ring, ds: seq<Ptr>)
    requires r.last < |r.slots|
    ensures PutAll(r, ds).nelem == r.nelem + |ds| && |PutAll(r, ds).slots| == |r.slots|
    decreases |ds|
  {
    if ds != [] {
      PutAllCounts(Put(r, ds[0]), ds[1..]);
    }
  }

  lemma {:induction false} PutAllAppends(r: Ring, fifo: seq<Ptr>, ds: seq<Ptr>)
    requires Holds(r, fifo) && |fifo| + |ds| <= |r.slots| && NULL !in ds
    ensures r.last < |r.slots| && Holds(PutAll(r, ds), fifo + ds)
    decreases |ds|
  {
    TestsExact(r, fifo);
    if ds != [] {
      PutAppends(r, fifo, ds[0]);
      PutAllAppends(Put(r, ds[0]), fifo + [ds[0]], ds[1..]);
      assert fifo + [ds[0]] + ds[1..] == fifo + ds;
    } else {
      assert fifo + [] == fifo;
    }
  }

  /** The test promises one free node.  After several producers have passed it, their writes keep
      the ring a FIFO if and only if there were free nodes for all of them; it then holds their
      data behind what it held. */
  lemma {:induction false} WritesKeepFifoIff(r: Ring, fifo: seq<Ptr>, ds: seq<Ptr>)
    requires Holds(r, fifo) && NULL !in ds
    ensures r.last < |r.slots|
    ensures (exists q :: Holds(PutAll(r, ds), q)) <==> |fifo| + |ds| <= |r.slots|
    ensures |fifo| + |ds| <= |r.slots| ==> Holds(PutAll(r, ds), fifo + ds)
  {
    TestsExact(r, fifo);
    PutAllCounts(r, ds);
    if |fifo| + |ds| <= |r.slots| {
      PutAllAppends(r, fifo, ds);
    }
  }

  lemma {:induction false} TakeAllRemoves(r: Ring, fifo: seq<Ptr>, k: nat)
    requires Holds(r, fifo) && k <= |fifo|
    ensures r.first < |r.slots| && Holds(TakeAll(r, k), fifo[k..])
    decreases k
  {
    if k > 0 {
      TakeRemoves(r, fifo);
      TakeAllRemoves(Take(r), fifo[1..], k - 1);
      assert fifo[1..][k - 1..] == fifo[k..];
    } else {
      assert fifo[0..] == fifo;
    }
  }

  lemma {:induction false} TakeAllCounts(r: Ring, k: nat)
    requires r.first < |r.slots|
    ensures TakeAll(r, k).nelem == r.nelem - k
    decreases k
  {
    if k > 0 {
      TakeAllCounts(Take(r), k - 1);
    }
  }

  /** Likewise the reads of several consumers that have passed the test keep the ring a FIFO if
      and only if there were elements for all of them. */
  lemma {:induction false} ReadsKeepFifoIff(r: Ring, fifo: seq<Ptr>, k: nat)
    requires Holds(r, fifo)
    ensures r.first < |r.slots|
    ensures (exists q :: Holds(TakeAll(r, k), q)) <==> k <= |fifo|
    ensures k <= |fifo| ==> Holds(TakeAll(r, k), fifo[k..])
  {
    TakeAllCounts(r, k);
    if k <= |fifo| {
      TakeAllRemoves(r, fifo, k);
    }
  }

  /** One producer too many overwrites the oldest element. */
  lemma {:induction false} TwoProducersLoseAnElement(r: Ring, fifo: seq<Ptr>, a: Ptr, b: Ptr)
    requires Holds(r, fifo) && |fifo| + 1 == |r.slots| && fifo != []
    requires a != NULL && b != NULL
    ensures Shaped(r) && r.slots[r.last] == NULL
    ensures var t := Put(Put(r, a), b);
            t.slots[t.first] == b && t.nelem == |r.slots| + 1 && forall q :: !Holds(t, q)
  {
  }

  /** One consumer too many is handed null. */
  lemma {:induction false} TwoConsumersReadNull(r: Ring, fifo: seq<Ptr>)
    requires Holds(r, fifo) && |fifo| == 1
    ensures Shaped(r) && r.slots[r.first] == fifo[0]
    ensures |r.slots| > 1 ==> Take(r).slots[Take(r).first] == NULL
    ensures Take(Take(r)).nelem == -1 && forall q :: !Holds(Take(Take(r)), q)
  {
  }

  // ---------------------------------------------------------------- histories of calls

  datatype Call = Enqueue(data: Ptr) | Dequeue

  /** queue() and dequeue() as single calls, with what they return. */
  function RingCall(r: Ring, call: Call): (Ring, int)
    requires r.first < |r.slots| && r.last < |r.slots|
  {
    match call
    case Enqueue(data) => if r.slots[r.last] != NULL then (r, -1) else (Put(r, data), 0)
    case Dequeue => if r.slots[r.first] == NULL then (r, NULL) else (Take(r), r.slots[r.first])
  }

  /** The FIFO of n places. */
  function FifoCall(q: seq<Ptr>, n: nat, call: Call): (seq<Ptr>, int) {
    match call
    case Enqueue(data) => if |q| >= n then (q, -1) else (q + [data], 0)
    case Dequeue => if q == [] then (q, NULL) else (q[1..], q[0])
  }

  ghost function FifoResults(q: seq<Ptr>, n: nat, calls: seq<Call>): seq<int>
    decreases |calls|
  {
    if calls == [] then []
    else [FifoCall(q, n, calls[0]).1] + FifoResults(FifoCall(q, n, calls[0]).0, n, calls[1..])
  }

  ghost function RingResults(r: Ring, calls: seq<Call>): seq<int>
    requires Shaped(r)
    decreases |calls|
  {
    if calls == [] then []
    else
      var (t, result) := RingCall(r, calls[0]);
      [result] + RingResults(t, calls[1..])
  }

  ghost predicate NonNull(calls: seq<Call>) {
    forall i :: 0 <= i < |calls| && calls[i].Enqueue? ==> calls[i].data != NULL
  }

  lemma {:induction false} CallRefines(r: Ring, fifo: seq<Ptr>, call: Call)
    requires Holds(r, fifo) && (call.Enqueue? ==> call.data != NULL)
    ensures Shaped(r)
    ensures RingCall(r, call).1 == FifoCall(fifo, |r.slots|, call).1
    ensures Holds(RingCall(r, call).0, FifoCall(fifo, |r.slots|, call).0)
    ensures |RingCall(r, call).0.slots| == |r.slots|
  {
    TestsExact(r, fifo);
    match call
    case Enqueue(data) => if |fifo| < |r.slots| { PutAppends(r, fifo, data); }
    case Dequeue => if fifo != [] { TakeRemoves(r, fifo); }
  }

  /** Whatever the calls, they return what those of a bounded FIFO return. */
  lemma {:induction false} RingRefinesFifo(r: Ring, fifo: seq<Ptr>, calls: seq<Call>)
    requires Holds(r, fifo) && NonNull(calls) && Shaped(r)
    ensures RingResults(r, calls) == FifoResults(fifo, |r.slots|, calls)
    decreases |calls|
  {
    if calls != [] {
      CallRefines(r, fifo, calls[0]);
      var t, q := RingCall(r, calls[0]).0, FifoCall(fifo, |r.slots|, calls[0]).0;
      TestsExact(t, q);
      RingRefinesFifo(t, q, calls[1..]);
    }
  }

  /** The data of the calls of queue() that succeeded. */
  function Accepted(calls: seq<Call>, results: seq<int>): seq<Ptr>
    requires |calls| == |results|
  {
    if calls == [] then []
    else (if calls[0].Enqueue? && results[0] == 0 then [calls[0].data] else []) + Accepted(calls[1..], results[1..])
  }

  /** The elements that the calls of dequeue() returned. */
  function Returned(calls: seq<Call>, results: seq<int>): seq<Ptr>
    requires |calls| == |results|
  {
    if calls == [] then []
    else (if calls[0].Dequeue? && results[0] != NULL then [results[0]] else []) + Returned(calls[1..], results[1..])
  }

  /** queue() fails exactly when n elements are held, dequeue() returns NULL exactly when none is. */
  ghost predicate AnsweredRight(held: nat, n: nat, calls: seq<Call>, results: seq<int>)
    requires |calls| == |results|
    decreases |calls|
  {
    calls == [] ||
    match calls[0]
    case Enqueue(_) =>
      && results[0] == (if held < n then 0 else -1)
      && AnsweredRight(if held < n then held + 1 else held, n, calls[1..], results[1..])
    case Dequeue =>
      && (results[0] == NULL <==> held == 0)
      && AnsweredRight(if held > 0 then held - 1 else held, n, calls[1..], results[1..])
  }

  lemma {:induction false} FifoHistory(q: seq<Ptr>, n: nat, calls: seq<Call>) returns (rest: seq<Ptr>)
    requires |q| <= n && NULL !in q && NonNull(calls)
    ensures |FifoResults(q, n, calls)| == |calls|
    ensures AnsweredRight(|q|, n, calls, FifoResults(q, n, calls))
    ensures q + Accepted(calls, FifoResults(q, n, calls)) == Returned(calls, FifoResults(q, n, calls)) + rest
    decreases |calls|
  {
    if calls == [] {
      rest := q;
    } else {
      var next, result := FifoCall(q, n, calls[0]).0, FifoCall(q, n, calls[0]).1;
      NextHolds(q, n, calls[0]);
      rest := FifoHistory(next, n, calls[1..]);
      var results := FifoResults(next, n, calls[1..]);
      assert ([result] + results)[1..] == results;
      assert FifoResults(q, n, calls) == [result] + results;
      FirstCallMoves(q, n, calls[0], Accepted(calls[1..], results), Returned(calls[1..], results), rest);
    }
  }

  lemma {:induction false} NextHolds(q: seq<Ptr>, n: nat, call: Call)
    requires |q| <= n && NULL !in q && (call.Enqueue? ==> call.data != NULL)
    ensures var next := FifoCall(q, n, call).0;
            && |next| <= n && NULL !in next
            && |next| == match call
               case Enqueue(_) => if |q| < n then |q| + 1 else |q|
               case Dequeue => if |q| > 0 then |q| - 1 else |q|
  {
  }

  lemma {:induction false} FirstCallMoves(q: seq<Ptr>, n: nat, call: Call, accepted: seq<Ptr>, returned: seq<Ptr>,
                                          rest: seq<Ptr>)
    requires |q| <= n && NULL !in q
    requires FifoCall(q, n, call).0 + accepted == returned + rest
    ensures q + ((if call.Enqueue? && FifoCall(q, n, call).1 == 0 then [call.data] else []) + accepted)
         == (if call.Dequeue? && FifoCall(q, n, call).1 != NULL then [FifoCall(q, n, call).1] else []) + returned + rest
  {
    var none: seq<Ptr> := [];
    assert none + accepted == accepted && none + returned == returned;
    if call.Enqueue? && |q| < n {
      Assoc(q, [call.data], accepted);
    } else if call.Dequeue? && q != [] {
      assert q == [q[0]] + q[1..];
      Assoc([q[0]], q[1..], accepted);
      Assoc([q[0]], returned, rest);
    }
  }

  /** Whatever the calls on a ring that holds a FIFO: what it held and what queue() accepted is, in
      order, what dequeue() returned and what is left; and each call is refused exactly when the
      ring is full or empty. */
  lemma {:induction false} HistoryExact(r: Ring, fifo: seq<Ptr>, calls: seq<Call>) returns (rest: seq<Ptr>)
    requires Holds(r, fifo) && NonNull(calls) && Shaped(r)
    ensures |RingResults(r, calls)| == |calls|
    ensures AnsweredRight(|fifo|, |r.slots|, calls, RingResults(r, calls))
    ensures fifo + Accepted(calls, RingResults(r, calls)) == Returned(calls, RingResults(r, calls)) + rest
  {
    RingRefinesFifo(r, fifo, calls);
    rest := FifoHistory(fifo, |r.slots|, calls);
  }

  // ---------------------------------------------------------------- the ring in memory

  class QElem {
    var qForw: QElem?
    var data: Ptr
    constructor ()
      ensures qForw == null && data == NULL
    {
      qForw, data := null, NULL;
    }
  }

  /** malloc and free: live is what has been allocated and not freed; freeing anything else is
      ruled out by a precondition.  left is how many allocations still succeed. */
  class Memory {
    var left: nat
    ghost var live: set<QElem>

    method Malloc() returns (e: QElem?)
      modifies this
      ensures old(left) == 0 ==> e == null && live == old(live) && left == 0
      ensures old(left) > 0 ==>
                e != null && fresh(e) && e.qForw == null && e.data == NULL
                && live == old(live) + {e} && left == old(left) - 1
    {
      if left == 0 {
        return null;
      }
      left := left - 1;
      e := new QElem();
      live := live + {e};
    }

    method Free(e: QElem)
      requires e in live
      modifies this`live
      ensures live == old(live) - {e}
    {
      live := live - {e};
    }
  }

  ghost function SetOf(s: seq<QElem>): set<QElem> {
    set i | 0 <= i < |s| :: s[i]
  }

  ghost predicate Distinct(s: seq<QElem>) {
    forall i, j :: 0 <= i < j < |s| ==> s[i] != s[j]
  }

  /** queue_t.  maxElements is MAX_QUEUE_ELEMENTS, 10 in the header. */
  class Queue {
    const maxElements: nat
    var first: QElem?
    var last: QElem?
    var nelem: int
    ghost var nodes: seq<QElem>   // the ring, from the node allocated first
    ghost var model: Ring

    constructor (maxElements: nat)
      requires maxElements >= 2
      ensures this.maxElements == maxElements
    {
      this.maxElements := maxElements;
      first, last, nelem, nodes, model := null, null, 0, [], Ring([], 0, 0, 0);
    }

    ghost predicate Valid()
      reads this, nodes
    {
      && |nodes| == |model.slots| == maxElements - 1 > 0
      && Distinct(nodes)
      && model.first < |nodes| && model.last < |nodes|
      && first == nodes[model.first] && last == nodes[model.last] && nelem == model.nelem
      && (forall i {:trigger nodes[i].qForw} :: 0 <= i < |nodes| ==> nodes[i].qForw == nodes[Next(i, |nodes|)])
      && (forall i {:trigger nodes[i].data} :: 0 <= i < |nodes| ==> nodes[i].data == model.slots[i])
    }

    /** queue */
    method Enqueue(data: Ptr) returns (ret: int)
      requires Valid()
      modifies this, nodes
      ensures Valid() && nodes == old(nodes)
      ensures (model, ret) == RingCall(old(model), Call.Enqueue(data))
      ensures forall q :: Holds(old(model), q) ==>
                && (ret == -1 <==> |q| == |nodes|)
                && (ret == -1 ==> model == old(model))
                && (ret != -1 && data != NULL ==> ret == 0 && Holds(model, q + [data]))
    {
      ghost var was := model;
      forall q | Holds(was, q) ensures was.slots[was.last] != NULL <==> |q| == |nodes| {
        TestsExact(was, q);
      }
      if last.data != NULL {
        return -1;
      }
      last.data := data;
      last := last.qForw;
      nelem := nelem + 1;
      model := Put(model, data);
      forall q | Holds(was, q) && data != NULL ensures Holds(model, q + [data]) {
        PutAppends(was, q, data);
      }
      ret := 0;
    }

    /** dequeue */
    method DequeueOne() returns (data: Ptr)
      requires Valid()
      modifies this, nodes
      ensures Valid() && nodes == old(nodes)
      ensures (model, data) == RingCall(old(model), Dequeue)
      ensures forall q :: Holds(old(model), q) ==>
                && (data == NULL <==> q == [])
                && (q == [] ==> model == old(model))
                && (q != [] ==> data == q[0] && Holds(model, q[1..]))
    {
      ghost var was := model;
      forall q | Holds(was, q) ensures was.slots[was.first] == NULL <==> q == [] {
        TestsExact(was, q);
      }
      if first.data == NULL {
        return NULL;
      }
      data := first.data;
      first.data := NULL;
      first := first.qForw;
      nelem := nelem - 1;
      model := Take(model);
      forall q | Holds(was, q) && q != [] ensures data == q[0] && Holds(model, q[1..]) {
        TakeRemoves(was, q);
      }
    }

    /** getquenelem */
    method GetNelem() returns (n: int)
      requires Valid()
      ensures forall q :: Holds(model, q) ==> n == |q|
    {
      n := nelem;
    }

    /** queue_init: an empty ring, or, when memory runs out, -1 with everything given back. */
    method Init(memory: Memory) returns (ret: int)
      requires maxElements >= 2
      modifies this, memory
      ensures ret == if old(memory.left) >= maxElements - 1 then 0 else -1
      ensures ret == 0 ==>
                && Valid() && fresh(nodes) && Holds(model, [])
                && memory.live == old(memory.live) + SetOf(nodes)
      ensures ret == -1 ==> memory.live == old(memory.live)
    {
      first := memory.Malloc();
      if first == null {
        return -1;
      }
      var current: QElem := first;
      last := first;
      nelem := 0;
      nodes := [first];
      var i := 0;
      while i < maxElements - 2
        invariant 0 <= i <= maxElements - 2 && |nodes| == i + 1
        invariant Chain() && current == nodes[i] && last == first && nelem == 0
        invariant fresh(nodes) && Distinct(nodes) && SetOf(nodes) !! old(memory.live)
        invariant forall k {:trigger nodes[k].data} :: 0 <= k < |nodes| ==> nodes[k].data == NULL
        invariant memory.live == old(memory.live) + SetOf(nodes)
        invariant memory.left + i + 1 == old(memory.left)
      {
        var newelem := memory.Malloc();
        if newelem == null {
          FreeChain(memory);
          return -1;
        }
        current.qForw := newelem;
        current := newelem;
        SetOfAppend(nodes, newelem);
        nodes := nodes + [newelem];
        i := i + 1;
      }
      CloseRing(current);
      ret := 0;
    }

    /** The last step of queue_init: the chain becomes an empty ring. */
    method CloseRing(current: QElem)
      requires Chain() && Distinct(nodes) && |nodes| == maxElements - 1 && current == nodes[|nodes| - 1]
      requires last == first && nelem == 0
      requires forall k {:trigger nodes[k].data} :: 0 <= k < |nodes| ==> nodes[k].data == NULL
      modifies this`model, current
      ensures Valid() && Holds(model, [])
    {
      current.qForw := first;
      model := Ring(seq(|nodes|, k => NULL), 0, 0, 0);
    }

    /** The clean-up loop of queue_init: every node allocated so far is freed once. */
    method FreeChain(memory: Memory)
      requires Chain() && Distinct(nodes) && SetOf(nodes) <= memory.live
      modifies this`first, memory`live
      ensures first == null && memory.live == old(memory.live) - SetOf(nodes)
    {
      ghost var k := 0;
      while first != null
        invariant 0 <= k <= |nodes| && first == if k < |nodes| then nodes[k] else null
        invariant memory.live == old(memory.live) - SetOf(nodes[..k])
        decreases |nodes| - k
      {
        NotYetFreed(nodes, k);
        var current := first.qForw;
        memory.Free(first);
        first := current;
        SetOfNext(nodes, k);
        k := k + 1;
      }
      assert nodes[..k] == nodes;
    }

    /** queue_deinit: from any rotation, every node of the ring is freed once. */
    method Deinit(memory: Memory)
      requires Valid() && SetOf(nodes) <= memory.live
      modifies this`first, memory`live
      ensures first == null && memory.live == old(memory.live) - SetOf(nodes)
    {
      ghost var n, f := |nodes|, model.first;
      ghost var turned := nodes[f..] + nodes[..f];
      Turned(nodes, f);
      var current := first;
      var i := 0;
      while i < maxElements - 2
        invariant 0 <= i <= maxElements - 2 == n - 1 && first == current == turned[i]
        invariant memory.live == old(memory.live) - SetOf(turned[..i])
      {
        NotYetFreed(turned, i);
        assert turned[i] == nodes[At(f, i, n)] && turned[i + 1] == nodes[At(f, i + 1, n)];
        if current != null {
          current := current.qForw;
          memory.Free(first);
          first := current;
        }
        SetOfNext(turned, i);
        i := i + 1;
      }
      NotYetFreed(turned, i);
      SetOfNext(turned, i);
      if first != null {
        memory.Free(first);
        first := null;
      }
      assert turned[..n] == turned;
    }

    /** A null-terminated chain hangs off first. */
    ghost predicate Chain()
      reads this, nodes
    {
      && nodes != [] && first == nodes[0]
      && forall k {:trigger nodes[k].qForw} :: 0 <= k < |nodes| ==>
           nodes[k].qForw == if k + 1 < |nodes| then nodes[k + 1] else null
    }
  }

  lemma {:induction false} NotYetFreed(nodes: seq<QElem>, k: nat)
    requires Distinct(nodes) && k < |nodes|
    ensures nodes[k] !in SetOf(nodes[..k])
  {
  }

  lemma {:induction false} SetOfNext(nodes: seq<QElem>, k: nat)
    requires k < |nodes|
    ensures SetOf(nodes[..k + 1]) == SetOf(nodes[..k]) + {nodes[k]}
  {
  }

  lemma {:induction false} SetOfAppend(nodes: seq<QElem>, e: QElem)
    ensures SetOf(nodes + [e]) == SetOf(nodes) + {e}
  {
    SetOfNext(nodes + [e], |nodes|);
    assert (nodes + [e])[..|nodes|] == nodes && (nodes + [e])[..|nodes| + 1] == nodes + [e];
  }

  lemma {:induction false} Turned(nodes: seq<QElem>, f: nat)
    requires f < |nodes| && Distinct(nodes)
    ensures var turned := nodes[f..] + nodes[..f];
            && |turned| == |nodes| && Distinct(turned) && SetOf(turned) == SetOf(nodes)
            && forall i :: 0 <= i < |nodes| ==> turned[i] == nodes[At(f, i, |nodes|)]
  {
    var turned := nodes[f..] + nodes[..f];
    forall x | x in SetOf(nodes) ensures x in SetOf(turned) {
      var i :| 0 <= i < |nodes| && nodes[i] == x;
      assert turned[if i >= f then i - f else i + |nodes| - f] == x;
    }
    forall x | x in SetOf(turned) ensures x in SetOf(nodes) {
      var i :| 0 <= i < |turned| && turned[i] == x;
      assert nodes[At(f, i, |nodes|)] == x;
    }
  }
}
