/** The linked lists of the resource manager: one list of holders and one waiting list per
    component type, each a chain of nodes hanging off a head slot that the functions rewrite
    in place.  The specification of a list is the sequence of its entries. */
module HolderList {
  import opened Sequences

  datatype Option<+T> = None | Some(value: T)

  /** OMX_STATETYPE, the standard states. */
  datatype CompState = Invalid | Loaded | Idle | Executing | Pause | WaitForResources

  /** OMX_COMPONENTTYPE together with the private fields the manager reads. */
  class Component {
    const name: string
    var nGroupPriority: nat
    var state: CompState
  }

  /** What a node records: the component, and its priority and the clock when it was added.
      A larger number is a lower priority. */
  datatype Entry = Entry(comp: Component, priority: nat, timestamp: nat)

  /** OMX_ErrorUndefined, 0x80001001, as an int. */
  const OMX_ERROR_UNDEFINED: int := 0x8000_1001 - 0x1_0000_0000

  datatype Error = ErrorNone | ErrorUndefined | ErrorInsufficientResources | ErrorComponentNotFound

  // ---------------------------------------------------------------- specification

  ghost predicate Increasing(es: seq<Entry>) {
    forall i, j :: 0 <= i < j < |es| ==> es[i].timestamp < es[j].timestamp
  }

  ghost function Comps(es: seq<Entry>): (r: seq<Component>)
    ensures |r| == |es|
    ensures forall i :: 0 <= i < |es| ==> r[i] == es[i].comp
  {
    seq(|es|, i requires 0 <= i < |es| => es[i].comp)
  }

  /** The entries of strictly lower priority than the threshold, in list order. */
  ghost function LowerThan(es: seq<Entry>, threshold: int): seq<Entry> {
    if es == [] then []
    else (if es[0].priority > threshold then [es[0]] else []) + LowerThan(es[1..], threshold)
  }

  /** e is in es and nothing in es is older. */
  ghost predicate IsOldest(e: Entry, es: seq<Entry>) {
    e in es && forall x :: x in es ==> e.timestamp <= x.timestamp
  }

  /** es without its first entry for comp. */
  ghost function RemoveFirst(es: seq<Entry>, comp: Component): seq<Entry> {
    if es == [] then []
    else if es[0].comp == comp then es[1..]
    else [es[0]] + RemoveFirst(es[1..], comp)
  }

  ghost function FirstLower(es: seq<Entry>, threshold: int): (k: nat)
    ensures k <= |es|
    ensures forall i :: 0 <= i < k ==> es[i].priority <= threshold
    ensures k < |es| ==> es[k].priority > threshold
  {
    if es == [] || es[0].priority > threshold then 0 else 1 + FirstLower(es[1..], threshold)
  }

  /** Membership in LowerThan, and its first element. */
  lemma {:induction false} LowerThanExact(es: seq<Entry>, threshold: int)
    ensures forall e :: e in LowerThan(es, threshold) <==> e in es && e.priority > threshold
    ensures forall e :: e in LowerThan(es, threshold) ==> e in es[FirstLower(es, threshold)..]
    ensures LowerThan(es, threshold) == [] <==> FirstLower(es, threshold) == |es|
    ensures LowerThan(es, threshold) != [] ==>
              LowerThan(es, threshold)[0] == es[FirstLower(es, threshold)]
  {
    if es != [] {
      LowerThanExact(es[1..], threshold);
      assert es == [es[0]] + es[1..];
      if es[0].priority <= threshold {
        assert es[FirstLower(es, threshold)..] == es[1..][FirstLower(es[1..], threshold)..];
      } else {
        assert es[0..] == es;
      }
    }
  }

  lemma {:induction false} LowerThanAppend(es: seq<Entry>, e: Entry, threshold: int)
    ensures LowerThan(es + [e], threshold)
         == LowerThan(es, threshold) + (if e.priority > threshold then [e] else [])
  {
    if es == [] {
    } else {
      LowerThanAppend(es[1..], e, threshold);
      assert (es + [e])[1..] == es[1..] + [e];
    }
  }

  /** Why the victim search works although it never rechecks a priority after its first hit:
      on a list whose timestamps increase, the oldest entry of the suffix that starts at the
      first hit is the oldest of exactly the entries of lower priority, and the only one. */
  lemma {:induction false} OldestOfSuffixIsOldestLower(es: seq<Entry>, threshold: int, e: Entry)
    requires Increasing(es)
    requires FirstLower(es, threshold) < |es|
    ensures IsOldest(e, es[FirstLower(es, threshold)..]) <==> IsOldest(e, LowerThan(es, threshold))
    ensures IsOldest(e, LowerThan(es, threshold)) <==> e == es[FirstLower(es, threshold)]
  {
    var k := FirstLower(es, threshold);
    LowerThanExact(es, threshold);
    assert es[k..][0] == es[k];
    UniqueOldest(es, k, es[k..], e);
    UniqueOldest(es, k, LowerThan(es, threshold), e);
  }

  /** In a part of an increasing list that starts with entry k, entry k is the one oldest. */
  lemma {:induction false} UniqueOldest(es: seq<Entry>, k: nat, part: seq<Entry>, e: Entry)
    requires Increasing(es) && k < |es|
    requires es[k] in part
    requires forall x :: x in part ==> x in es[k..]
    ensures IsOldest(e, part) <==> e == es[k]
  {
  }

  /** The state of the victim search after the first k entries. */
  ghost predicate Searched(es: seq<Entry>, threshold: int, k: nat, nComp: nat, candidate: Option<Entry>) {
    && k <= |es|
    && nComp == |LowerThan(es[..k], threshold)|
    && (nComp == 0 <==> k <= FirstLower(es, threshold))
    && (candidate == None <==> nComp == 0)
    && (candidate.Some? ==> IsOldest(candidate.value, es[FirstLower(es, threshold)..k]))
  }

  /** The candidate after the next entry. */
  ghost function Better(candidate: Option<Entry>, e: Entry, nComp: nat): Option<Entry> {
    if nComp == 0 then None
    else if candidate.Some? && candidate.value.timestamp <= e.timestamp then candidate
    else Some(e)
  }

  lemma {:induction false} SearchStep(es: seq<Entry>, threshold: int, k: nat, nComp: nat, candidate: Option<Entry>)
    returns (next: Option<Entry>)
    requires Searched(es, threshold, k, nComp, candidate) && k < |es|
    ensures var n := if es[k].priority > threshold then nComp + 1 else nComp;
            next == Better(candidate, es[k], n) && Searched(es, threshold, k + 1, n, next)
  {
    var first := FirstLower(es, threshold);
    next := Better(candidate, es[k], if es[k].priority > threshold then nComp + 1 else nComp);
    LowerThanAppend(es[..k], es[k], threshold);
    assert es[..k + 1] == es[..k] + [es[k]];
    if first <= k {
      OldestOfLonger(es, first, k, candidate, next.value);
    }
  }

  /** The older of the oldest so far and the next entry is the oldest of all. */
  lemma {:induction false} OldestOfLonger(es: seq<Entry>, first: nat, k: nat, candidate: Option<Entry>, next: Entry)
    requires first <= k < |es|
    requires candidate.Some? ==> IsOldest(candidate.value, es[first..k])
    requires candidate.None? ==> first == k
    requires next == if candidate.Some? && candidate.value.timestamp <= es[k].timestamp then candidate.value else es[k]
    ensures IsOldest(next, es[first..k + 1])
  {
    assert es[first..k + 1] == es[first..k] + [es[k]];
  }

  lemma {:induction false} SearchDone(es: seq<Entry>, threshold: int, nComp: nat, candidate: Option<Entry>)
    requires Searched(es, threshold, |es|, nComp, candidate)
    ensures nComp == |LowerThan(es, threshold)| && (candidate == None <==> nComp == 0)
    ensures candidate.Some? ==> IsOldest(candidate.value, es[FirstLower(es, threshold)..])
  {
    assert es[..|es|] == es;
    assert es[FirstLower(es, threshold)..|es|] == es[FirstLower(es, threshold)..];
  }

  /** Without that order the search goes wrong: it offers an entry of high priority. */
  lemma {:induction false} UnorderedSearchMisleads(a: Component, b: Component)
    ensures var es := [Entry(a, 9, 5), Entry(b, 0, 1)];
            !Increasing(es)
            && IsOldest(es[1], es[FirstLower(es, 4)..])
            && !IsOldest(es[1], LowerThan(es, 4))
  {
    var es := [Entry(a, 9, 5), Entry(b, 0, 1)];
    assert es[0].timestamp > es[1].timestamp;
    assert FirstLower(es, 4) == 0;
    assert es[0..] == es;
    LowerThanExact(es, 4);
  }

  lemma {:induction false} RemoveFirstAt(es: seq<Entry>, comp: Component, k: nat)
    requires k < |es| && es[k].comp == comp
    requires forall i :: 0 <= i < k ==> es[i].comp != comp
    ensures RemoveFirst(es, comp) == es[..k] + es[k + 1..]
  {
    if k > 0 {
      RemoveFirstAt(es[1..], comp, k - 1);
      assert es[..k] == [es[0]] + es[1..][..k - 1];
    }
  }

  lemma {:induction false} RemoveFirstAbsent(es: seq<Entry>, comp: Component)
    requires forall i :: 0 <= i < |es| ==> es[i].comp != comp
    ensures RemoveFirst(es, comp) == es
  {
    if es != [] {
      RemoveFirstAbsent(es[1..], comp);
    }
  }

  /** The position RemoveFirst acts on. */
  lemma {:induction false} FirstWith(es: seq<Entry>, comp: Component) returns (k: nat)
    requires comp in Comps(es)
    ensures k < |es| && es[k].comp == comp
    ensures forall i :: 0 <= i < k ==> es[i].comp != comp
    ensures RemoveFirst(es, comp) == es[..k] + es[k + 1..]
  {
    k := 0;
    var found: nat :| found < |es| && Comps(es)[found] == comp;
    while es[k].comp != comp
      invariant k <= found
      invariant forall i :: 0 <= i < k ==> es[i].comp != comp
      decreases found - k
    {
      k := k + 1;
    }
    RemoveFirstAt(es, comp, k);
  }

  // ---------------------------------------------------------------- the heap

  class ComponentNode {
    var comp: Component
    var nGroupPriority: nat
    var timestamp: nat
    var next: ComponentNode?
    ghost const owner: ListSlot

    constructor (comp: Component, timestamp: nat, ghost owner: ListSlot)
      ensures this.comp == comp && this.timestamp == timestamp && next == null && this.owner == owner
      ensures nGroupPriority == comp.nGroupPriority
    {
      this.comp, this.timestamp, this.next, this.owner := comp, timestamp, null, owner;
      this.nGroupPriority := comp.nGroupPriority;
    }

    ghost function AsEntry(): Entry
      reads this
    {
      Entry(comp, nGroupPriority, timestamp)
    }
  }

  /** One element of globalComponentList or globalWaitingComponentList: the head pointer that
      the C functions receive by address.  Every node remembers its slot, so that two slots
      never share a node. */
  class ListSlot {
    var head: ComponentNode?
    ghost var nodes: seq<ComponentNode>
    ghost var entries: seq<Entry>
    ghost var Repr: set<ComponentNode>    // every node the list ever had
    ghost var freed: set<ComponentNode>   // those of them given to free()
    ghost const position: nat
    ghost const isWaiting: bool

    constructor (ghost position: nat, ghost isWaiting: bool)
      ensures Valid() && entries == [] && Repr == {} && freed == {}
      ensures this.position == position && this.isWaiting == isWaiting
    {
      head, nodes, entries, Repr, freed := null, [], [], {}, {};
      this.position, this.isWaiting := position, isWaiting;
    }

    ghost predicate Valid()
      reads this, Repr
    {
      && (forall n :: n in nodes ==> n in Repr && n !in freed)
      && (forall n :: n in Repr ==> n in nodes || n in freed) && freed <= Repr
      && (forall n :: n in Repr ==> n.owner == this)
      && AllDifferent(nodes)
      && head == NodeAt(0)
      && (forall i {:trigger nodes[i].next} :: 0 <= i < |nodes| ==> nodes[i].next == NodeAt(i + 1))
      && |entries| == |nodes|
      && (forall i :: 0 <= i < |nodes| ==> entries[i] == nodes[i].AsEntry())
    }

    ghost function NodeAt(i: nat): ComponentNode?
      reads this
    {
      if i < |nodes| then nodes[i] else null
    }

    /** free(), of a node that is still allocated. */
    ghost method Free(n: ComponentNode)
      requires n !in freed
      modifies this`freed
      ensures freed == old(freed) + {n}
    {
      freed := freed + {n};
    }

    /** addElemToList */
    method AddElem(comp: Component, timestamp: nat)
      requires Valid()
      modifies this, Repr
      ensures Valid()
      ensures entries == old(entries) + [Entry(comp, comp.nGroupPriority, timestamp)]
      ensures fresh(Repr - old(Repr)) && freed == old(freed)
    {
      if head == null {
        head := new ComponentNode(comp, timestamp, this);
        nodes, entries, Repr := [head], [head.AsEntry()], Repr + {head};
        return;
      }
      var temp := head;
      ghost var k := 0;
      while temp.next != null
        invariant 0 <= k < |nodes| && temp == nodes[k]
        decreases |nodes| - k
      {
        temp := temp.next;
        k := k + 1;
      }
      var added := new ComponentNode(comp, timestamp, this);
      temp.next := added;
      nodes, entries := nodes + [added], entries + [added.AsEntry()];
      Repr := Repr + {added};
    }

    /** removeElemFromList */
    method RemoveElem(comp: Component) returns (err: Error)
      requires Valid()
      modifies this, Repr
      ensures Valid()
      ensures entries == RemoveFirst(old(entries), comp)
      ensures err == if old(entries) == [] then ErrorUndefined
                     else if comp in Comps(old(entries)) then ErrorNone
                     else ErrorComponentNotFound
      ensures Repr == old(Repr) && old(freed) <= freed && |freed - old(freed)| == |old(nodes)| - |nodes|
    {
      ghost var es := entries;
      if head == null {
        return ErrorUndefined;
      }
      var temp := head;
      var prev := head;
      ghost var k := 0;
      var found := false;
      while temp != null
        invariant 0 <= k <= |nodes| && temp == NodeAt(k)
        invariant k == 0 ==> prev == head
        invariant k > 0 ==> prev == nodes[k - 1]
        invariant forall i :: 0 <= i < k ==> es[i].comp != comp
        invariant !found
        modifies {}
        decreases |nodes| - k
      {
        if temp.comp == comp {
          found := true;
          break;
        }
        if temp != head {
          prev := prev.next;
        }
        temp := temp.next;
        k := k + 1;
      }
      if !found {
        RemoveFirstAbsent(es, comp);
        return ErrorComponentNotFound;
      }
      RemoveFirstAt(es, comp, k);
      assert Comps(es)[k] == comp;
      Unlink(temp, prev, k);
      err := ErrorNone;
    }

    /** The pointer surgery of removeElemFromList, on the node at position k. */
    method Unlink(temp: ComponentNode, prev: ComponentNode, ghost k: nat)
      requires Valid() && k < |nodes| && temp == nodes[k]
      requires if k == 0 then prev == head else prev == nodes[k - 1]
      modifies this, Repr
      ensures Valid() && Repr == old(Repr)
      ensures nodes == old(nodes[..k] + nodes[k + 1..])
      ensures entries == old(entries[..k] + entries[k + 1..])
      ensures freed == old(freed) + {temp}
    {
      Spliced(nodes, k);
      assert temp.next == NodeAt(k + 1);
      if temp == head {
        head := head.next;
      } else {
        prev.next := temp.next;
      }
      Free(temp);
      Rename(k);
    }

    /** The ghost side of the removal. */
    ghost method Rename(k: nat)
      requires k < |nodes| && |entries| == |nodes| && freed <= Repr && nodes[k] in freed
      requires forall n :: n in Repr ==> n.owner == this
      requires forall n :: n in Repr <==> n in nodes || n in freed
      requires AllDifferent(nodes)
      requires forall i :: 0 <= i < |nodes| && i != k ==> nodes[i] !in freed
      requires head == NodeAt(if k == 0 then 1 else 0)
      requires forall i {:trigger nodes[i].next} :: 0 <= i < |nodes| && i != k ==>
                 nodes[i].next == NodeAt(if i + 1 == k then k + 1 else i + 1)
      requires forall i :: 0 <= i < |nodes| ==> entries[i] == nodes[i].AsEntry()
      modifies this`nodes, this`entries
      ensures Valid()
      ensures nodes == old(nodes[..k] + nodes[k + 1..])
      ensures entries == old(entries[..k] + entries[k + 1..])
    {
      Spliced(nodes, k);
      Spliced(entries, k);
      SplicedDifferent(nodes, k);
      nodes, entries := nodes[..k] + nodes[k + 1..], entries[..k] + entries[k + 1..];
    }

    /** numElemInList */
    method NumElem() returns (count: nat)
      requires Valid()
      ensures count == |entries|
    {
      count := 0;
      var temp := head;
      while temp != null
        invariant count <= |nodes| && temp == NodeAt(count)
        decreases |nodes| - count
      {
        count := count + 1;
        temp := temp.next;
      }
    }

    /** clearList: every node of the list is freed, once. */
    method Clear()
      requires Valid()
      modifies this, Repr
      ensures Valid() && entries == [] && Repr == old(Repr) && freed == Repr
    {
      if head == null {
        return;
      }
      var temp := head;
      ghost var k := 0;
      while temp != null
        invariant 0 <= k <= |nodes| && temp == NodeAt(k)
        invariant nodes == old(nodes) && entries == old(entries) && Repr == old(Repr)
        invariant forall i :: 0 <= i < k ==> nodes[i] in freed
        invariant forall i :: k <= i < |nodes| ==> nodes[i] !in freed
        invariant old(freed) <= freed <= Repr
        invariant forall n :: n in Repr ==> unchanged(n)
        decreases |nodes| - k
      {
        var prev := temp;
        temp := temp.next;
        Free(prev);
        k := k + 1;
      }
      head, nodes, entries := null, [], [];
    }

    /** searchLowerPriority: the number of entries below the threshold, and the oldest entry from
        the first of them on.  Without a list the result is an error number, which is not zero,
        and the caller's variable stays as it was. */
    method SearchLowerPriority(threshold: int, before: ComponentNode?) returns (nComp: int, candidate: ComponentNode?)
      requires Valid()
      ensures entries == [] ==> nComp == OMX_ERROR_UNDEFINED && candidate == before
      ensures entries != [] ==>
                && nComp == |LowerThan(entries, threshold)|
                && (candidate == null <==> nComp == 0)
                && (candidate != null ==>
                      && candidate in nodes
                      && IsOldest(candidate.AsEntry(), entries[FirstLower(entries, threshold)..]))
    {
      if head == null {
        return OMX_ERROR_UNDEFINED, before;
      }
      nComp, candidate := Search(threshold);
    }

    /** The search loop. */
    method Search(threshold: int) returns (nComp: nat, candidate: ComponentNode?)
      requires Valid() && head != null
      ensures nComp == |LowerThan(entries, threshold)|
      ensures candidate == null <==> nComp == 0
      ensures candidate != null ==>
                && candidate in nodes
                && IsOldest(candidate.AsEntry(), entries[FirstLower(entries, threshold)..])
    {
      ghost var es := entries;
      nComp, candidate := 0, null;
      var temp := head;
      ghost var k := 0;
      ghost var best: Option<Entry> := None;
      while temp != null
        invariant 0 <= k <= |nodes| && temp == NodeAt(k)
        invariant if candidate == null then best == None
                  else candidate in nodes && best == Some(candidate.AsEntry())
        invariant Searched(es, threshold, k, nComp, best)
        decreases |nodes| - k
      {
        best := SearchStep(es, threshold, k, nComp, best);
        assert temp.AsEntry() == es[k];
        if temp.nGroupPriority > threshold {
          nComp := nComp + 1;
        }
        if nComp > 0 {
          if candidate != null {
            if candidate.timestamp > temp.timestamp {
              candidate := temp;
            }
          } else {
            candidate := temp;
          }
        }
        temp := temp.next;
        k := k + 1;
      }
      SearchDone(es, threshold, nComp, best);
    }
  }
}
