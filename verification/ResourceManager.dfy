/** The resource manager itself: the two tables of list slots, the table of registered types and
    the clock, changed in place.  Every method is proved to take the step of ResourcePolicy. */
module ResourceManager {
  import opened HolderList
  import opened ResourcePolicy

  // ---------------------------------------------------------------- a table of slots

  ghost function NodesOf(slots: seq<ListSlot>): (nodes: set<object>)
    reads slots
    ensures forall k :: 0 <= k < |slots| ==> forall n :: n in slots[k].Repr ==> n in nodes
  {
    set k, n | 0 <= k < |slots| && n in slots[k].Repr :: n
  }

  ghost predicate SlotsValid(slots: seq<ListSlot>, isWaiting: bool)
    reads slots, NodesOf(slots)
  {
    && |slots| == MAX_COMPONENTS_TYPES_HANDLED
    && (forall k :: 0 <= k < |slots| ==> slots[k].Valid())
    && (forall k :: 0 <= k < |slots| ==> slots[k].position == k && slots[k].isWaiting == isWaiting)
  }

  ghost function Lists(slots: seq<ListSlot>): (r: seq<seq<Entry>>)
    reads slots
    ensures |r| == |slots|
    ensures forall k :: 0 <= k < |slots| ==> r[k] == slots[k].entries
  {
    seq(|slots|, k requires 0 <= k < |slots| reads slots => slots[k].entries)
  }

  /** s with one list of one of its tables replaced. */
  ghost function WithList(s: RmState, isWaiting: bool, i: nat, es: seq<Entry>): RmState
    requires i < |s.holders| && i < |s.waiting|
  {
    if isWaiting then s.(waiting := s.waiting[i := es]) else s.(holders := s.holders[i := es])
  }

  ghost function ListOf(s: RmState, isWaiting: bool, i: nat): seq<Entry>
    requires i < |s.holders| && i < |s.waiting|
  {
    if isWaiting then s.waiting[i] else s.holders[i]
  }

  twostate predicate Untouched(slot: ListSlot)
    reads slot, slot.Repr
  {
    && slot.head == old(slot.head)
    && slot.nodes == old(slot.nodes)
    && slot.entries == old(slot.entries)
    && slot.Repr == old(slot.Repr) && slot.freed == old(slot.freed)
    && forall n :: n in slot.Repr ==> n.next == old(n.next) && n.AsEntry() == old(n.AsEntry())
  }

  twostate lemma {:induction false} UntouchedKeeps(slot: ListSlot)
    requires old(slot.Valid()) && Untouched(slot)
    ensures slot.Valid() && slot.entries == old(slot.entries)
  {
    forall i | 0 <= i < |slot.nodes|
      ensures slot.nodes[i].next == slot.NodeAt(i + 1) && slot.nodes[i].AsEntry() == old(slot.nodes[i].AsEntry())
    {
      assert slot.nodes[i] in slot.Repr;
      assert old(slot.nodes[i].next == slot.NodeAt(i + 1));
    }
  }

  class Manager {
    const wide: bool
    var registered: seq<Registration>    // listOfcomponentRegistered up to its first null name
    var globalIndex: int
    var globalTimestamp: nat
    const holders: seq<ListSlot>         // globalComponentList
    const waiting: seq<ListSlot>         // globalWaitingComponentList
    var sent: seq<Message>
    ghost const clock: nat               // globalTimestamp at RM_Init
    ghost var history: seq<Op>           // the calls since

    // ---------------------------------------------------------------- specification

    ghost predicate Shape()
      reads this`registered, this`globalIndex, holders, waiting, NodesOf(holders), NodesOf(waiting)
    {
      && SlotsValid(holders, false)
      && SlotsValid(waiting, true)
      && globalIndex == |registered|
    }

    ghost function State(): RmState
      reads this`registered, this`globalTimestamp, this`sent, holders, waiting
    {
      RmState(wide, registered, Lists(holders), Lists(waiting), globalTimestamp, sent)
    }

    /** The lists are well formed and the state has the invariant of ResourcePolicy. */
    ghost predicate Ready()
      reads this`registered, this`globalIndex, this`globalTimestamp, this`sent
      reads holders, waiting, NodesOf(holders), NodesOf(waiting)
    {
      Shape() && Inv(State())
    }

    /** The lists are well formed and the state is that of the calls made since RM_Init. */
    ghost predicate Valid()
      reads this, holders, waiting, NodesOf(holders), NodesOf(waiting)
    {
      Shape() && LeadsTo(wide, clock, history, State())
    }

    // ---------------------------------------------------------------- the calls

    /** The lookup loop shared by every call. */
    method FindRegistered(name: string) returns (i: nat)
      requires Lookup(registered, name).Some? || |registered| < MAX_COMPONENTS_TYPES_HANDLED
      ensures i == |registered| <==> Lookup(registered, name).None?
      ensures Lookup(registered, name).Some? ==> Lookup(registered, name) == Some(i)
    {
      i := 0;
      while i < |registered|
        invariant i <= |registered|
        invariant forall k :: 0 <= k < i ==> registered[k].name != name
      {
        if registered[i].name == name {
          return;
        }
        i := i + 1;
      }
    }

    ghost predicate Listed(slot: ListSlot)
    {
      slot in holders || slot in waiting
    }

    /** A change confined to one slot leaves every other list of the two tables as it was. */
    twostate lemma {:induction false} SlotChanged(slot: ListSlot)
      requires old(Shape()) && slot.Valid() && globalIndex == |registered|
      requires forall t :: Listed(t) && t != slot ==> Untouched(t)
      ensures Shape()
      ensures slot in holders ==>
                && slot.position < |holders|
                && Lists(holders) == old(Lists(holders))[slot.position := slot.entries]
                && Lists(waiting) == old(Lists(waiting))
      ensures slot in waiting ==>
                && slot.position < |waiting|
                && Lists(waiting) == old(Lists(waiting))[slot.position := slot.entries]
                && Lists(holders) == old(Lists(holders))
    {
      forall t | Listed(t) && t != slot
        ensures t.Valid() && t.entries == old(t.entries)
      {
        UntouchedKeeps(t);
      }
      assert Shape() by {
        assert forall k :: 0 <= k < |holders| ==> Listed(holders[k]);
        assert forall k :: 0 <= k < |waiting| ==> Listed(waiting[k]);
      }
      ListsChanged(slot);
    }

    twostate lemma {:induction false} ListsChanged(slot: ListSlot)
      requires Placed(holders, false) && Placed(waiting, true)
      requires forall t :: Listed(t) && t != slot ==> t.entries == old(t.entries)
      ensures slot in holders ==>
                && slot.position < |holders|
                && Lists(holders) == old(Lists(holders))[slot.position := slot.entries]
                && Lists(waiting) == old(Lists(waiting))
      ensures slot in waiting ==>
                && slot.position < |waiting|
                && Lists(waiting) == old(Lists(waiting))[slot.position := slot.entries]
                && Lists(holders) == old(Lists(holders))
    {
      assert forall k :: 0 <= k < |holders| ==> Listed(holders[k]);
      assert forall k :: 0 <= k < |waiting| ==> Listed(waiting[k]);
    }

    static ghost predicate Placed(slots: seq<ListSlot>, isWaiting: bool) {
      forall k :: 0 <= k < |slots| ==> slots[k].position == k && slots[k].isWaiting == isWaiting
    }

    lemma {:induction false} Disjoint(slot: ListSlot)
      requires Shape() && slot.Valid()
      ensures forall t :: Listed(t) && t != slot ==> t.Repr !! slot.Repr
    {
    }

    /** The list part of addElemToList. */
    method AppendTo(slot: ListSlot, comp: Component)
      requires Shape() && Listed(slot)
      modifies slot, slot.Repr
      ensures Shape() && slot.position < MAX_COMPONENTS_TYPES_HANDLED
      ensures var s := old(State());
              State() == WithList(s, slot.isWaiting, slot.position,
                                  ListOf(s, slot.isWaiting, slot.position)
                                  + [Entry(comp, comp.nGroupPriority, s.now)])
    {
      Disjoint(slot);
      slot.AddElem(comp, globalTimestamp);
      SlotChanged(slot);
    }

    /** addElemToList, which also advances the clock. */
    method AddTo(slot: ListSlot, comp: Component)
      requires Shape() && Listed(slot)
      modifies this`globalTimestamp, slot, slot.Repr
      ensures Shape() && slot.position < MAX_COMPONENTS_TYPES_HANDLED
      ensures var s := old(State());
              State() == WithList(s, slot.isWaiting, slot.position,
                                  ListOf(s, slot.isWaiting, slot.position)
                                  + [Entry(comp, comp.nGroupPriority, s.now)]).(now := s.now + 1)
    {
      AppendTo(slot, comp);
      Tick();
    }

    method Tick()
      requires Shape()
      modifies this`globalTimestamp
      ensures Shape()
      ensures State() == old(State()).(now := old(globalTimestamp) + 1)
    {
      globalTimestamp := globalTimestamp + 1;
    }

    /** removeElemFromList */
    method RemoveFrom(slot: ListSlot, comp: Component) returns (err: Error)
      requires Shape() && Listed(slot)
      modifies slot, slot.Repr
      ensures Shape() && slot.position < MAX_COMPONENTS_TYPES_HANDLED
      ensures var s := old(State());
              State() == WithList(s, slot.isWaiting, slot.position,
                                  RemoveFirst(ListOf(s, slot.isWaiting, slot.position), comp))
      ensures err == ErrorNone <==> comp in Comps(old(slot.entries))
      ensures slot.Repr == old(slot.Repr)
    {
      Disjoint(slot);
      err := slot.RemoveElem(comp);
      SlotChanged(slot);
    }

    /** clearList */
    method ClearSlot(slot: ListSlot)
      requires Shape() && Listed(slot)
      modifies slot, slot.Repr
      ensures Shape() && slot.position < MAX_COMPONENTS_TYPES_HANDLED
      ensures State() == WithList(old(State()), slot.isWaiting, slot.position, [])
      ensures forall t :: Listed(t) ==> t.Repr == old(t.Repr)
    {
      Disjoint(slot);
      slot.Clear();
      SlotChanged(slot);
    }

    /** RM_Init; clock is what globalTimestamp holds, which RM_Init leaves alone. */
    constructor (wide: bool, clock: nat)
      ensures Valid() && State() == Initial(wide, clock) && history == []
      ensures this.clock == clock && fresh(holders) && fresh(waiting)
      ensures registered == [] && globalTimestamp == clock && sent == []
      ensures forall k :: 0 <= k < |holders| ==> holders[k].entries == []
      ensures forall k :: 0 <= k < |waiting| ==> waiting[k].entries == []
    {
      var hs, ws := NewTables();
      this.wide := wide;
      this.clock := clock;
      registered, globalIndex, globalTimestamp, sent, history := [], 0, clock, [], [];
      holders, waiting := hs, ws;
      new;
      InitialState();
      LeadsToInitial(wide, clock);
    }

    lemma {:induction false} InitialState()
      requires registered == [] && globalIndex == 0 && globalTimestamp == clock && sent == []
      requires SlotsValid(holders, false) && Lists(holders) == Initial(false, 0).holders
      requires SlotsValid(waiting, true) && Lists(waiting) == Initial(false, 0).holders
      ensures Shape() && State() == Initial(wide, clock)
    {
    }

    static method NewTables() returns (hs: seq<ListSlot>, ws: seq<ListSlot>)
      ensures fresh(hs) && SlotsValid(hs, false) && Lists(hs) == Initial(false, 0).holders
      ensures fresh(ws) && SlotsValid(ws, true) && Lists(ws) == Initial(false, 0).holders
    {
      hs := NewSlots(false);
      ws := NewSlots(true);
    }

    static method NewSlots(isWaiting: bool) returns (slots: seq<ListSlot>)
      ensures fresh(slots) && SlotsValid(slots, isWaiting)
      ensures Lists(slots) == Initial(false, 0).holders
    {
      slots := [];
      while |slots| < MAX_COMPONENTS_TYPES_HANDLED
        invariant |slots| <= MAX_COMPONENTS_TYPES_HANDLED && fresh(slots)
        invariant forall k :: 0 <= k < |slots| ==> Empty(slots[k], k, isWaiting)
      {
        var slot := new ListSlot(|slots|, isWaiting);
        slots := slots + [slot];
      }
      AllEmpty(slots, isWaiting);
    }

    static lemma {:induction false} AllEmpty(slots: seq<ListSlot>, isWaiting: bool)
      requires |slots| == MAX_COMPONENTS_TYPES_HANDLED
      requires forall k :: 0 <= k < |slots| ==> Empty(slots[k], k, isWaiting)
      ensures SlotsValid(slots, isWaiting)
      ensures Lists(slots) == Initial(false, 0).holders
    {
    }

    static ghost predicate Empty(slot: ListSlot, k: nat, isWaiting: bool)
      reads slot, slot.Repr
    {
      slot.Valid() && slot.entries == [] && slot.position == k && slot.isWaiting == isWaiting
    }

    /** RM_RegisterComponent */
    method RegisterComponent(name: string, maxComponents: int) returns (err: Error)
      requires Ready() && Admissible(State(), Register(name, maxComponents))
      modifies this`registered, this`globalIndex
      ensures Shape()
      ensures (State(), err) == Step(old(State()), Register(name, maxComponents))
    {
      err := ErrorNone;
      var i := FindRegistered(name);
      if i == |registered| {
        Append(Registration(name, globalIndex, maxComponents));
      }
    }

    method Append(registration: Registration)
      requires Shape()
      modifies this`registered, this`globalIndex
      ensures Shape()
      ensures State() == old(State()).(registered := old(registered) + [registration])
    {
      registered := registered + [registration];
      globalIndex := globalIndex + 1;
    }

    /** preemptComponent: accepted is what OMX_SendCommand answers. */
    method Preempt(victim: Component, accepted: bool) returns (err: Error)
      requires Shape()
      modifies this`sent
      ensures Shape()
      ensures var s := old(State());
              State() == s.(sent := s.sent + PreemptMessages(victim, victim.state == Idle, accepted))
      ensures victim.state == Idle ==> sent == old(sent) + [ResourcesLost(victim), StateSet(victim, Loaded, accepted)]
      ensures victim.state != Idle ==> sent == old(sent)
      ensures err == if victim.state == Idle && !accepted then ErrorUndefined else ErrorNone
    {
      if victim.state == Idle {
        sent := sent + [ResourcesLost(victim)];
        sent := sent + [StateSet(victim, Loaded, accepted)];
        if !accepted {
          return ErrorUndefined;
        }
      }
      err := ErrorNone;
    }

    /** RM_getResource: it takes the step of the policy, in which idle is the state test on the
        victim the policy names. */
    method GetResource(comp: Component, accepted: bool) returns (err: Error, ghost idle: bool)
      requires Ready() && Admissible(State(), Get(comp, comp.nGroupPriority, false, accepted))
      modifies this`globalTimestamp, this`sent, holders, NodesOf(holders)
      ensures Shape()
      ensures (State(), err) == Step(old(State()), Get(comp, old(comp.nGroupPriority), idle, accepted))
      ensures old(NamesVictim(comp, idle))
    {
      idle := PolicyVictimIdle(comp);
      var i := FindRegistered(comp.name);
      if i == |registered| {
        return ErrorNone, idle;
      }
      var slot := holders[registered[i].index];
      err := GetFrom(slot, i, comp, accepted, idle);
    }

    /** RM_getResource once the type is known. */
    method GetFrom(slot: ListSlot, i: nat, comp: Component, accepted: bool, ghost idle: bool)
      returns (err: Error)
      requires Shape() && Sized(State()) && Lookup(registered, comp.name) == Some(i) && slot == holders[i]
      requires registered[i].maxComponents >= 1 && Increasing(slot.entries)
      requires IdleVictim(slot.entries, Threshold(comp.nGroupPriority, wide), idle)
      modifies this`globalTimestamp, this`sent, slot, slot.Repr
      ensures Shape()
      ensures (State(), err) == GetStep(old(State()), comp, old(comp.nGroupPriority), idle, accepted)
    {
      ghost var s := State();
      assert s.holders[i] == slot.entries;
      var count := slot.NumElem();
      if count < registered[i].maxComponents {
        AddHolder(slot, comp);
        return ErrorNone;
      }
      err := Displace(slot, comp, accepted, idle);
    }

    /** idle is the state test on the victim the policy names for comp, if it names one. */
    ghost predicate NamesVictim(comp: Component, idle: bool)
      reads *
    {
      && Sized(State())
      && var i := Lookup(registered, comp.name);
         i.Some? ==> IdleVictim(State().holders[i.value], Threshold(comp.nGroupPriority, wide), idle)
    }

    ghost function PolicyVictimIdle(comp: Component): (idle: bool)
      requires Ready()
      reads *
      ensures NamesVictim(comp, idle)
    {
      var i := Lookup(registered, comp.name);
      i.Some? &&
      var es, threshold := State().holders[i.value], Threshold(comp.nGroupPriority, wide);
      LowerThan(es, threshold) != [] && Victim(es, threshold).comp.state == Idle
    }

    /** The branch of RM_getResource for a full type. */
    method Displace(slot: ListSlot, comp: Component, accepted: bool, ghost idle: bool)
      returns (err: Error)
      requires Shape() && slot in holders && slot.head != null && Increasing(slot.entries)
      requires IdleVictim(slot.entries, Threshold(comp.nGroupPriority, wide), idle)
      modifies this`globalTimestamp, this`sent, slot, slot.Repr
      ensures Shape() && slot.position < |holders|
      ensures (State(), err)
           == DisplaceStep(old(State()), slot.position, comp, old(comp.nGroupPriority), idle, accepted)
    {
      ghost var s := State();
      assert s.holders[slot.position] == slot.entries;
      var victim := FindVictim(slot, Threshold(comp.nGroupPriority, wide));
      if victim == null {
        return ErrorInsufficientResources;
      }
      err := Preempt(victim, accepted);
      if err != ErrorNone {
        return ErrorInsufficientResources;
      }
      ReplaceHolder(slot, victim, comp);
      err := ErrorNone;
    }

    /** searchLowerPriority on an ordered list finds the policy's victim. */
    method FindVictim(slot: ListSlot, threshold: int) returns (victim: Component?)
      requires slot.Valid() && slot.head != null && Increasing(slot.entries)
      ensures victim == null <==> LowerThan(slot.entries, threshold) == []
      ensures victim != null ==> victim == Victim(slot.entries, threshold).comp
    {
      var candidates, candidate := slot.SearchLowerPriority(threshold, null);
      if candidates == 0 {
        return null;
      }
      VictimIsFirstLower(slot.entries, threshold, candidate.AsEntry());
      victim := candidate.comp;
    }

    /** addElemToList on a list of holders. */
    method AddHolder(slot: ListSlot, comp: Component)
      requires Shape() && slot in holders
      modifies this`globalTimestamp, slot, slot.Repr
      ensures Shape() && slot.position < |holders|
      ensures var s := old(State());
              State() == WithHolder(s, slot.position, s.holders[slot.position], comp, comp.nGroupPriority)
    {
      AddTo(slot, comp);
    }

    method ReplaceHolder(slot: ListSlot, victim: Component, comp: Component)
      requires Shape() && slot in holders
      modifies this`globalTimestamp, slot, slot.Repr
      ensures Shape() && slot.position < |holders|
      ensures var s := old(State());
              State() == WithHolder(s, slot.position, RemoveFirst(s.holders[slot.position], victim),
                                    comp, comp.nGroupPriority)
    {
      ghost var s := State();
      var _ := RemoveFrom(slot, victim);
      ghost var removed := State();
      AddTo(slot, comp);
      ListReplacedTwice(s.holders, slot.position, removed.holders[slot.position], State().holders[slot.position]);
    }

    /** RM_releaseResource */
    method ReleaseResource(comp: Component, accepted: bool) returns (err: Error)
      requires Ready() && Admissible(State(), Release(comp, accepted))
      modifies this`sent, holders, waiting, NodesOf(holders), NodesOf(waiting)
      ensures Shape()
      ensures (State(), err) == Step(old(State()), Release(comp, accepted))
    {
      var i := FindRegistered(comp.name);
      if i == |registered| {
        return ErrorNone;
      }
      var index := registered[i].index;
      err := ReleaseFrom(holders[index], waiting[index], i, comp, accepted);
    }

    method ReleaseFrom(slot: ListSlot, queue: ListSlot, ghost i: nat, comp: Component, accepted: bool)
      returns (err: Error)
      requires Shape() && Sized(State()) && Lookup(registered, comp.name) == Some(i)
      requires slot == holders[i] && queue == waiting[i]
      modifies this`sent, slot, slot.Repr, queue, queue.Repr
      ensures Shape()
      ensures (State(), err) == ReleaseStep(old(State()), comp, accepted)
    {
      ghost var s := State();
      assert s.holders[i] == slot.entries && s.waiting[i] == queue.entries;
      if slot.head == null {
        assert slot.entries == [];
        return ErrorUndefined;
      }
      err := RemoveFrom(slot, comp);
      if err != ErrorNone {
        NotHeld(s.holders[i], comp);
        assert State() == s;
        return ErrorUndefined;
      }
      assert State() == s.(holders := s.holders[i := RemoveFirst(s.holders[i], comp)]);
      WakeFirst(queue, accepted);
      err := ErrorNone;
    }

    /** The tail of RM_releaseResource: wake the first waiting component, if any. */
    method WakeFirst(queue: ListSlot, accepted: bool)
      requires Shape() && queue in waiting
      modifies this`sent, queue, queue.Repr
      ensures Shape() && queue.position < |waiting|
      ensures var s := old(State());
              var es := s.waiting[queue.position];
              State() == if es == [] then s
                         else s.(waiting := s.waiting[queue.position := es[1..]],
                                 sent := s.sent + [StateSet(es[0].comp, Idle, accepted)])
    {
      var count := queue.NumElem();
      if count > 0 {
        var next := queue.head.comp;
        assert next == queue.entries[0].comp;
        var _ := RemoveFrom(queue, next);
        Send(StateSet(next, Idle, accepted));
      }
    }

    method Send(message: Message)
      requires Shape()
      modifies this`sent
      ensures Shape()
      ensures State() == old(State()).(sent := old(sent) + [message])
    {
      sent := sent + [message];
    }

    /** RM_waitForResource */
    method WaitForResource(comp: Component) returns (err: Error)
      requires Ready() && Admissible(State(), Wait(comp, comp.nGroupPriority))
      modifies this`globalTimestamp, waiting, NodesOf(waiting)
      ensures Shape()
      ensures (State(), err) == Step(old(State()), Wait(comp, comp.nGroupPriority))
    {
      ghost var s := State();
      err := ErrorNone;
      var i := FindRegistered(comp.name);
      if i < |registered| {
        WaitIs(s, i, comp, comp.nGroupPriority);
        AddWaiting(waiting[registered[i].index], comp);
      }
    }

    static lemma {:induction false} WaitIs(s: RmState, i: nat, comp: Component, priority: nat)
      requires Sized(s) && Lookup(s.registered, comp.name) == Some(i)
      ensures Step(s, Wait(comp, priority)) == (WithWaiting(s, i, comp, priority), ErrorNone)
    {
    }

    method AddWaiting(queue: ListSlot, comp: Component)
      requires Shape() && queue in waiting
      modifies this`globalTimestamp, queue, queue.Repr
      ensures Shape() && queue.position < |waiting|
      ensures var s := old(State());
              State() == WithWaiting(s, queue.position, comp, comp.nGroupPriority)
    {
      AddTo(queue, comp);
    }

    /** Any one call: the state stays the one that the calls made so far lead to, so that what
        ResourceRuns proves of runs holds of the lists in memory. */
    method Call(request: Op) returns (err: Error, ghost op: Op)
      requires Valid() && Admissible(State(), request) && AsAsked(request)
      modifies this, holders, waiting, NodesOf(holders), NodesOf(waiting)
      ensures Valid() && history == old(history) + [op]
      ensures op == WithIdle(request, op.Get? && op.idle) && old(Answers(request, op.Get? && op.idle))
      ensures (State(), err) == Step(old(State()), op)
    {
      ghost var s := State();
      LeadsToInv(wide, clock, history, s);
      err, op := Dispatch(request);
      LeadsToNext(wide, clock, history, s, op);
      Record(op);
    }

    ghost method Record(op: Op)
      requires Shape() && LeadsTo(wide, clock, history + [op], State())
      modifies this`history
      ensures Valid() && history == old(history) + [op] && State() == old(State())
    {
      history := history + [op];
    }

    method Dispatch(request: Op) returns (err: Error, ghost op: Op)
      requires Ready() && Admissible(State(), request) && AsAsked(request)
      modifies this`registered, this`globalIndex, this`globalTimestamp, this`sent,
               holders, waiting, NodesOf(holders), NodesOf(waiting)
      ensures Shape()
      ensures op == WithIdle(request, op.Get? && op.idle) && old(Answers(request, op.Get? && op.idle))
      ensures (State(), err) == Step(old(State()), op)
    {
      op := request;
      match request
      case Register(name, maxComponents) => err := RegisterComponent(name, maxComponents);
      case Get(comp, _, _, accepted) =>
        ghost var idle;
        err, idle := GetResource(comp, accepted);
        op := request.(idle := idle);
      case Release(comp, accepted) => err := ReleaseResource(comp, accepted);
      case Wait(comp, _) => err := WaitForResource(comp);
    }

    static ghost function WithIdle(request: Op, idle: bool): Op {
      if request.Get? then request.(idle := idle) else request
    }

    ghost predicate Answers(request: Op, idle: bool)
      reads *
    {
      request.Get? ==> NamesVictim(request.comp, idle)
    }

    /** The priority of a request is the one its component has. */
    ghost predicate AsAsked(request: Op)
      reads if request.Get? || request.Wait? then {request.comp} else {}
    {
      request.Get? || request.Wait? ==> request.priority == request.comp.nGroupPriority
    }

    /** RM_Deinit */
    method Deinit() returns (ghost k: nat)
      requires Ready() && SomeTypeFree(State())
      modifies holders, waiting, NodesOf(holders), NodesOf(waiting)
      ensures Shape() && DeinitStopsAt(old(State()), k)
      ensures State() == DeinitStep(old(State()), k)
    {
      DeinitStops(State());
      k :| DeinitStopsAt(State(), k);
      ClearTypes(State(), k);
    }

    /** The loop of RM_Deinit. */
    method ClearTypes(ghost s: RmState, ghost k: nat)
      requires Shape() && s == State() && DeinitStopsAt(s, k)
      modifies holders, waiting, NodesOf(holders), NodesOf(waiting)
      ensures Shape() && State() == DeinitStep(s, k)
    {
      var i := 0;
      DeinitNone(s);
      while holders[i].head != null
        invariant Shape() && i <= k && State() == DeinitStep(s, i)
        invariant SameNodes()
        decreases k - i
      {
        HeadTells(i, s, k);
        i := ClearNext(i, s);
      }
      HeadTells(i, s, k);
    }

    twostate predicate SameNodes()
      reads holders, waiting
    {
      (forall t :: t in holders ==> t.Repr == old(t.Repr)) && (forall t :: t in waiting ==> t.Repr == old(t.Repr))
    }

    lemma {:induction false} HeadTells(i: nat, s: RmState, k: nat)
      requires Shape() && State() == DeinitStep(s, i) && DeinitStopsAt(s, k) && i <= k
      ensures i < |holders| && (holders[i].head != null <==> i < k)
    {
      assert holders[i].entries == State().holders[i];
      assert State().holders[i] == s.holders[i];
    }

    /** One round of the loop. */
    method ClearNext(i: nat, ghost s: RmState) returns (next: nat)
      requires Shape() && i < |holders| && |s.holders| == |s.waiting| == |holders|
      requires State() == DeinitStep(s, i)
      modifies holders[i], holders[i].Repr, waiting[i], waiting[i].Repr
      ensures next == i + 1 && Shape() && State() == DeinitStep(s, next)
      ensures SameNodes()
    {
      ClearSlot(holders[i]);
      ClearSlot(waiting[i]);
      DeinitNext(s, i);
      next := i + 1;
    }
  }

  lemma {:induction false} NotHeld(es: seq<Entry>, comp: Component)
    requires comp !in Comps(es)
    ensures RemoveFirst(es, comp) == es
  {
    forall i | 0 <= i < |es| ensures es[i].comp != comp {
      assert Comps(es)[i] == es[i].comp;
    }
    RemoveFirstAbsent(es, comp);
  }

  lemma {:induction false} ListReplacedTwice(lists: seq<seq<Entry>>, i: nat, a: seq<Entry>, b: seq<Entry>)
    requires i < |lists|
    ensures lists[i := a][i := b] == lists[i := b]
  {
  }

  /** idle is the state test on the victim the policy names, if it names one. */
  ghost predicate IdleVictim(es: seq<Entry>, threshold: int, idle: bool)
    reads set e | e in es :: e.comp
  {
    LowerThan(es, threshold) != [] ==> idle == (Victim(es, threshold).comp.state == Idle)
  }

  /** The entry the search offers is the policy's victim. */
  lemma {:induction false} VictimIsFirstLower(es: seq<Entry>, threshold: int, candidate: Entry)
    requires Increasing(es) && LowerThan(es, threshold) != []
    requires IsOldest(candidate, es[FirstLower(es, threshold)..])
    ensures candidate == Victim(es, threshold) == es[FirstLower(es, threshold)]
  {
    LowerThanExact(es, threshold);
    OldestOfSuffixIsOldestLower(es, threshold, candidate);
    OldestOfSuffixIsOldestLower(es, threshold, Victim(es, threshold));
  }
}
