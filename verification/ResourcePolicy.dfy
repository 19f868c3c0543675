/** The resource manager as a state machine on values: what each RM_* call does to the lists of
    every component type, to the clock and to the messages sent to components. */
module ResourcePolicy {
  import opened HolderList

  const MAX_COMPONENTS_TYPES_HANDLED: nat := 500

  /** The size of the buffer that a registered name is copied to. */
  const OMX_MAX_STRINGNAME_SIZE: nat := 128

  datatype Registration = Registration(name: string, index: int, maxComponents: int)

  /** What the manager sends: the lost-resources event, and OMX_SendCommand for a new state. */
  datatype Message =
    | ResourcesLost(comp: Component)
    | StateSet(comp: Component, target: CompState, accepted: bool)

  /** wide: OMX_U32 is an unsigned long, 64 bits on LP64 targets and 32 on the others. */
  datatype RmState = RmState(
    wide: bool,
    registered: seq<Registration>,
    holders: seq<seq<Entry>>,
    waiting: seq<seq<Entry>>,
    now: nat,
    sent: seq<Message>)

  /** One call.  In Get, idle is the state test on the component chosen for preemption, and
      accepted is the answer of OMX_SendCommand; priority is the caller's at the time. */
  datatype Op =
    | Register(name: string, maxComponents: int)
    | Get(comp: Component, priority: nat, idle: bool, accepted: bool)
    | Release(comp: Component, accepted: bool)
    | Wait(comp: Component, priority: nat)

  // ---------------------------------------------------------------- the comparison

  function UlongRange(wide: bool): nat {
    if wide then 0x1_0000_0000_0000_0000 else 0x1_0000_0000
  }

  /** The priority goes into an int parameter and is converted back for each comparison. */
  function Threshold(priority: nat, wide: bool): nat {
    var low := priority % 0x1_0000_0000;
    var asInt := if low < 0x8000_0000 then low else low - 0x1_0000_0000;
    if asInt < 0 then asInt + UlongRange(wide) else asInt
  }

  /** The comparison is with the caller's own priority exactly for these values. */
  lemma {:induction false} ThresholdExact(priority: nat, wide: bool)
    requires priority < UlongRange(wide)
    ensures Threshold(priority, wide) == priority
        <==> !wide || priority < 0x8000_0000 || priority >= UlongRange(true) - 0x8000_0000
  {
  }

  /** For a 32-bit priority it can only be stricter. */
  lemma {:induction false} ThresholdNeverBelow(priority: nat, wide: bool)
    requires priority < 0x1_0000_0000
    ensures Threshold(priority, wide) >= priority
    ensures wide && priority >= 0x8000_0000 ==> Threshold(priority, wide) >= 0x1_0000_0000
  {
  }

  // ---------------------------------------------------------------- the calls

  ghost predicate FirstNamed(registered: seq<Registration>, name: string, i: nat) {
    && i < |registered| && registered[i].name == name
    && forall j :: 0 <= j < i ==> registered[j].name != name
  }

  lemma {:induction false} FirstNamedExists(registered: seq<Registration>, name: string, i: nat)
    requires i < |registered| && registered[i].name == name
    ensures exists k: nat :: FirstNamed(registered, name, k)
    decreases i
  {
    if !FirstNamed(registered, name, i) {
      var j :| 0 <= j < i && registered[j].name == name;
      FirstNamedExists(registered, name, j);
    }
  }

  /** The position the lookup loops stop at. */
  ghost function Lookup(registered: seq<Registration>, name: string): (r: Option<nat>)
    ensures r.Some? ==> FirstNamed(registered, name, r.value)
    ensures r.None? ==> forall i :: 0 <= i < |registered| ==> registered[i].name != name
  {
    if k: nat :| FirstNamed(registered, name, k) then Some(k)
    else
      assert forall i :: 0 <= i < |registered| ==> registered[i].name != name by {
        forall i | 0 <= i < |registered| ensures registered[i].name != name {
          if registered[i].name == name {
            FirstNamedExists(registered, name, i);
          }
        }
      }
      None
  }

  lemma {:induction false} OldestExists(es: seq<Entry>)
    requires es != []
    ensures exists e :: IsOldest(e, es)
  {
    var e := es[0];
    if |es| > 1 {
      OldestExists(es[1..]);
      var f :| IsOldest(f, es[1..]);
      e := if es[0].timestamp <= f.timestamp then es[0] else f;
      assert es == [es[0]] + es[1..];
    }
    assert IsOldest(e, es);
  }

  /** The policy: the oldest holder among those of strictly lower priority. */
  ghost function Victim(es: seq<Entry>, threshold: int): (v: Entry)
    requires LowerThan(es, threshold) != []
    ensures IsOldest(v, LowerThan(es, threshold))
    ensures v in es && v.priority > threshold
  {
    LowerThanExact(es, threshold);
    OldestExists(LowerThan(es, threshold));
    var v :| IsOldest(v, LowerThan(es, threshold));
    v
  }

  ghost predicate Full(s: RmState, i: nat)
    requires i < |s.registered| && i < |s.holders|
  {
    |s.holders[i]| >= s.registered[i].maxComponents
  }

  ghost function WithHolder(s: RmState, i: nat, es: seq<Entry>, comp: Component, priority: nat): RmState
    requires i < |s.holders|
  {
    s.(holders := s.holders[i := es + [Entry(comp, priority, s.now)]], now := s.now + 1)
  }

  ghost function PreemptMessages(victim: Component, idle: bool, accepted: bool): seq<Message> {
    if idle then [ResourcesLost(victim), StateSet(victim, Loaded, accepted)] else []
  }

  ghost predicate Sized(s: RmState) {
    && |s.holders| == |s.waiting| == MAX_COMPONENTS_TYPES_HANDLED
    && |s.registered| <= MAX_COMPONENTS_TYPES_HANDLED
  }

  /** What all reachable states satisfy. */
  ghost predicate Inv(s: RmState) {
    && Sized(s)
    && (forall i :: 0 <= i < |s.registered| ==> s.registered[i].index == i)
    && (forall i, j :: 0 <= i < j < |s.registered| ==> s.registered[i].name != s.registered[j].name)
    && (forall i :: 0 <= i < |s.holders| ==> ListInv(s.holders[i], s.now))
    && (forall i :: 0 <= i < |s.waiting| ==> ListInv(s.waiting[i], s.now))
    && (forall i :: 0 <= i < |s.registered| && s.holders[i] != [] ==>
          |s.holders[i]| <= s.registered[i].maxComponents)
    && (forall i :: |s.registered| <= i < |s.holders| ==> s.holders[i] == [] && s.waiting[i] == [])
  }

  ghost predicate ListInv(es: seq<Entry>, now: nat) {
    Increasing(es) && forall i :: 0 <= i < |es| ==> es[i].timestamp < now
  }

  ghost function NameOf(op: Op): string {
    if op.Register? then op.name else op.comp.name
  }

  /** What the C code needs of a call.  Once the table of types is full it has no terminating null
      name any more, so that only names that are in it can be looked up; a new name is copied to
      a buffer of fixed size; and a type registered with a bound below one has no holder to
      search, so that the search leaves its result unset. */
  ghost predicate Admissible(s: RmState, op: Op) {
    var i := Lookup(s.registered, NameOf(op));
    && (i.Some? || |s.registered| < MAX_COMPONENTS_TYPES_HANDLED)
    && (op.Register? && i.None? ==> |op.name| < OMX_MAX_STRINGNAME_SIZE)
    && (op.Get? && i.Some? ==> s.registered[i.value].maxComponents >= 1)
  }

  ghost function Step(s: RmState, op: Op): (RmState, Error)
    requires Sized(s)
  {
    match op
    case Register(name, maxComponents) =>
      (if Lookup(s.registered, name).Some? then s
       else s.(registered := s.registered + [Registration(name, |s.registered|, maxComponents)]),
       ErrorNone)
    case Get(comp, priority, idle, accepted) => GetStep(s, comp, priority, idle, accepted)
    case Release(comp, accepted) => ReleaseStep(s, comp, accepted)
    case Wait(comp, priority) =>
      match Lookup(s.registered, comp.name)
      case None => (s, ErrorNone)
      case Some(i) => (WithWaiting(s, i, comp, priority), ErrorNone)
  }

  ghost function WithWaiting(s: RmState, i: nat, comp: Component, priority: nat): RmState
    requires i < |s.waiting|
  {
    s.(waiting := s.waiting[i := s.waiting[i] + [Entry(comp, priority, s.now)]], now := s.now + 1)
  }

  ghost function GetStep(s: RmState, comp: Component, priority: nat, idle: bool, accepted: bool): (RmState, Error)
    requires Sized(s)
  {
    match Lookup(s.registered, comp.name)
    case None => (s, ErrorNone)
    case Some(i) =>
      if Full(s, i) then DisplaceStep(s, i, comp, priority, idle, accepted)
      else (WithHolder(s, i, s.holders[i], comp, priority), ErrorNone)
  }

  ghost function DisplaceStep(s: RmState, i: nat, comp: Component, priority: nat, idle: bool,
                              accepted: bool): (RmState, Error)
    requires i < |s.holders|
  {
    var es, threshold := s.holders[i], Threshold(priority, s.wide);
    if LowerThan(es, threshold) == [] then (s, ErrorInsufficientResources)
    else
      var victim := Victim(es, threshold).comp;
      var told := s.(sent := s.sent + PreemptMessages(victim, idle, accepted));
      if idle && !accepted then (told, ErrorInsufficientResources)
      else (WithHolder(told, i, RemoveFirst(es, victim), comp, priority), ErrorNone)
  }

  ghost function ReleaseStep(s: RmState, comp: Component, accepted: bool): (RmState, Error)
    requires Sized(s)
  {
    match Lookup(s.registered, comp.name)
    case None => (s, ErrorNone)
    case Some(i) =>
      if comp !in Comps(s.holders[i]) then (s, ErrorUndefined)
      else
        var released := s.(holders := s.holders[i := RemoveFirst(s.holders[i], comp)]);
        if s.waiting[i] == [] then (released, ErrorNone)
        else
          var next := s.waiting[i][0].comp;
          (released.(waiting := s.waiting[i := s.waiting[i][1..]],
                     sent := s.sent + [StateSet(next, Idle, accepted)]),
           ErrorNone)
  }

  ghost function Initial(wide: bool, clock: nat): RmState {
    var none := seq(MAX_COMPONENTS_TYPES_HANDLED, i => []);
    RmState(wide, [], none, none, clock, [])
  }

  // ---------------------------------------------------------------- the invariant

  lemma {:induction false} InitialInv(wide: bool, clock: nat)
    ensures Inv(Initial(wide, clock))
  {
  }

  lemma {:induction false} RemoveFirstInv(es: seq<Entry>, comp: Component, now: nat)
    requires ListInv(es, now)
    ensures ListInv(RemoveFirst(es, comp), now)
    ensures comp in Comps(es) ==> |RemoveFirst(es, comp)| == |es| - 1
  {
    if comp in Comps(es) {
      var k := FirstWith(es, comp);
    } else {
      forall i | 0 <= i < |es| ensures es[i].comp != comp {
        assert Comps(es)[i] == es[i].comp;
      }
      RemoveFirstAbsent(es, comp);
    }
  }

  lemma {:induction false} AppendInv(es: seq<Entry>, e: Entry, now: nat)
    requires ListInv(es, now) && e.timestamp == now
    ensures ListInv(es + [e], now + 1)
  {
  }

  lemma {:induction false} VictimHolds(es: seq<Entry>, threshold: int)
    requires LowerThan(es, threshold) != []
    ensures Victim(es, threshold).comp in Comps(es)
  {
  }

  lemma {:induction false} LaterInv(lists: seq<seq<Entry>>, now: nat, later: nat)
    requires now <= later && forall j :: 0 <= j < |lists| ==> ListInv(lists[j], now)
    ensures forall j :: 0 <= j < |lists| ==> ListInv(lists[j], later)
  {
  }

  lemma {:induction false} SendKeepsInv(s: RmState, sent: seq<Message>)
    requires Inv(s)
    ensures Inv(s.(sent := sent))
  {
  }

  lemma {:induction false} WithHolderInv(s: RmState, i: nat, es: seq<Entry>, comp: Component, priority: nat)
    requires Inv(s) && i < |s.registered| && ListInv(es, s.now)
    requires |es| < s.registered[i].maxComponents
    ensures Inv(WithHolder(s, i, es, comp, priority))
  {
    AppendInv(es, Entry(comp, priority, s.now), s.now);
    LaterInv(s.holders, s.now, s.now + 1);
    LaterInv(s.waiting, s.now, s.now + 1);
  }

  lemma {:induction false} WithoutHolderInv(s: RmState, i: nat, comp: Component)
    requires Inv(s) && i < |s.registered| && comp in Comps(s.holders[i])
    ensures Inv(s.(holders := s.holders[i := RemoveFirst(s.holders[i], comp)]))
  {
    RemoveFirstInv(s.holders[i], comp, s.now);
  }

  lemma {:induction false} WaitingInv(s: RmState, i: nat, es: seq<Entry>, now: nat)
    requires Inv(s) && i < |s.registered| && now >= s.now && ListInv(es, now)
    ensures Inv(s.(waiting := s.waiting[i := es], now := now))
  {
  }

  /** Every call keeps the invariant: in particular the timestamps of every list stay strictly
      increasing and no type ever has more holders than its first registration allowed. */
  lemma {:induction false} StepKeepsInv(s: RmState, op: Op)
    requires Inv(s) && Admissible(s, op)
    ensures Inv(Step(s, op).0)
  {
    match op
    case Register(name, maxComponents) => RegisterKeepsInv(s, name, maxComponents);
    case Get(comp, priority, idle, accepted) => GetKeepsInv(s, comp, priority, idle, accepted);
    case Release(comp, accepted) => ReleaseKeepsInv(s, comp, accepted);
    case Wait(comp, priority) =>
      var i := Lookup(s.registered, comp.name);
      if i.Some? {
        AppendInv(s.waiting[i.value], Entry(comp, priority, s.now), s.now);
        WaitingInv(s, i.value, s.waiting[i.value] + [Entry(comp, priority, s.now)], s.now + 1);
      }
  }

  lemma {:induction false} RegisterKeepsInv(s: RmState, name: string, maxComponents: int)
    requires Inv(s) && Admissible(s, Register(name, maxComponents))
    ensures Inv(Step(s, Register(name, maxComponents)).0)
  {
  }

  lemma {:induction false} GetKeepsInv(s: RmState, comp: Component, priority: nat, idle: bool, accepted: bool)
    requires Inv(s) && Admissible(s, Get(comp, priority, idle, accepted))
    ensures Inv(GetStep(s, comp, priority, idle, accepted).0)
  {
    var found := Lookup(s.registered, comp.name);
    if found.Some? {
      var i := found.value;
      var es, threshold := s.holders[i], Threshold(priority, s.wide);
      if !Full(s, i) {
        WithHolderInv(s, i, es, comp, priority);
      } else if LowerThan(es, threshold) != [] {
        var victim := Victim(es, threshold).comp;
        var sent := s.sent + PreemptMessages(victim, idle, accepted);
        SendKeepsInv(s, sent);
        VictimHolds(es, threshold);
        RemoveFirstInv(es, victim, s.now);
        assert es != [];
        WithHolderInv(s.(sent := sent), i, RemoveFirst(es, victim), comp, priority);
      }
    }
  }

  lemma {:induction false} ReleaseKeepsInv(s: RmState, comp: Component, accepted: bool)
    requires Inv(s)
    ensures Inv(ReleaseStep(s, comp, accepted).0)
  {
    var found := Lookup(s.registered, comp.name);
    if found.Some? && comp in Comps(s.holders[found.value]) {
      var i := found.value;
      var released := s.(holders := s.holders[i := RemoveFirst(s.holders[i], comp)]);
      WithoutHolderInv(s, i, comp);
      if s.waiting[i] != [] {
        WaitingInv(released, i, s.waiting[i][1..], s.now);
        SendKeepsInv(released.(waiting := s.waiting[i := s.waiting[i][1..]]),
                     s.sent + [StateSet(s.waiting[i][0].comp, Idle, accepted)]);
      }
    }
  }

  /** The call the C code cannot answer: on a full type, the search finds no list to search
      exactly when the type was registered with a bound below one. */
  lemma {:induction false} EmptyFullIffBoundBelowOne(s: RmState, i: nat)
    requires Inv(s) && i < |s.registered|
    ensures Full(s, i) && s.holders[i] == [] <==> s.registered[i].maxComponents < 1
  {
  }

  // ---------------------------------------------------------------- runs

  ghost predicate AdmissibleRun(s: RmState, ops: seq<Op>)
    decreases |ops|
  {
    Sized(s) &&
    (ops == [] || (Admissible(s, ops[0]) && AdmissibleRun(Step(s, ops[0]).0, ops[1..])))
  }

  ghost function Run(s: RmState, ops: seq<Op>): (r: RmState)
    requires AdmissibleRun(s, ops)
    ensures Sized(r) && r.wide == s.wide
    decreases |ops|
  {
    if ops == [] then s else Run(Step(s, ops[0]).0, ops[1..])
  }

  lemma {:induction false} RunKeepsInv(s: RmState, ops: seq<Op>)
    requires Inv(s) && AdmissibleRun(s, ops)
    ensures Inv(Run(s, ops))
    decreases |ops|
  {
    if ops != [] {
      StepKeepsInv(s, ops[0]);
      RunKeepsInv(Step(s, ops[0]).0, ops[1..]);
    }
  }

  lemma {:induction false} RunAppend(s: RmState, ops: seq<Op>, op: Op)
    requires AdmissibleRun(s, ops) && Admissible(Run(s, ops), op) && Sized(Step(Run(s, ops), op).0)
    ensures AdmissibleRun(s, ops + [op])
    ensures Run(s, ops + [op]) == Step(Run(s, ops), op).0
    decreases |ops|
  {
    if ops != [] {
      RunAppend(Step(s, ops[0]).0, ops[1..], op);
      assert (ops + [op])[1..] == ops[1..] + [op];
    } else {
      assert AdmissibleRun(Step(s, op).0, []);
      assert ops + [op] == [op];
    }
  }

  /** s is the state after RM_Init and these calls. */
  ghost predicate LeadsTo(wide: bool, clock: nat, ops: seq<Op>, s: RmState) {
    AdmissibleRun(Initial(wide, clock), ops) && s == Run(Initial(wide, clock), ops)
  }

  lemma {:induction false} LeadsToInitial(wide: bool, clock: nat)
    ensures LeadsTo(wide, clock, [], Initial(wide, clock))
  {
  }

  lemma {:induction false} LeadsToInv(wide: bool, clock: nat, ops: seq<Op>, s: RmState)
    requires LeadsTo(wide, clock, ops, s)
    ensures Inv(s)
  {
    InitialInv(wide, clock);
    RunKeepsInv(Initial(wide, clock), ops);
  }

  lemma {:induction false} LeadsToNext(wide: bool, clock: nat, ops: seq<Op>, s: RmState, op: Op)
    requires LeadsTo(wide, clock, ops, s) && Sized(s) && Admissible(s, op)
    ensures LeadsTo(wide, clock, ops + [op], Step(s, op).0)
  {
    LeadsToInv(wide, clock, ops, s);
    StepKeepsInv(s, op);
    RunAppend(Initial(wide, clock), ops, op);
  }

  // ---------------------------------------------------------------- RM_Deinit

  ghost function Cleared(lists: seq<seq<Entry>>, k: nat): (r: seq<seq<Entry>>)
    ensures |r| == |lists|
    ensures forall j :: 0 <= j < |r| ==> r[j] == if j < k then [] else lists[j]
  {
    seq(|lists|, j requires 0 <= j < |lists| => if j < k then [] else lists[j])
  }

  /** RM_Deinit stops at the first type without holders, k. */
  ghost predicate DeinitStopsAt(s: RmState, k: nat) {
    && k < |s.holders| && s.holders[k] == []
    && forall j :: 0 <= j < k ==> s.holders[j] != []
  }

  /** RM_Deinit stays in the table of lists exactly when some list of holders is empty; it always
      is while the table of types is not full. */
  ghost predicate SomeTypeFree(s: RmState) {
    exists i :: 0 <= i < |s.holders| && s.holders[i] == []
  }

  /** The loop finds no end exactly when the table is full and every type in it is held. */
  lemma {:induction false} SomeTypeFreeIff(s: RmState)
    requires Inv(s)
    ensures SomeTypeFree(s)
        <==> |s.registered| < MAX_COMPONENTS_TYPES_HANDLED
             || exists i :: 0 <= i < |s.registered| && i < |s.holders| && s.holders[i] == []
  {
    if |s.registered| < MAX_COMPONENTS_TYPES_HANDLED {
      assert s.holders[|s.registered|] == [];
    }
  }

  lemma {:induction false} DeinitStops(s: RmState)
    requires Inv(s) && SomeTypeFree(s)
    ensures exists k: nat :: DeinitStopsAt(s, k)
  {
    var k := 0;
    var free :| 0 <= free < |s.holders| && s.holders[free] == [];
    while s.holders[k] != []
      invariant k <= free
      invariant forall j :: 0 <= j < k ==> s.holders[j] != []
      decreases |s.holders| - k
    {
      k := k + 1;
    }
    assert DeinitStopsAt(s, k);
  }

  ghost function DeinitStep(s: RmState, k: nat): RmState {
    s.(holders := Cleared(s.holders, k), waiting := Cleared(s.waiting, k))
  }

  lemma {:induction false} DeinitNone(s: RmState)
    ensures DeinitStep(s, 0) == s
  {
  }

  lemma {:induction false} DeinitNext(s: RmState, k: nat)
    requires |s.holders| == |s.waiting| && k < |s.holders|
    ensures var t := DeinitStep(s, k);
            t.(holders := t.holders[k := []], waiting := t.waiting[k := []]) == DeinitStep(s, k + 1)
  {
  }

  ghost predicate AllListsEmpty(s: RmState)
    requires |s.holders| == |s.waiting|
  {
    forall j :: 0 <= j < |s.holders| ==> s.holders[j] == [] && s.waiting[j] == []
  }

  /** It is meant to clean up everything, and does so exactly when no type from the first one
      without holders on has a holder or a waiting component left. */
  lemma {:induction false} DeinitClearsAllIff(s: RmState, k: nat)
    requires Inv(s) && DeinitStopsAt(s, k)
    ensures Inv(DeinitStep(s, k))
    ensures AllListsEmpty(DeinitStep(s, k))
        <==> forall j :: k <= j < |s.registered| ==> s.holders[j] == [] && s.waiting[j] == []
  {
  }
}
