/** What the resource manager guarantees over whole sequences of calls. */
module ResourceRuns {
  import opened HolderList
  import opened ResourcePolicy
  import opened Sequences

  // ---------------------------------------------------------------- one request

  /** The search finds the policy's victim in every state a run can reach. */
  lemma {:induction false} SearchExactOverRuns(wide: bool, clock: nat, ops: seq<Op>, s: RmState, i: nat,
                                               threshold: int, candidate: Entry)
    requires LeadsTo(wide, clock, ops, s) && i < |s.registered|
    requires LowerThan(s.holders[i], threshold) != []
    ensures IsOldest(candidate, s.holders[i][FirstLower(s.holders[i], threshold)..])
        <==> candidate == Victim(s.holders[i], threshold)
    ensures forall e :: e in LowerThan(s.holders[i], threshold) <==> e in s.holders[i] && e.priority > threshold
  {
    LeadsToInv(wide, clock, ops, s);
    var es := s.holders[i];
    assert ListInv(es, s.now);
    LowerThanExact(es, threshold);
    OldestOfSuffixIsOldestLower(es, threshold, candidate);
    OldestOfSuffixIsOldestLower(es, threshold, Victim(es, threshold));
  }

  /** A request for a registered type is refused exactly when the type is full and either no
      holder has a larger number than the one compared with or the command to the victim fails;
      a refusal changes no list. */
  lemma {:induction false} RefusedForType(s: RmState, comp: Component, priority: nat, idle: bool, accepted: bool,
                                          i: nat)
    requires Inv(s) && Lookup(s.registered, comp.name) == Some(i) && s.registered[i].maxComponents >= 1
    ensures var (t, err) := Step(s, Get(comp, priority, idle, accepted));
            && (err == ErrorInsufficientResources <==>
                  Full(s, i) && (NoneAbove(s.holders[i], Threshold(priority, s.wide)) || (idle && !accepted)))
            && err in {ErrorNone, ErrorInsufficientResources}
            && (err != ErrorNone ==> t == s.(sent := t.sent) && s.sent <= t.sent)
  {
    NoneAboveIff(s.holders[i], Threshold(priority, s.wide));
  }

  ghost predicate NoneAbove(es: seq<Entry>, threshold: int) {
    forall e :: e in es ==> e.priority <= threshold
  }

  lemma {:induction false} NoneAboveIff(es: seq<Entry>, threshold: int)
    ensures NoneAbove(es, threshold) <==> LowerThan(es, threshold) == []
  {
    LowerThanExact(es, threshold);
    if LowerThan(es, threshold) != [] {
      assert LowerThan(es, threshold)[0] in LowerThan(es, threshold);
    } else {
      forall e | e in es ensures e.priority <= threshold {
        assert e !in LowerThan(es, threshold);
      }
    }
  }

  /** On LP64 targets a priority from 2^31 on is compared as a much larger number, and a full
      type is then refused whoever holds it.  That departs from the comparison with the priority
      itself, as 32-bit targets make it, exactly when some holder has a larger number and the
      command to the victim would not have failed. */
  lemma {:induction false} WidePriorityDepartsIff(s: RmState, comp: Component, priority: nat, idle: bool,
                                                  accepted: bool, i: nat)
    requires Inv(s) && Lookup(s.registered, comp.name) == Some(i) && Full(s, i)
    requires s.registered[i].maxComponents >= 1
    requires s.wide && 0x8000_0000 <= priority < 0x1_0000_0000
    requires SmallPriorities(s.holders[i])
    ensures var get := Get(comp, priority, idle, accepted);
            && Step(s, get) == (s, ErrorInsufficientResources)
            && (Step(s.(wide := false), get).1 != ErrorInsufficientResources <==>
                  !NoneAbove(s.holders[i], priority) && !(idle && !accepted))
  {
    WideRefuses(s, comp, priority, idle, accepted, i);
    NarrowAnswer(s, comp, priority, idle, accepted, i);
  }

  lemma {:induction false} WideRefuses(s: RmState, comp: Component, priority: nat, idle: bool, accepted: bool, i: nat)
    requires Sized(s) && Lookup(s.registered, comp.name) == Some(i) && Full(s, i)
    requires s.wide && 0x8000_0000 <= priority < 0x1_0000_0000 && SmallPriorities(s.holders[i])
    ensures Step(s, Get(comp, priority, idle, accepted)) == (s, ErrorInsufficientResources)
  {
    WideNeverPreempts(s, i, priority);
  }

  lemma {:induction false} NarrowAnswer(s: RmState, comp: Component, priority: nat, idle: bool, accepted: bool, i: nat)
    requires Inv(s) && Lookup(s.registered, comp.name) == Some(i) && Full(s, i)
    requires s.registered[i].maxComponents >= 1 && priority < 0x1_0000_0000
    ensures Step(s.(wide := false), Get(comp, priority, idle, accepted)).1 != ErrorInsufficientResources
       <==> !NoneAbove(s.holders[i], priority) && !(idle && !accepted)
  {
    NarrowInv(s);
    assert Threshold(priority, false) == priority;
    RefusedForType(s.(wide := false), comp, priority, idle, accepted, i);
  }

  lemma {:induction false} WideNeverPreempts(s: RmState, i: nat, priority: nat)
    requires i < |s.holders| && SmallPriorities(s.holders[i]) && 0x8000_0000 <= priority < 0x1_0000_0000
    ensures LowerThan(s.holders[i], Threshold(priority, true)) == []
  {
    NoneAboveIff(s.holders[i], Threshold(priority, true));
  }

  lemma {:induction false} NarrowInv(s: RmState)
    requires Inv(s)
    ensures Inv(s.(wide := false))
    ensures forall i :: 0 <= i < |s.registered| && i < |s.holders| ==> Full(s.(wide := false), i) == Full(s, i)
  {
  }

  // ---------------------------------------------------------------- the bound of a type

  ghost function FirstRegistration(ops: seq<Op>, name: string): Option<int> {
    if ops == [] then None
    else if ops[0].Register? && ops[0].name == name then Some(ops[0].maxComponents)
    else FirstRegistration(ops[1..], name)
  }

  /** A registration, once made, is never replaced. */
  lemma {:induction false} RegistrationsOnlyGrow(s: RmState, ops: seq<Op>)
    requires Inv(s) && AdmissibleRun(s, ops)
    ensures s.registered <= Run(s, ops).registered
    decreases |ops|
  {
    if ops != [] {
      StepKeepsInv(s, ops[0]);
      RegistrationsOnlyGrow(Step(s, ops[0]).0, ops[1..]);
    }
  }

  lemma {:induction false} LookupFirst(registered: seq<Registration>, name: string, i: nat)
    requires i < |registered| && registered[i].name == name
    requires forall j, k :: 0 <= j < k < |registered| ==> registered[j].name != registered[k].name
    ensures Lookup(registered, name) == Some(i)
  {
  }

  lemma {:induction false} RegisteredByFirst(s: RmState, ops: seq<Op>, name: string)
    requires Inv(s) && AdmissibleRun(s, ops) && Lookup(s.registered, name).None?
    ensures var t := Run(s, ops);
            match Lookup(t.registered, name)
            case None => FirstRegistration(ops, name).None?
            case Some(i) => FirstRegistration(ops, name) == Some(t.registered[i].maxComponents)
    decreases |ops|
  {
    if ops != [] {
      var op := ops[0];
      var next := Step(s, op).0;
      StepKeepsInv(s, op);
      if op.Register? && op.name == name {
        var i := |s.registered|;
        assert next.registered[i] == Registration(name, i, op.maxComponents);
        RunKeepsInv(next, ops[1..]);
        RegistrationsOnlyGrow(next, ops[1..]);
        LookupFirst(Run(next, ops[1..]).registered, name, i);
      } else {
        NotRegisteredYet(s, op, name);
        RegisteredByFirst(next, ops[1..], name);
      }
    }
  }

  lemma {:induction false} NotRegisteredYet(s: RmState, op: Op, name: string)
    requires Sized(s) && Lookup(s.registered, name).None?
    requires !(op.Register? && op.name == name)
    ensures Lookup(Step(s, op).0.registered, name).None?
  {
  }

  /** Over every run from RM_Init, a type never has more holders than the bound of its first
      registration, and later registrations of the name change nothing. */
  lemma {:induction false} HoldersWithinFirstBound(wide: bool, clock: nat, ops: seq<Op>, s: RmState, name: string,
                                                   i: nat)
    requires LeadsTo(wide, clock, ops, s) && Lookup(s.registered, name) == Some(i)
    ensures FirstRegistration(ops, name) == Some(s.registered[i].maxComponents)
    ensures s.holders[i] != [] ==> |s.holders[i]| <= FirstRegistration(ops, name).value
  {
    InitialInv(wide, clock);
    assert Lookup(Initial(wide, clock).registered, name).None?;
    RegisteredByFirst(Initial(wide, clock), ops, name);
    LeadsToInv(wide, clock, ops, s);
  }

  // ---------------------------------------------------------------- displacement

  /** No component holds two slots of one type: a component asks once per visit to Idle. */
  ghost predicate SingleHolders(s: RmState) {
    forall i :: 0 <= i < |s.holders| ==> Distinct(s.holders[i])
  }

  ghost predicate Distinct(es: seq<Entry>) {
    forall j, k :: 0 <= j < k < |es| ==> es[j].comp != es[k].comp
  }

  ghost predicate NewRequester(s: RmState, op: Op)
    requires Sized(s)
  {
    op.Get? ==>
      var i := Lookup(s.registered, op.comp.name);
      i.Some? ==> op.comp !in Comps(s.holders[i.value])
  }

  ghost function PrioritySum(es: seq<Entry>): nat {
    if es == [] then 0 else es[0].priority + PrioritySum(es[1..])
  }

  lemma {:induction false} PrioritySumSplit(a: seq<Entry>, b: seq<Entry>)
    ensures PrioritySum(a + b) == PrioritySum(a) + PrioritySum(b)
  {
    if a == [] {
      assert a + b == b;
    } else {
      PrioritySumSplit(a[1..], b);
      assert (a + b)[1..] == a[1..] + b;
    }
  }

  /** Among single holders the entry removed is the victim itself. */
  lemma {:induction false} RemovesVictim(es: seq<Entry>, threshold: int) returns (k: nat)
    requires LowerThan(es, threshold) != [] && Distinct(es)
    ensures k < |es| && es[k] == Victim(es, threshold)
    ensures RemoveFirst(es, Victim(es, threshold).comp) == es[..k] + es[k + 1..]
  {
    var v := Victim(es, threshold);
    k :| 0 <= k < |es| && es[k] == v;
    RemoveFirstAt(es, v.comp, k);
  }

  lemma {:induction false} PrioritySumWithout(es: seq<Entry>, k: nat)
    requires k < |es|
    ensures PrioritySum(es[..k] + es[k + 1..]) == PrioritySum(es) - es[k].priority
  {
    PrioritySumSplit(es[..k], es[k + 1..]);
    PrioritySumSplit(es[..k], es[k..]);
    assert es == es[..k] + es[k..] && es[k..][1..] == es[k + 1..];
  }

  /** Whoever holds what: a granted request on a full type removes the first entry of the victim's
      component, and the sum of the stored numbers goes down if and only if that entry has
      strictly lower priority than the request. */
  lemma {:induction false} GrantLowersSumIff(s: RmState, comp: Component, priority: nat, idle: bool, accepted: bool,
                                             i: nat)
    returns (k: nat)
    requires Inv(s) && Lookup(s.registered, comp.name) == Some(i) && Full(s, i)
    requires priority < 0x1_0000_0000
    requires Step(s, Get(comp, priority, idle, accepted)).1 == ErrorNone
    ensures LowerThan(s.holders[i], Threshold(priority, s.wide)) != []
    ensures var es, victim := s.holders[i], Victim(s.holders[i], Threshold(priority, s.wide));
            && k < |es| && es[k].comp == victim.comp
            && (forall j :: 0 <= j < k ==> es[j].comp != victim.comp)
            && victim.priority > priority
    ensures var es, es' := s.holders[i], Step(s, Get(comp, priority, idle, accepted)).0.holders[i];
            && es' == es[..k] + es[k + 1..] + [Entry(comp, priority, s.now)]
            && (PrioritySum(es') < PrioritySum(es) <==> es[k].priority > priority)
  {
    var es, threshold := s.holders[i], Threshold(priority, s.wide);
    ThresholdNeverBelow(priority, s.wide);
    VictimHolds(es, threshold);
    k := FirstWith(es, Victim(es, threshold).comp);
    PrioritySumWithout(es, k);
    PrioritySumSplit(es[..k] + es[k + 1..], [Entry(comp, priority, s.now)]);
  }

  /** A granted request on a full type replaces one holder, of strictly lower priority, by the
      requester, so that the sum of the stored numbers goes down. */
  lemma {:induction false} GrantOnFullType(s: RmState, comp: Component, priority: nat, idle: bool, accepted: bool,
                                           i: nat)
    requires Inv(s) && SingleHolders(s) && Lookup(s.registered, comp.name) == Some(i) && Full(s, i)
    requires priority < 0x1_0000_0000
    requires Step(s, Get(comp, priority, idle, accepted)).1 == ErrorNone
    ensures var t := Step(s, Get(comp, priority, idle, accepted)).0;
            && (exists k :: 0 <= k < |s.holders[i]| && s.holders[i][k].priority > priority
                  && t.holders[i] == s.holders[i][..k] + s.holders[i][k + 1..] + [Entry(comp, priority, s.now)])
            && |t.holders[i]| == |s.holders[i]|
            && PrioritySum(t.holders[i]) < PrioritySum(s.holders[i])
            && forall j :: 0 <= j < |s.holders| && j != i ==> t.holders[j] == s.holders[j]
  {
    var es, threshold := s.holders[i], Threshold(priority, s.wide);
    ThresholdNeverBelow(priority, s.wide);
    assert Distinct(es);
    var k := RemovesVictim(es, threshold);
    PrioritySumWithout(es, k);
    PrioritySumSplit(es[..k] + es[k + 1..], [Entry(comp, priority, s.now)]);
  }

  lemma {:induction false} SingleHoldersKept(s: RmState, op: Op)
    requires Inv(s) && Admissible(s, op) && SingleHolders(s) && NewRequester(s, op)
    ensures SingleHolders(Step(s, op).0)
  {
    match op
    case Register(_, _) =>
    case Wait(_, _) =>
    case Get(comp, priority, idle, accepted) =>
      var found := Lookup(s.registered, comp.name);
      if found.Some? {
        GetKeepsDistinct(s.holders[found.value], Entry(comp, priority, s.now), Threshold(priority, s.wide));
      }
    case Release(comp, _) =>
      var found := Lookup(s.registered, comp.name);
      if found.Some? && comp in Comps(s.holders[found.value]) {
        var k := FirstWith(s.holders[found.value], comp);
        RemoveDistinct(s.holders[found.value], k);
      }
  }

  lemma {:induction false} GetKeepsDistinct(es: seq<Entry>, e: Entry, threshold: int)
    requires Distinct(es) && e.comp !in Comps(es)
    ensures Distinct(es + [e])
    ensures LowerThan(es, threshold) != [] ==>
              Distinct(RemoveFirst(es, Victim(es, threshold).comp) + [e])
  {
    AppendDistinct(es, e);
    if LowerThan(es, threshold) != [] {
      var k := RemovesVictim(es, threshold);
      RemoveDistinct(es, k);
      AppendDistinct(es[..k] + es[k + 1..], e);
    }
  }

  lemma {:induction false} AppendDistinct(es: seq<Entry>, e: Entry)
    requires Distinct(es) && e.comp !in Comps(es)
    ensures Distinct(es + [e])
  {
  }

  lemma {:induction false} RemoveDistinct(es: seq<Entry>, k: nat)
    requires Distinct(es) && k < |es|
    ensures Distinct(es[..k] + es[k + 1..])
    ensures forall c :: c !in Comps(es) ==> c !in Comps(es[..k] + es[k + 1..])
  {
  }

  // ---------------------------------------------------------------- requests are bounded

  ghost predicate SmallPriorities(es: seq<Entry>) {
    forall k :: 0 <= k < |es| ==> es[k].priority < 0x1_0000_0000
  }

  /** Free places weigh more than any priority. */
  ghost function Potential(s: RmState, i: nat): int
    requires i < |s.registered| && i < |s.holders|
  {
    (s.registered[i].maxComponents - |s.holders[i]|) * 0x1_0000_0000 + PrioritySum(s.holders[i])
  }

  ghost predicate Grants(s: RmState, op: Op, i: nat)
    requires Sized(s)
  {
    op.Get? && Lookup(s.registered, op.comp.name) == Some(i) && Step(s, op).1 == ErrorNone
  }

  /** Requests granted for type i in a run. */
  ghost function Granted(s: RmState, ops: seq<Op>, i: nat): nat
    requires AdmissibleRun(s, ops)
    decreases |ops|
  {
    if ops == [] then 0
    else (if Grants(s, ops[0], i) then 1 else 0) + Granted(Step(s, ops[0]).0, ops[1..], i)
  }

  /** Every call of the run is by a component that does not hold its type yet, has a 32-bit
      priority, and does not release type i. */
  ghost predicate DemandOnly(s: RmState, ops: seq<Op>, i: nat)
    requires AdmissibleRun(s, ops)
    decreases |ops|
  {
    ops == [] ||
    (&& NewRequester(s, ops[0])
     && (ops[0].Get? ==> ops[0].priority < 0x1_0000_0000)
     && (ops[0].Release? ==> Lookup(s.registered, ops[0].comp.name) != Some(i))
     && DemandOnly(Step(s, ops[0]).0, ops[1..], i))
  }

  lemma {:induction false} GrantLowersPotential(s: RmState, op: Op, i: nat)
    requires Inv(s) && SingleHolders(s) && i < |s.registered| && Admissible(s, op) && Grants(s, op, i)
    requires op.priority < 0x1_0000_0000 && SmallPriorities(s.holders[i])
    ensures i < |Step(s, op).0.registered|
    ensures Potential(Step(s, op).0, i) < Potential(s, i)
    ensures SmallPriorities(Step(s, op).0.holders[i])
  {
    var e := Entry(op.comp, op.priority, s.now);
    if Full(s, i) {
      GrantOnFullType(s, op.comp, op.priority, op.idle, op.accepted, i);
    } else {
      PrioritySumSplit(s.holders[i], [e]);
      assert PrioritySum([e]) == op.priority;
    }
  }

  lemma {:induction false} OtherCallsKeepPotential(s: RmState, op: Op, i: nat)
    requires Inv(s) && i < |s.registered| && Admissible(s, op) && !Grants(s, op, i)
    requires op.Release? ==> Lookup(s.registered, op.comp.name) != Some(i)
    ensures i < |Step(s, op).0.registered|
    ensures Step(s, op).0.holders[i] == s.holders[i]
    ensures Potential(Step(s, op).0, i) == Potential(s, i)
  {
  }

  /** Without releases, requests for a type are granted only so often, however they are ordered
      and whoever makes them: at most as often as the initial potential says. */
  lemma {:induction false} GrantsBounded(s: RmState, ops: seq<Op>, i: nat)
    requires Inv(s) && SingleHolders(s) && i < |s.registered| && SmallPriorities(s.holders[i])
    requires AdmissibleRun(s, ops) && DemandOnly(s, ops, i)
    requires s.registered[i].maxComponents >= 1
    ensures Granted(s, ops, i) <= Potential(s, i)
    decreases |ops|
  {
    if ops != [] {
      var op, next := ops[0], Step(s, ops[0]).0;
      StepKeepsInv(s, op);
      SingleHoldersKept(s, op);
      if Grants(s, op, i) {
        GrantLowersPotential(s, op, i);
      } else {
        OtherCallsKeepPotential(s, op, i);
      }
      RegistrationKept(s, op, i);
      GrantsBounded(next, ops[1..], i);
    } else {
      assert s.registered[i].maxComponents >= |s.holders[i]|;
    }
  }

  lemma {:induction false} RegistrationKept(s: RmState, op: Op, i: nat)
    requires Sized(s) && i < |s.registered|
    ensures i < |Step(s, op).0.registered| && Step(s, op).0.registered[i] == s.registered[i]
  {
  }

  // ---------------------------------------------------------------- waiting

  ghost function Queue(s: RmState, name: string): seq<Component>
    requires Sized(s)
  {
    match Lookup(s.registered, name)
    case None => []
    case Some(i) => Comps(s.waiting[i])
  }

  /** A component taken off the queue, and whether it accepted the command to go to Idle. */
  datatype Turn = Turn(comp: Component, accepted: bool)

  ghost function TurnOf(m: Message, name: string): seq<Turn> {
    if m.StateSet? && m.target == Idle && m.comp.name == name then [Turn(m.comp, m.accepted)] else []
  }

  /** The components whose turn came, in order. */
  ghost function Outcomes(sent: seq<Message>, name: string): seq<Turn> {
    if sent == [] then [] else Outcomes(sent[..|sent| - 1], name) + TurnOf(sent[|sent| - 1], name)
  }

  ghost function CompsOf(turns: seq<Turn>): seq<Component> {
    if turns == [] then [] else CompsOf(turns[..|turns| - 1]) + [turns[|turns| - 1].comp]
  }

  /** Those of the turns with this answer, in order. */
  ghost function Answered(turns: seq<Turn>, accepted: bool): seq<Component> {
    if turns == [] then []
    else
      Answered(turns[..|turns| - 1], accepted)
      + if turns[|turns| - 1].accepted == accepted then [turns[|turns| - 1].comp] else []
  }

  ghost function TakenOff(sent: seq<Message>, name: string): seq<Component> {
    CompsOf(Outcomes(sent, name))
  }

  /** The components told to go to Idle because their turn came, in order. */
  ghost function Woken(sent: seq<Message>, name: string): seq<Component> {
    Answered(Outcomes(sent, name), true)
  }

  /** The components that were taken off the queue but could not be told. */
  ghost function Dropped(sent: seq<Message>, name: string): seq<Component> {
    Answered(Outcomes(sent, name), false)
  }

  /** Those already taken off, then those still in the queue. */
  ghost function Turns(s: RmState, name: string): seq<Component>
    requires Sized(s)
  {
    TakenOff(s.sent, name) + Queue(s, name)
  }

  ghost function Queues(s: RmState, op: Op, name: string): seq<Component> {
    if op.Wait? && op.comp.name == name && Lookup(s.registered, name).Some? then [op.comp] else []
  }

  /** The components queued by RM_waitForResource, in order. */
  ghost function Waited(s: RmState, ops: seq<Op>, name: string): seq<Component>
    requires AdmissibleRun(s, ops)
    decreases |ops|
  {
    if ops == [] then [] else Queues(s, ops[0], name) + Waited(Step(s, ops[0]).0, ops[1..], name)
  }

  /** Waiting components wait for the type they are named after. */
  ghost predicate QueuesNamed(s: RmState)
    requires Sized(s)
  {
    forall i :: 0 <= i < |s.registered| ==> QueueNamed(s.waiting[i], s.registered[i].name)
  }

  ghost predicate QueueNamed(es: seq<Entry>, name: string) {
    forall k :: 0 <= k < |es| ==> es[k].comp.name == name
  }

  ghost predicate WellQueued(s: RmState) {
    Inv(s) && QueuesNamed(s)
  }

  lemma {:induction false} StepKeepsQueued(s: RmState, op: Op)
    requires WellQueued(s) && Admissible(s, op)
    ensures WellQueued(Step(s, op).0)
  {
    StepKeepsInv(s, op);
    var t := Step(s, op).0;
    forall i | 0 <= i < |t.registered| ensures QueueNamed(t.waiting[i], t.registered[i].name) {
      QueueStaysNamed(s, op, i);
    }
  }

  lemma {:induction false} QueueStaysNamed(s: RmState, op: Op, i: nat)
    requires WellQueued(s) && Admissible(s, op) && i < |Step(s, op).0.registered|
    ensures i < |Step(s, op).0.waiting| && QueueNamed(Step(s, op).0.waiting[i], Step(s, op).0.registered[i].name)
  {
    if i < |s.registered| {
      assert QueueNamed(s.waiting[i], s.registered[i].name);
    }
  }

  lemma {:induction false} OutcomesSend(sent: seq<Message>, m: Message, name: string)
    ensures Outcomes(sent + [m], name) == Outcomes(sent, name) + TurnOf(m, name)
    ensures TakenOff(sent + [m], name)
         == TakenOff(sent, name) + (if m.StateSet? && m.target == Idle && m.comp.name == name then [m.comp] else [])
  {
    assert (sent + [m])[..|sent|] == sent;
    if TurnOf(m, name) != [] {
      TurnAppended(Outcomes(sent, name), TurnOf(m, name)[0]);
    } else {
      assert Outcomes(sent, name) + [] == Outcomes(sent, name);
    }
  }

  lemma {:induction false} TurnAppended(turns: seq<Turn>, turn: Turn)
    ensures CompsOf(turns + [turn]) == CompsOf(turns) + [turn.comp]
    ensures Answered(turns + [turn], turn.accepted) == Answered(turns, turn.accepted) + [turn.comp]
    ensures Answered(turns + [turn], !turn.accepted) == Answered(turns, !turn.accepted)
  {
    assert (turns + [turn])[..|turns|] == turns;
  }

  /** One call moves the queue and the woken components together. */
  lemma {:induction false} QueueStep(s: RmState, op: Op, name: string)
    requires WellQueued(s) && Admissible(s, op)
    ensures Sized(Step(s, op).0)
    ensures Turns(Step(s, op).0, name) == Turns(s, name) + Queues(s, op, name)
  {
    match op
    case Register(n, m) => RegisterKeepsQueue(s, n, m, name);
    case Get(comp, priority, idle, accepted) => GetKeepsQueue(s, comp, priority, idle, accepted, name);
    case Release(comp, accepted) => ReleaseMovesQueue(s, comp, accepted, name);
    case Wait(comp, priority) => WaitExtendsQueue(s, comp, priority, name);
  }

  lemma {:induction false} RegisterKeepsQueue(s: RmState, n: string, m: int, name: string)
    requires WellQueued(s) && Admissible(s, Register(n, m))
    ensures Sized(Step(s, Register(n, m)).0)
    ensures Turns(Step(s, Register(n, m)).0, name) == Turns(s, name) + []
  {
    var t := Step(s, Register(n, m)).0;
    if Lookup(s.registered, name).None? && n == name {
      LookupFirst(t.registered, name, |s.registered|);
      assert s.waiting[|s.registered|] == [];
    } else if Lookup(s.registered, name).None? {
      NotRegisteredYet(s, Register(n, m), name);
    } else {
      LookupFirst(t.registered, name, Lookup(s.registered, name).value);
    }
  }

  lemma {:induction false} PreemptWakesNone(sent: seq<Message>, victim: Component, idle: bool, accepted: bool,
                                            name: string)
    ensures TakenOff(sent + PreemptMessages(victim, idle, accepted), name) == TakenOff(sent, name)
  {
    if idle {
      OutcomesSend(sent, ResourcesLost(victim), name);
      OutcomesSend(sent + [ResourcesLost(victim)], StateSet(victim, Loaded, accepted), name);
      assert sent + PreemptMessages(victim, idle, accepted)
          == sent + [ResourcesLost(victim)] + [StateSet(victim, Loaded, accepted)];
    } else {
      assert sent + [] == sent;
    }
  }

  lemma {:induction false} SameTurns(s: RmState, t: RmState, name: string)
    requires Sized(s) && Sized(t) && s.registered == t.registered && s.waiting == t.waiting
    requires TakenOff(t.sent, name) == TakenOff(s.sent, name)
    ensures Turns(t, name) == Turns(s, name) + []
  {
  }

  lemma {:induction false} GetKeepsQueue(s: RmState, comp: Component, priority: nat, idle: bool, accepted: bool,
                                         name: string)
    requires WellQueued(s) && Admissible(s, Get(comp, priority, idle, accepted))
    ensures Sized(GetStep(s, comp, priority, idle, accepted).0)
    ensures Turns(GetStep(s, comp, priority, idle, accepted).0, name) == Turns(s, name) + []
  {
    var t := GetStep(s, comp, priority, idle, accepted).0;
    if t.sent != s.sent {
      var i := Lookup(s.registered, comp.name).value;
      PreemptWakesNone(s.sent, Victim(s.holders[i], Threshold(priority, s.wide)).comp, idle, accepted, name);
    }
    SameTurns(s, t, name);
  }

  lemma {:induction false} ReleaseMovesQueue(s: RmState, comp: Component, accepted: bool, name: string)
    requires WellQueued(s)
    ensures Sized(ReleaseStep(s, comp, accepted).0)
    ensures Turns(ReleaseStep(s, comp, accepted).0, name) == Turns(s, name) + []
  {
    var t := ReleaseStep(s, comp, accepted).0;
    if t.sent != s.sent {
      var i := Lookup(s.registered, comp.name).value;
      WakeMovesQueue(s, t, i, accepted, name);
    }
  }

  lemma {:induction false} WakeMovesQueue(s: RmState, t: RmState, i: nat, accepted: bool, name: string)
    requires Sized(s) && Sized(t) && i < |s.registered| && Lookup(s.registered, s.registered[i].name) == Some(i)
    requires t.registered == s.registered && s.waiting[i] != []
    requires QueueNamed(s.waiting[i], s.registered[i].name)
    requires t.waiting == s.waiting[i := s.waiting[i][1..]]
    requires t.sent == s.sent + [StateSet(s.waiting[i][0].comp, Idle, accepted)]
    ensures Turns(t, name) == Turns(s, name)
  {
    var first := s.waiting[i][0].comp;
    OutcomesSend(s.sent, StateSet(first, Idle, accepted), name);
    if name == s.registered[i].name {
      var rest := Comps(s.waiting[i][1..]);
      assert Queue(t, name) == rest;
      assert Queue(s, name) == [first] + rest;
      Assoc(TakenOff(s.sent, name), [first], rest);
    } else {
      OtherQueue(s, t, i, name);
    }
  }

  lemma {:induction false} OtherQueue(s: RmState, t: RmState, i: nat, name: string)
    requires Sized(s) && Sized(t) && s.registered == t.registered && i < |s.registered|
    requires s.registered[i].name != name
    requires forall j :: 0 <= j < |s.waiting| && j != i ==> t.waiting[j] == s.waiting[j]
    ensures Queue(t, name) == Queue(s, name)
  {
  }

  lemma {:induction false} WaitExtendsQueue(s: RmState, comp: Component, priority: nat, name: string)
    requires WellQueued(s)
    ensures Sized(Step(s, Wait(comp, priority)).0)
    ensures Turns(Step(s, Wait(comp, priority)).0, name) == Turns(s, name) + Queues(s, Wait(comp, priority), name)
  {
    var found := Lookup(s.registered, comp.name);
    if found.None? {
      assert Turns(s, name) + [] == Turns(s, name);
    } else if comp.name == name {
      QueuedBehind(s, found.value, comp, priority);
    } else {
      OtherQueue(s, WithWaiting(s, found.value, comp, priority), found.value, name);
      assert Turns(s, name) + [] == Turns(s, name);
    }
  }

  lemma {:induction false} QueuedBehind(s: RmState, i: nat, comp: Component, priority: nat)
    requires Sized(s) && Lookup(s.registered, comp.name) == Some(i)
    ensures Turns(WithWaiting(s, i, comp, priority), comp.name) == Turns(s, comp.name) + [comp]
  {
    assert Comps(s.waiting[i] + [Entry(comp, priority, s.now)]) == Comps(s.waiting[i]) + [comp];
    Assoc(TakenOff(s.sent, comp.name), Comps(s.waiting[i]), [comp]);
  }

  /** The waiting list is a FIFO over whole runs: components are taken off in the order in which
      they came, none twice, and the others are still there. */
  lemma {:induction false} WaitingIsFifo(s: RmState, ops: seq<Op>, name: string)
    requires WellQueued(s) && AdmissibleRun(s, ops)
    ensures Turns(Run(s, ops), name) == Turns(s, name) + Waited(s, ops, name)
    decreases |ops|
  {
    if ops != [] {
      var next := Step(s, ops[0]).0;
      StepKeepsQueued(s, ops[0]);
      QueueStep(s, ops[0], name);
      WaitingIsFifo(next, ops[1..], name);
      Assoc(Turns(s, name), Queues(s, ops[0], name), Waited(next, ops[1..], name));
    }
  }

  /** Everyone taken off was woken or dropped; nobody was dropped exactly when every command was
      accepted. */
  lemma {:induction false} TurnsSplit(turns: seq<Turn>)
    ensures multiset(CompsOf(turns)) == multiset(Answered(turns, true)) + multiset(Answered(turns, false))
  {
    if turns != [] {
      TurnsSplit(turns[..|turns| - 1]);
      SplitOneMore(turns);
    }
  }

  lemma {:induction false} SplitOneMore(turns: seq<Turn>)
    requires turns != []
    requires var before := turns[..|turns| - 1];
             multiset(CompsOf(before)) == multiset(Answered(before, true)) + multiset(Answered(before, false))
    ensures multiset(CompsOf(turns)) == multiset(Answered(turns, true)) + multiset(Answered(turns, false))
  {
    var before, last := turns[..|turns| - 1], turns[|turns| - 1];
    var all, woken, dropped := CompsOf(before), Answered(before, true), Answered(before, false);
    if last.accepted {
      assert Answered(turns, true) == woken + [last.comp] && Answered(turns, false) == dropped + [];
      assert dropped + [] == dropped;
      MoveOne(all, woken, dropped, last.comp);
    } else {
      assert Answered(turns, false) == dropped + [last.comp] && Answered(turns, true) == woken + [];
      assert woken + [] == woken;
      MoveOne(all, dropped, woken, last.comp);
    }
  }

  lemma {:induction false} MoveOne(all: seq<Component>, a: seq<Component>, b: seq<Component>, c: Component)
    requires multiset(all) == multiset(a) + multiset(b)
    ensures multiset(all + [c]) == multiset(a + [c]) + multiset(b)
    ensures multiset(all + [c]) == multiset(b) + multiset(a + [c])
  {
    Regrouped(multiset(all), multiset(a), multiset(b), multiset{c});
  }

  lemma {:induction false} Regrouped(x: multiset<Component>, y: multiset<Component>, z: multiset<Component>,
                                     c: multiset<Component>)
    requires x == y + z
    ensures x + c == (y + c) + z == z + (y + c)
  {
  }

  lemma {:induction false} NobodyDropped(turns: seq<Turn>)
    ensures Answered(turns, false) == [] <==> AllAccepted(turns)
    ensures AllAccepted(turns) ==> Answered(turns, true) == CompsOf(turns)
  {
    if turns != [] {
      var before, last := turns[..|turns| - 1], turns[|turns| - 1];
      NobodyDropped(before);
      assert turns == before + [last];
      TurnAppended(before, last);
      assert AllAccepted(turns) <==> AllAccepted(before) && last.accepted;
    }
  }

  ghost predicate AllAccepted(turns: seq<Turn>) {
    forall k :: 0 <= k < |turns| ==> turns[k].accepted
  }

  /** From RM_Init on: the components that called RM_waitForResource are, in order, those taken
      off the queue and those still in it; a component taken off was woken, or it was dropped
      because it refused the command.  The components woken and those in the queue are all that
      ever waited if and only if every command was accepted. */
  lemma {:induction false} WokenInOrder(wide: bool, clock: nat, ops: seq<Op>, s: RmState, name: string)
    requires LeadsTo(wide, clock, ops, s)
    ensures Waited(Initial(wide, clock), ops, name) == CompsOf(Outcomes(s.sent, name)) + Queue(s, name)
    ensures multiset(CompsOf(Outcomes(s.sent, name)))
         == multiset(Woken(s.sent, name)) + multiset(Dropped(s.sent, name))
    ensures Waited(Initial(wide, clock), ops, name) == Woken(s.sent, name) + Queue(s, name)
        <==> AllAccepted(Outcomes(s.sent, name))
  {
    InitialTurns(wide, clock, name);
    WaitingIsFifo(Initial(wide, clock), ops, name);
    TurnsSplit(Outcomes(s.sent, name));
    NobodyDropped(Outcomes(s.sent, name));
    SameLength(CompsOf(Outcomes(s.sent, name)), Woken(s.sent, name), Dropped(s.sent, name), Queue(s, name));
  }

  lemma {:induction false} SameLength(all: seq<Component>, a: seq<Component>, b: seq<Component>, queue: seq<Component>)
    requires multiset(all) == multiset(a) + multiset(b)
    ensures all + queue == a + queue ==> b == []
  {
    assert |multiset(all)| == |all| == |a| + |b| by {
      assert |multiset(a) + multiset(b)| == |multiset(a)| + |multiset(b)|;
    }
  }

  lemma {:induction false} InitialTurns(wide: bool, clock: nat, name: string)
    ensures WellQueued(Initial(wide, clock)) && Turns(Initial(wide, clock), name) == []
  {
    InitialInv(wide, clock);
  }

  /** A successful release frees a place and takes exactly the first waiting component off the
      queue; that component is woken if and only if it accepts the command, and otherwise it is
      neither waiting nor woken any more, while the release succeeds. */
  lemma {:induction false} ReleaseWakesFirstIff(s: RmState, comp: Component, accepted: bool, i: nat)
    requires WellQueued(s) && Lookup(s.registered, comp.name) == Some(i)
    requires Step(s, Release(comp, accepted)).1 == ErrorNone
    ensures var t := Step(s, Release(comp, accepted)).0;
            && |t.holders[i]| == |s.holders[i]| - 1
            && (s.waiting[i] == [] ==> t.waiting[i] == [] && t.sent == s.sent)
            && (s.waiting[i] != [] ==>
                  var first := s.waiting[i][0].comp;
                  && t.waiting[i] == s.waiting[i][1..]
                  && Outcomes(t.sent, comp.name) == Outcomes(s.sent, comp.name) + [Turn(first, accepted)]
                  && (Woken(t.sent, comp.name) == Woken(s.sent, comp.name) + [first] <==> accepted)
                  && (Dropped(t.sent, comp.name) == Dropped(s.sent, comp.name) + [first] <==> !accepted))
  {
    RemoveFirstInv(s.holders[i], comp, s.now);
    if s.waiting[i] != [] {
      var first := s.waiting[i][0].comp;
      assert QueueNamed(s.waiting[i], s.registered[i].name);
      OutcomesSend(s.sent, StateSet(first, Idle, accepted), comp.name);
      TurnAppended(Outcomes(s.sent, comp.name), Turn(first, accepted));
    }
  }

  // ---------------------------------------------------------------- the place of a woken component

  ghost predicate NoRelease(ops: seq<Op>, name: string) {
    forall k :: 0 <= k < |ops| && ops[k].Release? ==> ops[k].comp.name != name
  }

  /** Some call of the run asks for the type. */
  ghost predicate AsksFor(ops: seq<Op>, name: string) {
    exists k :: 0 <= k < |ops| && ops[k].Get? && ops[k].comp.name == name
  }

  lemma {:induction false} AsksFirst(ops: seq<Op>, name: string)
    requires ops != []
    ensures AsksFor(ops, name) <==> (ops[0].Get? && ops[0].comp.name == name) || AsksFor(ops[1..], name)
  {
    if AsksFor(ops, name) && !(ops[0].Get? && ops[0].comp.name == name) {
      var k :| 0 <= k < |ops| && ops[k].Get? && ops[k].comp.name == name;
      assert ops[1..][k - 1] == ops[k];
    }
    if AsksFor(ops[1..], name) {
      var k :| 0 <= k < |ops[1..]| && ops[1..][k].Get? && ops[1..][k].comp.name == name;
      assert ops[k + 1] == ops[1..][k];
    }
  }

  /** Without a release of the type: a request takes a free place if there is one, and otherwise
      leaves the number of holders as it is; other calls leave the holders as they are. */
  lemma {:induction false} PlacesStep(s: RmState, op: Op, i: nat)
    requires Inv(s) && i < |s.registered| && Admissible(s, op)
    requires op.Release? ==> op.comp.name != s.registered[i].name
    ensures var t, asks := Step(s, op).0, op.Get? && op.comp.name == s.registered[i].name;
            && i < |t.registered| && t.registered[i] == s.registered[i]
            && (!asks ==> t.holders[i] == s.holders[i])
            && (asks && !Full(s, i) ==> t.holders[i] == s.holders[i] + [Entry(op.comp, op.priority, s.now)])
            && (asks && Full(s, i) ==> |t.holders[i]| == |s.holders[i]|)
  {
    if op.Get? && op.comp.name == s.registered[i].name {
      LookupFirst(s.registered, op.comp.name, i);
      var es, threshold := s.holders[i], Threshold(op.priority, s.wide);
      if Full(s, i) && LowerThan(es, threshold) != [] {
        VictimHolds(es, threshold);
        RemoveFirstInv(es, Victim(es, threshold).comp, s.now);
      }
    }
  }

  lemma {:induction false} FullStaysFull(s: RmState, ops: seq<Op>, i: nat)
    requires Inv(s) && AdmissibleRun(s, ops) && i < |s.registered| && Full(s, i)
    requires NoRelease(ops, s.registered[i].name)
    ensures i < |Run(s, ops).registered| && Full(Run(s, ops), i)
    ensures Run(s, ops).registered[i] == s.registered[i]
    decreases |ops|
  {
    if ops != [] {
      StepKeepsInv(s, ops[0]);
      PlacesStep(s, ops[0], i);
      FullStaysFull(Step(s, ops[0]).0, ops[1..], i);
    }
  }

  lemma {:induction false} LastPlaceTakenIff(s: RmState, ops: seq<Op>, i: nat)
    requires Inv(s) && AdmissibleRun(s, ops) && i < |s.registered|
    requires |s.holders[i]| + 1 == s.registered[i].maxComponents && NoRelease(ops, s.registered[i].name)
    ensures i < |Run(s, ops).registered| && Run(s, ops).registered[i] == s.registered[i]
    ensures Full(Run(s, ops), i) <==> AsksFor(ops, s.registered[i].name)
    decreases |ops|
  {
    if ops != [] {
      var op, next := ops[0], Step(s, ops[0]).0;
      StepKeepsInv(s, op);
      PlacesStep(s, op, i);
      AsksFirst(ops, s.registered[i].name);
      if op.Get? && op.comp.name == s.registered[i].name {
        FullStaysFull(next, ops[1..], i);
      } else {
        LastPlaceTakenIff(next, ops[1..], i);
      }
    }
  }

  /** The documentation says that the component woken by a release receives the resource just
      released.  The manager reserves nothing for it: on a type that was full, and after further
      calls without a release, a request of that component gets a free place if and only if no
      call in between asked for the type. */
  lemma {:induction false} PlaceKeptForWokenIff(s: RmState, comp: Component, accepted: bool, i: nat, ops: seq<Op>,
                                                woken: Component, priority: nat, idle: bool, answer: bool)
    requires Inv(s) && Lookup(s.registered, comp.name) == Some(i) && Full(s, i)
    requires Step(s, Release(comp, accepted)).1 == ErrorNone
    requires AdmissibleRun(Step(s, Release(comp, accepted)).0, ops) && NoRelease(ops, comp.name)
    requires woken.name == comp.name
    requires Admissible(Run(Step(s, Release(comp, accepted)).0, ops), Get(woken, priority, idle, answer))
    ensures var u := Run(Step(s, Release(comp, accepted)).0, ops);
            var after := Step(u, Get(woken, priority, idle, answer)).0;
            && i < |u.registered| && |u.holders| == |after.holders| && i < |u.holders|
            && (after.holders[i] == u.holders[i] + [Entry(woken, priority, u.now)] <==> !AsksFor(ops, comp.name))
  {
    var t := Step(s, Release(comp, accepted)).0;
    StepKeepsInv(s, Release(comp, accepted));
    PlaceFreed(s, comp, accepted, i);
    LastPlaceTakenIff(t, ops, i);
    RunKeepsInv(t, ops);
    RequestIff(Run(t, ops), i, woken, priority, idle, answer);
  }

  lemma {:induction false} PlaceFreed(s: RmState, comp: Component, accepted: bool, i: nat)
    requires Inv(s) && Lookup(s.registered, comp.name) == Some(i) && Full(s, i)
    requires Step(s, Release(comp, accepted)).1 == ErrorNone
    ensures var t := Step(s, Release(comp, accepted)).0;
            t.registered == s.registered && i < |t.holders| && |t.holders[i]| + 1 == t.registered[i].maxComponents
  {
    RemoveFirstInv(s.holders[i], comp, s.now);
  }

  lemma {:induction false} RequestIff(u: RmState, i: nat, comp: Component, priority: nat, idle: bool, answer: bool)
    requires Inv(u) && i < |u.registered| && u.registered[i].name == comp.name
    requires Admissible(u, Get(comp, priority, idle, answer))
    ensures var after := Step(u, Get(comp, priority, idle, answer)).0;
            && i < |after.holders| == |u.holders|
            && (after.holders[i] == u.holders[i] + [Entry(comp, priority, u.now)] <==> !Full(u, i))
  {
    PlacesStep(u, Get(comp, priority, idle, answer), i);
  }

  // ---------------------------------------------------------------- conservation of slots

  ghost function Held(s: RmState, name: string): multiset<Component>
    requires Sized(s)
  {
    match Lookup(s.registered, name)
    case None => multiset{}
    case Some(i) => multiset(Comps(s.holders[i]))
  }

  /** The components that come to hold the type by this call. */
  ghost function Joins(s: RmState, op: Op, name: string): multiset<Component>
    requires Sized(s)
  {
    if op.Get? && op.comp.name == name && Lookup(s.registered, name).Some? && Step(s, op).1 == ErrorNone
    then multiset{op.comp} else multiset{}
  }

  /** The components that stop holding it: by releasing, or by being preempted. */
  ghost function Leaves(s: RmState, op: Op, name: string): multiset<Component>
    requires Sized(s)
  {
    if Lookup(s.registered, name).None? then multiset{}
    else
      var i := Lookup(s.registered, name).value;
      match op
      case Release(comp, _) =>
        if comp.name == name && comp in Comps(s.holders[i]) then multiset{comp} else multiset{}
      case Get(comp, priority, idle, accepted) =>
        var lower := LowerThan(s.holders[i], Threshold(priority, s.wide));
        if comp.name == name && Full(s, i) && lower != [] && (idle ==> accepted)
        then multiset{Victim(s.holders[i], Threshold(priority, s.wide)).comp} else multiset{}
      case _ => multiset{}
  }

  ghost function AllJoins(s: RmState, ops: seq<Op>, name: string): multiset<Component>
    requires AdmissibleRun(s, ops)
    decreases |ops|
  {
    if ops == [] then multiset{}
    else Joins(s, ops[0], name) + AllJoins(Step(s, ops[0]).0, ops[1..], name)
  }

  ghost function AllLeaves(s: RmState, ops: seq<Op>, name: string): multiset<Component>
    requires AdmissibleRun(s, ops)
    decreases |ops|
  {
    if ops == [] then multiset{}
    else Leaves(s, ops[0], name) + AllLeaves(Step(s, ops[0]).0, ops[1..], name)
  }

  lemma {:induction false} RemoveFirstComps(es: seq<Entry>, comp: Component)
    requires comp in Comps(es)
    ensures multiset(Comps(RemoveFirst(es, comp))) + multiset{comp} == multiset(Comps(es))
  {
    var k := FirstWith(es, comp);
    CompsWithout(es, k);
  }

  lemma {:induction false} CompsWithout(es: seq<Entry>, k: nat)
    requires k < |es|
    ensures multiset(Comps(es[..k] + es[k + 1..])) + multiset{es[k].comp} == multiset(Comps(es))
  {
    var cs := Comps(es);
    assert cs == cs[..k] + [cs[k]] + cs[k + 1..];
    assert Comps(es[..k] + es[k + 1..]) == cs[..k] + cs[k + 1..];
  }

  lemma {:induction false} AppendComps(es: seq<Entry>, e: Entry)
    ensures multiset(Comps(es + [e])) == multiset(Comps(es)) + multiset{e.comp}
  {
    assert Comps(es + [e]) == Comps(es) + [e.comp];
  }

  lemma {:induction false} DisplacedComps(es: seq<Entry>, e: Entry, threshold: int)
    requires LowerThan(es, threshold) != []
    ensures var victim := Victim(es, threshold).comp;
            multiset(Comps(es)) + multiset{e.comp}
              == multiset(Comps(RemoveFirst(es, victim) + [e])) + multiset{victim}
  {
    var victim := Victim(es, threshold).comp;
    VictimHolds(es, threshold);
    RemoveFirstComps(es, victim);
    AppendComps(RemoveFirst(es, victim), e);
  }

  lemma {:induction false} Chain(a: multiset<Component>, b: multiset<Component>, c: multiset<Component>,
              j1: multiset<Component>, j2: multiset<Component>, l1: multiset<Component>, l2: multiset<Component>)
    requires a + j1 == b + l1 && b + j2 == c + l2
    ensures a + (j1 + j2) == c + (l1 + l2)
  {
    assert a + (j1 + j2) == (a + j1) + j2 == (b + l1) + j2 == (b + j2) + l1;
    assert (c + l2) + l1 == c + (l1 + l2);
  }

  lemma {:induction false} SlotsStep(s: RmState, op: Op, name: string)
    requires Inv(s) && Admissible(s, op)
    ensures Sized(Step(s, op).0)
    ensures HeldMoves(s, op, Step(s, op).0, name)
  {
    match op
    case Register(n, m) => RegisterKeepsHeld(s, n, m, name);
    case Get(comp, priority, idle, accepted) => GetMovesHeld(s, comp, priority, idle, accepted, name);
    case Release(comp, accepted) => ReleaseMovesHeld(s, comp, accepted, name);
    case Wait(comp, priority) =>
  }

  lemma {:induction false} RegisterKeepsHeld(s: RmState, n: string, m: int, name: string)
    requires Inv(s) && Admissible(s, Register(n, m))
    ensures Held(Step(s, Register(n, m)).0, name) == Held(s, name)
  {
    var t := Step(s, Register(n, m)).0;
    if Lookup(s.registered, name).None? && n == name {
      LookupFirst(t.registered, name, |s.registered|);
      assert s.holders[|s.registered|] == [];
    } else if Lookup(s.registered, name).None? {
      NotRegisteredYet(s, Register(n, m), name);
    } else {
      LookupFirst(t.registered, name, Lookup(s.registered, name).value);
    }
  }

  lemma {:induction false} OtherHeld(s: RmState, t: RmState, i: nat, name: string)
    requires Sized(s) && Sized(t) && s.registered == t.registered && i < |s.registered|
    requires s.registered[i].name != name
    requires forall j :: 0 <= j < |s.holders| && j != i ==> t.holders[j] == s.holders[j]
    ensures Held(t, name) == Held(s, name)
  {
  }

  ghost predicate HeldMoves(s: RmState, op: Op, t: RmState, name: string)
    requires Sized(s) && Sized(t)
  {
    Held(s, name) + Joins(s, op, name) == Held(t, name) + Leaves(s, op, name)
  }

  lemma {:induction false} GetMovesHeld(s: RmState, comp: Component, priority: nat, idle: bool, accepted: bool,
                                        name: string)
    requires Sized(s)
    ensures Sized(GetStep(s, comp, priority, idle, accepted).0)
    ensures HeldMoves(s, Get(comp, priority, idle, accepted), GetStep(s, comp, priority, idle, accepted).0, name)
  {
    var found := Lookup(s.registered, comp.name);
    if comp.name != name {
      OtherGetMovesHeld(s, comp, priority, idle, accepted, name);
    } else if found.Some? {
      if Full(s, found.value) {
        DisplaceMovesHeld(s, found.value, comp, priority, idle, accepted);
      } else {
        FreeMovesHeld(s, found.value, comp, priority, idle, accepted);
      }
    }
  }

  lemma {:induction false} OtherGetMovesHeld(s: RmState, comp: Component, priority: nat, idle: bool, accepted: bool,
                                             name: string)
    requires Sized(s) && comp.name != name
    ensures HeldMoves(s, Get(comp, priority, idle, accepted), GetStep(s, comp, priority, idle, accepted).0, name)
  {
    var found := Lookup(s.registered, comp.name);
    if found.Some? {
      OtherHeld(s, GetStep(s, comp, priority, idle, accepted).0, found.value, name);
    }
  }

  lemma {:induction false} FreeMovesHeld(s: RmState, i: nat, comp: Component, priority: nat, idle: bool, accepted: bool)
    requires Sized(s) && Lookup(s.registered, comp.name) == Some(i) && !Full(s, i)
    ensures HeldMoves(s, Get(comp, priority, idle, accepted),
                      WithHolder(s, i, s.holders[i], comp, priority), comp.name)
  {
    AppendComps(s.holders[i], Entry(comp, priority, s.now));
  }

  lemma {:induction false} DisplaceMovesHeld(s: RmState, i: nat, comp: Component, priority: nat, idle: bool,
                                             accepted: bool)
    requires Sized(s) && Lookup(s.registered, comp.name) == Some(i) && Full(s, i)
    ensures HeldMoves(s, Get(comp, priority, idle, accepted),
                      DisplaceStep(s, i, comp, priority, idle, accepted).0, comp.name)
  {
    if LowerThan(s.holders[i], Threshold(priority, s.wide)) != [] && (idle ==> accepted) {
      DisplacedComps(s.holders[i], Entry(comp, priority, s.now), Threshold(priority, s.wide));
    }
  }

  lemma {:induction false} ReleaseMovesHeld(s: RmState, comp: Component, accepted: bool, name: string)
    requires Sized(s)
    ensures Sized(ReleaseStep(s, comp, accepted).0)
    ensures HeldMoves(s, Release(comp, accepted), ReleaseStep(s, comp, accepted).0, name)
  {
    var found := Lookup(s.registered, comp.name);
    if found.Some? && comp in Comps(s.holders[found.value]) {
      if comp.name != name {
        OtherHeld(s, ReleaseStep(s, comp, accepted).0, found.value, name);
      } else {
        RemoveFirstComps(s.holders[found.value], comp);
      }
    }
  }

  /** Over every run, whoever was granted a slot of a type either still holds it, or released
      it, or was preempted: with multiplicities, no slot is lost or duplicated. */
  lemma {:induction false} SlotsConserved(s: RmState, ops: seq<Op>, name: string)
    requires Inv(s) && AdmissibleRun(s, ops)
    ensures Held(s, name) + AllJoins(s, ops, name) == Held(Run(s, ops), name) + AllLeaves(s, ops, name)
    decreases |ops|
  {
    if ops != [] {
      StepKeepsInv(s, ops[0]);
      SlotsStep(s, ops[0], name);
      var next := Step(s, ops[0]).0;
      SlotsConserved(next, ops[1..], name);
      Chain(Held(s, name), Held(next, name), Held(Run(s, ops), name), Joins(s, ops[0], name),
            AllJoins(next, ops[1..], name), Leaves(s, ops[0], name), AllLeaves(next, ops[1..], name));
    }
  }
}
