/** What each call of the resource manager answers, what it sends and what it leaves alone, said of
    the tables it finds. */
module ResourceAnswers {
  import opened HolderList
  import opened ResourcePolicy
  import opened ResourceRuns
  import opened Sequences

  /** Type i is registered under this name. */
  ghost predicate Registered(s: RmState, name: string, i: int) {
    0 <= i < |s.registered| && s.registered[i].name == name
  }

  ghost predicate Unregistered(s: RmState, name: string) {
    forall i :: 0 <= i < |s.registered| ==> s.registered[i].name != name
  }

  lemma {:induction false} LookupIs(s: RmState, name: string)
    requires Inv(s)
    ensures Lookup(s.registered, name).None? <==> Unregistered(s, name)
    ensures forall i :: Registered(s, name, i) ==> Lookup(s.registered, name) == Some(i)
  {
    forall i | Registered(s, name, i) ensures Lookup(s.registered, name) == Some(i) {
      LookupFirst(s.registered, name, i);
    }
  }

  // ---------------------------------------------------------------- answers

  /** Nothing happens for a component whose name was never registered: it is granted what it asks
      for, and no list, clock or message changes. */
  lemma {:induction false} UnregisteredUntouched(s: RmState, op: Op)
    requires Sized(s) && !op.Register? && Unregistered(s, op.comp.name)
    ensures Step(s, op) == (s, ErrorNone)
  {
  }

  /** The request finds its type full, and nobody to displace or one that cannot be told. */
  ghost predicate Hopeless(s: RmState, i: int, priority: nat, idle: bool, accepted: bool)
    requires 0 <= i < |s.registered| && i < |s.holders|
  {
    && |s.holders[i]| >= s.registered[i].maxComponents
    && (NoneAbove(s.holders[i], Threshold(priority, s.wide)) || (idle && !accepted))
  }

  /** A request is refused exactly when its name is registered, the type is full, and either no
      holder has a larger number than the one compared with or the command to the victim fails.
      A refusal changes no list. */
  lemma {:induction false} RefusedExactly(s: RmState, comp: Component, priority: nat, idle: bool, accepted: bool)
    requires Inv(s) && Admissible(s, Get(comp, priority, idle, accepted))
    ensures var (t, err) := Step(s, Get(comp, priority, idle, accepted));
            && (err != ErrorNone <==>
                  exists i :: Registered(s, comp.name, i) && i < |s.holders|
                              && Hopeless(s, i, priority, idle, accepted))
            && (err != ErrorNone ==> err == ErrorInsufficientResources && t == s.(sent := t.sent))
  {
    LookupIs(s, comp.name);
    var found := Lookup(s.registered, comp.name);
    if found.Some? {
      RefusedForType(s, comp, priority, idle, accepted, found.value);
      assert Registered(s, comp.name, found.value);
    } else {
      UnregisteredUntouched(s, Get(comp, priority, idle, accepted));
    }
  }

  /** A release is answered with OMX_ErrorUndefined exactly when the type is registered and the
      component does not hold it, and then changes nothing; a component may always wait and a name
      may always be registered, the second time without effect. */
  lemma {:induction false} OtherAnswersExact(s: RmState, op: Op)
    requires Inv(s) && Admissible(s, op) && !op.Get?
    ensures var (t, err) := Step(s, op);
            match op
            case Release(comp, _) =>
              && (err != ErrorNone <==>
                    exists i :: Registered(s, comp.name, i) && i < |s.holders| && comp !in Comps(s.holders[i]))
              && (err != ErrorNone ==> err == ErrorUndefined && t == s)
            case Wait(_, _) => err == ErrorNone
            case Register(name, max) =>
              && err == ErrorNone
              && t == if Unregistered(s, name)
                      then s.(registered := s.registered + [Registration(name, |s.registered|, max)]) else s
  {
    LookupIs(s, NameOf(op));
    if op.Release? && Lookup(s.registered, op.comp.name).Some? {
      var i := Lookup(s.registered, op.comp.name).value;
      assert Registered(s, op.comp.name, i);
    }
  }

  // ---------------------------------------------------------------- messages

  /** e is the oldest of the entries with a larger number. */
  ghost predicate OldestLower(es: seq<Entry>, threshold: int, e: Entry) {
    && e in es && e.priority > threshold
    && forall x :: x in es && x.priority > threshold ==> e.timestamp <= x.timestamp
  }

  /** Holder k of type i is to make room for this request: the type is full, and it is the oldest
      holder of lower priority. */
  ghost predicate Displaces(s: RmState, comp: Component, priority: nat, i: int, k: int) {
    && Registered(s, comp.name, i) && i < |s.holders| && 0 <= k < |s.holders[i]|
    && |s.holders[i]| >= s.registered[i].maxComponents
    && OldestLower(s.holders[i], Threshold(priority, s.wide), s.holders[i][k])
  }

  lemma {:induction false} VictimIsOldestLower(es: seq<Entry>, threshold: int, now: nat, e: Entry)
    requires ListInv(es, now)
    ensures OldestLower(es, threshold, e) <==> LowerThan(es, threshold) != [] && e == Victim(es, threshold)
  {
    LowerThanExact(es, threshold);
    if LowerThan(es, threshold) != [] {
      assert OldestLower(es, threshold, e) <==> IsOldest(e, LowerThan(es, threshold));
      OldestOfSuffixIsOldestLower(es, threshold, e);
      OldestOfSuffixIsOldestLower(es, threshold, Victim(es, threshold));
    } else {
      NoneAboveIff(es, threshold);
    }
  }

  lemma {:induction false} DisplacesVictim(s: RmState, comp: Component, priority: nat, i: int, k: int)
    requires Inv(s) && Displaces(s, comp, priority, i, k)
    ensures Lookup(s.registered, comp.name) == Some(i) && Full(s, i)
    ensures LowerThan(s.holders[i], Threshold(priority, s.wide)) != []
    ensures s.holders[i][k] == Victim(s.holders[i], Threshold(priority, s.wide))
  {
    LookupIs(s, comp.name);
    assert ListInv(s.holders[i], s.now);
    VictimIsOldestLower(s.holders[i], Threshold(priority, s.wide), s.now, s.holders[i][k]);
  }

  lemma {:induction false} VictimDisplaced(s: RmState, comp: Component, priority: nat, i: nat) returns (k: int)
    requires Inv(s) && Lookup(s.registered, comp.name) == Some(i) && Full(s, i)
    requires LowerThan(s.holders[i], Threshold(priority, s.wide)) != []
    ensures Displaces(s, comp, priority, i, k)
  {
    var es, threshold := s.holders[i], Threshold(priority, s.wide);
    var v := Victim(es, threshold);
    k :| 0 <= k < |es| && es[k] == v;
    VictimIsOldestLower(es, threshold, s.now, v);
  }

  /** A request that displaces a component in Idle tells it that it lost its resource and commands
      it to Loaded; it is granted exactly when that command is accepted.  One that displaces a
      component in another state, or none, sends nothing. */
  lemma {:induction false} RequestMessages(s: RmState, comp: Component, priority: nat, idle: bool, accepted: bool)
    requires Inv(s) && Admissible(s, Get(comp, priority, idle, accepted))
    ensures var (t, err) := Step(s, Get(comp, priority, idle, accepted));
            && (forall i, k :: Displaces(s, comp, priority, i, k) ==>
                  && (idle ==> t.sent == s.sent + [ResourcesLost(s.holders[i][k].comp),
                                                   StateSet(s.holders[i][k].comp, Loaded, accepted)])
                  && (!idle ==> t.sent == s.sent)
                  && (err == ErrorNone <==> (idle ==> accepted)))
            && ((forall i, k :: !Displaces(s, comp, priority, i, k)) ==> t.sent == s.sent)
  {
    var get := Get(comp, priority, idle, accepted);
    forall i, k | Displaces(s, comp, priority, i, k) ensures
      var t := Step(s, get).0;
      && (idle ==> t.sent == s.sent + [ResourcesLost(s.holders[i][k].comp),
                                       StateSet(s.holders[i][k].comp, Loaded, accepted)])
      && (!idle ==> t.sent == s.sent)
      && (Step(s, get).1 == ErrorNone <==> (idle ==> accepted))
    {
      DisplacesVictim(s, comp, priority, i, k);
    }
    var found := Lookup(s.registered, comp.name);
    if Step(s, get).0.sent != s.sent {
      var k := VictimDisplaced(s, comp, priority, found.value);
    }
  }

  /** A release sends one message, and only if it succeeds and somebody waits: the command to Idle
      for the first one waiting.  Registering and waiting send nothing. */
  lemma {:induction false} OtherMessages(s: RmState, op: Op)
    requires Inv(s) && Admissible(s, op) && !op.Get?
    ensures var (t, err) := Step(s, op);
            && (!op.Release? ==> t.sent == s.sent)
            && (op.Release? && Unregistered(s, op.comp.name) ==> t.sent == s.sent)
            && (op.Release? ==> forall i :: Registered(s, op.comp.name, i) && i < |s.waiting| ==>
                  t.sent == s.sent + (if err == ErrorNone && s.waiting[i] != []
                                      then [StateSet(s.waiting[i][0].comp, Idle, op.accepted)] else []))
  {
    LookupIs(s, NameOf(op));
    assert s.sent + [] == s.sent;
  }

  // ---------------------------------------------------------------- frames

  /** The lists of types of other names. */
  ghost predicate OtherListsSame(s: RmState, t: RmState, name: string)
    requires Sized(s)
  {
    && Sized(t)
    && forall j :: 0 <= j < |s.holders| && (j < |s.registered| ==> s.registered[j].name != name) ==>
         t.holders[j] == s.holders[j] && t.waiting[j] == s.waiting[j]
  }

  /** A call touches only the lists of the type it is about: a request no waiting list, a wait no list
      of holders; and the clock advances by one for each entry added. */
  lemma {:induction false} StepFrame(s: RmState, op: Op)
    requires Inv(s) && Admissible(s, op)
    ensures var (t, err) := Step(s, op);
            && t.wide == s.wide && OtherListsSame(s, t, NameOf(op))
            && (!op.Register? ==> t.registered == s.registered)
            && (op.Register? || op.Get? ==> t.waiting == s.waiting)
            && (op.Register? || op.Wait? ==> t.holders == s.holders)
            && t.now == s.now + if (op.Get? || op.Wait?) && err == ErrorNone && !Unregistered(s, op.comp.name)
                                then 1 else 0
  {
    LookupIs(s, NameOf(op));
    OtherListsStay(s, op);
  }

  lemma {:induction false} OtherListsStay(s: RmState, op: Op)
    requires Inv(s) && Admissible(s, op)
    ensures OtherListsSame(s, Step(s, op).0, NameOf(op))
  {
    StepKeepsInv(s, op);
    var t := Step(s, op).0;
    forall j | 0 <= j < |s.holders| && (j < |s.registered| ==> s.registered[j].name != NameOf(op))
      ensures t.holders[j] == s.holders[j] && t.waiting[j] == s.waiting[j]
    {
      OtherListStays(s, op, j);
    }
  }

  lemma {:induction false} OtherListStays(s: RmState, op: Op, j: nat)
    requires Sized(s) && Sized(Step(s, op).0) && j < |s.holders|
    requires j < |s.registered| ==> s.registered[j].name != NameOf(op)
    ensures Step(s, op).0.holders[j] == s.holders[j] && Step(s, op).0.waiting[j] == s.waiting[j]
  {
    match op
    case Register(_, _) =>
    case Get(comp, _, _, _) =>
    case Release(comp, _) =>
    case Wait(_, _) =>
  }

  // ---------------------------------------------------------------- preemption over runs

  /** A component preempted in Idle, and whether it accepted the command to go to Loaded. */
  datatype Preempted = Preempted(comp: Component, accepted: bool)

  /** The component this call finds in Idle and preempts. */
  ghost function PreemptedBy(s: RmState, op: Op): seq<Preempted> {
    if op.Get? && op.idle && exists i, k :: Displaces(s, op.comp, op.priority, i, k) then
      var i, k :| Displaces(s, op.comp, op.priority, i, k);
      [Preempted(s.holders[i][k].comp, op.accepted)]
    else []
  }

  ghost function AllPreempted(s: RmState, ops: seq<Op>): seq<Preempted>
    requires Inv(s) && AdmissibleRun(s, ops)
    decreases |ops|
  {
    if ops == [] then []
    else
      StepKeepsInv(s, ops[0]);
      PreemptedBy(s, ops[0]) + AllPreempted(Step(s, ops[0]).0, ops[1..])
  }

  /** The event, then the command. */
  ghost function Told(ps: seq<Preempted>): seq<Message> {
    if ps == [] then []
    else [ResourcesLost(ps[0].comp), StateSet(ps[0].comp, Loaded, ps[0].accepted)] + Told(ps[1..])
  }

  /** The messages that are not commands to Idle. */
  ghost function Losses(sent: seq<Message>): seq<Message> {
    if sent == [] then []
    else LossOf(sent[0]) + Losses(sent[1..])
  }

  ghost function LossOf(m: Message): seq<Message> {
    if m.StateSet? && m.target == Idle then [] else [m]
  }

  lemma {:induction false} ToldAppend(a: seq<Preempted>, b: seq<Preempted>)
    ensures Told(a + b) == Told(a) + Told(b)
  {
    if a == [] {
      assert a + b == b;
    } else {
      assert (a + b)[1..] == a[1..] + b;
      ToldAppend(a[1..], b);
    }
  }

  lemma {:induction false} LossesAppend(a: seq<Message>, b: seq<Message>)
    ensures Losses(a + b) == Losses(a) + Losses(b)
  {
    if a == [] {
      assert a + b == b;
    } else {
      assert (a + b)[1..] == a[1..] + b && (a + b)[0] == a[0];
      LossesAppend(a[1..], b);
      Assoc(LossOf(a[0]), Losses(a[1..]), Losses(b));
    }
  }

  lemma {:induction false} LossesOfPair(c: Component, accepted: bool)
    ensures Losses([ResourcesLost(c), StateSet(c, Loaded, accepted)])
         == Told([Preempted(c, accepted)]) == [ResourcesLost(c), StateSet(c, Loaded, accepted)]
  {
    var lost, command := ResourcesLost(c), StateSet(c, Loaded, accepted);
    assert [lost, command][1..] == [command] && [command][1..] == [];
    assert Losses([command]) == [command];
    assert [Preempted(c, accepted)][1..] == [];
  }

  lemma {:induction false} LossesStep(s: RmState, op: Op)
    requires Inv(s) && Admissible(s, op)
    ensures Losses(Step(s, op).0.sent) == Losses(s.sent) + Told(PreemptedBy(s, op))
  {
    assert Losses(s.sent) + [] == Losses(s.sent);
    if op.Get? {
      RequestMessages(s, op.comp, op.priority, op.idle, op.accepted);
      if PreemptedBy(s, op) != [] {
        var c := PreemptedBy(s, op)[0].comp;
        LossesAppend(s.sent, [ResourcesLost(c), StateSet(c, Loaded, op.accepted)]);
        LossesOfPair(c, op.accepted);
      } else {
        assert s.sent + [] == s.sent;
      }
    } else {
      OtherMessages(s, op);
      LookupIs(s, NameOf(op));
      WakeIsNoLoss(s, op);
    }
  }

  lemma {:induction false} WakeIsNoLoss(s: RmState, op: Op)
    requires Inv(s) && Admissible(s, op) && !op.Get?
    ensures Losses(Step(s, op).0.sent) == Losses(s.sent)
  {
    OtherMessages(s, op);
    var t := Step(s, op).0;
    if t.sent != s.sent {
      var i := Lookup(s.registered, op.comp.name).value;
      assert Registered(s, op.comp.name, i);
      var wake := StateSet(s.waiting[i][0].comp, Idle, op.accepted);
      assert t.sent == s.sent + [wake];
      LossesAppend(s.sent, [wake]);
      assert [wake][1..] == [];
      assert Losses([wake]) == [];
    }
  }

  /** Over every run the messages sent, except the commands to Idle for those that waited, are in
      order the event and the command to Loaded for each component found in Idle and preempted. */
  lemma {:induction false} PreemptedAreTold(s: RmState, ops: seq<Op>)
    requires Inv(s) && AdmissibleRun(s, ops)
    ensures Losses(Run(s, ops).sent) == Losses(s.sent) + Told(AllPreempted(s, ops))
    decreases |ops|
  {
    if ops == [] {
      assert Losses(s.sent) + [] == Losses(s.sent);
    } else {
      var next := Step(s, ops[0]).0;
      StepKeepsInv(s, ops[0]);
      LossesStep(s, ops[0]);
      PreemptedAreTold(next, ops[1..]);
      ToldAppend(PreemptedBy(s, ops[0]), AllPreempted(next, ops[1..]));
      Assoc(Losses(s.sent), Told(PreemptedBy(s, ops[0])), Told(AllPreempted(next, ops[1..])));
    }
  }
}
