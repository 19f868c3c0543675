/** The resource manager together with the components that call it.  A component calls it from
    its state changes (omx_base_component_DoStateSet): it asks before it goes from Loaded to Idle,
    queues when it goes to WaitForResources, releases before it goes from Idle to Loaded, and
    makes no call on its way from WaitForResources to Idle, which is how it answers being woken,
    nor on its way to Invalid.  The way in and the way out take several steps, and may fail. */
module ResourceClients {
  import opened HolderList
  import opened ResourcePolicy
  import opened ResourceRuns
  import opened ResourceAnswers
  import opened ResourceWitnesses

  predicate Active(state: CompState) {
    state == Idle || state == Executing || state == Pause
  }

  /** arriving: in Loaded, asked with success and waiting for buffers; leaving: in Idle, released
      and waiting for buffers to be freed.  The next three record how a component that needs its
      resource came to be without a place: woken from the queue, displaced by a request, or left
      in Idle after its release.  kept counts the places of components that do not need them:
      those whose arrival failed, and those that went to Invalid. */
  datatype Clients = Clients(states: map<Component, CompState>, arriving: set<Component>, leaving: set<Component>,
                             woken: set<Component>, lost: set<Component>, released: set<Component>,
                             kept: multiset<Component>)

  datatype System = System(rm: RmState, cl: Clients)

  datatype Move =
    | Ask(comp: Component, priority: nat, answer: bool)   // Loaded to Idle: RM_getResource
    | Arrive(comp: Component)                             // its buffers are there: Idle
    | FailArrival(comp: Component)                        // a buffer could not be had: Loaded
    | Queue(comp: Component, priority: nat)               // Loaded to WaitForResources
    | Wake(comp: Component)                               // WaitForResources to Idle
    | GiveUp(comp: Component, answer: bool)               // Idle to Loaded: RM_releaseResource
    | Settle(comp: Component)                             // its buffers are freed: Loaded
    | FailLeaving(comp: Component)                        // a buffer could not be freed: Idle
    | Shift(comp: Component, target: CompState)           // between Idle, Executing and Pause
    | Invalidate(comp: Component)                         // to Invalid, by command or destruction

  /** In a state that needs the resource, or on the way there. */
  predicate Engaged(cl: Clients, c: Component) {
    c in cl.states && (Active(cl.states[c]) || c in cl.arriving)
  }

  /** It was granted a place for its present stay, and nothing has taken it away. */
  predicate HasOwn(cl: Clients, c: Component) {
    Engaged(cl, c) && c !in cl.woken && c !in cl.lost && c !in cl.released
  }

  // ---------------------------------------------------------------- the manager's side

  /** How many places a component holds. */
  ghost function Count(rm: RmState, c: Component): nat
    requires Sized(rm)
  {
    Held(rm, c.name)[c]
  }

  ghost predicate Known(rm: RmState, c: Component) {
    var i := Lookup(rm.registered, c.name);
    i.Some? && rm.registered[i.value].maxComponents >= 1
  }

  /** The policy's victim for a request, if it has one. */
  ghost function VictimOf(rm: RmState, c: Component, priority: nat): set<Component>
    requires Sized(rm)
  {
    var i := Lookup(rm.registered, c.name);
    if i.Some? && Full(rm, i.value) && LowerThan(rm.holders[i.value], Threshold(priority, rm.wide)) != []
    then {Victim(rm.holders[i.value], Threshold(priority, rm.wide)).comp} else {}
  }

  /** The manager looks at the state of its victim. */
  ghost predicate VictimIdle(s: System, c: Component, priority: nat)
    requires Sized(s.rm)
  {
    exists v :: v in VictimOf(s.rm, c, priority) && v in s.cl.states && s.cl.states[v] == Idle
  }

  // ---------------------------------------------------------------- the moves

  predicate CanMove(cl: Clients, move: Move) {
    && move.comp in cl.states
    && match move
       case Ask(c, _, _) => cl.states[c] == Loaded && c !in cl.arriving
       case Arrive(c) => c in cl.arriving
       case FailArrival(c) => c in cl.arriving
       case Queue(c, _) => cl.states[c] == Loaded && c !in cl.arriving
       case Wake(c) => cl.states[c] == WaitForResources
       case GiveUp(c, _) => cl.states[c] == Idle && c !in cl.leaving
       case Settle(c) => c in cl.leaving
       case FailLeaving(c) => c in cl.leaving
       case Shift(c, target) => Active(cl.states[c]) && c !in cl.leaving && Active(target)
       case Invalidate(c) => cl.states[c] != Invalid
  }

  ghost predicate Enabled(s: System, move: Move) {
    Sized(s.rm) && CanMove(s.cl, move)
  }

  ghost function Do(s: System, move: Move): System
    requires Enabled(s, move)
  {
    match move
    case Ask(c, priority, answer) =>
      var (rm, err) := Step(s.rm, Get(c, priority, VictimIdle(s, c, priority), answer));
      System(rm, if err == ErrorNone then WithPlace(Displaced(s.cl, VictimOf(s.rm, c, priority)), c) else s.cl)
    case Queue(c, priority) => System(Step(s.rm, Wait(c, priority)).0, OwnMove(s.cl, move))
    case GiveUp(c, answer) => System(Step(s.rm, Release(c, answer)).0, OwnMove(s.cl, move))
    case _ => System(s.rm, OwnMove(s.cl, move))
  }

  function WithPlace(cl: Clients, c: Component): Clients {
    cl.(arriving := cl.arriving + {c})
  }

  /** A displaced component loses a place it does not need, if it has one. */
  function Displaced(cl: Clients, victims: set<Component>): Clients {
    cl.(lost := cl.lost + (set v | v in victims && v !in cl.kept), kept := cl.kept - multiset(victims))
  }

  /** c no longer needs a place. */
  function Cleared(cl: Clients, c: Component): Clients {
    cl.(arriving := cl.arriving - {c}, leaving := cl.leaving - {c}, woken := cl.woken - {c},
        lost := cl.lost - {c}, released := cl.released - {c})
  }

  /** c goes to a state that needs no place, keeping the one it has. */
  function Stranded(cl: Clients, c: Component, state: CompState): Clients {
    Cleared(cl, c).(states := cl.states[c := state], kept := if HasOwn(cl, c) then cl.kept + multiset{c} else cl.kept)
  }

  /** What a move does to the components. */
  function OwnMove(cl: Clients, move: Move): (r: Clients)
    ensures move.comp in cl.states ==> r.states.Keys == cl.states.Keys
  {
    match move
    case Ask(_, _, _) => cl
    case Arrive(c) => cl.(states := cl.states[c := Idle], arriving := cl.arriving - {c})
    case FailArrival(c) => Stranded(cl, c, Loaded)
    case Queue(c, _) => cl.(states := cl.states[c := WaitForResources])
    case Wake(c) => cl.(states := cl.states[c := Idle], woken := cl.woken + {c})
    case GiveUp(c, _) =>
      if HasOwn(cl, c) then cl.(leaving := cl.leaving + {c}, released := cl.released + {c})
      else cl.(leaving := cl.leaving + {c}, kept := cl.kept - multiset{c})
    case Settle(c) => Cleared(cl, c).(states := cl.states[c := Loaded])
    case FailLeaving(c) => cl.(leaving := cl.leaving - {c})
    case Shift(c, target) => cl.(states := cl.states[c := target])
    case Invalidate(c) => Stranded(cl, c, Invalid)
  }

  // ---------------------------------------------------------------- the components

  /** What holds of a component that holds n places. */
  predicate MemberOk(cl: Clients, n: nat, c: Component)
    requires c in cl.states
  {
    && (c in cl.arriving ==> cl.states[c] == Loaded)
    && (c in cl.leaving ==> cl.states[c] == Idle && !HasOwn(cl, c))
    && (c in cl.woken || c in cl.lost || c in cl.released ==> Engaged(cl, c))
    && n == (if HasOwn(cl, c) then 1 else 0) + cl.kept[c]
  }

  ghost predicate ClientsOk(cl: Clients, counts: map<Component, nat>) {
    && counts.Keys == cl.states.Keys
    && forall c :: c in cl.states ==> MemberOk(cl, counts[c], c)
  }

  lemma {:induction false} GrantedOk(cl: Clients, counts: map<Component, nat>, after: map<Component, nat>,
                                     c: Component, victims: set<Component>)
    requires ClientsOk(cl, counts) && after.Keys == counts.Keys
    requires c in cl.states && cl.states[c] == Loaded && c !in cl.arriving
    requires forall v :: v in victims ==> v in counts && counts[v] >= 1
    requires forall d :: d in counts ==>
               after[d] + (if d in victims then 1 else 0) == counts[d] + if d == c then 1 else 0
    ensures ClientsOk(WithPlace(Displaced(cl, victims), c), after)
  {
    var cl' := WithPlace(Displaced(cl, victims), c);
    forall d | d in cl.states ensures MemberOk(cl', after[d], d) {
      assert MemberOk(cl, counts[d], d);
    }
  }

  lemma {:induction false} ReleasedOk(cl: Clients, counts: map<Component, nat>, after: map<Component, nat>, move: Move)
    requires ClientsOk(cl, counts) && after.Keys == counts.Keys && move.GiveUp? && CanMove(cl, move)
    requires forall d :: d in counts ==>
               after[d] == if d == move.comp && counts[d] > 0 then counts[d] - 1 else counts[d]
    ensures ClientsOk(OwnMove(cl, move), after)
  {
    var cl' := OwnMove(cl, move);
    forall d | d in cl'.states ensures MemberOk(cl', after[d], d) {
      assert MemberOk(cl, counts[d], d);
    }
  }

  lemma {:induction false} OwnMoveOk(cl: Clients, counts: map<Component, nat>, move: Move)
    requires ClientsOk(cl, counts) && CanMove(cl, move) && !move.Ask? && !move.GiveUp?
    ensures ClientsOk(OwnMove(cl, move), counts)
  {
    var cl' := OwnMove(cl, move);
    forall d | d in cl'.states ensures MemberOk(cl', counts[d], d) {
      assert MemberOk(cl, counts[d], d);
    }
  }

  // ---------------------------------------------------------------- the counts

  /** Every holder is a known component and holds the type it is named after. */
  ghost predicate HoldersNamed(rm: RmState, all: set<Component>)
    requires Sized(rm)
  {
    forall name, c :: c in Held(rm, name) ==> c in all && c.name == name
  }

  ghost predicate AllKnown(rm: RmState, all: set<Component>) {
    forall c :: c in all ==> Known(rm, c)
  }

  ghost predicate ManagerOk(rm: RmState, all: set<Component>) {
    Inv(rm) && HoldersNamed(rm, all) && AllKnown(rm, all)
  }

  ghost function Counts(rm: RmState, all: set<Component>): map<Component, nat>
    requires Sized(rm)
  {
    map c | c in all :: Count(rm, c)
  }

  /** t is what a call that registers nothing makes of rm. */
  ghost predicate Moved(rm: RmState, op: Op, t: RmState)
    requires Sized(rm)
  {
    Inv(t) && t.registered == rm.registered && forall name :: HeldMoves(rm, op, t, name)
  }

  lemma {:induction false} CallMoves(rm: RmState, op: Op)
    requires Inv(rm) && Admissible(rm, op) && !op.Register?
    ensures Moved(rm, op, Step(rm, op).0)
  {
    StepKeepsInv(rm, op);
    RegisteredSame(rm, op);
    forall name ensures HeldMoves(rm, op, Step(rm, op).0, name) {
      SlotsStep(rm, op, name);
    }
  }

  lemma {:induction false} RegisteredSame(rm: RmState, op: Op)
    requires Sized(rm) && !op.Register?
    ensures Step(rm, op).0.registered == rm.registered
  {
  }

  lemma {:induction false} KnownAdmissible(rm: RmState, op: Op)
    requires !op.Register? && Known(rm, op.comp)
    ensures Admissible(rm, op)
  {
  }

  lemma {:induction false} MovedKeepsManager(rm: RmState, op: Op, t: RmState, all: set<Component>)
    requires ManagerOk(rm, all) && Moved(rm, op, t) && !op.Register? && op.comp in all
    ensures ManagerOk(t, all)
  {
    forall name, c | c in Held(t, name) ensures c in all && c.name == name {
      assert HeldMoves(rm, op, t, name);
      JoinsOwn(rm, op, name);
      assert c in Held(t, name) + Leaves(rm, op, name);
    }
    forall c | c in all ensures Known(t, c) {
      assert Known(rm, c);
    }
  }

  lemma {:induction false} JoinsOwn(rm: RmState, op: Op, name: string)
    requires Sized(rm) && !op.Register?
    ensures forall c :: c in Joins(rm, op, name) ==> c == op.comp && c.name == name
  {
  }

  lemma {:induction false} MovedCounts(rm: RmState, op: Op, t: RmState, d: Component)
    requires Sized(rm) && Moved(rm, op, t)
    ensures Count(t, d) + Leaves(rm, op, d.name)[d] == Count(rm, d) + Joins(rm, op, d.name)[d]
  {
    assert HeldMoves(rm, op, t, d.name);
    assert (Held(rm, d.name) + Joins(rm, op, d.name))[d] == (Held(t, d.name) + Leaves(rm, op, d.name))[d];
  }

  lemma {:induction false} ReleaseLeaves(rm: RmState, c: Component, answer: bool, name: string)
    requires Sized(rm) && Known(rm, c)
    ensures Joins(rm, Release(c, answer), name) == multiset{}
    ensures Leaves(rm, Release(c, answer), name)
         == if name == c.name && Count(rm, c) > 0 then multiset{c} else multiset{}
  {
    HolderCounts(rm, c);
  }

  lemma {:induction false} WaitLeaves(rm: RmState, c: Component, priority: nat, name: string)
    requires Sized(rm)
    ensures Joins(rm, Wait(c, priority), name) == Leaves(rm, Wait(c, priority), name) == multiset{}
  {
  }

  lemma {:induction false} HolderCounts(rm: RmState, c: Component)
    requires Sized(rm) && Known(rm, c)
    ensures Count(rm, c) > 0 <==> c in Comps(rm.holders[Lookup(rm.registered, c.name).value])
  {
  }

  lemma {:induction false} VictimsHold(rm: RmState, all: set<Component>, c: Component, priority: nat)
    requires ManagerOk(rm, all) && c in all
    ensures forall v :: v in VictimOf(rm, c, priority) ==> v in all && v.name == c.name && Count(rm, v) >= 1
  {
    assert Known(rm, c);
    var i := Lookup(rm.registered, c.name).value;
    if VictimOf(rm, c, priority) != {} {
      var v := Victim(rm.holders[i], Threshold(priority, rm.wide)).comp;
      VictimHolds(rm.holders[i], Threshold(priority, rm.wide));
      assert v in Held(rm, c.name);
    }
  }

  lemma {:induction false} AskLeaves(rm: RmState, c: Component, priority: nat, idle: bool, answer: bool, name: string)
    requires Inv(rm) && Known(rm, c)
    ensures var op := Get(c, priority, idle, answer);
            && Joins(rm, op, name)
               == (if name == c.name && Step(rm, op).1 == ErrorNone then multiset{c} else multiset{})
            && Leaves(rm, op, name)
               == if name == c.name && Step(rm, op).1 == ErrorNone then multiset(VictimOf(rm, c, priority))
                  else multiset{}
  {
  }

  // ---------------------------------------------------------------- the whole system

  ghost predicate SystemInv(s: System) {
    ManagerOk(s.rm, s.cl.states.Keys) && ClientsOk(s.cl, Counts(s.rm, s.cl.states.Keys))
  }

  lemma {:induction false} Together(rm: RmState, cl: Clients, all: set<Component>)
    requires ManagerOk(rm, all) && cl.states.Keys == all && ClientsOk(cl, Counts(rm, all))
    ensures SystemInv(System(rm, cl))
  {
  }

  /** How the counts of all components change. */
  ghost predicate CountsMove(rm: RmState, t: RmState, all: set<Component>, gone: set<Component>, come: set<Component>)
    requires Sized(rm) && Sized(t)
  {
    forall d :: d in all ==>
      Count(t, d) + (if d in gone then 1 else 0) == Count(rm, d) + if d in come then 1 else 0
  }

  lemma {:induction false} AskMovesOne(rm: RmState, op: Op, t: RmState, granted: bool, victims: set<Component>,
                                       d: Component)
    requires Inv(rm) && Moved(rm, op, t) && op.Get? && Known(rm, op.comp)
    requires granted == (Step(rm, op).1 == ErrorNone) && victims == VictimOf(rm, op.comp, op.priority)
    requires forall v :: v in victims ==> v.name == op.comp.name
    ensures Count(t, d) + (if granted && d in victims then 1 else 0)
         == Count(rm, d) + if granted && d == op.comp then 1 else 0
  {
    MovedCounts(rm, op, t, d);
    AskLeaves(rm, op.comp, op.priority, op.idle, op.accepted, d.name);
  }

  lemma {:induction false} AskMoves(rm: RmState, all: set<Component>, op: Op, t: RmState, granted: bool,
                                    victims: set<Component>)
    requires ManagerOk(rm, all) && Moved(rm, op, t) && op.Get? && op.comp in all
    requires granted == (Step(rm, op).1 == ErrorNone) && victims == VictimOf(rm, op.comp, op.priority)
    requires forall v :: v in victims ==> v.name == op.comp.name
    ensures granted ==> CountsMove(rm, t, all, victims, {op.comp})
    ensures !granted ==> CountsMove(rm, t, all, {}, {})
  {
    assert Known(rm, op.comp);
    forall d | d in all
      ensures Count(t, d) + (if granted && d in victims then 1 else 0)
           == Count(rm, d) + if granted && d == op.comp then 1 else 0
    {
      AskMovesOne(rm, op, t, granted, victims, d);
    }
  }

  lemma {:induction false} GiveUpMovesOne(rm: RmState, c: Component, answer: bool, t: RmState, d: Component)
    requires Inv(rm) && Moved(rm, Release(c, answer), t) && Known(rm, c)
    ensures Count(t, d) == if d == c && Count(rm, d) > 0 then Count(rm, d) - 1 else Count(rm, d)
  {
    MovedCounts(rm, Release(c, answer), t, d);
    ReleaseLeaves(rm, c, answer, d.name);
  }

  lemma {:induction false} GiveUpMoves(rm: RmState, all: set<Component>, c: Component, answer: bool, t: RmState)
    requires ManagerOk(rm, all) && Moved(rm, Release(c, answer), t) && c in all
    ensures CountsMove(rm, t, all, if Count(rm, c) > 0 then {c} else {}, {})
  {
    assert Known(rm, c);
    forall d | d in all
      ensures Count(t, d) == if d == c && Count(rm, d) > 0 then Count(rm, d) - 1 else Count(rm, d)
    {
      GiveUpMovesOne(rm, c, answer, t, d);
    }
  }

  lemma {:induction false} QueueMoves(rm: RmState, all: set<Component>, c: Component, priority: nat, t: RmState)
    requires ManagerOk(rm, all) && Moved(rm, Wait(c, priority), t)
    ensures CountsMove(rm, t, all, {}, {})
  {
    forall d | d in all ensures Count(t, d) == Count(rm, d) {
      MovedCounts(rm, Wait(c, priority), t, d);
      WaitLeaves(rm, c, priority, d.name);
    }
  }

  lemma {:induction false} AskClients(rm: RmState, t: RmState, cl: Clients, c: Component, victims: set<Component>)
    requires Sized(rm) && Sized(t) && ClientsOk(cl, Counts(rm, cl.states.Keys))
    requires c in cl.states && cl.states[c] == Loaded && c !in cl.arriving
    requires CountsMove(rm, t, cl.states.Keys, victims, {c})
    requires forall v :: v in victims ==> v in cl.states && Count(rm, v) >= 1
    ensures ClientsOk(WithPlace(Displaced(cl, victims), c), Counts(t, cl.states.Keys))
  {
    GrantedOk(cl, Counts(rm, cl.states.Keys), Counts(t, cl.states.Keys), c, victims);
  }

  lemma {:induction false} GiveUpClients(rm: RmState, t: RmState, cl: Clients, c: Component, answer: bool)
    requires Sized(rm) && Sized(t) && ClientsOk(cl, Counts(rm, cl.states.Keys)) && CanMove(cl, GiveUp(c, answer))
    requires CountsMove(rm, t, cl.states.Keys, if Count(rm, c) > 0 then {c} else {}, {})
    ensures ClientsOk(OwnMove(cl, GiveUp(c, answer)), Counts(t, cl.states.Keys))
  {
    var counts, after := Counts(rm, cl.states.Keys), Counts(t, cl.states.Keys);
    forall d | d in counts ensures after[d] == if d == c && counts[d] > 0 then counts[d] - 1 else counts[d] {
      assert counts[d] == Count(rm, d);
    }
    ReleasedOk(cl, counts, after, GiveUp(c, answer));
  }

  lemma {:induction false} SameCounts(rm: RmState, t: RmState, all: set<Component>)
    requires Sized(rm) && Sized(t) && CountsMove(rm, t, all, {}, {})
    ensures Counts(t, all) == Counts(rm, all)
  {
  }

  lemma {:induction false} AskKeepsInv(s: System, op: Op, t: RmState)
    requires SystemInv(s) && Moved(s.rm, op, t) && op.Get? && CanMove(s.cl, Ask(op.comp, op.priority, op.accepted))
    ensures var placed := WithPlace(Displaced(s.cl, VictimOf(s.rm, op.comp, op.priority)), op.comp);
            SystemInv(System(t, if Step(s.rm, op).1 == ErrorNone then placed else s.cl))
  {
    var all, victims := s.cl.states.Keys, VictimOf(s.rm, op.comp, op.priority);
    MovedKeepsManager(s.rm, op, t, all);
    VictimsHold(s.rm, all, op.comp, op.priority);
    AskMoves(s.rm, all, op, t, Step(s.rm, op).1 == ErrorNone, victims);
    if Step(s.rm, op).1 == ErrorNone {
      AskClients(s.rm, t, s.cl, op.comp, victims);
      Together(t, WithPlace(Displaced(s.cl, victims), op.comp), all);
    } else {
      SameCounts(s.rm, t, all);
      Together(t, s.cl, all);
    }
  }

  lemma {:induction false} GiveUpKeepsInv(s: System, c: Component, answer: bool, t: RmState)
    requires SystemInv(s) && Moved(s.rm, Release(c, answer), t) && CanMove(s.cl, GiveUp(c, answer))
    ensures SystemInv(System(t, OwnMove(s.cl, GiveUp(c, answer))))
  {
    var all := s.cl.states.Keys;
    MovedKeepsManager(s.rm, Release(c, answer), t, all);
    GiveUpMoves(s.rm, all, c, answer, t);
    GiveUpClients(s.rm, t, s.cl, c, answer);
    Together(t, OwnMove(s.cl, GiveUp(c, answer)), all);
  }

  lemma {:induction false} QueueKeepsInv(s: System, c: Component, priority: nat, t: RmState)
    requires SystemInv(s) && Moved(s.rm, Wait(c, priority), t) && CanMove(s.cl, Queue(c, priority))
    ensures SystemInv(System(t, OwnMove(s.cl, Queue(c, priority))))
  {
    var all := s.cl.states.Keys;
    MovedKeepsManager(s.rm, Wait(c, priority), t, all);
    QueueMoves(s.rm, all, c, priority, t);
    SameCounts(s.rm, t, all);
    OwnMoveOk(s.cl, Counts(s.rm, all), Queue(c, priority));
    Together(t, OwnMove(s.cl, Queue(c, priority)), all);
  }

  lemma {:induction false} CallMovesKnown(s: System, op: Op)
    requires SystemInv(s) && !op.Register? && op.comp in s.cl.states
    ensures Moved(s.rm, op, Step(s.rm, op).0)
  {
    KnownAdmissible(s.rm, op);
    CallMoves(s.rm, op);
  }

  lemma {:induction false} SameSystem(s: System, t: System)
    requires s == t && SystemInv(t)
    ensures SystemInv(s)
  {
  }

  lemma {:induction false} MoveKeepsInv(s: System, move: Move)
    requires SystemInv(s) && Enabled(s, move)
    ensures SystemInv(Do(s, move))
  {
    match move
    case Ask(c, priority, answer) =>
      var op := Get(c, priority, VictimIdle(s, c, priority), answer);
      CallMovesKnown(s, op);
      AskKeepsInv(s, op, Step(s.rm, op).0);
    case Queue(c, priority) =>
      CallMovesKnown(s, Wait(c, priority));
      QueueKeepsInv(s, c, priority, Step(s.rm, Wait(c, priority)).0);
      SameSystem(Do(s, move), System(Step(s.rm, Wait(c, priority)).0, OwnMove(s.cl, move)));
    case GiveUp(c, answer) =>
      CallMovesKnown(s, Release(c, answer));
      GiveUpKeepsInv(s, c, answer, Step(s.rm, Release(c, answer)).0);
      SameSystem(Do(s, move), System(Step(s.rm, Release(c, answer)).0, OwnMove(s.cl, move)));
    case _ =>
      OwnMoveOk(s.cl, Counts(s.rm, s.cl.states.Keys), move);
      Together(s.rm, OwnMove(s.cl, move), s.cl.states.Keys);
      SameSystem(Do(s, move), System(s.rm, OwnMove(s.cl, move)));
  }

  ghost predicate EnabledRun(s: System, moves: seq<Move>)
    decreases |moves|
  {
    moves == [] || (Enabled(s, moves[0]) && EnabledRun(Do(s, moves[0]), moves[1..]))
  }

  ghost function RunMoves(s: System, moves: seq<Move>): System
    requires EnabledRun(s, moves)
    decreases |moves|
  {
    if moves == [] then s else RunMoves(Do(s, moves[0]), moves[1..])
  }

  /** All components are Loaded, their types are registered, and nothing is held. */
  ghost predicate Start(s: System) {
    && Inv(s.rm) && NothingHeld(s.rm) && AllKnown(s.rm, s.cl.states.Keys)
    && (forall c :: c in s.cl.states ==> s.cl.states[c] == Loaded)
    && s.cl == Clients(s.cl.states, {}, {}, {}, {}, {}, multiset{})
  }

  ghost predicate NothingHeld(rm: RmState) {
    forall i :: 0 <= i < |rm.holders| ==> rm.holders[i] == []
  }

  lemma {:induction false} NothingHeldOk(rm: RmState, all: set<Component>)
    requires Inv(rm) && NothingHeld(rm) && AllKnown(rm, all)
    ensures ManagerOk(rm, all) && forall c :: c in all ==> Count(rm, c) == 0
  {
    forall name ensures Held(rm, name) == multiset{} {
    }
  }

  lemma {:induction false} StartInv(s: System)
    requires Start(s)
    ensures SystemInv(s)
  {
    NothingHeldOk(s.rm, s.cl.states.Keys);
    forall c | c in s.cl.states ensures MemberOk(s.cl, 0, c) {
    }
  }

  lemma {:induction false} RunKeepsSystemInv(s: System, moves: seq<Move>)
    requires SystemInv(s) && EnabledRun(s, moves)
    ensures SystemInv(RunMoves(s, moves))
    decreases |moves|
  {
    if moves != [] {
      MoveKeepsInv(s, moves[0]);
      RunKeepsSystemInv(Do(s, moves[0]), moves[1..]);
    }
  }

  /** In every run, a component holds exactly its own place, if it has one, and those it kept.
      So one that needs its resource holds it if and only if it was not woken from the queue, not
      displaced and not left in Idle after its release, or has kept an earlier place; and one that
      does not need it holds it if and only if it kept it. */
  lemma {:induction false} EngagedHoldsIff(start: System, moves: seq<Move>, c: Component)
    requires Start(start) && EnabledRun(start, moves) && c in RunMoves(start, moves).cl.states
    ensures var s := RunMoves(start, moves);
            && Sized(s.rm)
            && Count(s.rm, c) == (if HasOwn(s.cl, c) then 1 else 0) + s.cl.kept[c]
            && (Engaged(s.cl, c) ==>
                  (Count(s.rm, c) > 0 <==>
                     (c !in s.cl.woken && c !in s.cl.lost && c !in s.cl.released) || c in s.cl.kept))
            && (!Engaged(s.cl, c) ==> (Count(s.rm, c) > 0 <==> c in s.cl.kept))
  {
    StartInv(start);
    RunKeepsSystemInv(start, moves);
    var s := RunMoves(start, moves);
    assert MemberOk(s.cl, Counts(s.rm, s.cl.states.Keys)[c], c);
  }

  lemma {:induction false} AskerCounts(s: System, c: Component)
    requires SystemInv(s) && c in s.cl.states && s.cl.states[c] == Loaded && c !in s.cl.arriving
    ensures Known(s.rm, c)
    ensures c in Comps(s.rm.holders[Lookup(s.rm.registered, c.name).value]) <==> c in s.cl.kept
  {
    assert MemberOk(s.cl, Counts(s.rm, s.cl.states.Keys)[c], c);
    HolderCounts(s.rm, c);
  }

  /** In every run, a component that is about to ask holds its type already if and only if it has
      kept a place. */
  lemma {:induction false} AskerHoldsIff(start: System, moves: seq<Move>, s: System, c: Component, priority: nat)
    requires Start(start) && EnabledRun(start, moves) && s == RunMoves(start, moves)
    requires CanMove(s.cl, Ask(c, priority, true))
    ensures Sized(s.rm) && forall idle, answer ::
              NewRequester(s.rm, Get(c, priority, idle, answer)) <==> c !in s.cl.kept
  {
    StartInv(start);
    RunKeepsSystemInv(start, moves);
    AskerCounts(s, c);
  }

  lemma {:induction false} OneVictim(rm: RmState, c: Component, priority: nat, i: int, k: int)
    requires Inv(rm) && Known(rm, c) && Displaces(rm, c, priority, i, k)
    ensures VictimOf(rm, c, priority) == {rm.holders[i][k].comp}
    ensures Admissible(rm, Get(c, priority, true, true))
  {
    DisplacesVictim(rm, c, priority, i, k);
  }

  /** A component displaced in Idle is told that it lost its resource and commanded to Loaded; one
      displaced in another state is not told. */
  lemma {:induction false} DisplacedIsTold(s: System, c: Component, priority: nat, answer: bool, i: int, k: int)
    requires Inv(s.rm) && Known(s.rm, c) && CanMove(s.cl, Ask(c, priority, answer))
    requires Displaces(s.rm, c, priority, i, k) && s.rm.holders[i][k].comp in s.cl.states
    ensures var v, t := s.rm.holders[i][k].comp, Do(s, Ask(c, priority, answer)).rm;
            && (s.cl.states[v] == Idle ==> t.sent == s.rm.sent + [ResourcesLost(v), StateSet(v, Loaded, answer)])
            && (s.cl.states[v] != Idle ==> t.sent == s.rm.sent)
  {
    var v, idle := s.rm.holders[i][k].comp, VictimIdle(s, c, priority);
    OneVictim(s.rm, c, priority, i, k);
    assert idle <==> s.cl.states[v] == Idle;
    RequestMessages(s.rm, c, priority, idle, answer);
  }
}
