/** Runs of the resource manager on which it does not do what it is documented to do; for each,
    ResourcePolicy, ResourceRuns or ResourceBounds has the exact condition. */
module ResourceWitnesses {
  import opened HolderList
  import opened ResourcePolicy
  import opened ResourceRuns
  import opened ResourceBounds

  // ---------------------------------------------------------------- one type

  ghost function NoLists(): (lists: seq<seq<Entry>>)
    ensures |lists| == MAX_COMPONENTS_TYPES_HANDLED
  {
    seq(MAX_COMPONENTS_TYPES_HANDLED, _ => [])
  }

  /** The state of a manager with one registered type. */
  ghost function OneType(wide: bool, name: string, bound: int, holders: seq<Entry>, waiting: seq<Entry>,
                         now: nat, sent: seq<Message>): RmState {
    RmState(wide, [Registration(name, 0, bound)], NoLists()[0 := holders], NoLists()[0 := waiting], now, sent)
  }

  lemma {:induction false} OneTypeLookup(name: string, bound: int)
    ensures Lookup([Registration(name, 0, bound)], name) == Some(0)
  {
    LookupFirst([Registration(name, 0, bound)], name, 0);
  }

  lemma {:induction false} Registered(wide: bool, clock: nat, name: string, bound: int)
    requires |name| < OMX_MAX_STRINGNAME_SIZE
    ensures LeadsTo(wide, clock, [Register(name, bound)], OneType(wide, name, bound, [], [], clock, []))
  {
    var s := Initial(wide, clock);
    LeadsToInitial(wide, clock);
    LeadsToNext(wide, clock, [], s, Register(name, bound));
    assert NoLists()[0 := []] == NoLists() == s.holders == s.waiting;
    assert [] + [Register(name, bound)] == [Register(name, bound)];
  }

  lemma {:induction false} GetsFreePlace(wide: bool, name: string, bound: int, hs: seq<Entry>, ws: seq<Entry>, now: nat,
                                         sent: seq<Message>, comp: Component, priority: nat, idle: bool, answer: bool)
    requires comp.name == name && |hs| < bound
    ensures var s, op := OneType(wide, name, bound, hs, ws, now, sent), Get(comp, priority, idle, answer);
            && Admissible(s, op)
            && Step(s, op)
               == (OneType(wide, name, bound, hs + [Entry(comp, priority, now)], ws, now + 1, sent), ErrorNone)
  {
    OneTypeLookup(name, bound);
    var hs' := hs + [Entry(comp, priority, now)];
    assert NoLists()[0 := hs][0 := hs'] == NoLists()[0 := hs'];
  }

  lemma {:induction false} JoinsQueue(wide: bool, name: string, bound: int, hs: seq<Entry>, ws: seq<Entry>, now: nat,
                                      sent: seq<Message>, comp: Component, priority: nat)
    requires comp.name == name
    ensures var s, op := OneType(wide, name, bound, hs, ws, now, sent), Wait(comp, priority);
            && Admissible(s, op)
            && Step(s, op)
               == (OneType(wide, name, bound, hs, ws + [Entry(comp, priority, now)], now + 1, sent), ErrorNone)
  {
    OneTypeLookup(name, bound);
    var ws' := ws + [Entry(comp, priority, now)];
    assert NoLists()[0 := ws][0 := ws'] == NoLists()[0 := ws'];
  }

  lemma {:induction false} ReleasesPlace(wide: bool, name: string, bound: int, h: Entry, w: Entry, now: nat,
                                         answer: bool)
    requires h.comp.name == name
    ensures var s, op := OneType(wide, name, bound, [h], [w], now, []), Release(h.comp, answer);
            && Admissible(s, op)
            && Step(s, op) == (OneType(wide, name, bound, [], [], now, [StateSet(w.comp, Idle, answer)]), ErrorNone)
  {
    OneTypeLookup(name, bound);
    assert Comps([h])[0] == h.comp;
    assert RemoveFirst([h], h.comp) == [];
    assert NoLists()[0 := [h]][0 := []] == NoLists()[0 := []];
    assert [w][1..] == [] && [] + [StateSet(w.comp, Idle, answer)] == [StateSet(w.comp, Idle, answer)];
    assert NoLists()[0 := [w]][0 := []] == NoLists()[0 := []];
  }

  lemma {:induction false} ReleasesAlone(wide: bool, name: string, bound: int, h: Entry, now: nat, answer: bool)
    requires h.comp.name == name
    ensures var s, op := OneType(wide, name, bound, [h], [], now, []), Release(h.comp, answer);
            Admissible(s, op) && Step(s, op) == (OneType(wide, name, bound, [], [], now, []), ErrorNone)
  {
    OneTypeLookup(name, bound);
    assert Comps([h])[0] == h.comp;
    assert RemoveFirst([h], h.comp) == [];
    assert NoLists()[0 := [h]][0 := []] == NoLists()[0 := []];
  }

  // ---------------------------------------------------------------- waiting

  /** One place, which a holds; w asks for it, is refused and waits. */
  function ContendedRun(a: Component, w: Component): seq<Op> {
    [Register(a.name, 1), Get(a, 0, false, true), Wait(w, 0)]
  }

  lemma {:induction false} Contended(wide: bool, a: Component, w: Component)
    requires a.name == w.name
    requires |a.name| < OMX_MAX_STRINGNAME_SIZE
    ensures LeadsTo(wide, 0, ContendedRun(a, w),
                    OneType(wide, a.name, 1, [Entry(a, 0, 0)], [Entry(w, 0, 1)], 2, []))
  {
    var n := a.name;
    Registered(wide, 0, n, 1);
    var s1 := OneType(wide, n, 1, [], [], 0, []);
    GetsFreePlace(wide, n, 1, [], [], 0, [], a, 0, false, true);
    assert [] + [Entry(a, 0, 0)] == [Entry(a, 0, 0)];
    LeadsToNext(wide, 0, [Register(n, 1)], s1, Get(a, 0, false, true));
    var s2 := OneType(wide, n, 1, [Entry(a, 0, 0)], [], 1, []);
    JoinsQueue(wide, n, 1, [Entry(a, 0, 0)], [], 1, [], w, 0);
    assert [] + [Entry(w, 0, 1)] == [Entry(w, 0, 1)];
    LeadsToNext(wide, 0, [Register(n, 1)] + [Get(a, 0, false, true)], s2, Wait(w, 0));
    assert [Register(n, 1)] + [Get(a, 0, false, true)] + [Wait(w, 0)] == ContendedRun(a, w);
  }

  /** The command to the first waiting component fails: the release succeeds, and the component
      is neither in the queue nor woken nor a holder. */
  lemma {:induction false} RefusedWakeLosesWaiter(wide: bool, a: Component, w: Component)
    requires a != w && a.name == w.name
    requires |a.name| < OMX_MAX_STRINGNAME_SIZE
    ensures var s := OneType(wide, a.name, 1, [Entry(a, 0, 0)], [Entry(w, 0, 1)], 2, []);
            && LeadsTo(wide, 0, ContendedRun(a, w), s)
            && Step(s, Release(a, false)).1 == ErrorNone
            && var t := Step(s, Release(a, false)).0;
               && t.holders[0] == [] && t.waiting[0] == []
               && Woken(t.sent, w.name) == [] && Dropped(t.sent, w.name) == [w]
  {
    Contended(wide, a, w);
    ReleasesPlace(wide, a.name, 1, Entry(a, 0, 0), Entry(w, 0, 1), 2, false);
    OutcomesSend([], StateSet(w, Idle, false), w.name);
    TurnAppended([], Turn(w, false));
    assert [] + [StateSet(w, Idle, false)] == [StateSet(w, Idle, false)];
    assert [] + [Turn(w, false)] == [Turn(w, false)];
  }

  // ---------------------------------------------------------------- preemption

  /** The calls that register a type with one place and give it to a. */
  function OneHolderRun(a: Component, priority: nat): seq<Op> {
    [Register(a.name, 1), Get(a, priority, false, true)]
  }

  lemma {:induction false} OneHolderReached(wide: bool, a: Component, priority: nat)
    requires |a.name| < OMX_MAX_STRINGNAME_SIZE
    ensures var s := OneType(wide, a.name, 1, [Entry(a, priority, 0)], [], 1, []);
            LeadsTo(wide, 0, OneHolderRun(a, priority), s) && Inv(s)
  {
    var n, get := a.name, Get(a, priority, false, true);
    Registered(wide, 0, n, 1);
    GetsFreePlace(wide, n, 1, [], [], 0, [], a, priority, false, true);
    assert [] + [Entry(a, priority, 0)] == [Entry(a, priority, 0)];
    LeadsToNext(wide, 0, [Register(n, 1)], OneType(wide, n, 1, [], [], 0, []), get);
    assert [Register(n, 1)] + [get] == OneHolderRun(a, priority);
    LeadsToInv(wide, 0, OneHolderRun(a, priority), OneType(wide, n, 1, [Entry(a, priority, 0)], [], 1, []));
  }

  /** The answer to a request for one place that is held. */
  lemma {:induction false} OneHolderAnswer(wide: bool, e: Entry, b: Component, priority: nat, now: nat)
    requires e.comp.name == b.name
    requires Inv(OneType(wide, b.name, 1, [e], [], now, []))
    ensures Step(OneType(wide, b.name, 1, [e], [], now, []), Get(b, priority, false, true)).1
         == if e.priority > Threshold(priority, wide) then ErrorNone else ErrorInsufficientResources
  {
    var s := OneType(wide, b.name, 1, [e], [], now, []);
    OneTypeLookup(b.name, 1);
    RefusedForType(s, b, priority, false, true, 0);
    assert NoneAbove([e], Threshold(priority, wide)) <==> e.priority <= Threshold(priority, wide) by {
      assert e in [e];
    }
  }

  /** One place, held by a with a number one larger than that of b's request: on an LP64 target
      the request is refused, and on a 32-bit target it is granted. */
  lemma {:induction false} WidePriorityRefused(wide: bool, a: Component, b: Component)
    requires a != b && a.name == b.name
    requires |a.name| < OMX_MAX_STRINGNAME_SIZE
    ensures var s := OneType(wide, a.name, 1, [Entry(a, 0x8000_0001, 0)], [], 1, []);
            && LeadsTo(wide, 0, OneHolderRun(a, 0x8000_0001), s)
            && Step(s, Get(b, 0x8000_0000, false, true)).1
               == if wide then ErrorInsufficientResources else ErrorNone
  {
    OneHolderReached(wide, a, 0x8000_0001);
    OneHolderAnswer(wide, Entry(a, 0x8000_0001, 0), b, 0x8000_0000, 1);
  }

  /** On an LP64 target 2^32 is compared as 0: two components with that priority take the one
      place from each other as often as they like. */
  lemma {:induction false} WidePrioritiesTakeTurns(c: Component, d: Component, m: nat)
    requires c != d && c.name == d.name
    requires |d.name| < OMX_MAX_STRINGNAME_SIZE
    ensures var s := OneType(true, d.name, 1, [Entry(d, 0x1_0000_0000, 0)], [], 1, []);
            && LeadsTo(true, 0, OneHolderRun(d, 0x1_0000_0000), s)
            && AdmissibleRun(s, Requests(c, d, 0x1_0000_0000, m))
            && Granted(s, Requests(c, d, 0x1_0000_0000, m), 0) == m
  {
    OneHolderReached(true, d, 0x1_0000_0000);
    UnfairGrantsUnbounded(OneType(true, d.name, 1, [Entry(d, 0x1_0000_0000, 0)], [], 1, []), 0, c, d, 0x1_0000_0000, m);
  }

  /** a asks twice, the second time with a larger number, and b preempts it: the entry with the
      smaller number goes, and the sum of the numbers rises. */
  lemma {:induction false} TwiceHeldMisleads(wide: bool, a: Component, b: Component)
    requires a != b && a.name == b.name
    requires |a.name| < OMX_MAX_STRINGNAME_SIZE
    ensures var ops := [Register(a.name, 2), Get(a, 1, false, true), Get(a, 9, false, true)];
            var es := [Entry(a, 1, 0), Entry(a, 9, 1)];
            var s := OneType(wide, a.name, 2, es, [], 2, []);
            && LeadsTo(wide, 0, ops, s)
            && Victim(es, 4) == es[1]
            && Step(s, Get(b, 4, false, true)).1 == ErrorNone
            && Step(s, Get(b, 4, false, true)).0.holders[0] == [es[1], Entry(b, 4, 2)]
            && PrioritySum([es[1], Entry(b, 4, 2)]) > PrioritySum(es)
  {
    var n := a.name;
    var e, f := Entry(a, 1, 0), Entry(a, 9, 1);
    Registered(wide, 0, n, 2);
    GetsFreePlace(wide, n, 2, [], [], 0, [], a, 1, false, true);
    assert [] + [e] == [e] && [e] + [f] == [e, f];
    LeadsToNext(wide, 0, [Register(n, 2)], OneType(wide, n, 2, [], [], 0, []), Get(a, 1, false, true));
    GetsFreePlace(wide, n, 2, [e], [], 1, [], a, 9, false, true);
    LeadsToNext(wide, 0, [Register(n, 2)] + [Get(a, 1, false, true)], OneType(wide, n, 2, [e], [], 1, []),
                Get(a, 9, false, true));
    assert [Register(n, 2)] + [Get(a, 1, false, true)] + [Get(a, 9, false, true)]
        == [Register(n, 2), Get(a, 1, false, true), Get(a, 9, false, true)];
    TwiceHeldDisplacement(a, b);
    OneTypeLookup(n, 2);
  }

  lemma {:induction false} TwiceHeldDisplacement(a: Component, b: Component)
    ensures var es := [Entry(a, 1, 0), Entry(a, 9, 1)];
            && LowerThan(es, 4) != [] && Victim(es, 4) == es[1]
            && RemoveFirst(es, a) + [Entry(b, 4, 2)] == [es[1], Entry(b, 4, 2)]
            && PrioritySum([es[1], Entry(b, 4, 2)]) > PrioritySum(es)
  {
    var es := [Entry(a, 1, 0), Entry(a, 9, 1)];
    assert es[1..] == [es[1]] && [es[1]][1..] == [];
    assert LowerThan([es[1]], 4) == [es[1]];
    assert LowerThan(es, 4) == [es[1]];
    assert [es[1], Entry(b, 4, 2)] == [es[1]] + [Entry(b, 4, 2)];
    PrioritySumSplit([es[0]], [es[1]]);
    PrioritySumSplit([es[1]], [Entry(b, 4, 2)]);
    assert es == [es[0]] + [es[1]];
  }

  // ---------------------------------------------------------------- RM_Deinit

  /** Two types, the first without holders: RM_Deinit leaves the holder of the second. */
  lemma {:induction false} DeinitLeavesHolder(wide: bool, first: string, b: Component)
    requires first != b.name && |first| < OMX_MAX_STRINGNAME_SIZE && |b.name| < OMX_MAX_STRINGNAME_SIZE
    ensures var ops := [Register(first, 1), Register(b.name, 1), Get(b, 0, false, true)];
            exists s ::
              LeadsTo(wide, 0, ops, s) && DeinitStopsAt(s, 0) && DeinitStep(s, 0).holders[1] == [Entry(b, 0, 0)]
  {
    var r1, r2, get := Register(first, 1), Register(b.name, 1), Get(b, 0, false, true);
    Registered(wide, 0, first, 1);
    var s1 := OneType(wide, first, 1, [], [], 0, []);
    assert Lookup(s1.registered, b.name).None?;
    LeadsToNext(wide, 0, [r1], s1, r2);
    var s2 := Step(s1, r2).0;
    assert s2.registered == [Registration(first, 0, 1), Registration(b.name, 1, 1)];
    LookupFirst(s2.registered, b.name, 1);
    LeadsToNext(wide, 0, [r1] + [r2], s2, get);
    var s3 := Step(s2, get).0;
    assert [r1] + [r2] + [get] == [r1, r2, get];
    assert s3.holders[1] == [Entry(b, 0, 0)] && s3.holders[0] == [];
    assert DeinitStopsAt(s3, 0);
  }
}
