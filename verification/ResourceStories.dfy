/** Runs of components and manager in which a component needs its resource and does not hold it,
    or holds it and does not need it; ResourceClients has the exact condition. */
module ResourceStories {
  import opened HolderList
  import opened ResourcePolicy
  import opened ResourceRuns
  import opened ResourceWitnesses
  import opened ResourceClients

  /** Two components on a type with one place, in these states, nobody displaced. */
  ghost function Pair(wide: bool, a: Component, b: Component, hs: seq<Entry>, now: nat, cl: Clients): System {
    System(OneType(wide, a.name, 1, hs, [], now, []), cl)
  }

  function Both(a: Component, b: Component, sa: CompState, sb: CompState): map<Component, CompState> {
    map[a := sa, b := sb]
  }

  function Fresh(states: map<Component, CompState>): Clients {
    Clients(states, {}, {}, {}, {}, {}, multiset{})
  }

  lemma {:induction false} MoveFirst(s: System, move: Move, moves: seq<Move>, last: System)
    requires Enabled(s, move) && EnabledRun(Do(s, move), moves) && RunMoves(Do(s, move), moves) == last
    ensures EnabledRun(s, [move] + moves) && RunMoves(s, [move] + moves) == last
  {
    assert ([move] + moves)[1..] == moves;
  }

  lemma {:induction false} DisplacedNone(cl: Clients)
    ensures Displaced(cl, {}) == cl
  {
    assert cl.lost + (set v | v in {} && v !in cl.kept) == cl.lost;
    assert cl.kept - multiset({}) == cl.kept;
  }

  /** c asks for the free place and gets it. */
  lemma {:induction false} AskFree(wide: bool, name: string, now: nat, sent: seq<Message>, cl: Clients, c: Component)
    requires c.name == name && CanMove(cl, Ask(c, 0, true))
    ensures var s := System(OneType(wide, name, 1, [], [], now, sent), cl);
            && Enabled(s, Ask(c, 0, true))
            && Do(s, Ask(c, 0, true))
               == System(OneType(wide, name, 1, [Entry(c, 0, now)], [], now + 1, sent), WithPlace(cl, c))
  {
    var s := System(OneType(wide, name, 1, [], [], now, sent), cl);
    GetsFreePlace(wide, name, 1, [], [], now, sent, c, 0, VictimIdle(s, c, 0), true);
    assert [] + [Entry(c, 0, now)] == [Entry(c, 0, now)];
    OneTypeLookup(name, 1);
    assert VictimOf(s.rm, c, 0) == {};
    DisplacedNone(cl);
  }

  /** c asks for a place that a holder of the same priority has, and is refused. */
  lemma {:induction false} AskRefused(wide: bool, e: Entry, now: nat, cl: Clients, c: Component)
    requires c.name == e.comp.name && e.priority == 0 && CanMove(cl, Ask(c, 0, true))
    ensures var s := System(OneType(wide, c.name, 1, [e], [], now, []), cl);
            Enabled(s, Ask(c, 0, true)) && Do(s, Ask(c, 0, true)) == s
  {
    OneTypeLookup(c.name, 1);
    assert [e][1..] == [];
    assert LowerThan([e], Threshold(0, wide)) == [];
  }

  /** c gives up the place it holds. */
  lemma {:induction false} GivesUp(wide: bool, c: Component, now: nat, cl: Clients)
    requires CanMove(cl, GiveUp(c, true))
    ensures var s := System(OneType(wide, c.name, 1, [Entry(c, 0, 0)], [], now, []), cl);
            && Enabled(s, GiveUp(c, true))
            && Do(s, GiveUp(c, true))
               == System(OneType(wide, c.name, 1, [], [], now, []), OwnMove(cl, GiveUp(c, true)))
  {
    ReleasesAlone(wide, c.name, 1, Entry(c, 0, 0), now, true);
  }

  lemma {:induction false} StartPair(wide: bool, name: string, states: map<Component, CompState>)
    requires |name| < OMX_MAX_STRINGNAME_SIZE
    requires forall c :: c in states ==> c.name == name && states[c] == Loaded
    ensures Start(System(OneType(wide, name, 1, [], [], 0, []), Fresh(states)))
  {
    Registered(wide, 0, name, 1);
    LeadsToInv(wide, 0, [Register(name, 1)], OneType(wide, name, 1, [], [], 0, []));
    OneTypeLookup(name, 1);
  }

  // ---------------------------------------------------------------- left in Idle after its release

  function ReleasedStory(a: Component, b: Component): seq<Move> {
    [Ask(a, 0, true), Arrive(a), GiveUp(a, true), FailLeaving(a), Shift(a, Executing), Ask(b, 0, true), Arrive(b)]
  }

  /** The second half: a has given up its place and cannot free a buffer. */
  lemma {:induction false} RunsOn(wide: bool, a: Component, b: Component)
    requires a != b && a.name == b.name
    ensures var s := Pair(wide, a, b, [], 1, Fresh(Both(a, b, Idle, Loaded)).(leaving := {a}, released := {a}));
            var moves := [FailLeaving(a), Shift(a, Executing), Ask(b, 0, true), Arrive(b)];
            && EnabledRun(s, moves)
            && RunMoves(s, moves)
               == Pair(wide, a, b, [Entry(b, 0, 1)], 2, Fresh(Both(a, b, Executing, Idle)).(released := {a}))
  {
    var c3 := Fresh(Both(a, b, Idle, Loaded)).(leaving := {a}, released := {a});
    var c4 := Fresh(Both(a, b, Idle, Loaded)).(released := {a});
    var c5 := Fresh(Both(a, b, Executing, Loaded)).(released := {a});
    var c6 := c5.(arriving := {b});
    var c7 := Fresh(Both(a, b, Executing, Idle)).(released := {a});
    assert OwnMove(c3, FailLeaving(a)) == c4 && OwnMove(c4, Shift(a, Executing)) == c5;
    assert WithPlace(c5, b) == c6 && OwnMove(c6, Arrive(b)) == c7;
    var last := Pair(wide, a, b, [Entry(b, 0, 1)], 2, c7);
    MoveFirst(Pair(wide, a, b, [Entry(b, 0, 1)], 2, c6), Arrive(b), [], last);
    AskFree(wide, a.name, 1, [], c5, b);
    MoveFirst(Pair(wide, a, b, [], 1, c5), Ask(b, 0, true), [Arrive(b)], last);
    MoveFirst(Pair(wide, a, b, [], 1, c4), Shift(a, Executing), [Ask(b, 0, true), Arrive(b)], last);
    MoveFirst(Pair(wide, a, b, [], 1, c3), FailLeaving(a), [Shift(a, Executing), Ask(b, 0, true), Arrive(b)], last);
  }

  /** a gives up its place, a buffer of it cannot be freed, and it goes on to Executing; b is
      granted the place meanwhile.  a was neither woken nor displaced. */
  lemma {:induction false} RunsAfterRelease(wide: bool, a: Component, b: Component)
    requires a != b && a.name == b.name && |a.name| < OMX_MAX_STRINGNAME_SIZE
    ensures var start := Pair(wide, a, b, [], 0, Fresh(Both(a, b, Loaded, Loaded)));
            && Start(start) && EnabledRun(start, ReleasedStory(a, b))
            && RunMoves(start, ReleasedStory(a, b))
               == Pair(wide, a, b, [Entry(b, 0, 1)], 2, Fresh(Both(a, b, Executing, Idle)).(released := {a}))
  {
    var c2 := Fresh(Both(a, b, Idle, Loaded));
    var last := Pair(wide, a, b, [Entry(b, 0, 1)], 2, Fresh(Both(a, b, Executing, Idle)).(released := {a}));
    var end := [FailLeaving(a), Shift(a, Executing), Ask(b, 0, true), Arrive(b)];
    assert OwnMove(c2, GiveUp(a, true)) == c2.(leaving := {a}, released := {a});
    RunsOn(wide, a, b);
    GivesUp(wide, a, 1, c2);
    MoveFirst(Pair(wide, a, b, [Entry(a, 0, 0)], 1, c2), GiveUp(a, true), end, last);
    Begins(wide, a, b, c2, [GiveUp(a, true)] + end, last);
    assert [Ask(a, 0, true), Arrive(a)] + ([GiveUp(a, true)] + end) == ReleasedStory(a, b);
    StartPair(wide, a.name, Both(a, b, Loaded, Loaded));
  }

  /** The first two moves: a gets the place and arrives in Idle. */
  lemma {:induction false} Begins(wide: bool, a: Component, b: Component, arrived: Clients, moves: seq<Move>,
                                  last: System)
    requires a != b && arrived == Fresh(Both(a, b, Idle, Loaded))
    requires EnabledRun(Pair(wide, a, b, [Entry(a, 0, 0)], 1, arrived), moves)
    requires RunMoves(Pair(wide, a, b, [Entry(a, 0, 0)], 1, arrived), moves) == last
    ensures var start := Pair(wide, a, b, [], 0, Fresh(Both(a, b, Loaded, Loaded)));
            && EnabledRun(start, [Ask(a, 0, true), Arrive(a)] + moves)
            && RunMoves(start, [Ask(a, 0, true), Arrive(a)] + moves) == last
  {
    var c0 := Fresh(Both(a, b, Loaded, Loaded));
    var c1 := c0.(arriving := {a});
    assert WithPlace(c0, a) == c1 && OwnMove(c1, Arrive(a)) == arrived;
    MoveFirst(Pair(wide, a, b, [Entry(a, 0, 0)], 1, c1), Arrive(a), moves, last);
    AskFree(wide, a.name, 0, [], c0, a);
    MoveFirst(Pair(wide, a, b, [], 0, c0), Ask(a, 0, true), [Arrive(a)] + moves, last);
    assert [Ask(a, 0, true)] + ([Arrive(a)] + moves) == [Ask(a, 0, true), Arrive(a)] + moves;
  }

  // ---------------------------------------------------------------- a place kept

  /** a goes to Invalid, or is destroyed, in Idle: it keeps the place, and b is refused. */
  lemma {:induction false} InvalidKeepsPlace(wide: bool, a: Component, b: Component)
    requires a != b && a.name == b.name && |a.name| < OMX_MAX_STRINGNAME_SIZE
    ensures var start := Pair(wide, a, b, [], 0, Fresh(Both(a, b, Loaded, Loaded)));
            var moves := [Ask(a, 0, true), Arrive(a), Invalidate(a), Ask(b, 0, true)];
            && Start(start) && EnabledRun(start, moves)
            && RunMoves(start, moves)
               == Pair(wide, a, b, [Entry(a, 0, 0)], 1,
                       Clients(Both(a, b, Invalid, Loaded), {}, {}, {}, {}, {}, multiset{a}))
  {
    var c2 := Fresh(Both(a, b, Idle, Loaded));
    var c3 := Clients(Both(a, b, Invalid, Loaded), {}, {}, {}, {}, {}, multiset{a});
    assert OwnMove(c2, Invalidate(a)) == c3;
    var last := Pair(wide, a, b, [Entry(a, 0, 0)], 1, c3);
    AskRefused(wide, Entry(a, 0, 0), 1, c3, b);
    MoveFirst(last, Ask(b, 0, true), [], last);
    MoveFirst(Pair(wide, a, b, [Entry(a, 0, 0)], 1, c2), Invalidate(a), [Ask(b, 0, true)], last);
    Begins(wide, a, b, c2, [Invalidate(a), Ask(b, 0, true)], last);
    assert [Ask(a, 0, true), Arrive(a)] + [Invalidate(a), Ask(b, 0, true)]
        == [Ask(a, 0, true), Arrive(a), Invalidate(a), Ask(b, 0, true)];
    StartPair(wide, a.name, Both(a, b, Loaded, Loaded));
  }

  /** a is granted the one place but not its buffers, and asks again: it holds the place in
      Loaded, and is refused because of itself. */
  lemma {:induction false} FailedArrivalBlocksItself(wide: bool, a: Component, b: Component)
    requires a != b && a.name == b.name && |a.name| < OMX_MAX_STRINGNAME_SIZE
    ensures var start := Pair(wide, a, b, [], 0, Fresh(Both(a, b, Loaded, Loaded)));
            var moves := [Ask(a, 0, true), FailArrival(a), Ask(a, 0, true)];
            && Start(start) && EnabledRun(start, moves)
            && RunMoves(start, moves)
               == Pair(wide, a, b, [Entry(a, 0, 0)], 1,
                       Clients(Both(a, b, Loaded, Loaded), {}, {}, {}, {}, {}, multiset{a}))
  {
    var c0 := Fresh(Both(a, b, Loaded, Loaded));
    var c1 := c0.(arriving := {a});
    var c2 := Clients(Both(a, b, Loaded, Loaded), {}, {}, {}, {}, {}, multiset{a});
    assert WithPlace(c0, a) == c1 && OwnMove(c1, FailArrival(a)) == c2;
    var last := Pair(wide, a, b, [Entry(a, 0, 0)], 1, c2);
    AskRefused(wide, Entry(a, 0, 0), 1, c2, a);
    MoveFirst(last, Ask(a, 0, true), [], last);
    MoveFirst(Pair(wide, a, b, [Entry(a, 0, 0)], 1, c1), FailArrival(a), [Ask(a, 0, true)], last);
    AskFree(wide, a.name, 0, [], c0, a);
    MoveFirst(Pair(wide, a, b, [], 0, c0), Ask(a, 0, true), [FailArrival(a), Ask(a, 0, true)], last);
    StartPair(wide, a.name, c0.states);
  }

  // ---------------------------------------------------------------- woken from the queue

  function Three(a: Component, b: Component, w: Component, sa: CompState, sb: CompState,
                 sw: CompState)
    : map<Component, CompState>
  {
    map[a := sa, b := sb, w := sw]
  }

  ghost predicate Different(a: Component, b: Component, w: Component) {
    a != b && a != w && b != w && a.name == b.name == w.name && |a.name| < OMX_MAX_STRINGNAME_SIZE
  }

  function WokenStory(a: Component, b: Component, w: Component): seq<Move> {
    [Ask(a, 0, true), Arrive(a), Queue(w, 0), GiveUp(a, true), Settle(a), Wake(w), Ask(b, 0, true), Arrive(b)]
  }

  /** The second half: w is woken and goes to Idle; b asks and is granted the place. */
  lemma {:induction false} WokenThenAsked(wide: bool, a: Component, b: Component, w: Component, sent: seq<Message>)
    requires Different(a, b, w)
    ensures var s := System(OneType(wide, a.name, 1, [], [], 2, sent),
                            Fresh(Three(a, b, w, Loaded, Loaded, WaitForResources)));
            var moves := [Wake(w), Ask(b, 0, true), Arrive(b)];
            && EnabledRun(s, moves)
            && RunMoves(s, moves)
               == System(OneType(wide, a.name, 1, [Entry(b, 0, 2)], [], 3, sent),
                         Fresh(Three(a, b, w, Loaded, Idle, Idle)).(woken := {w}))
  {
    var name := a.name;
    var c0 := Fresh(Three(a, b, w, Loaded, Loaded, WaitForResources));
    var c1 := Fresh(Three(a, b, w, Loaded, Loaded, Idle)).(woken := {w});
    var c2 := c1.(arriving := {b});
    var c3 := Fresh(Three(a, b, w, Loaded, Idle, Idle)).(woken := {w});
    assert OwnMove(c0, Wake(w)) == c1 && WithPlace(c1, b) == c2 && OwnMove(c2, Arrive(b)) == c3;
    var last := System(OneType(wide, name, 1, [Entry(b, 0, 2)], [], 3, sent), c3);
    MoveFirst(System(OneType(wide, name, 1, [Entry(b, 0, 2)], [], 3, sent), c2), Arrive(b), [], last);
    AskFree(wide, name, 2, sent, c1, b);
    MoveFirst(System(OneType(wide, name, 1, [], [], 2, sent), c1), Ask(b, 0, true), [Arrive(b)], last);
    MoveFirst(System(OneType(wide, name, 1, [], [], 2, sent), c0), Wake(w), [Ask(b, 0, true), Arrive(b)], last);
  }

  /** The middle: w queues behind a, and a gives the place up and goes to Loaded. */
  lemma {:induction false} QueuedThenReleased(wide: bool, a: Component, b: Component, w: Component, moves: seq<Move>,
                                              last: System)
    requires Different(a, b, w)
    requires var after := System(OneType(wide, a.name, 1, [], [], 2, [StateSet(w, Idle, true)]),
                                 Fresh(Three(a, b, w, Loaded, Loaded, WaitForResources)));
             EnabledRun(after, moves) && RunMoves(after, moves) == last
    ensures var s := System(OneType(wide, a.name, 1, [Entry(a, 0, 0)], [], 1, []),
                            Fresh(Three(a, b, w, Idle, Loaded, Loaded)));
            var all := [Queue(w, 0), GiveUp(a, true), Settle(a)] + moves;
            EnabledRun(s, all) && RunMoves(s, all) == last
  {
    var name, e, f, sent := a.name, Entry(a, 0, 0), Entry(w, 0, 1), [StateSet(w, Idle, true)];
    var c0 := Fresh(Three(a, b, w, Idle, Loaded, Loaded));
    var c1 := Fresh(Three(a, b, w, Idle, Loaded, WaitForResources));
    var c2 := c1.(leaving := {a}, released := {a});
    MiddleClients(a, b, w);
    MoveFirst(System(OneType(wide, name, 1, [], [], 2, sent), c2), Settle(a), moves, last);
    ReleasesPlace(wide, name, 1, e, f, 2, true);
    MoveFirst(System(OneType(wide, name, 1, [e], [f], 2, []), c1), GiveUp(a, true), [Settle(a)] + moves, last);
    JoinsQueue(wide, name, 1, [e], [], 1, [], w, 0);
    assert [] + [f] == [f];
    var rest := [GiveUp(a, true)] + ([Settle(a)] + moves);
    MoveFirst(System(OneType(wide, name, 1, [e], [], 1, []), c0), Queue(w, 0), rest, last);
    assert [Queue(w, 0)] + rest == [Queue(w, 0), GiveUp(a, true), Settle(a)] + moves;
  }

  lemma {:induction false} MiddleClients(a: Component, b: Component, w: Component)
    requires Different(a, b, w)
    ensures var c0 := Fresh(Three(a, b, w, Idle, Loaded, Loaded));
            var c1 := Fresh(Three(a, b, w, Idle, Loaded, WaitForResources));
            var c2 := c1.(leaving := {a}, released := {a});
            && CanMove(c0, Queue(w, 0)) && OwnMove(c0, Queue(w, 0)) == c1
            && CanMove(c1, GiveUp(a, true)) && OwnMove(c1, GiveUp(a, true)) == c2
            && CanMove(c2, Settle(a))
            && OwnMove(c2, Settle(a)) == Fresh(Three(a, b, w, Loaded, Loaded, WaitForResources))
  {
    var c2 := Fresh(Three(a, b, w, Idle, Loaded, WaitForResources)).(leaving := {a}, released := {a});
    assert OwnMove(c2, Settle(a)).states == Three(a, b, w, Loaded, Loaded, WaitForResources);
  }

  /** w waits while a holds the one place; a gives it up, and w is woken and goes to Idle; then b
      asks and is granted the same place.  Both are in Idle, and only b is a holder. */
  lemma {:induction false} TwoOnOnePlace(wide: bool, a: Component, b: Component, w: Component)
    requires Different(a, b, w)
    ensures var start := System(OneType(wide, a.name, 1, [], [], 0, []), Fresh(Three(a, b, w, Loaded, Loaded, Loaded)));
            && Start(start) && EnabledRun(start, WokenStory(a, b, w))
            && RunMoves(start, WokenStory(a, b, w))
               == System(OneType(wide, a.name, 1, [Entry(b, 0, 2)], [], 3, [StateSet(w, Idle, true)]),
                         Fresh(Three(a, b, w, Loaded, Idle, Idle)).(woken := {w}))
  {
    var end := [Wake(w), Ask(b, 0, true), Arrive(b)];
    WokenStoryRuns(wide, a, b, w, end, [Queue(w, 0), GiveUp(a, true), Settle(a)] + end, WokenStory(a, b, w));
    StartPair(wide, a.name, Three(a, b, w, Loaded, Loaded, Loaded));
  }

  lemma {:induction false} WokenStoryRuns(wide: bool, a: Component, b: Component, w: Component,
                                          end: seq<Move>, middle: seq<Move>, all: seq<Move>)
    requires Different(a, b, w)
    requires end == [Wake(w), Ask(b, 0, true), Arrive(b)] && middle == [Queue(w, 0), GiveUp(a, true), Settle(a)] + end
    requires all == [Ask(a, 0, true), Arrive(a)] + middle
    ensures var start := System(OneType(wide, a.name, 1, [], [], 0, []), Fresh(Three(a, b, w, Loaded, Loaded, Loaded)));
            && EnabledRun(start, all)
            && RunMoves(start, all)
               == System(OneType(wide, a.name, 1, [Entry(b, 0, 2)], [], 3, [StateSet(w, Idle, true)]),
                         Fresh(Three(a, b, w, Loaded, Idle, Idle)).(woken := {w}))
  {
    var sent := [StateSet(w, Idle, true)];
    var last := System(OneType(wide, a.name, 1, [Entry(b, 0, 2)], [], 3, sent),
                       Fresh(Three(a, b, w, Loaded, Idle, Idle)).(woken := {w}));
    WokenThenAsked(wide, a, b, w, sent);
    QueuedThenReleased(wide, a, b, w, end, last);
    BeginsThree(wide, a, b, w, middle, last);
  }

  lemma {:induction false} BeginsThree(wide: bool, a: Component, b: Component, w: Component, moves: seq<Move>,
                                       last: System)
    requires Different(a, b, w)
    requires var s := System(OneType(wide, a.name, 1, [Entry(a, 0, 0)], [], 1, []),
                             Fresh(Three(a, b, w, Idle, Loaded, Loaded)));
             EnabledRun(s, moves) && RunMoves(s, moves) == last
    ensures var start := System(OneType(wide, a.name, 1, [], [], 0, []), Fresh(Three(a, b, w, Loaded, Loaded, Loaded)));
            var all := [Ask(a, 0, true), Arrive(a)] + moves;
            EnabledRun(start, all) && RunMoves(start, all) == last
  {
    var name := a.name;
    var c0 := Fresh(Three(a, b, w, Loaded, Loaded, Loaded));
    var c1 := c0.(arriving := {a});
    assert WithPlace(c0, a) == c1 && OwnMove(c1, Arrive(a)) == Fresh(Three(a, b, w, Idle, Loaded, Loaded));
    MoveFirst(System(OneType(wide, name, 1, [Entry(a, 0, 0)], [], 1, []), c1), Arrive(a), moves, last);
    AskFree(wide, name, 0, [], c0, a);
    MoveFirst(System(OneType(wide, name, 1, [], [], 0, []), c0), Ask(a, 0, true), [Arrive(a)] + moves, last);
    assert [Ask(a, 0, true)] + ([Arrive(a)] + moves) == [Ask(a, 0, true), Arrive(a)] + moves;
  }
}
