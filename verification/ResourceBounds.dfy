/** How many requests for a type can be granted in a run without releases: boundedly many,
    whoever asks and however often, exactly because a request never displaces a holder of equal
    or higher priority. */
module ResourceBounds {
  import opened HolderList
  import opened ResourcePolicy
  import opened ResourceRuns

  // ---------------------------------------------------------------- the weight of a list

  /** n times p. */
  function Times(n: nat, p: nat): nat {
    if n == 0 then 0 else p + Times(n - 1, p)
  }

  lemma {:induction false} TimesGrows(a: nat, b: nat, p: nat, q: nat)
    requires a <= b && p <= q
    ensures Times(a, p) <= Times(b, q)
    decreases b
  {
    if 0 < b {
      TimesGrows(if a < b then a else a - 1, b - 1, p, q);
    }
  }

  function Power(base: nat, e: nat): nat {
    if e == 0 then 1 else Times(base, Power(base, e - 1))
  }

  lemma {:induction false} PowerPositive(base: nat, e: nat)
    requires base >= 1
    ensures Power(base, e) >= 1
  {
    if e > 0 {
      PowerPositive(base, e - 1);
    }
  }

  lemma {:induction false} PowerGrows(base: nat, a: nat, b: nat)
    requires base >= 1 && a <= b
    ensures Power(base, a) <= Power(base, b)
    ensures a < b ==> Times(base, Power(base, a)) <= Power(base, b)
  {
    if a < b {
      PowerGrows(base, a, b - 1);
      TimesGrows(base, base, Power(base, a), Power(base, b - 1));
      TimesGrows(1, base, Power(base, b - 1), Power(base, b - 1));
    }
  }

  /** Entries weigh more the larger their number, and the later they stand in the list. */
  ghost function Weight(es: seq<Entry>, base: nat): nat {
    if es == [] then 0
    else Weight(es[..|es| - 1], base) + Times(|es|, Power(base, es[|es| - 1].priority))
  }

  lemma {:induction false} WeightAppend(es: seq<Entry>, e: Entry, base: nat)
    ensures Weight(es + [e], base) == Weight(es, base) + Times(|es| + 1, Power(base, e.priority))
  {
    assert (es + [e])[..|es|] == es;
  }

  lemma {:induction false} WithoutInFront(es: seq<Entry>, k: nat)
    requires k + 1 < |es|
    ensures var front := es[..|es| - 1];
            es[..k] + es[k + 1..] == front[..k] + front[k + 1..] + [es[|es| - 1]]
  {
  }

  /** Taking out an entry lowers the weight by at least the power of any entry behind it. */
  lemma {:induction false} WeightWithout(es: seq<Entry>, k: nat, v: nat, base: nat)
    requires k <= v < |es|
    ensures Weight(es[..k] + es[k + 1..], base) + Power(base, es[v].priority) <= Weight(es, base)
    decreases |es|
  {
    var n := |es|;
    var front, last := es[..n - 1], es[n - 1];
    var p := Power(base, last.priority);
    assert Times(n, p) == p + Times(n - 1, p);
    if k == n - 1 {
      assert es[..k] + es[k + 1..] == front;
    } else {
      var rest := front[..k] + front[k + 1..];
      WithoutInFront(es, k);
      WeightAppend(rest, last, base);
      WeightWithout(front, k, if v == n - 1 then k else v, base);
    }
  }

  // ---------------------------------------------------------------- the potential

  ghost function Places(s: RmState, i: nat): nat
    requires i < |s.registered|
  {
    if s.registered[i].maxComponents < 0 then 0 else s.registered[i].maxComponents
  }

  /** Free places weigh more than a request can add to the list. */
  ghost function BoundOf(es: seq<Entry>, places: nat, top: nat): nat {
    Times(if |es| <= places then places - |es| else 0, Times(places, Power(places + 1, top)) + 1)
    + Weight(es, places + 1)
  }

  ghost function Bound(s: RmState, i: nat): nat
    requires i < |s.registered| && i < |s.holders|
  {
    BoundOf(s.holders[i], Places(s, i), UlongRange(s.wide))
  }

  /** The number compared with is not below the caller's own. */
  ghost predicate FairPriority(priority: nat, wide: bool) {
    priority < UlongRange(wide) && Threshold(priority, wide) >= priority
  }

  ghost predicate FairRequests(ops: seq<Op>, name: string, wide: bool) {
    forall k :: 0 <= k < |ops| && ops[k].Get? && ops[k].comp.name == name ==> FairPriority(ops[k].priority, wide)
  }

  lemma {:induction false} FreePlaceLowersBound(s: RmState, i: nat, comp: Component, priority: nat)
    requires Inv(s) && i < |s.registered| && !Full(s, i) && priority < UlongRange(s.wide)
    ensures Bound(WithHolder(s, i, s.holders[i], comp, priority), i) < Bound(s, i)
  {
    AddedWeighsLess(s.holders[i], Entry(comp, priority, s.now), Places(s, i), UlongRange(s.wide));
  }

  lemma {:induction false} AddedWeighsLess(es: seq<Entry>, e: Entry, n: nat, top: nat)
    requires |es| < n && e.priority < top
    ensures BoundOf(es + [e], n, top) < BoundOf(es, n, top)
  {
    WeightAppend(es, e, n + 1);
    PowerGrows(n + 1, e.priority, top);
    TimesGrows(|es| + 1, n, Power(n + 1, e.priority), Power(n + 1, top));
  }

  /** An entry gives way to a new one at the end, and one behind it has a larger number. */
  lemma {:induction false} ReplacedLowersWeight(es: seq<Entry>, k: nat, v: nat, e: Entry, base: nat)
    requires k <= v < |es| && es[v].priority > e.priority && base == |es| + 1
    ensures Weight(es[..k] + es[k + 1..] + [e], base) < Weight(es, base)
  {
    WeightWithout(es, k, v, base);
    PowerGrows(base, e.priority, es[v].priority);
    PowerPositive(base, e.priority);
    WeightAppend(es[..k] + es[k + 1..], e, base);
  }

  lemma {:induction false} DisplacementLowersWeight(es: seq<Entry>, e: Entry, threshold: int, base: nat)
    requires Increasing(es) && LowerThan(es, threshold) != [] && threshold >= e.priority && base == |es| + 1
    ensures Weight(RemoveFirst(es, Victim(es, threshold).comp) + [e], base) < Weight(es, base)
    ensures |RemoveFirst(es, Victim(es, threshold).comp) + [e]| == |es|
  {
    var victim := Victim(es, threshold);
    VictimHolds(es, threshold);
    var k := FirstWith(es, victim.comp);
    var v :| 0 <= v < |es| && es[v] == victim;
    ReplacedLowersWeight(es, k, v, e, base);
  }

  lemma {:induction false} DisplacementLowersBound(s: RmState, i: nat, comp: Component, priority: nat, idle: bool,
                                                   accepted: bool)
    requires Inv(s) && i < |s.registered| && Full(s, i) && FairPriority(priority, s.wide)
    requires s.registered[i].maxComponents >= 1
    requires var (t, err) := DisplaceStep(s, i, comp, priority, idle, accepted);
             err == ErrorNone && Inv(t)
    ensures Bound(DisplaceStep(s, i, comp, priority, idle, accepted).0, i) < Bound(s, i)
  {
    DisplacementLowersWeight(s.holders[i], Entry(comp, priority, s.now), Threshold(priority, s.wide), Places(s, i) + 1);
  }

  lemma {:induction false} GrantLowersBound(s: RmState, op: Op, i: nat)
    requires Inv(s) && Admissible(s, op) && i < |s.registered| && Grants(s, op, i) && FairPriority(op.priority, s.wide)
    ensures Inv(Step(s, op).0) && i < |Step(s, op).0.registered|
    ensures Bound(Step(s, op).0, i) < Bound(s, i)
  {
    StepKeepsInv(s, op);
    if Full(s, i) {
      DisplacementLowersBound(s, i, op.comp, op.priority, op.idle, op.accepted);
    } else {
      FreePlaceLowersBound(s, i, op.comp, op.priority);
    }
  }

  lemma {:induction false} OtherCallsKeepBound(s: RmState, op: Op, i: nat)
    requires Inv(s) && Admissible(s, op) && i < |s.registered| && !Grants(s, op, i)
    requires op.Release? ==> op.comp.name != s.registered[i].name
    ensures Inv(Step(s, op).0) && i < |Step(s, op).0.registered|
    ensures Bound(Step(s, op).0, i) == Bound(s, i)
  {
    StepKeepsInv(s, op);
    OtherCallsKeepPotential(s, op, i);
    RegistrationKept(s, op, i);
  }

  /** Without releases of a type only boundedly many requests for it are granted, also to
      components that hold it already, as long as no priority is compared as a smaller one. */
  lemma {:induction false} GrantsAlwaysBounded(s: RmState, ops: seq<Op>, i: nat)
    requires Inv(s) && AdmissibleRun(s, ops) && i < |s.registered|
    requires NoRelease(ops, s.registered[i].name) && FairRequests(ops, s.registered[i].name, s.wide)
    ensures Granted(s, ops, i) <= Bound(s, i)
    decreases |ops|
  {
    if ops != [] {
      var op, next := ops[0], Step(s, ops[0]).0;
      RegistrationKept(s, op, i);
      if Grants(s, op, i) {
        GrantLowersBound(s, op, i);
      } else {
        OtherCallsKeepBound(s, op, i);
      }
      GrantsAlwaysBounded(next, ops[1..], i);
    }
  }

  // ---------------------------------------------------------------- unfair priorities

  /** A request that is granted on a full type displaces the first holder above the number
      compared with; that holder has equal or higher priority than the caller if and only if its
      number is not above the caller's own, which no fair priority allows. */
  lemma {:induction false} UnfairDisplacementIff(s: RmState, comp: Component, priority: nat, idle: bool,
                                                 accepted: bool, i: nat)
    requires Inv(s) && Lookup(s.registered, comp.name) == Some(i) && Full(s, i)
    requires s.registered[i].maxComponents >= 1 && priority < UlongRange(s.wide)
    requires Step(s, Get(comp, priority, idle, accepted)).1 == ErrorNone
    ensures var es, threshold := s.holders[i], Threshold(priority, s.wide);
            var k := FirstLower(es, threshold);
            && k < |es| && LowerThan(es, threshold) != []
            && (Victim(es, threshold).priority <= priority <==> es[k].priority <= priority)
            && (es[k].priority <= priority ==> !FairPriority(priority, s.wide))
  {
    var es, threshold := s.holders[i], Threshold(priority, s.wide);
    assert ListInv(es, s.now);
    LowerThanExact(es, threshold);
    OldestOfSuffixIsOldestLower(es, threshold, Victim(es, threshold));
  }

  /** Requests of two components by turns. */
  function Requests(c: Component, d: Component, priority: nat, m: nat): (ops: seq<Op>)
    ensures |ops| == m
  {
    if m == 0 then [] else [Get(c, priority, false, true)] + Requests(d, c, priority, m - 1)
  }

  /** A priority that is compared as a smaller one displaces a holder of that same priority, so
      that two components can take one place from each other any number of times. */
  lemma {:induction false} UnfairGrantsUnbounded(s: RmState, i: nat, c: Component, d: Component, priority: nat, m: nat)
    requires Inv(s) && i < |s.registered| && s.registered[i].maxComponents == 1
    requires c.name == d.name == s.registered[i].name
    requires |s.holders[i]| == 1 && s.holders[i][0].comp == d && s.holders[i][0].priority == priority
    requires !FairPriority(priority, s.wide) && priority < UlongRange(s.wide)
    ensures AdmissibleRun(s, Requests(c, d, priority, m))
    ensures Granted(s, Requests(c, d, priority, m), i) == m
    decreases m
  {
    if m > 0 {
      var op := Get(c, priority, false, true);
      var next := Step(s, op).0;
      LookupFirst(s.registered, c.name, i);
      DisplacesTheOne(s.holders[i], Threshold(priority, s.wide));
      StepKeepsInv(s, op);
      UnfairGrantsUnbounded(next, i, d, c, priority, m - 1);
      assert Requests(c, d, priority, m)[1..] == Requests(d, c, priority, m - 1);
    }
  }

  lemma {:induction false} DisplacesTheOne(es: seq<Entry>, threshold: int)
    requires |es| == 1 && es[0].priority > threshold
    ensures LowerThan(es, threshold) == es && Victim(es, threshold) == es[0]
    ensures RemoveFirst(es, es[0].comp) == []
  {
    assert es[1..] == [] && [es[0]] + [] == es;
  }
}
