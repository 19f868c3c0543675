/** What RM_getResource guarantees when several components call it at once: it takes no mutex, and
    its count of the holders, its removal of the preempted component and its addition to the list
    are steps of their own.  Each thread is the message thread of one component of the type. */
module ResourceRace {

  /** Where a thread is in RM_getResource.  Room and Full: after the count of the holders;
      Chosen: the component to be preempted has been found; Removed: it has been taken out. */
  datatype Pc = Outside | Room | Full | Chosen(victim: nat) | Removed

  /** holders: the threads that hold a place, as in the list of the type. */
  datatype State = State(bound: nat, holders: seq<nat>, pcs: seq<Pc>)

  datatype Step =
    | Test(t: nat)              // numElemInList and the comparison with max_components
    | Choose(t: nat, v: nat)    // searchLowerPriority and preemptComponent
    | GiveUp(t: nat)            // OMX_ErrorInsufficientResources
    | Remove(t: nat)            // removeElemFromList
    | Add(t: nat)               // addElemToList
    | Release(t: nat)           // RM_releaseResource

  ghost function Initial(bound: nat, threads: nat): State {
    State(bound, [], seq(threads, _ => Outside))
  }

  predicate Enabled(s: State, step: Step) {
    && step.t < |s.pcs|
    && var pc := s.pcs[step.t];
       match step
       case Test(_) => pc.Outside?
       case Choose(_, v) => pc.Full? && v in s.holders
       case GiveUp(_) => pc.Full?
       case Remove(_) => pc.Chosen?
       case Add(_) => pc.Room? || pc.Removed?
       case Release(_) => pc.Outside?
  }

  /** The list without the first entry of a thread, if it has one. */
  function Without(holders: seq<nat>, t: nat): (r: seq<nat>)
    ensures |r| == |holders| - if t in holders then 1 else 0
    ensures forall u :: u != t ==> (u in r <==> u in holders)
    ensures multiset(r) == multiset(holders) - multiset{t}
  {
    if holders == [] then []
    else
      assert holders == [holders[0]] + holders[1..];
      if holders[0] == t then holders[1..] else [holders[0]] + Without(holders[1..], t)
  }

  function Do(s: State, step: Step): State
    requires Enabled(s, step)
  {
    var t := step.t;
    match step
    case Test(_) => s.(pcs := s.pcs[t := if |s.holders| >= s.bound then Full else Room])
    case Choose(_, v) => s.(pcs := s.pcs[t := Chosen(v)])
    case GiveUp(_) => s.(pcs := s.pcs[t := Outside])
    case Remove(_) => s.(holders := Without(s.holders, s.pcs[t].victim), pcs := s.pcs[t := Removed])
    case Add(_) => s.(holders := s.holders + [t], pcs := s.pcs[t := Outside])
    case Release(_) => s.(holders := Without(s.holders, t))
  }

  predicate Schedulable(s: State, steps: seq<Step>)
    decreases |steps|
  {
    steps == [] || (Enabled(s, steps[0]) && Schedulable(Do(s, steps[0]), steps[1..]))
  }

  function Run(s: State, steps: seq<Step>): State
    requires Schedulable(s, steps)
    decreases |steps|
  {
    if steps == [] then s else Run(Do(s, steps[0]), steps[1..])
  }

  predicate WithinBound(s: State) {
    |s.holders| <= s.bound
  }

  // ---------------------------------------------------------------- one at a time

  /** At most one thread is in RM_getResource. */
  ghost predicate OneInside(s: State) {
    forall t, u :: 0 <= t < |s.pcs| && 0 <= u < |s.pcs| && !s.pcs[t].Outside? && !s.pcs[u].Outside? ==> t == u
  }

  ghost predicate AlwaysOneInside(s: State, steps: seq<Step>)
    requires Schedulable(s, steps)
    decreases |steps|
  {
    OneInside(s) && (steps == [] || AlwaysOneInside(Do(s, steps[0]), steps[1..]))
  }

  /** What a thread may rely on after each of its steps. */
  ghost predicate Promised(s: State, pc: Pc) {
    match pc
    case Outside => true
    case Room => |s.holders| < s.bound
    case Full => true
    case Chosen(v) => v in s.holders || |s.holders| < s.bound
    case Removed => |s.holders| < s.bound
  }

  ghost predicate Inv(s: State) {
    WithinBound(s) && forall t :: 0 <= t < |s.pcs| ==> Promised(s, s.pcs[t])
  }

  lemma {:induction false} StepKeepsInv(s: State, step: Step)
    requires Inv(s) && OneInside(s) && Enabled(s, step)
    ensures Inv(Do(s, step))
  {
    var next := Do(s, step);
    assert Promised(s, s.pcs[step.t]);
    forall u | 0 <= u < |next.pcs| ensures Promised(next, next.pcs[u]) {
      assert Promised(s, s.pcs[u]);
    }
  }

  /** A run in which no two threads are in RM_getResource at once keeps the bound. */
  lemma {:induction false} OneInsideKeepsBound(s: State, steps: seq<Step>)
    requires Inv(s) && Schedulable(s, steps) && AlwaysOneInside(s, steps)
    ensures WithinBound(Run(s, steps))
    decreases |steps|
  {
    if steps != [] {
      StepKeepsInv(s, steps[0]);
      OneInsideKeepsBound(Do(s, steps[0]), steps[1..]);
    }
  }

  lemma {:induction false} OneThreadOneInside(s: State, steps: seq<Step>)
    requires |s.pcs| <= 1 && Schedulable(s, steps)
    ensures AlwaysOneInside(s, steps)
    decreases |steps|
  {
    if steps != [] {
      OneThreadOneInside(Do(s, steps[0]), steps[1..]);
    }
  }

  // ---------------------------------------------------------------- who holds

  /** How often thread t is added to the list in these steps. */
  function Added(steps: seq<Step>, t: nat): nat {
    if steps == [] then 0 else (if steps[0] == Add(t) then 1 else 0) + Added(steps[1..], t)
  }

  /** The step takes an entry of thread t out: the thread releases it, or it is preempted. */
  predicate TakesOut(s: State, step: Step, t: nat) {
    && t in s.holders
    && (step == Release(t) || (step.Remove? && step.t < |s.pcs| && s.pcs[step.t] == Chosen(t)))
  }

  function TakenOut(s: State, steps: seq<Step>, t: nat): nat
    requires Schedulable(s, steps)
    decreases |steps|
  {
    if steps == [] then 0
    else (if TakesOut(s, steps[0], t) then 1 else 0) + TakenOut(Do(s, steps[0]), steps[1..], t)
  }

  /** In every interleaving, exclusive or not, each thread holds as many places as it was given less
      those it released or was preempted from. */
  lemma {:induction false} PlacesConserved(s: State, steps: seq<Step>, t: nat)
    requires Schedulable(s, steps)
    ensures multiset(Run(s, steps).holders)[t] + TakenOut(s, steps, t) == multiset(s.holders)[t] + Added(steps, t)
    decreases |steps|
  {
    if steps != [] {
      PlacesConserved(Do(s, steps[0]), steps[1..], t);
    }
  }

  // ---------------------------------------------------------------- two at a time

  lemma {:induction false} FirstStep(s: State, step: Step, steps: seq<Step>)
    requires Enabled(s, step) && Schedulable(Do(s, step), steps)
    ensures Schedulable(s, [step] + steps) && Run(s, [step] + steps) == Run(Do(s, step), steps)
  {
    assert ([step] + steps)[1..] == steps;
  }

  /** Thread 0 takes k places, then threads 0 and 1 both test before either adds. */
  function Overfill(k: nat): seq<Step> {
    if k == 0 then [Test(0), Test(1), Add(0), Add(1)] else [Test(0), Add(0)] + Overfill(k - 1)
  }

  lemma {:induction false} OverfillBreaks(s: State, k: nat)
    requires |s.pcs| >= 2 && s.pcs[0].Outside? && s.pcs[1].Outside?
    requires |s.holders| + k + 1 == s.bound
    ensures Schedulable(s, Overfill(k)) && !WithinBound(Run(s, Overfill(k)))
    decreases k
  {
    var s1 := Do(s, Test(0));
    if k == 0 {
      var s2 := Do(s1, Test(1));
      var s3 := Do(s2, Add(0));
      var s4 := Do(s3, Add(1));
      assert |s4.holders| == s.bound + 1;
      FirstStep(s3, Add(1), []);
      FirstStep(s2, Add(0), [Add(1)]);
      FirstStep(s1, Test(1), [Add(0), Add(1)]);
      FirstStep(s, Test(0), [Test(1), Add(0), Add(1)]);
    } else {
      var s2 := Do(s1, Add(0));
      OverfillBreaks(s2, k - 1);
      FirstStep(s1, Add(0), Overfill(k - 1));
      FirstStep(s, Test(0), [Add(0)] + Overfill(k - 1));
      assert [Test(0)] + ([Add(0)] + Overfill(k - 1)) == Overfill(k);
    }
  }

  /** Every run of the threads keeps a bound of at least one if and only if there is at most one
      thread. */
  lemma {:induction false} AlwaysWithinBoundIff(bound: nat, threads: nat)
    requires bound >= 1
    ensures (forall steps :: Schedulable(Initial(bound, threads), steps) ==>
               WithinBound(Run(Initial(bound, threads), steps)))
        <==> threads <= 1
  {
    var s := Initial(bound, threads);
    if threads <= 1 {
      forall steps | Schedulable(s, steps) ensures WithinBound(Run(s, steps)) {
        OneThreadOneInside(s, steps);
        OneInsideKeepsBound(s, steps);
      }
    } else {
      OverfillBreaks(s, bound - 1);
    }
  }
}
