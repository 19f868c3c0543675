/** The manual-reset events of OSAL.c: a flag, a mutex and a pipe that holds one byte while the
    event is set.  The methods are the calls of one thread; the state machine below interleaves
    the calls of many threads on many events. */
module OsalEvent {
  import opened Sequences

  /** The read end of an event's pipe, which names the event. */
  type Fd = nat
  type Thread = nat

  datatype Error = ErrorNone | ErrorBadParameter

  const INFINITE_WAIT: nat := 0xffff_ffff

  /** What a wait reports for each handle when these are the bytes in the pipes. */
  ghost function Ready(handles: seq<Fd>, bytes: map<Fd, nat>): (r: seq<bool>)
    requires forall e :: e in handles ==> e in bytes
    ensures |r| == |handles|
    ensures forall k :: 0 <= k < |handles| ==> r[k] == (bytes[handles[k]] > 0)
  {
    seq(|handles|, k requires 0 <= k < |handles| => bytes[handles[k]] > 0)
  }

  // ---------------------------------------------------------------- the calls of one thread

  /** OSAL_THREAD_EVENT; pipe counts the bytes in the pipe. */
  class ThreadEvent {
    const fd: Fd
    var bSignaled: bool
    var pipe: nat
    var locked: bool

    ghost predicate Valid()
      reads this
    {
      !locked && pipe == if bSignaled then 1 else 0
    }

    /** OSAL_EventCreate */
    constructor (fd: Fd)
      ensures Valid() && !bSignaled && this.fd == fd
    {
      this.fd := fd;
      bSignaled := false;
      pipe := 0;
      locked := false;
    }
  }

  /** OSAL_EventSet */
  method EventSet(hEvent: ThreadEvent?) returns (err: Error)
    requires hEvent != null ==> hEvent.Valid()
    modifies hEvent
    ensures hEvent == null ==> err == ErrorBadParameter
    ensures hEvent != null ==> err == ErrorNone && hEvent.Valid() && hEvent.bSignaled
  {
    if hEvent == null {
      return ErrorBadParameter;
    }
    hEvent.locked := true;
    if !hEvent.bSignaled {
      hEvent.pipe := hEvent.pipe + 1;
      hEvent.bSignaled := true;
    }
    hEvent.locked := false;
    err := ErrorNone;
  }

  /** OSAL_EventReset */
  method EventReset(hEvent: ThreadEvent?) returns (err: Error)
    requires hEvent != null ==> hEvent.Valid()
    modifies hEvent
    ensures hEvent == null ==> err == ErrorBadParameter
    ensures hEvent != null ==> err == ErrorNone && hEvent.Valid() && !hEvent.bSignaled
  {
    if hEvent == null {
      return ErrorBadParameter;
    }
    hEvent.locked := true;
    if hEvent.bSignaled {
      // read() on an empty pipe would block with the mutex held
      assert hEvent.pipe > 0;
      hEvent.pipe := hEvent.pipe - 1;
      hEvent.bSignaled := false;
    }
    hEvent.locked := false;
    err := ErrorNone;
  }

  ghost predicate NoneNull(hEvents: seq<ThreadEvent?>) {
    forall i :: 0 <= i < |hEvents| ==> hEvents[i] != null
  }

  ghost function Fds(hEvents: seq<ThreadEvent?>): (r: seq<Fd>)
    requires NoneNull(hEvents)
    ensures |r| == |hEvents|
    ensures forall i :: 0 <= i < |hEvents| ==> r[i] == hEvents[i].fd
  {
    seq(|hEvents|, i requires 0 <= i < |hEvents| => hEvents[i].fd)
  }

  ghost predicate Known(hEvents: seq<ThreadEvent?>, bytes: map<Fd, nat>) {
    NoneNull(hEvents) ==> forall e :: e in Fds(hEvents) ==> e in bytes
  }

  /** select() on read ends: of the descriptors in the set that are below nfds, those with data. */
  function SelectRead(nfds: nat, read: set<Fd>, bytes: map<Fd, nat>): set<Fd> {
    set fd | fd in read && fd < nfds && fd in bytes && bytes[fd] > 0
  }

  /** OSAL_EventWaitMultiple.  The bytes are those that the last pass of select() finds in the
      pipes; with no time limit it returns only when a pipe of the set has data.  The pipes are
      not touched. */
  method EventWaitMultiple(hEvents: seq<ThreadEvent?>, bSignaled: array<bool>, mSecs: nat, timedOutBefore: bool,
                           bytes: map<Fd, nat>)
    returns (err: Error, timedOut: bool)
    requires |hEvents| <= bSignaled.Length && Known(hEvents, bytes)
    requires NoneNull(hEvents) && mSecs == INFINITE_WAIT ==> true in Ready(Fds(hEvents), bytes)
    modifies bSignaled
    ensures !NoneNull(hEvents) ==>
              err == ErrorBadParameter && timedOut == timedOutBefore && bSignaled[..] == old(bSignaled[..])
    ensures NoneNull(hEvents) ==>
              && err == ErrorNone
              && bSignaled[..|hEvents|] == Ready(Fds(hEvents), bytes)
              && bSignaled[|hEvents|..] == old(bSignaled[|hEvents|..])
              && timedOut == (timedOutBefore || true !in Ready(Fds(hEvents), bytes))
  {
    timedOut := timedOutBefore;
    var read: set<Fd> := {};
    var max := 0;
    for i := 0 to |hEvents|
      invariant NoneNull(hEvents[..i])
      invariant forall k :: 0 <= k < i ==> hEvents[k].fd in read
      invariant forall fd :: fd in read ==> fd <= max
      invariant forall fd :: fd in read ==> exists k :: 0 <= k < i && hEvents[k].fd == fd
    {
      if hEvents[i] == null {
        return ErrorBadParameter, timedOut;
      }
      var fd := hEvents[i].fd;
      if fd > max {
        max := fd;
      }
      read := read + {fd};
    }
    assert hEvents[..|hEvents|] == hEvents;
    ghost var ready := Ready(Fds(hEvents), bytes);
    forall k | 0 <= k < |hEvents| ensures hEvents[k].fd in bytes {
      assert hEvents[k].fd == Fds(hEvents)[k];
    }
    read := SelectRead(max + 1, read, bytes);
    if mSecs != INFINITE_WAIT {
      if |read| == 0 {
        timedOut := true;
      }
    }
    assert forall k :: 0 <= k < |hEvents| ==> (ready[k] <==> hEvents[k].fd in read);
    assert read == {} <==> true !in ready by {
      if fd :| fd in read {
        var k :| 0 <= k < |hEvents| && hEvents[k].fd == fd;
        assert ready[k];
      }
    }
    for i := 0 to |hEvents|
      invariant forall k :: 0 <= k < i ==> bSignaled[k] == ready[k]
      invariant forall k :: i <= k < bSignaled.Length ==> bSignaled[k] == old(bSignaled[k])
    {
      bSignaled[i] := hEvents[i].fd in read;
    }
    err := ErrorNone;
  }

  /** OSAL_EventWait */
  method EventWait(hEvent: ThreadEvent?, mSecs: nat, timedOutBefore: bool, bytes: map<Fd, nat>)
    returns (err: Error, timedOut: bool)
    requires hEvent != null ==> hEvent.fd in bytes && (mSecs == INFINITE_WAIT ==> bytes[hEvent.fd] > 0)
    ensures hEvent == null ==> err == ErrorBadParameter && timedOut == timedOutBefore
    ensures hEvent != null ==> err == ErrorNone && timedOut == (timedOutBefore || bytes[hEvent.fd] == 0)
  {
    var signaled := new bool[1];
    if hEvent != null {
      assert Ready(Fds([hEvent]), bytes)[0] == (bytes[hEvent.fd] > 0);
    }
    assert NoneNull([hEvent]) ==> [hEvent][0] != null;
    err, timedOut := EventWaitMultiple([hEvent], signaled, mSecs, timedOutBefore, bytes);
  }

  // ---------------------------------------------------------------- many threads

  datatype Owner = Free | OwnedBy(t: Thread)
  datatype Event = Event(bSignaled: bool, pipe: nat, owner: Owner)

  datatype Call = Set(e: Fd) | Reset(e: Fd) | Wait(handles: seq<Fd>, mSecs: nat)

  /** What a pass of select() found in a pipe, and how many calls had taken effect by then. */
  datatype Sight = Sight(ready: bool, at: nat)

  /** Where a thread is.  Called: not yet past the mutex.  Scanning: in select(), which looks at one
      pipe after the other in some order; began is the length of the log when the wait was called. */
  datatype Pc =
    | Idle
    | Called(call: Call)
    | Scanning(handles: seq<Fd>, mSecs: nat, began: nat, seen: map<Fd, Sight>)
    | SetLocked(e: Fd) | SetWritten(e: Fd)
    | ResetLocked(e: Fd) | ResetRead(e: Fd)
    | Leaving(e: Fd)

  /** A call that has taken effect; of a wait also when it was called and what it saw. */
  datatype Effect = Effect(t: Thread, call: Call, began: nat, seen: map<Fd, Sight>)

  /** log records, in order, the calls that took effect. */
  datatype State = State(events: map<Fd, Event>, pcs: seq<Pc>, log: seq<Effect>)

  /** Test: reading the flag and, if it calls for it, writing or reading the pipe; the flag is
      only touched with the mutex held.  Mark: storing the flag.  Look, Again, Finish: select()
      looks at a pipe, starts another pass, returns. */
  datatype Action = Begin(call: Call) | Lock | Test | Mark | Unlock | Look(e: Fd) | Again | Finish
  datatype Step = Step(t: Thread, action: Action)

  ghost function Initial(fds: set<Fd>, threads: nat): State {
    State(map e | e in fds :: Event(false, 0, Free), seq(threads, _ => Idle), [])
  }

  ghost predicate ValidCall(events: map<Fd, Event>, call: Call) {
    match call
    case Set(e) => e in events
    case Reset(e) => e in events
    case Wait(handles, _) => forall e :: e in handles ==> e in events
  }

  ghost predicate AllSeen(handles: seq<Fd>, seen: map<Fd, Sight>) {
    forall k :: 0 <= k < |handles| ==> handles[k] in seen
  }

  /** What select() returns for each handle after a pass. */
  ghost function Reported(handles: seq<Fd>, seen: map<Fd, Sight>): (r: seq<bool>)
    requires AllSeen(handles, seen)
    ensures |r| == |handles|
    ensures forall k :: 0 <= k < |handles| ==> r[k] == seen[handles[k]].ready
  {
    seq(|handles|, k requires 0 <= k < |handles| => seen[handles[k]].ready)
  }

  predicate Inside(pc: Pc) {
    pc.SetLocked? || pc.SetWritten? || pc.ResetLocked? || pc.ResetRead? || pc.Leaving?
  }

  ghost predicate InRange(s: State, t: Thread) {
    && t < |s.pcs|
    && (Inside(s.pcs[t]) ==> s.pcs[t].e in s.events)
    && (s.pcs[t].Called? ==> !s.pcs[t].call.Wait? && ValidCall(s.events, s.pcs[t].call))
    && (s.pcs[t].Scanning? ==> forall e :: e in s.pcs[t].handles ==> e in s.events)
  }

  /** read() blocks on an empty pipe.  select() goes over the pipes again while it has found no data
      and its time is not over; without a limit it returns only with data. */
  ghost predicate Enabled(s: State, step: Step) {
    && InRange(s, step.t)
    && var pc := s.pcs[step.t];
       match step.action
       case Begin(call) => pc == Idle && ValidCall(s.events, call)
       case Lock => pc.Called? && s.events[pc.call.e].owner == Free
       case Test => pc.SetLocked? || (pc.ResetLocked? && (s.events[pc.e].bSignaled ==> s.events[pc.e].pipe > 0))
       case Mark => pc.SetWritten? || pc.ResetRead?
       case Unlock => pc.Leaving?
       case Look(e) => pc.Scanning? && e in pc.handles && e !in pc.seen
       case Again => pc.Scanning? && AllSeen(pc.handles, pc.seen) && true !in Reported(pc.handles, pc.seen)
       case Finish =>
         && pc.Scanning? && AllSeen(pc.handles, pc.seen)
         && (pc.mSecs == INFINITE_WAIT ==> true in Reported(pc.handles, pc.seen))
  }

  ghost function Do(s: State, step: Step): State
    requires Enabled(s, step)
  {
    var t, pc := step.t, s.pcs[step.t];
    match step.action
    case Begin(call) => s.(pcs := s.pcs[t := Begun(call, |s.log|)])
    case Lock =>
      var e := pc.call.e;
      s.(events := s.events[e := s.events[e].(owner := OwnedBy(t))],
         pcs := s.pcs[t := if pc.call.Set? then SetLocked(e) else ResetLocked(e)])
    case Test => DoTest(s, t)
    case Mark =>
      s.(events := s.events[pc.e := s.events[pc.e].(bSignaled := pc.SetWritten?)], pcs := s.pcs[t := Leaving(pc.e)])
    case Unlock =>
      s.(events := s.events[pc.e := s.events[pc.e].(owner := Free)], pcs := s.pcs[t := Idle])
    case Look(e) =>
      s.(pcs := s.pcs[t := pc.(seen := pc.seen[e := Sight(s.events[e].pipe > 0, |s.log|)])])
    case Again => s.(pcs := s.pcs[t := pc.(seen := map[])])
    case Finish =>
      s.(pcs := s.pcs[t := Idle], log := s.log + [Effect(t, Wait(pc.handles, pc.mSecs), pc.began, pc.seen)])
  }

  ghost function Begun(call: Call, began: nat): Pc {
    if call.Wait? then Scanning(call.handles, call.mSecs, began, map[]) else Called(call)
  }

  ghost function DoTest(s: State, t: Thread): State
    requires Enabled(s, Step(t, Test))
  {
    var pc := s.pcs[t];
    var e, ev := pc.e, s.events[pc.e];
    if pc.SetLocked? then
      var s' := s.(log := s.log + [Effect(t, Set(e), 0, map[])]);
      if ev.bSignaled then s'.(pcs := s.pcs[t := Leaving(e)])
      else s'.(pcs := s.pcs[t := SetWritten(e)], events := s.events[e := ev.(pipe := ev.pipe + 1)])
    else
      var s' := s.(log := s.log + [Effect(t, Reset(e), 0, map[])]);
      if !ev.bSignaled then s'.(pcs := s.pcs[t := Leaving(e)])
      else s'.(pcs := s.pcs[t := ResetRead(e)], events := s.events[e := ev.(pipe := ev.pipe - 1)])
  }

  // ---------------------------------------------------------------- what the log means

  /** The event as its users see it: set or not, by the last call that took effect on it. */
  ghost function SignaledBy(log: seq<Effect>, e: Fd): bool {
    if log == [] then false
    else
      var call := log[|log| - 1].call;
      if call == Set(e) then true
      else if call == Reset(e) then false
      else SignaledBy(log[..|log| - 1], e)
  }

  /** A sight is of the event as it was at a moment since the call. */
  ghost predicate TrueSight(log: seq<Effect>, began: nat, e: Fd, sight: Sight) {
    began <= sight.at <= |log| && sight.ready == SignaledBy(log[..sight.at], e)
  }

  ghost predicate TrueSights(log: seq<Effect>, began: nat, seen: map<Fd, Sight>) {
    forall e :: e in seen ==> TrueSight(log, began, e, seen[e])
  }

  /** Nothing that the thread did before the call took effect later than the call. */
  ghost predicate QuietSince(log: seq<Effect>, began: nat, t: Thread) {
    began <= |log| && forall j :: began <= j < |log| ==> log[j].t != t
  }

  /** A wait in the log reports each event as it was at a moment during the wait, and without a
      limit at least one as set. */
  ghost predicate TrueReport(log: seq<Effect>, i: nat)
    requires i < |log|
  {
    var x := log[i];
    x.call.Wait? ==>
      && AllSeen(x.call.handles, x.seen)
      && TrueSights(log[..i], x.began, x.seen)
      && QuietSince(log[..i], x.began, x.t)
      && (x.call.mSecs == INFINITE_WAIT ==> true in Reported(x.call.handles, x.seen))
  }

  ghost predicate TrueReports(log: seq<Effect>) {
    forall i :: 0 <= i < |log| ==> TrueReport(log, i)
  }

  ghost function CallsOf(log: seq<Effect>, t: Thread): seq<Call> {
    if log == [] then []
    else CallsOf(log[..|log| - 1], t) + if log[|log| - 1].t == t then [log[|log| - 1].call] else []
  }

  /** The calls a thread makes in these steps, in order. */
  function CallsMade(steps: seq<Step>, t: Thread): seq<Call> {
    if steps == [] then []
    else CallsMade(steps[..|steps| - 1], t) + MadeBy(steps[|steps| - 1], t)
  }

  function MadeBy(step: Step, t: Thread): seq<Call> {
    if step.t == t && step.action.Begin? then [step.action.call] else []
  }

  /** The call a thread has made that has yet to take effect. */
  ghost function Pending(pc: Pc): seq<Call> {
    match pc
    case Called(call) => [call]
    case Scanning(handles, mSecs, _, _) => [Wait(handles, mSecs)]
    case SetLocked(e) => [Set(e)]
    case ResetLocked(e) => [Reset(e)]
    case _ => []
  }

  // ---------------------------------------------------------------- the invariant

  /** The bytes in the pipe of an event while a thread is inside its critical section. */
  function PipeInside(pc: Pc, bSignaled: bool): nat {
    if pc.SetWritten? then 1 else if pc.ResetRead? then 0 else if bSignaled then 1 else 0
  }

  ghost predicate EventOk(s: State, e: Fd)
    requires e in s.events
  {
    var ev := s.events[e];
    && (ev.pipe == 1 || ev.pipe == 0)
    && (ev.pipe == 1 <==> SignaledBy(s.log, e))
    && match ev.owner
       case Free => ev.bSignaled == (ev.pipe == 1)
       case OwnedBy(t) =>
         && t < |s.pcs| && Inside(s.pcs[t]) && s.pcs[t].e == e
         && ev.pipe == PipeInside(s.pcs[t], ev.bSignaled)
  }

  ghost predicate ThreadOk(s: State, t: Thread) {
    && InRange(s, t)
    && (Inside(s.pcs[t]) ==> s.events[s.pcs[t].e].owner == OwnedBy(t))
    && (s.pcs[t].Scanning? ==> WaitOk(s.log, t, s.pcs[t]))
  }

  ghost predicate WaitOk(log: seq<Effect>, t: Thread, pc: Pc)
    requires pc.Scanning?
  {
    TrueSights(log, pc.began, pc.seen) && QuietSince(log, pc.began, t)
  }

  ghost predicate EventsOk(s: State) {
    forall e :: e in s.events ==> EventOk(s, e)
  }

  ghost predicate ThreadsOk(s: State) {
    forall t :: 0 <= t < |s.pcs| ==> ThreadOk(s, t)
  }

  ghost predicate KnownThreads(s: State) {
    forall j :: 0 <= j < |s.log| ==> s.log[j].t < |s.pcs|
  }

  ghost predicate Inv(s: State) {
    EventsOk(s) && ThreadsOk(s) && TrueReports(s.log) && KnownThreads(s)
  }

  lemma {:induction false} Appended(log: seq<Effect>, x: Effect, e: Fd, t: Thread)
    ensures SignaledBy(log + [x], e) == if x.call == Set(e) then true
                                        else if x.call == Reset(e) then false
                                        else SignaledBy(log, e)
    ensures CallsOf(log + [x], t) == CallsOf(log, t) + if x.t == t then [x.call] else []
  {
  }

  lemma {:induction false} EventsStayOk(s: State, step: Step)
    requires Inv(s) && Enabled(s, step)
    ensures EventsOk(Do(s, step))
  {
    var s' := Do(s, step);
    forall e | e in s'.events ensures EventOk(s', e) {
      EventStaysOk(s, step, e);
    }
  }

  lemma {:induction false} EventStaysOk(s: State, step: Step, e: Fd)
    requires Inv(s) && Enabled(s, step) && e in s.events
    ensures e in Do(s, step).events && EventOk(Do(s, step), e)
  {
    assert EventOk(s, e) && ThreadOk(s, step.t);
    var owner := s.events[e].owner;
    assert owner.OwnedBy? ==> ThreadOk(s, owner.t);
    match step.action {
      case Test => EventAfterTest(s, step.t, e);
      case Finish => Appended(s.log, Do(s, step).log[|s.log|], e, step.t);
      case Begin(_) =>
      case Look(_) =>
      case Again =>
      case _ => EventAfterSection(s, step, e);
    }
  }

  lemma {:induction false} EventAfterSection(s: State, step: Step, e: Fd)
    requires Enabled(s, step) && ThreadOk(s, step.t) && e in s.events && EventOk(s, e)
    requires s.events[e].owner.OwnedBy? ==> ThreadOk(s, s.events[e].owner.t)
    requires step.action in {Lock, Mark, Unlock}
    ensures e in Do(s, step).events && EventOk(Do(s, step), e)
  {
  }

  lemma {:induction false} EventAfterTest(s: State, t: Thread, e: Fd)
    requires Enabled(s, Step(t, Test)) && ThreadOk(s, t) && e in s.events && EventOk(s, e)
    ensures e in DoTest(s, t).events && EventOk(DoTest(s, t), e)
  {
    var next := DoTest(s, t);
    Appended(s.log, next.log[|s.log|], e, t);
    if e != s.pcs[t].e {
      assert next.events[e] == s.events[e] && SignaledBy(next.log, e) == SignaledBy(s.log, e);
    } else {
      assert s.events[e].owner == OwnedBy(t);
      assert SignaledBy(next.log, e) == s.pcs[t].SetLocked?;
    }
  }

  lemma {:induction false} ThreadsStayOk(s: State, step: Step)
    requires Inv(s) && Enabled(s, step)
    ensures ThreadsOk(Do(s, step))
  {
    var s' := Do(s, step);
    forall t | 0 <= t < |s'.pcs| ensures ThreadOk(s', t) {
      ThreadStaysOk(s, step, t);
    }
  }

  lemma {:induction false} ThreadStaysOk(s: State, step: Step, t: Thread)
    requires Inv(s) && Enabled(s, step) && t < |s.pcs|
    ensures ThreadOk(Do(s, step), t)
  {
    assert ThreadOk(s, t) && ThreadOk(s, step.t);
    if step.action == Test {
      ThreadAfterTest(s, step.t, t);
    } else if step.action == Finish {
      ThreadAfterFinish(s, step.t, t);
    } else if t == step.t {
      assert step.action.Look? ==> EventOk(s, step.action.e);
      OwnThreadOk(s, step);
    } else {
      OtherThreadOk(s, step, t);
    }
  }

  lemma {:induction false} OwnThreadOk(s: State, step: Step)
    requires Enabled(s, step) && ThreadOk(s, step.t) && step.action != Test && step.action != Finish
    requires step.action.Look? ==> EventOk(s, step.action.e)
    ensures ThreadOk(Do(s, step), step.t)
  {
    if step.action.Look? {
      assert s.log[..|s.log|] == s.log;
    }
  }

  lemma {:induction false} OtherThreadOk(s: State, step: Step, t: Thread)
    requires Enabled(s, step) && ThreadOk(s, step.t) && step.action != Test && step.action != Finish
    requires ThreadOk(s, t) && t != step.t
    ensures ThreadOk(Do(s, step), t)
  {
  }

  lemma {:induction false} ThreadAfterTest(s: State, u: Thread, t: Thread)
    requires Enabled(s, Step(u, Test)) && ThreadOk(s, u) && ThreadOk(s, t)
    ensures ThreadOk(DoTest(s, u), t)
  {
    var x := DoTest(s, u).log[|s.log|];
    Appended(s.log, x, 0, t);
    if s.pcs[t].Scanning? {
      WaitStaysOk(s.log, x, t, s.pcs[t]);
    }
  }

  lemma {:induction false} ThreadAfterFinish(s: State, u: Thread, t: Thread)
    requires Enabled(s, Step(u, Finish)) && ThreadOk(s, u) && ThreadOk(s, t)
    ensures ThreadOk(Do(s, Step(u, Finish)), t)
  {
    var x := Do(s, Step(u, Finish)).log[|s.log|];
    Appended(s.log, x, 0, t);
    if t != u && s.pcs[t].Scanning? {
      WaitStaysOk(s.log, x, t, s.pcs[t]);
    }
  }

  lemma {:induction false} WaitStaysOk(log: seq<Effect>, x: Effect, t: Thread, pc: Pc)
    requires pc.Scanning? && WaitOk(log, t, pc) && x.t != t
    ensures WaitOk(log + [x], t, pc)
  {
    forall e | e in pc.seen ensures TrueSight(log + [x], pc.began, e, pc.seen[e]) {
      assert TrueSight(log, pc.began, e, pc.seen[e]);
      assert (log + [x])[..pc.seen[e].at] == log[..pc.seen[e].at];
    }
  }

  lemma {:induction false} ReportsStayTrue(s: State, step: Step)
    requires Inv(s) && Enabled(s, step)
    ensures TrueReports(Do(s, step).log)
  {
    var log := Do(s, step).log;
    forall i | 0 <= i < |log| ensures TrueReport(log, i) {
      if i < |s.log| {
        assert log[..i] == s.log[..i];
        assert TrueReport(s.log, i);
      } else {
        assert log[..i] == s.log;
        if step.action == Finish {
          assert ThreadOk(s, step.t);
        }
      }
    }
  }

  lemma {:induction false} StepKeepsInv(s: State, step: Step)
    requires Inv(s) && Enabled(s, step)
    ensures Inv(Do(s, step))
  {
    EventsStayOk(s, step);
    ThreadsStayOk(s, step);
    ReportsStayTrue(s, step);
  }

  ghost predicate EnabledRun(s: State, steps: seq<Step>)
    decreases |steps|
  {
    steps == [] || (Enabled(s, steps[0]) && EnabledRun(Do(s, steps[0]), steps[1..]))
  }

  ghost function Run(s: State, steps: seq<Step>): State
    requires EnabledRun(s, steps)
    decreases |steps|
  {
    if steps == [] then s else Run(Do(s, steps[0]), steps[1..])
  }

  lemma {:induction false} RunKeepsInv(s: State, steps: seq<Step>)
    requires Inv(s) && EnabledRun(s, steps)
    ensures Inv(Run(s, steps))
    decreases |steps|
  {
    if steps != [] {
      StepKeepsInv(s, steps[0]);
      RunKeepsInv(Do(s, steps[0]), steps[1..]);
    }
  }

  // ---------------------------------------------------------------- all runs

  ghost predicate Reachable(s: State, fds: set<Fd>, threads: nat, steps: seq<Step>) {
    EnabledRun(Initial(fds, threads), steps) && s == Run(Initial(fds, threads), steps)
  }

  lemma {:induction false} ReachableInv(s: State, fds: set<Fd>, threads: nat, steps: seq<Step>)
    requires Reachable(s, fds, threads, steps)
    ensures Inv(s)
  {
    assert Inv(Initial(fds, threads));
    RunKeepsInv(Initial(fds, threads), steps);
  }

  /** Whenever the mutex of an event is free, its pipe holds one byte if the flag is set and
      none otherwise. */
  lemma {:induction false} PipeMatchesFlag(s: State, fds: set<Fd>, threads: nat, steps: seq<Step>, e: Fd)
    requires Reachable(s, fds, threads, steps)
    requires e in s.events && s.events[e].owner == Free
    ensures s.events[e].pipe == if s.events[e].bSignaled then 1 else 0
  {
    ReachableInv(s, fds, threads, steps);
    assert EventOk(s, e);
  }

  /** How many steps a thread has to take until it gives the mutex back. */
  function StepsToLeave(pc: Pc): nat {
    match pc
    case SetLocked(_) => 3
    case ResetLocked(_) => 3
    case SetWritten(_) => 2
    case ResetRead(_) => 2
    case Leaving(_) => 1
    case _ => 0
  }

  ghost function NextInside(pc: Pc): Action {
    if pc.SetLocked? || pc.ResetLocked? then Test else if pc.Leaving? then Unlock else Mark
  }

  /** A thread that holds a mutex can always go on, so a reset never blocks on an empty pipe; its
      own steps take it out of the critical section within three, and no other thread's step
      sets it back. */
  lemma {:induction false} MutexIsGivenBack(s: State, fds: set<Fd>, threads: nat, steps: seq<Step>, t: Thread)
    requires Reachable(s, fds, threads, steps)
    requires t < |s.pcs| && Inside(s.pcs[t])
    ensures var next := Step(t, NextInside(s.pcs[t]));
            && Enabled(s, next)
            && StepsToLeave(Do(s, next).pcs[t]) < StepsToLeave(s.pcs[t]) <= 3
    ensures forall step :: Enabled(s, step) && step.t != t ==> Do(s, step).pcs[t] == s.pcs[t]
  {
    ReachableInv(s, fds, threads, steps);
    assert ThreadOk(s, t);
    assert EventOk(s, s.pcs[t].e);
  }

  /** No two threads are inside the critical section of one event. */
  lemma {:induction false} OneInside(s: State, fds: set<Fd>, threads: nat, steps: seq<Step>, t: Thread, u: Thread)
    requires Reachable(s, fds, threads, steps)
    requires t < |s.pcs| && u < |s.pcs| && Inside(s.pcs[t]) && Inside(s.pcs[u]) && s.pcs[t].e == s.pcs[u].e
    ensures t == u
  {
    ReachableInv(s, fds, threads, steps);
    assert ThreadOk(s, t) && ThreadOk(s, u);
  }

  /** A step of a thread makes a call, lets it take effect, or neither. */
  lemma {:induction false} CallsMove(s: State, step: Step, t: Thread)
    requires Enabled(s, step) && t < |s.pcs|
    ensures |Do(s, step).pcs| == |s.pcs|
    ensures CallsOf(Do(s, step).log, t) + Pending(Do(s, step).pcs[t])
         == CallsOf(s.log, t) + Pending(s.pcs[t]) + MadeBy(step, t)
  {
    if step.action == Test || step.action == Finish {
      Appended(s.log, Do(s, step).log[|s.log|], 0, t);
    }
    if step.t == t {
      OwnCallMoves(s, step);
    } else {
      OtherCallStays(s, step, t);
    }
  }

  lemma {:induction false} OwnCallMoves(s: State, step: Step)
    requires Enabled(s, step)
    requires step.action == Test || step.action == Finish ==>
               |Do(s, step).log| == |s.log| + 1
               && CallsOf(Do(s, step).log, step.t)
               == CallsOf(s.log, step.t)
                  + if Do(s, step).log[|s.log|].t == step.t then [Do(s, step).log[|s.log|].call] else []
    ensures CallsOf(Do(s, step).log, step.t) + Pending(Do(s, step).pcs[step.t])
         == CallsOf(s.log, step.t) + Pending(s.pcs[step.t]) + MadeBy(step, step.t)
  {
    match step.action
    case Test => OwnTestMoves(s, step.t);
    case _ =>
  }

  lemma {:induction false} OwnTestMoves(s: State, t: Thread)
    requires Enabled(s, Step(t, Test))
    ensures var x := DoTest(s, t).log[|s.log|];
            && |DoTest(s, t).log| == |s.log| + 1 && x.t == t && Pending(s.pcs[t]) == [x.call]
            && Pending(DoTest(s, t).pcs[t]) == []
  {
  }

  lemma {:induction false} OtherCallStays(s: State, step: Step, t: Thread)
    requires Enabled(s, step) && t < |s.pcs| && t != step.t
    requires step.action == Test || step.action == Finish ==>
               |Do(s, step).log| == |s.log| + 1
               && CallsOf(Do(s, step).log, t)
               == CallsOf(s.log, t) + if Do(s, step).log[|s.log|].t == t then [Do(s, step).log[|s.log|].call] else []
    ensures CallsOf(Do(s, step).log, t) + Pending(Do(s, step).pcs[t])
         == CallsOf(s.log, t) + Pending(s.pcs[t]) + MadeBy(step, t)
  {
  }

  lemma {:induction false} RunLast(s: State, steps: seq<Step>)
    requires EnabledRun(s, steps) && steps != []
    ensures var before := steps[..|steps| - 1];
            && EnabledRun(s, before) && Enabled(Run(s, before), steps[|steps| - 1])
            && Run(s, steps) == Do(Run(s, before), steps[|steps| - 1])
    decreases |steps|
  {
    if |steps| > 1 {
      var rest := steps[1..];
      RunLast(Do(s, steps[0]), rest);
      assert steps[..|steps| - 1][1..] == rest[..|rest| - 1];
    }
  }

  lemma {:induction false} CallsMadeTakeEffect(s: State, steps: seq<Step>, t: Thread)
    requires EnabledRun(s, steps) && t < |s.pcs|
    ensures |Run(s, steps).pcs| == |s.pcs|
    ensures CallsOf(Run(s, steps).log, t) + Pending(Run(s, steps).pcs[t])
         == CallsOf(s.log, t) + Pending(s.pcs[t]) + CallsMade(steps, t)
    decreases |steps|
  {
    var start := CallsOf(s.log, t) + Pending(s.pcs[t]);
    if steps == [] {
      assert start + [] == start;
    } else {
      var before, last := steps[..|steps| - 1], steps[|steps| - 1];
      RunLast(s, steps);
      CallsMadeTakeEffect(s, before, t);
      CallsMove(Run(s, before), last, t);
      Assoc(start, CallsMade(before, t), MadeBy(last, t));
    }
  }

  /** Every run is equivalent to its log, in which calls take effect one at a time: each thread's
      calls are there once and in its order, except for one it is still making; every wait
      reports each event as the log has it at a moment between the call and the return; and a pipe
      has data exactly when its event is set by the log. */
  lemma {:induction false} CallsTakeEffectAtomically(s: State, fds: set<Fd>, threads: nat, steps: seq<Step>)
    requires Reachable(s, fds, threads, steps)
    ensures TrueReports(s.log)
    ensures forall e :: e in s.events ==> (s.events[e].pipe > 0 <==> SignaledBy(s.log, e))
    ensures |s.pcs| == threads
    ensures forall t :: 0 <= t < threads ==> CallsOf(s.log, t) + Pending(s.pcs[t]) == CallsMade(steps, t)
  {
    ReachableInv(s, fds, threads, steps);
    forall e | e in s.events ensures s.events[e].pipe > 0 <==> SignaledBy(s.log, e) {
      assert EventOk(s, e);
    }
    ThreadsStay(Initial(fds, threads), steps);
    forall t | 0 <= t < threads ensures CallsOf(s.log, t) + Pending(s.pcs[t]) == CallsMade(steps, t) {
      CallsMadeTakeEffect(Initial(fds, threads), steps, t);
      assert [] + CallsMade(steps, t) == CallsMade(steps, t);
    }
  }

  // ---------------------------------------------------------------- the methods as runs

  ghost function Alone(t: Thread, call: Call, moves: bool): seq<Step> {
    [Step(t, Begin(call)), Step(t, Lock), Step(t, Test)] + (if moves then [Step(t, Mark)] else []) + [Step(t, Unlock)]
  }

  lemma {:induction false} RunFirst(s: State, step: Step, steps: seq<Step>)
    requires Enabled(s, step) && EnabledRun(Do(s, step), steps)
    ensures EnabledRun(s, [step] + steps) && Run(s, [step] + steps) == Run(Do(s, step), steps)
  {
    assert ([step] + steps)[1..] == steps;
  }

  /** After the mutex is taken: the rest of a set or reset, undisturbed. */
  lemma {:induction false} LockedRun(s: State, t: Thread, e: Fd, toSet: bool, moves: bool)
    requires Inv(s) && t < |s.pcs| && s.pcs[t] == (if toSet then SetLocked(e) else ResetLocked(e)) && e in s.events
    requires moves == (s.events[e].bSignaled != toSet)
    ensures var steps := [Step(t, Test)] + (if moves then [Step(t, Mark)] else []) + [Step(t, Unlock)];
            && EnabledRun(s, steps)
            && Run(s, steps).events == s.events[e := Event(toSet, if toSet then 1 else 0, Free)]
            && Run(s, steps).pcs == s.pcs[t := Idle]
            && Run(s, steps).log == s.log + [Effect(t, if toSet then Set(e) else Reset(e), 0, map[])]
  {
    assert ThreadOk(s, t) && EventOk(s, e);
    var test, mark, unlock := Step(t, Test), Step(t, Mark), Step(t, Unlock);
    var s1 := Do(s, test);
    var s2 := if moves then Do(s1, mark) else s1;
    assert s2.pcs == s.pcs[t := Leaving(e)];
    assert s2.events[e] == Event(toSet, if toSet then 1 else 0, OwnedBy(t));
    assert EnabledRun(Do(s2, unlock), []);
    RunFirst(s2, unlock, []);
    assert [unlock] + [] == [unlock];
    if moves {
      RunFirst(s1, mark, [unlock]);
      RunFirst(s, test, [mark] + [unlock]);
      assert [test] + ([mark] + [unlock]) == [test] + [mark] + [unlock];
    } else {
      RunFirst(s, test, [unlock]);
      assert [test] + [] + [unlock] == [test] + [unlock];
    }
  }

  /** A set or reset that no other thread disturbs is always possible on an event whose mutex is
      free, and does to that event what EventSet and EventReset do, and nothing to the others. */
  lemma {:induction false} UndisturbedCall(s: State, t: Thread, call: Call)
    requires Inv(s) && t < |s.pcs| && s.pcs[t] == Idle
    requires !call.Wait? && call.e in s.events && s.events[call.e].owner == Free
    ensures var steps := Alone(t, call, s.events[call.e].bSignaled != call.Set?);
            && EnabledRun(s, steps)
            && Run(s, steps).events == s.events[call.e := Event(call.Set?, if call.Set? then 1 else 0, Free)]
            && Run(s, steps).pcs == s.pcs
            && Run(s, steps).log == s.log + [Effect(t, call, 0, map[])]
  {
    var e, moves := call.e, s.events[call.e].bSignaled != call.Set?;
    var begin, lock := Step(t, Begin(call)), Step(t, Lock);
    var rest := [Step(t, Test)] + (if moves then [Step(t, Mark)] else []) + [Step(t, Unlock)];
    StepKeepsInv(s, begin);
    var s1 := Do(s, begin);
    StepKeepsInv(s1, lock);
    var s2 := Do(s1, lock);
    LockedRun(s2, t, e, call.Set?, moves);
    RunFirst(s1, lock, rest);
    RunFirst(s, begin, [lock] + rest);
    assert [begin] + ([lock] + rest) == Alone(t, call, moves);
  }

  // ---------------------------------------------------------------- waits on several events

  /** The report shows all events as the log has them at one moment during the wait. */
  ghost predicate OneMoment(log: seq<Effect>, i: nat)
    requires i < |log| && log[i].call.Wait?
  {
    exists m :: log[i].began <= m <= i && Shows(log[i], log[..m])
  }

  ghost predicate Shows(x: Effect, log: seq<Effect>)
    requires x.call.Wait?
  {
    forall e :: e in x.call.handles ==> e in x.seen && x.seen[e].ready == SignaledBy(log, e)
  }

  ghost predicate WaitsAreAtomic(log: seq<Effect>, handles: seq<Fd>)
  {
    forall i :: 0 <= i < |log| && log[i].call.Wait? && log[i].call.handles == handles ==> OneMoment(log, i)
  }

  predicate AllTheSame(handles: seq<Fd>) {
    forall j, k :: 0 <= j < |handles| && 0 <= k < |handles| ==> handles[j] == handles[k]
  }

  lemma {:induction false} OneEventOneMoment(log: seq<Effect>, i: nat)
    requires i < |log| && TrueReport(log, i) && log[i].call.Wait? && AllTheSame(log[i].call.handles)
    ensures OneMoment(log, i)
  {
    var x := log[i];
    var m := if x.call.handles == [] then x.began else x.seen[x.call.handles[0]].at;
    if x.call.handles != [] {
      assert TrueSight(log[..i], x.began, x.call.handles[0], x.seen[x.call.handles[0]]);
      assert log[..i][..m] == log[..m];
    }
    assert x.began <= m <= i && Shows(x, log[..m]);
  }

  lemma {:induction false} LastIsOther(log: seq<Effect>, began: nat, t: Thread)
    requires QuietSince(log, began, t)
    ensures began == |log| || log[|log| - 1].t != t
  {
  }

  lemma {:induction false} OneThreadOneMoment(log: seq<Effect>, i: nat)
    requires i < |log| && TrueReport(log, i) && log[i].call.Wait?
    requires forall j :: 0 <= j < |log| ==> log[j].t == 0
    ensures OneMoment(log, i)
  {
    var x := log[i];
    LastIsOther(log[..i], x.began, x.t);
    forall e | e in x.call.handles ensures e in x.seen && x.seen[e].ready == SignaledBy(log[..i], e) {
      assert e in x.seen && TrueSight(log[..i], x.began, e, x.seen[e]);
      assert log[..i][..i] == log[..i];
    }
    assert Shows(x, log[..i]);
  }

  lemma {:induction false} RunAppend(s: State, first: seq<Step>, second: seq<Step>)
    requires EnabledRun(s, first) && EnabledRun(Run(s, first), second)
    ensures EnabledRun(s, first + second) && Run(s, first + second) == Run(Run(s, first), second)
    decreases |first|
  {
    if first == [] {
      assert first + second == second;
    } else {
      RunAppend(Do(s, first[0]), first[1..], second);
      assert (first + second)[1..] == first[1..] + second;
    }
  }

  lemma {:induction false} ThreadsStay(s: State, steps: seq<Step>)
    requires EnabledRun(s, steps)
    ensures |Run(s, steps).pcs| == |s.pcs|
    decreases |steps|
  {
    if steps != [] {
      ThreadsStay(Do(s, steps[0]), steps[1..]);
    }
  }

  /** The second state is the first, but that thread t has looked at the first n handles. */
  ghost predicate LookedOn(s: State, next: State, t: Thread, n: nat)
    requires t < |s.pcs| && s.pcs[t].Scanning? && n <= |s.pcs[t].handles|
  {
    var pc := s.pcs[t];
    exists seen: map<Fd, Sight> ::
      && next == s.(pcs := s.pcs[t := pc.(seen := seen)])
      && (forall e :: e in pc.seen ==> e in seen && seen[e] == pc.seen[e])
      && (forall k :: 0 <= k < n ==> pc.handles[k] in seen)
      && (forall e :: e in seen && e !in pc.seen ==>
                        e in s.events && seen[e] == Sight(s.events[e].pipe > 0, |s.log|))
  }

  /** The rest of a pass that no other thread disturbs. */
  lemma {:induction false} LooksOn(s: State, t: Thread, n: nat) returns (steps: seq<Step>)
    requires InRange(s, t) && s.pcs[t].Scanning? && n <= |s.pcs[t].handles|
    ensures EnabledRun(s, steps) && LookedOn(s, Run(s, steps), t, n) && OnlyBy(steps, t)
  {
    if n == 0 {
      steps := [];
      assert s == s.(pcs := s.pcs[t := s.pcs[t].(seen := s.pcs[t].seen)]);
    } else {
      steps := LooksOn(s, t, n - 1);
      var e, next := s.pcs[t].handles[n - 1], Run(s, steps);
      if e !in next.pcs[t].seen {
        var look := Step(t, Look(e));
        assert Enabled(next, look);
        RunFirst(next, look, []);
        assert [look] + [] == [look];
        RunAppend(s, steps, [look]);
        LookedAgain(s, next, t, n);
        steps := steps + [look];
      }
    }
  }

  lemma {:induction false} LookedAgain(s: State, next: State, t: Thread, n: nat)
    requires InRange(s, t) && s.pcs[t].Scanning? && 0 < n <= |s.pcs[t].handles| && LookedOn(s, next, t, n - 1)
    requires Enabled(next, Step(t, Look(s.pcs[t].handles[n - 1])))
    ensures LookedOn(s, Do(next, Step(t, Look(s.pcs[t].handles[n - 1]))), t, n)
  {
    var e := s.pcs[t].handles[n - 1];
    var seen := next.pcs[t].seen[e := Sight(s.events[e].pipe > 0, |s.log|)];
    assert Do(next, Step(t, Look(e))) == s.(pcs := s.pcs[t := s.pcs[t].(seen := seen)]);
  }

  ghost predicate OnlyBy(steps: seq<Step>, t: Thread) {
    forall k :: 0 <= k < |steps| ==> steps[k].t == t
  }

  /** These steps of thread t end its wait with a report in which some event is set, and change
      nothing else. */
  ghost predicate EndsReady(s: State, t: Thread, steps: seq<Step>)
    requires t < |s.pcs| && s.pcs[t].Scanning?
  {
    && EnabledRun(s, steps) && OnlyBy(steps, t)
    && var next := Run(s, steps);
       && next.events == s.events && next.pcs == s.pcs[t := Idle]
       && |next.log| == |s.log| + 1 && next.log[..|s.log|] == s.log
       && ReadyEffect(next.log[|s.log|], t, s.pcs[t])
  }

  ghost predicate ReadyEffect(x: Effect, t: Thread, pc: Pc)
    requires pc.Scanning?
  {
    && x.t == t && x.call == Wait(pc.handles, pc.mSecs)
    && AllSeen(pc.handles, x.seen) && true in Reported(pc.handles, x.seen)
  }

  lemma {:induction false} FinishEnds(s: State, t: Thread)
    requires InRange(s, t) && s.pcs[t].Scanning? && AllSeen(s.pcs[t].handles, s.pcs[t].seen)
    requires true in Reported(s.pcs[t].handles, s.pcs[t].seen)
    ensures EndsReady(s, t, [Step(t, Finish)])
  {
    var finish := Step(t, Finish);
    RunFirst(s, finish, []);
    assert [finish] + [] == [finish];
  }

  /** A pass over all pipes, from its beginning, while one of them has data. */
  lemma {:induction false} PassEnds(s: State, t: Thread, e: Fd) returns (steps: seq<Step>)
    requires InRange(s, t) && s.pcs[t].Scanning? && s.pcs[t].seen == map[]
    requires e in s.pcs[t].handles && s.events[e].pipe > 0
    ensures EndsReady(s, t, steps)
  {
    var handles := s.pcs[t].handles;
    var looks := LooksOn(s, t, |handles|);
    var next := Run(s, looks);
    var k :| 0 <= k < |handles| && handles[k] == e;
    assert Reported(handles, next.pcs[t].seen)[k];
    FinishEnds(next, t);
    RunAppend(s, looks, [Step(t, Finish)]);
    steps := looks + [Step(t, Finish)];
  }

  /** No set event is missed: while the pipe of one of its handles has data, a wait can always go on
      by itself and return with a report that has an event set, whatever it has seen so far. */
  lemma {:induction false} WaitCanReturn(s: State, t: Thread, e: Fd) returns (steps: seq<Step>)
    requires InRange(s, t) && s.pcs[t].Scanning? && e in s.pcs[t].handles && s.events[e].pipe > 0
    ensures EndsReady(s, t, steps)
  {
    var handles := s.pcs[t].handles;
    var looks := LooksOn(s, t, |handles|);
    var next := Run(s, looks);
    if true in Reported(handles, next.pcs[t].seen) {
      FinishEnds(next, t);
      RunAppend(s, looks, [Step(t, Finish)]);
      steps := looks + [Step(t, Finish)];
    } else {
      var pass := AgainEnds(next, t, e);
      RunAppend(s, looks, pass);
      steps := looks + pass;
      EndsLater(s, next, t, pass, steps);
    }
  }

  lemma {:induction false} AgainEnds(s: State, t: Thread, e: Fd) returns (steps: seq<Step>)
    requires InRange(s, t) && s.pcs[t].Scanning? && e in s.pcs[t].handles && s.events[e].pipe > 0
    requires Enabled(s, Step(t, Again))
    ensures EndsReady(s, t, steps)
  {
    var again := Step(t, Again);
    var anew := Do(s, again);
    var pass := PassEnds(anew, t, e);
    RunFirst(s, again, pass);
    steps := [again] + pass;
  }

  lemma {:induction false} EndsLater(s: State, next: State, t: Thread, pass: seq<Step>, steps: seq<Step>)
    requires InRange(s, t) && s.pcs[t].Scanning? && LookedOn(s, next, t, |s.pcs[t].handles|)
    requires EndsReady(next, t, pass) && OnlyBy(steps, t)
    requires EnabledRun(s, steps) && Run(s, steps) == Run(next, pass)
    ensures EndsReady(s, t, steps)
  {
  }

  ghost function MidWait(handles: seq<Fd>, a: Fd): Pc {
    Scanning(handles, INFINITE_WAIT, 0, map[a := Sight(false, 0)])
  }

  /** Thread 0 begins to wait and looks at a, which is not set. */
  lemma {:induction false} LookedFirst(fds: set<Fd>, threads: nat, handles: seq<Fd>, a: Fd)
    requires threads > 0 && a in handles && forall e :: e in handles ==> e in fds
    ensures var s := Initial(fds, threads);
            var steps := [Step(0, Begin(Wait(handles, INFINITE_WAIT))), Step(0, Look(a))];
            && EnabledRun(s, steps)
            && Run(s, steps) == s.(pcs := s.pcs[0 := MidWait(handles, a)])
  {
    var s, begin, look := Initial(fds, threads), Step(0, Begin(Wait(handles, INFINITE_WAIT))), Step(0, Look(a));
    var s1 := Do(s, begin);
    assert s1.pcs[0] == Scanning(handles, INFINITE_WAIT, 0, map[]);
    var s2 := Do(s1, look);
    assert s2.pcs == s.pcs[0 := MidWait(handles, a)];
    RunFirst(s1, look, []);
    assert [look] + [] == [look];
    RunFirst(s, begin, [look]);
    assert [begin] + [look] == [begin, look];
  }

  /** Thread 1 sets a and then b. */
  lemma {:induction false} BothSet(s: State, a: Fd, b: Fd) returns (steps: seq<Step>)
    requires Inv(s) && 1 < |s.pcs| && s.pcs[1] == Idle && a != b && a in s.events && b in s.events
    requires s.events[a] == Event(false, 0, Free) == s.events[b]
    ensures EnabledRun(s, steps)
    ensures Run(s, steps).log == s.log + [Effect(1, Set(a), 0, map[]), Effect(1, Set(b), 0, map[])]
    ensures Run(s, steps).events == s.events[a := Event(true, 1, Free)][b := Event(true, 1, Free)]
    ensures Run(s, steps).pcs == s.pcs && Inv(Run(s, steps))
  {
    var first, second := Alone(1, Set(a), true), Alone(1, Set(b), true);
    UndisturbedCall(s, 1, Set(a));
    RunKeepsInv(s, first);
    UndisturbedCall(Run(s, first), 1, Set(b));
    RunAppend(s, first, second);
    steps := first + second;
    RunKeepsInv(s, steps);
  }

  ghost predicate SplitLog(log: seq<Effect>, handles: seq<Fd>, a: Fd, b: Fd) {
    && |log| == 3 && log[0].call == Set(a) && log[1].call == Set(b)
    && log[2].call == Wait(handles, INFINITE_WAIT) && log[2].began == 0
    && a in log[2].seen && !log[2].seen[a].ready
    && b in log[2].seen && log[2].seen[b].ready
  }

  /** Thread 0 looks at the other handles and returns. */
  lemma {:induction false} WaitEnds(s: State, handles: seq<Fd>, a: Fd, b: Fd) returns (steps: seq<Step>)
    requires InRange(s, 0) && s.pcs[0] == MidWait(handles, a) && a != b && b in handles
    requires |s.log| == 2 && s.log[0].call == Set(a) && s.log[1].call == Set(b)
    requires s.events[b].pipe == 1
    ensures EnabledRun(s, steps) && SplitLog(Run(s, steps).log, handles, a, b)
  {
    var looks := LooksOn(s, 0, |handles|);
    var next, finish := Run(s, looks), Step(0, Finish);
    var seen := next.pcs[0].seen;
    assert AllSeen(handles, seen);
    var k :| 0 <= k < |handles| && handles[k] == b;
    assert Reported(handles, seen)[k];
    RunFirst(next, finish, []);
    assert [finish] + [] == [finish];
    RunAppend(s, looks, [finish]);
    steps := looks + [finish];
  }

  lemma {:induction false} SplitWait(fds: set<Fd>, threads: nat, handles: seq<Fd>, a: Fd, b: Fd)
    returns (steps: seq<Step>)
    requires threads >= 2 && a in handles && b in handles && a != b && forall e :: e in handles ==> e in fds
    ensures EnabledRun(Initial(fds, threads), steps)
    ensures SplitLog(Run(Initial(fds, threads), steps).log, handles, a, b)
  {
    var s := Initial(fds, threads);
    var first := [Step(0, Begin(Wait(handles, INFINITE_WAIT))), Step(0, Look(a))];
    LookedFirst(fds, threads, handles, a);
    RunKeepsInv(s, first);
    var sets := BothSet(Run(s, first), a, b);
    RunAppend(s, first, sets);
    assert ThreadOk(Run(s, first + sets), 0);
    var rest := WaitEnds(Run(s, first + sets), handles, a, b);
    RunAppend(s, first + sets, rest);
    steps := first + sets + rest;
  }

  /** b is set only after a is, but the wait reports b and not a. */
  lemma {:induction false} SplitIsNoMoment(log: seq<Effect>, handles: seq<Fd>, a: Fd, b: Fd)
    requires SplitLog(log, handles, a, b) && a != b && a in handles && b in handles
    ensures !WaitsAreAtomic(log, handles)
  {
    assert log[..0] == [];
    assert log[..1][..0] == [] && log[..2][..1] == log[..1];
    assert SignaledBy(log[..1], a) && SignaledBy(log[..2], a) && !SignaledBy(log[..0], b);
    forall m | 0 <= m <= 2 ensures !Shows(log[2], log[..m]) {
      assert m > 0 ==> SignaledBy(log[..m], a);
    }
    assert !OneMoment(log, 2);
  }

  /** In every run every wait on these handles reports all of them as they were at one moment, if
      and only if there is only one thread or the handles are all the same event, as in
      OSAL_EventWait. */
  lemma {:induction false} WaitsAtomicIff(fds: set<Fd>, threads: nat, handles: seq<Fd>)
    requires forall e :: e in handles ==> e in fds
    ensures (forall steps :: EnabledRun(Initial(fds, threads), steps) ==>
               WaitsAreAtomic(Run(Initial(fds, threads), steps).log, handles))
        <==> threads <= 1 || AllTheSame(handles)
  {
    var s := Initial(fds, threads);
    if threads <= 1 || AllTheSame(handles) {
      forall steps | EnabledRun(s, steps) ensures WaitsAreAtomic(Run(s, steps).log, handles) {
        ReachableInv(Run(s, steps), fds, threads, steps);
        ThreadsStay(s, steps);
        AtomicIn(Run(s, steps), handles);
      }
    } else {
      var j, k :| 0 <= j < |handles| && 0 <= k < |handles| && handles[j] != handles[k];
      var steps := SplitWait(fds, threads, handles, handles[j], handles[k]);
      SplitIsNoMoment(Run(s, steps).log, handles, handles[j], handles[k]);
      assert !WaitsAreAtomic(Run(Initial(fds, threads), steps).log, handles);
    }
  }

  lemma {:induction false} AtomicIn(s: State, handles: seq<Fd>)
    requires Inv(s) && (|s.pcs| <= 1 || AllTheSame(handles))
    ensures WaitsAreAtomic(s.log, handles)
  {
    forall i | 0 <= i < |s.log| && s.log[i].call.Wait? && s.log[i].call.handles == handles
      ensures OneMoment(s.log, i)
    {
      assert TrueReport(s.log, i);
      if AllTheSame(handles) {
        OneEventOneMoment(s.log, i);
      } else {
        OneThreadOneMoment(s.log, i);
      }
    }
  }
}
