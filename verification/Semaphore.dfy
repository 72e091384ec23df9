/** The FIFO semaphore: the class, and every interleaving of its callers. */
module Semaphores {
  import opened Prelude

  /** Identifies one call of `acquire`. */
  type Ticket = nat

  /** The fields of the semaphore. */
  datatype State = State(maxPermits: nat, active: nat, waiters: seq<Ticket>)

  /** A free permit is taken; otherwise the caller queues. The flag says whether it was granted at once. */
  function AcquireStep(s: State, t: Ticket): (State, bool) {
    if s.active < s.maxPermits then (s.(active := s.active + 1), true) else (s.(waiters := s.waiters + [t]), false)
  }

  /** The permit is handed to the longest waiter, or returned when nobody waits. */
  function ReleaseStep(s: State): (State, Option<Ticket>) {
    if s.waiters != [] then (s.(waiters := s.waiters[1..]), Some(s.waiters[0]))
    else (s.(active := if s.active > 0 then s.active - 1 else 0), None)
  }

  class Semaphore {
    const maxPermits: nat
    var active: nat
    var waiters: seq<Ticket>

    ghost function View(): State
      reads this
    {
      State(maxPermits, active, waiters)
    }

    constructor (permits: nat)
      requires permits >= 1
      ensures View() == State(permits, 0, [])
    {
      maxPermits := permits;
      active, waiters := 0, [];
    }

    method Acquire(t: Ticket) returns (granted: bool)
      modifies this
      ensures (View(), granted) == AcquireStep(old(View()), t)
    {
      if active < maxPermits {
        active := active + 1;
        return true;
      }
      waiters := waiters + [t];
      return false;
    }

    method Release() returns (next: Option<Ticket>)
      modifies this
      ensures (View(), next) == ReleaseStep(old(View()))
    {
      if |waiters| > 0 {
        next := Some(waiters[0]);
        waiters := waiters[1..];
        return;
      }
      active := Max(0, active - 1);
      return None;
    }
  }

  // ----- interleavings -----

  /** The semaphore together with the history of its callers. */
  datatype System = System(sem: State, requested: seq<Ticket>, granted: seq<Ticket>, released: set<Ticket>)

  /** One atomic step of some caller: a call of `acquire`, or of the release closure it was given. */
  datatype Event = Request(t: Ticket) | Fire(t: Ticket)

  function Initial(permits: nat): System {
    System(State(permits, 0, []), [], [], {})
  }

  /** Each call of `acquire` is a new ticket; a closure exists once granted, and fires at most once. */
  predicate Enabled(y: System, e: Event) {
    match e
    case Request(t) => t !in y.requested
    case Fire(t) => t in y.granted && t !in y.released
  }

  function Step(y: System, e: Event): System {
    match e
    case Request(t) =>
      var (sem, ok) := AcquireStep(y.sem, t);
      System(sem, y.requested + [t], if ok then y.granted + [t] else y.granted, y.released)
    case Fire(t) =>
      var (sem, next) := ReleaseStep(y.sem);
      System(sem, y.requested, if next.Some? then y.granted + [next.value] else y.granted, y.released + {t})
  }

  function Holders(y: System): set<Ticket> {
    (set t | t in y.granted) - y.released
  }

  /** Permits are conserved, the cap holds, nobody waits beside a free permit, and grants follow requests in order. */
  ghost predicate Inv(y: System) {
    && y.requested == y.granted + y.sem.waiters
    && Distinct(y.requested)
    && y.released <= (set t | t in y.granted)
    && |Holders(y)| == y.sem.active <= y.sem.maxPermits
    && (y.sem.waiters != [] ==> y.sem.active == y.sem.maxPermits)
  }

  predicate ValidRun(y: System, events: seq<Event>)
    decreases |events|
  {
    events == [] || (Enabled(y, events[0]) && ValidRun(Step(y, events[0]), events[1..]))
  }

  function Run(y: System, events: seq<Event>): System
    decreases |events|
  {
    if events == [] then y else Run(Step(y, events[0]), events[1..])
  }

  lemma {:induction false} DistinctAppend(s: seq<Ticket>, t: Ticket)
    requires Distinct(s) && t !in s
    ensures Distinct(s + [t])
  {
  }

  lemma {:induction false} RequestKeepsInv(y: System, t: Ticket)
    requires Inv(y) && Enabled(y, Request(t))
    ensures var y' := Step(y, Request(t));
            && Inv(y')
            && Holders(y') == if y.sem.active < y.sem.maxPermits then Holders(y) + {t} else Holders(y)
  {
    var y' := Step(y, Request(t));
    DistinctAppend(y.requested, t);
    assert y'.requested == y'.granted + y'.sem.waiters;
    assert t !in y.granted;
    if y.sem.active < y.sem.maxPermits {
      assert Holders(y') == Holders(y) + {t};
    }
  }

  /** The longest waiter has not been granted before. */
  lemma {:induction false} NextIsNew(y: System)
    requires Inv(y) && y.sem.waiters != []
    ensures y.sem.waiters[0] in y.requested && y.sem.waiters[0] !in y.granted
  {
    var n := y.sem.waiters[0];
    assert y.requested[|y.granted|] == n;
    assert forall i :: 0 <= i < |y.granted| ==> y.requested[i] == y.granted[i];
  }

  /** The holder that fires is replaced by the longest waiter. */
  lemma {:induction false} FireHandsOver(y: System, t: Ticket)
    requires Inv(y) && Enabled(y, Fire(t))
    ensures t in Holders(y) && (y.sem.waiters != [] ==> y.sem.waiters[0] !in Holders(y))
    ensures Holders(Step(y, Fire(t))) == Holders(y) - {t} + if y.sem.waiters != [] then {y.sem.waiters[0]} else {}
  {
    hide Distinct;
    if y.sem.waiters != [] {
      NextIsNew(y);
      assert Holders(Step(y, Fire(t))) == Holders(y) - {t} + {y.sem.waiters[0]};
    } else {
      assert Holders(Step(y, Fire(t))) == Holders(y) - {t};
    }
  }

  lemma {:induction false} FireKeepsInv(y: System, t: Ticket)
    requires Inv(y) && Enabled(y, Fire(t))
    ensures var y' := Step(y, Fire(t));
            && Inv(y')
            && Holders(y') == Holders(y) - {t} + if y.sem.waiters != [] then {y.sem.waiters[0]} else {}
  {
    hide Distinct, Holders;
    FireHandsOver(y, t);
    if y.sem.waiters != [] {
      assert y.requested == Step(y, Fire(t)).granted + Step(y, Fire(t)).sem.waiters;
    }
  }

  lemma {:induction false} StepKeepsInv(y: System, e: Event)
    requires Inv(y) && Enabled(y, e)
    ensures Inv(Step(y, e))
  {
    match e {
      case Request(t) => RequestKeepsInv(y, t);
      case Fire(t) => FireKeepsInv(y, t);
    }
  }

  /** Every interleaving keeps the invariant. */
  lemma {:induction false} EveryRunKeepsInv(y: System, events: seq<Event>)
    requires Inv(y) && ValidRun(y, events)
    ensures Inv(Run(y, events))
    decreases |events|
  {
    if events != [] {
      StepKeepsInv(y, events[0]);
      EveryRunKeepsInv(Step(y, events[0]), events[1..]);
    }
  }

  /** The semaphore's promises, over every interleaving from the start. */
  lemma {:induction false} SemaphoreSafety(permits: nat, events: seq<Event>)
    requires permits >= 1 && ValidRun(Initial(permits), events)
    ensures var y := Run(Initial(permits), events);
            && |Holders(y)| == y.sem.active <= permits
            && (y.sem.waiters != [] ==> y.sem.active == permits)
            && y.granted <= y.requested
            && (Holders(y) == {} ==> y.granted == y.requested && y.sem == State(permits, 0, []))
  {
    EveryRunKeepsInv(Initial(permits), events);
    MaxPermitsFixed(Initial(permits), events);
    var y := Run(Initial(permits), events);
    assert y.sem.waiters == [] ==> y.granted + y.sem.waiters == y.granted;
  }

  lemma {:induction false} MaxPermitsFixed(y: System, events: seq<Event>)
    ensures Run(y, events).sem.maxPermits == y.sem.maxPermits
    decreases |events|
  {
    if events != [] {
      MaxPermitsFixed(Step(y, events[0]), events[1..]);
    }
  }

  function Fires(events: seq<Event>): nat {
    if events == [] then 0 else (if events[0].Fire? then 1 else 0) + Fires(events[1..])
  }

  lemma {:induction false} GrantsAreKept(y: System, events: seq<Event>)
    ensures y.granted <= Run(y, events).granted
    decreases |events|
  {
    if events != [] {
      GrantsAreKept(Step(y, events[0]), events[1..]);
    }
  }

  /** No starvation: the waiter at position `i` holds a permit after at most `i + 1` further releases. */
  lemma {:induction false} WaitersProgress(y: System, events: seq<Event>, i: nat)
    requires ValidRun(y, events) && i < |y.sem.waiters| && Inv(y) && Fires(events) > i
    ensures y.sem.waiters[i] in Run(y, events).granted
    decreases |events|
  {
    hide Inv, Holders;
    var y' := Step(y, events[0]);
    StepKeepsInv(y, events[0]);
    match events[0] {
      case Request(t) =>
        assert y'.sem.waiters[i] == y.sem.waiters[i];
        WaitersProgress(y', events[1..], i);
      case Fire(t) =>
        if i == 0 {
          GrantsAreKept(y', events[1..]);
          assert y'.granted[|y.granted|] == y.sem.waiters[0];
        } else {
          assert y'.sem.waiters[i - 1] == y.sem.waiters[i];
          WaitersProgress(y', events[1..], i - 1);
        }
    }
  }

  /** A second call of a spent closure keeps permits conserved exactly when the semaphore is idle. */
  lemma {:induction false} SpentClosure(y: System, t: Ticket)
    requires Inv(y) && y.sem.maxPermits >= 1 && t in y.released
    ensures Inv(Step(y, Fire(t))) <==> y.sem.active == 0
  {
    var y' := Step(y, Fire(t));
    assert y.released + {t} == y.released;
    if y.sem.waiters != [] {
      NextIsNew(y);
      assert Holders(y') == Holders(y) + {y.sem.waiters[0]};
    } else {
      assert Holders(y') == Holders(y);
    }
  }

  // ----- `runExclusive` -----

  /** Progress of one `runExclusive` call. */
  datatype Phase = Waiting | Running | Finished

  /** Starting a call, or its body ending, normally or by throwing; `finally` releases in both cases. */
  datatype CallEvent = Start(t: Ticket) | BodyEnds(t: Ticket, threw: bool)

  datatype Calls = Calls(y: System, phases: map<Ticket, Phase>)

  predicate CallEnabled(c: Calls, e: CallEvent) {
    match e
    case Start(t) => t !in c.phases
    case BodyEnds(t, _) => t in c.phases && c.phases[t] == Running
  }

  function AsEvent(e: CallEvent): Event {
    match e
    case Start(t) => Request(t)
    case BodyEnds(t, _) => Fire(t)
  }

  function CallStep(c: Calls, e: CallEvent): Calls {
    match e
    case Start(t) =>
      Calls(Step(c.y, Request(t)), c.phases[t := if AcquireStep(c.y.sem, t).1 then Running else Waiting])
    case BodyEnds(t, _) =>
      var ended := c.phases[t := Finished];
      Calls(Step(c.y, Fire(t)),
            match ReleaseStep(c.y.sem).1
            case Some(n) => ended[n := Running]
            case None => ended)
  }

  ghost predicate Linked(c: Calls) {
    && Inv(c.y)
    && (forall t :: t in c.phases <==> t in c.y.requested)
    && (forall t :: t in c.phases ==> (c.phases[t] == Running <==> t in Holders(c.y)))
    && Ended(c)
  }

  /** The finished calls are those that have released. */
  ghost predicate Ended(c: Calls) {
    forall t :: t in c.phases ==> (c.phases[t] == Finished <==> t in c.y.released)
  }

  predicate ValidCalls(c: Calls, events: seq<CallEvent>)
    decreases |events|
  {
    events == [] || (CallEnabled(c, events[0]) && ValidCalls(CallStep(c, events[0]), events[1..]))
  }

  function RunCalls(c: Calls, events: seq<CallEvent>): Calls
    decreases |events|
  {
    if events == [] then c else RunCalls(CallStep(c, events[0]), events[1..])
  }

  lemma {:induction false} HolderMayFire(y: System, t: Ticket)
    requires Inv(y)
    ensures t in Holders(y) ==> Enabled(y, Fire(t)) && t in y.requested
  {
  }

  lemma {:induction false} ReleasedWasRequested(y: System, t: Ticket)
    requires Inv(y) && t in y.released
    ensures t in y.granted && t in y.requested && t !in y.sem.waiters
  {
    var i :| 0 <= i < |y.granted| && y.granted[i] == t;
    assert y.requested[i] == t;
    forall j | 0 <= j < |y.sem.waiters| ensures y.sem.waiters[j] != t {
      assert y.requested[|y.granted| + j] == y.sem.waiters[j];
    }
  }

  /** A call becomes finished just when its ticket is released. */
  lemma {:induction false} CallStepEnded(c: Calls, e: CallEvent)
    requires Linked(c) && CallEnabled(c, e)
    ensures Ended(CallStep(c, e))
  {
    hide Inv, Holders, AcquireStep;
    forall t | t in c.y.released ensures t in c.y.requested && t !in c.y.sem.waiters {
      ReleasedWasRequested(c.y, t);
    }
    if e.BodyEnds? {
      assert c.y.sem.waiters != [] ==> c.y.sem.waiters[0] in c.y.sem.waiters;
      if c.y.sem.waiters != [] {
        NextWaits(c, e.t);
      }
    }
  }

  /** The next waiter is not the caller whose body ends. */
  lemma {:induction false} NextWaits(c: Calls, t: Ticket)
    requires Linked(c) && c.y.sem.waiters != [] && t in c.phases && c.phases[t] == Running
    ensures c.y.sem.waiters[0] != t
  {
    NextIsNew(c.y);
  }

  lemma {:induction false} StartLinked(c: Calls, t: Ticket)
    requires Linked(c) && t !in c.phases
    ensures Enabled(c.y, Request(t)) && Linked(CallStep(c, Start(t)))
  {
    hide Inv, Holders, Ended;
    CallStepEnded(c, Start(t));
    RequestKeepsInv(c.y, t);
    HolderMayFire(c.y, t);
    assert forall u :: u in CallStep(c, Start(t)).y.requested <==> u in c.y.requested || u == t;
  }

  lemma {:induction false} BodyEndsLinked(c: Calls, t: Ticket, threw: bool)
    requires Linked(c) && t in c.phases && c.phases[t] == Running
    ensures Enabled(c.y, Fire(t)) && Linked(CallStep(c, BodyEnds(t, threw)))
  {
    hide Inv, Holders, Ended;
    CallStepEnded(c, BodyEnds(t, threw));
    HolderMayFire(c.y, t);
    FireKeepsInv(c.y, t);
    if c.y.sem.waiters != [] {
      NextIsNew(c.y);
    }
  }

  lemma {:induction false} CallStepLinked(c: Calls, e: CallEvent)
    requires Linked(c) && CallEnabled(c, e)
    ensures Enabled(c.y, AsEvent(e)) && Linked(CallStep(c, e))
  {
    hide Linked, CallStep, Enabled;
    match e {
      case Start(t) => StartLinked(c, t);
      case BodyEnds(t, threw) => BodyEndsLinked(c, t, threw);
    }
  }

  /** However `runExclusive` calls interleave and throw, the bodies running at once never exceed the permits. */
  lemma {:induction false} BodiesAreBounded(c: Calls, events: seq<CallEvent>)
    requires Linked(c) && ValidCalls(c, events)
    ensures var c' := RunCalls(c, events);
            && Linked(c')
            && |set t | t in c'.phases && c'.phases[t] == Running| == c'.y.sem.active <= c'.y.sem.maxPermits
            && Ended(c')
    decreases |events|
  {
    if events != [] {
      CallStepLinked(c, events[0]);
      BodiesAreBounded(CallStep(c, events[0]), events[1..]);
    } else {
      assert (set t | t in c.phases && c.phases[t] == Running) == Holders(c.y) by {
        assert forall u :: u in c.y.granted ==> u in c.y.requested;
      }
    }
  }

  /** From a fresh semaphore: running bodies are as many as active permits, and at most as many as there are. */
  lemma {:induction false} RunExclusiveSafety(permits: nat, events: seq<CallEvent>)
    requires permits >= 1 && ValidCalls(Calls(Initial(permits), map[]), events)
    ensures var c := RunCalls(Calls(Initial(permits), map[]), events);
            |set t | t in c.phases && c.phases[t] == Running| == c.y.sem.active <= permits
  {
    var start := Calls(Initial(permits), map[]);
    assert Holders(start.y) == {};
    assert Linked(start);
    BodiesAreBounded(start, events);
    PermitsFixed(start, events);
  }

  lemma {:induction false} PermitsFixed(c: Calls, events: seq<CallEvent>)
    ensures RunCalls(c, events).y.sem.maxPermits == c.y.sem.maxPermits
    decreases |events|
  {
    if events != [] {
      PermitsFixed(CallStep(c, events[0]), events[1..]);
    }
  }
}
