/** Time in the co-routine scheduler: when each waiting co-routine is readied, in every run, and the scheduler's
    own code. */
module CoRoutineTime {
  import opened Rings
  import opened CoRoutines

  // ----- time --------------------------------------------------------------

  /** Ticks until a waiting co-routine is readied. */
  ghost function Remaining(s: State, c: Id): int {
    s.Wake(c) - s.tick + if c in s.delayed then 0 else MAX_DELAY + 1
  }

  lemma RemainingPositive(s: State, c: Id)
    requires Inv(s) && s.Waiting(c)
    ensures 1 <= Remaining(s, c) <= MAX_DELAY + 1
  {}

  /** The head of a delay list wakes first. */
  lemma HeadFirst(s: State, q: seq<Id>)
    requires Parked(s, q) && q != []
    ensures forall c :: c in q ==> s.Wake(q[0]) <= s.Wake(c)
  {
    forall c | c in q ensures s.Wake(q[0]) <= s.Wake(c) {
      var i :| 0 <= i < |q| && q[i] == c;
      assert Wakes(s, q)[0] <= Wakes(s, q)[i];
    }
  }

  /** Expire readies exactly the co-routines of the current list whose time has come. */
  lemma {:induction false} ExpireExact(s: State)
    requires WellFormed(s)
    ensures Expire(s).overflow == s.overflow
    ensures forall c :: c in Expire(s).delayed <==> c in s.delayed && s.tick < s.Wake(c)
    ensures forall c :: Expire(s).IsReady(c) <==> s.IsReady(c) || (c in s.delayed && s.Wake(c) <= s.tick)
    decreases |s.delayed|
  {
    if s.delayed != [] {
      var h := s.delayed[0];
      assert h in s.delayed;
      if s.Wake(h) <= s.tick {
        WithoutNoDup(s.delayed, h);
        WithoutSame(s.overflow, h);
        assert forall c :: Rouse(s, h).Wake(c) == s.Wake(c);
        ExpireExact(Rouse(s, h));
      } else {
        HeadFirst(s, s.delayed);
      }
    }
  }

  /** One step of the counter brings every waiting co-routine one tick closer; at the wrap the list swapped out is empty. */
  lemma CountTickExact(s: State)
    requires Inv(s)
    ensures s.tick == MAX_DELAY ==> s.delayed == []
    ensures forall c :: s.Waiting(c) ==> CountTick(s).Waiting(c) && Remaining(CountTick(s), c) == Remaining(s, c) - 1
    ensures forall c :: CountTick(s).Waiting(c) ==> s.Waiting(c)
    ensures forall c :: c in CountTick(s).overflow ==> s.Wake(c) <= CountTick(s).tick
  {
    assert s.delayed != [] ==> s.delayed[0] in s.delayed;
    assert forall c :: CountTick(s).Wake(c) == s.Wake(c);
  }

  lemma TickOne(s: State, c: Id)
    requires Inv(s)
    ensures s.Waiting(c) && Remaining(s, c) > 1 ==> TickOnce(s).Waiting(c) && Remaining(TickOnce(s), c) == Remaining(s, c) - 1
    ensures TickOnce(s).IsReady(c) <==> s.IsReady(c) || (s.Waiting(c) && Remaining(s, c) == 1)
    ensures c in TickOnce(s).delayed ==> TickOnce(s).tick < TickOnce(s).Wake(c)
    ensures c in TickOnce(s).overflow ==> TickOnce(s).Wake(c) <= TickOnce(s).tick
  {
    CountTickExact(s);
    CountTickKeeps(s);
    ExpireExact(CountTick(s));
    assert TickOnce(s).Wake(c) == s.Wake(c) && (CountTick(s).IsReady(c) <==> s.IsReady(c));
    if s.Waiting(c) {
      RemainingPositive(s, c);
      assert Remaining(CountTick(s), c) == Remaining(s, c) - 1;
    } else {
      assert !CountTick(s).Waiting(c);
    }
  }

  /** Every waiting co-routine comes one tick closer, and is readied at the tick that makes it zero; nobody else is. */
  lemma TickExact(s: State)
    requires Inv(s)
    ensures Inv(TickOnce(s))
    ensures forall c :: s.Waiting(c) && Remaining(s, c) > 1 ==> TickOnce(s).Waiting(c) && Remaining(TickOnce(s), c) == Remaining(s, c) - 1
    ensures forall c :: TickOnce(s).IsReady(c) <==> s.IsReady(c) || (s.Waiting(c) && Remaining(s, c) == 1)
  {
    var t := TickOnce(s);
    forall c
      ensures s.Waiting(c) && Remaining(s, c) > 1 ==> t.Waiting(c) && Remaining(t, c) == Remaining(s, c) - 1
      ensures t.IsReady(c) <==> s.IsReady(c) || (s.Waiting(c) && Remaining(s, c) == 1)
      ensures c in t.delayed ==> t.tick < t.Wake(c)
      ensures c in t.overflow ==> t.Wake(c) <= t.tick
    {
      TickOne(s, c);
    }
  }

  /** Delaying for d ticks leaves d ticks to go, across a wrap or not, and changes nobody else's time. */
  lemma DelayExact(s: State, c: Id, d: Tick)
    requires Inv(s) && s.IsReady(c) && d > 0
    ensures Inv(Delay(s, c, d))
    ensures Delay(s, c, d).Waiting(c) && Remaining(Delay(s, c, d), c) == d
    ensures forall x :: s.Waiting(x) ==> Delay(s, c, d).Waiting(x) && Remaining(Delay(s, c, d), x) == Remaining(s, x)
  {
    DelayKeeps(s, c, d);
    DelayMoves(s, c, d);
    var t := Delay(s, c, d);
    assert t.Wake(c) == TimeToWake(s.tick, d);
    assert forall x :: x != c ==> t.Wake(x) == s.Wake(x);
  }

  lemma TickCounts(s: State)
    requires Inv(s)
    ensures Inv(TickOnce(s)) && TickOnce(s).tick == if s.tick == MAX_DELAY then 0 else s.tick + 1
  {
    TickExact(s);
  }

  /** The scheduler catches up with the kernel: after n ticks its count is n further on, modulo 2^32. */
  lemma {:induction false} TicksKeeps(s: State, n: Tick)
    requires Inv(s)
    ensures Inv(Ticks(s, n))
    ensures Ticks(s, n).tick == s.tick + n || Ticks(s, n).tick == s.tick + n - MAX_DELAY - 1
    decreases n
  {
    if n > 0 {
      TicksKeeps(s, n - 1);
      TickCounts(Ticks(s, n - 1));
    }
  }

  // ----- runs --------------------------------------------------------------

  datatype Step =
    | Tick
    | Delays(c: Id, d: Tick)
    | Awaits(c: Id, d: Tick, e: Event)
    | Signals(e: Event)
    | Drains
    | Dispatches
    | Creates(c: Id, p: nat)

  /** A delay is asked for by a ready co-routine and is longer than 0; an event list is signalled only when somebody waits. */
  ghost predicate Enabled(s: State, step: Step) {
    match step
    case Delays(c, d) => s.IsReady(c) && d > 0
    case Awaits(c, d, _) => s.IsReady(c) && d > 0
    case Signals(e) => s.At(On(e)) != []
    case Creates(c, _) => !s.Waiting(c) && !s.IsReady(c)
    case _ => true
  }

  ghost function Do(s: State, step: Step): State
    requires Inv(s) && Enabled(s, step)
  {
    match step
    case Tick => TickOnce(s)
    case Delays(c, d) => Delay(s, c, d)
    case Awaits(c, d, e) => AddEvent(Delay(s, c, d), c, e)
    case Signals(e) => Signal(s, e)
    case Drains => Drain(s)
    case Dispatches => Dispatch(s).0
    case Creates(c, p) => Create(s, c, p)
  }

  /** The co-routine is not touched by a step other than the clock or the drain of its own event. */
  ghost predicate Spared(s: State, step: Step, c: Id) {
    step != Tick && (step == Drains ==> c !in s.At(Pending))
  }

  /** Every step keeps the invariant. */
  lemma StepKeeps(s: State, step: Step)
    requires Inv(s) && Enabled(s, step)
    ensures Inv(Do(s, step))
  {
    match step {
      case Tick => TickExact(s);
      case Delays(c, d) => DelayExact(s, c, d);
      case Awaits(c, d, e) =>
        DelayExact(s, c, d);
        DelayKeeps(s, c, d);
        AddEventKeeps(Delay(s, c, d), c, e);
        SameTimes(Delay(s, c, d), AddEvent(Delay(s, c, d), c, e));
      case Signals(e) => SignalKeeps(s, e); SameTimes(s, Signal(s, e));
      case Drains => DrainExact(s); assert forall c :: Drain(s).Wake(c) == s.Wake(c);
      case Dispatches => DispatchKeeps(s); SameTimes(s, Dispatch(s).0);
      case Creates(c, p) => CreateKeeps(s, c, p); SameTimes(s, Create(s, c, p));
    }
  }

  lemma SameTimes(s: State, t: State)
    requires t.delayed == s.delayed && t.overflow == s.overflow && t.wakes == s.wakes && t.tick == s.tick
    ensures Timely(s) ==> Timely(t)
    ensures forall c :: Remaining(t, c) == Remaining(s, c) && (t.Waiting(c) <==> s.Waiting(c))
  {
    assert forall c :: t.Wake(c) == s.Wake(c);
  }

  lemma AwaitSpares(s: State, x: Id, d: Tick, e: Event, c: Id)
    requires Inv(s) && s.IsReady(x) && d > 0 && s.Waiting(c)
    ensures AddEvent(Delay(s, x, d), x, e).Waiting(c) && Remaining(AddEvent(Delay(s, x, d), x, e), c) == Remaining(s, c)
  {
    DelaySpares(s, x, d, c);
    SameTimes(Delay(s, x, d), AddEvent(Delay(s, x, d), x, e));
  }

  lemma DrainSpares(s: State, c: Id)
    requires Inv(s) && s.Waiting(c) && c !in s.At(Pending)
    ensures Drain(s).Waiting(c) && Remaining(Drain(s), c) == Remaining(s, c)
  {
    DrainExact(s);
    assert Drain(s).Wake(c) == s.Wake(c);
  }

  lemma DelaySpares(s: State, x: Id, d: Tick, c: Id)
    requires Inv(s) && s.IsReady(x) && d > 0 && s.Waiting(c)
    ensures Delay(s, x, d).Waiting(c) && Remaining(Delay(s, x, d), c) == Remaining(s, c)
  {
    DelayExact(s, x, d);
  }

  /** Only the clock moves a waiting co-routine, unless its event is drained. */
  lemma StepSpares(s: State, step: Step, c: Id)
    requires Inv(s) && Enabled(s, step) && s.Waiting(c) && Spared(s, step, c)
    ensures Do(s, step).Waiting(c) && Remaining(Do(s, step), c) == Remaining(s, c)
  {
    match step {
      case Delays(x, d) => DelaySpares(s, x, d, c);
      case Awaits(x, d, e) => AwaitSpares(s, x, d, e, c);
      case Signals(e) => SameTimes(s, Signal(s, e));
      case Drains => DrainSpares(s, c);
      case Dispatches => SameTimes(s, Dispatch(s).0);
      case Creates(x, p) => SameTimes(s, Create(s, x, p));
    }
  }

  ghost predicate Legal(s: State, steps: seq<Step>)
    requires Inv(s)
    decreases |steps|
  {
    steps != [] ==>
      && Enabled(s, steps[0])
      && (StepKeeps(s, steps[0]); Legal(Do(s, steps[0]), steps[1..]))
  }

  ghost function Run(s: State, steps: seq<Step>): State
    requires Inv(s) && Legal(s, steps)
    decreases |steps|
  {
    if steps == [] then s
    else
      StepKeeps(s, steps[0]);
      Run(Do(s, steps[0]), steps[1..])
  }

  ghost function TickCount(steps: seq<Step>): nat {
    if steps == [] then 0 else (if steps[0] == Tick then 1 else 0) + TickCount(steps[1..])
  }

  /** No drain along the run finds the event item of `c` pending. */
  ghost predicate NotSignalled(s: State, steps: seq<Step>, c: Id)
    requires Inv(s) && Legal(s, steps)
    decreases |steps|
  {
    steps != [] ==>
      && (steps[0] == Drains ==> c !in s.At(Pending))
      && (StepKeeps(s, steps[0]); NotSignalled(Do(s, steps[0]), steps[1..], c))
  }

  lemma {:induction false} RunKeeps(s: State, steps: seq<Step>)
    requires Inv(s) && Legal(s, steps)
    ensures Inv(Run(s, steps))
    decreases |steps|
  {
    if steps != [] {
      StepKeeps(s, steps[0]);
      RunKeeps(Do(s, steps[0]), steps[1..]);
    }
  }

  /** Along any run, over any number of wraps, a co-routine not woken by an event waits for exactly
      its remaining ticks ... */
  lemma {:induction false} WaitsUntil(s: State, steps: seq<Step>, c: Id)
    requires Inv(s) && Legal(s, steps) && NotSignalled(s, steps, c) && s.Waiting(c)
    requires TickCount(steps) < Remaining(s, c)
    ensures Run(s, steps).Waiting(c) && Remaining(Run(s, steps), c) == Remaining(s, c) - TickCount(steps)
    decreases |steps|
  {
    if steps != [] {
      StepKeeps(s, steps[0]);
      if steps[0] == Tick { TickExact(s); } else { StepSpares(s, steps[0], c); }
      WaitsUntil(Do(s, steps[0]), steps[1..], c);
    }
  }

  // ----- a plain delay cannot be cut short ----------------------------------

  /** The event item of `c` is in no list. */
  ghost predicate Untied(s: State, c: Id) { forall p :: c !in s.At(p) }

  lemma {:induction false} ExpireUntied(s: State, c: Id)
    requires WellFormed(s) && Untied(s, c)
    ensures Untied(Expire(s), c)
    decreases |s.delayed|
  {
    if s.delayed != [] && s.Wake(s.delayed[0]) <= s.tick {
      WithoutNoDup(s.delayed, s.delayed[0]);
      assert s.Waiting(s.delayed[0]);
      ExpireUntied(Rouse(s, s.delayed[0]), c);
    }
  }

  lemma TickUntied(s: State, c: Id)
    requires WellFormed(s) && Untied(s, c)
    ensures Untied(TickOnce(s), c)
  {
    CountTickKeeps(s);
    assert forall p :: CountTick(s).At(p) == s.At(p);
    ExpireUntied(CountTick(s), c);
  }

  lemma {:induction false} DrainUntied(s: State, c: Id)
    requires WellFormed(s) && Untied(s, c)
    ensures Untied(Drain(s), c)
    decreases |s.At(Pending)|
  {
    if s.At(Pending) != [] {
      var x := s.At(Pending)[0];
      assert Queued(s, Pending) && x in s.At(Pending);
      WithoutNoDup(s.At(Pending), x);
      DrainUntied(Rouse(s, x), c);
    }
  }

  lemma SignalUntied(s: State, e: Event, c: Id)
    requires WellFormed(s) && s.At(On(e)) != [] && Untied(s, c)
    ensures Untied(Signal(s, e), c)
  {
    var x, t := s.At(On(e))[0], Signal(s, e);
    DropEventKeeps(s, x);
    assert x in s.At(On(e));
    forall p ensures c !in t.At(p) { assert c !in DropEvent(s, x).At(p); }
  }

  lemma AddEventUntied(s: State, x: Id, e: Event, c: Id)
    requires Untied(s, c) && x != c
    ensures Untied(AddEvent(s, x, e), c)
  {
    var q := s.At(On(e));
    InsertMembers(q, Position(EventValues(s, q), |s.ready| - s.Priority(x)), x);
    forall p ensures c !in AddEvent(s, x, e).At(p) { assert c !in s.At(p); }
  }

  /** No step ties a waiting co-routine to an event: only a ready one can ask for that. */
  lemma StepUntied(s: State, step: Step, c: Id)
    requires Inv(s) && Enabled(s, step) && s.Waiting(c) && Untied(s, c)
    ensures Untied(Do(s, step), c)
  {
    match step {
      case Tick => TickUntied(s, c);
      case Delays(x, d) => DelayUntied(s, x, d, c);
      case Awaits(x, d, e) =>
        DelayMoves(s, x, d);
        DelayUntied(s, x, d, c);
        NotReady(s, c);
        AddEventUntied(Delay(s, x, d), x, e, c);
      case Signals(e) => SignalUntied(s, e, c);
      case Drains => DrainUntied(s, c);
      case Dispatches => assert forall p :: Dispatch(s).0.At(p) == s.At(p);
      case Creates(x, p) => assert forall q :: Create(s, x, p).At(q) == s.At(q);
    }
  }

  lemma DelayUntied(s: State, x: Id, d: Tick, c: Id)
    requires WellFormed(s) && s.IsReady(x) && Untied(s, c)
    ensures Untied(Delay(s, x, d), c)
  {
    assert forall p :: Delay(s, x, d).At(p) == s.At(p);
  }

  lemma NotReady(s: State, c: Id)
    requires WellFormed(s) && s.Waiting(c)
    ensures !s.IsReady(c)
  {
    assert Parked(s, s.delayed) && Parked(s, s.overflow);
  }

  lemma {:induction false} UntiedNotSignalled(s: State, steps: seq<Step>, c: Id)
    requires Inv(s) && Legal(s, steps) && s.Waiting(c) && Untied(s, c) && TickCount(steps) < Remaining(s, c)
    ensures NotSignalled(s, steps, c)
    decreases |steps|
  {
    if steps != [] {
      StepKeeps(s, steps[0]);
      StepUntied(s, steps[0], c);
      if steps[0] == Tick { TickExact(s); } else { StepSpares(s, steps[0], c); }
      UntiedNotSignalled(Do(s, steps[0]), steps[1..], c);
    }
  }

  // ----- the delay --------------------------------------------------------------

  /** The state in which `c` still waits, and the next tick readies it exactly when it is the last of `left`. */
  ghost predicate WaitsWith(t: State, c: Id, left: int) {
    Inv(t) && t.Waiting(c) && !t.IsReady(c) && (TickOnce(t).IsReady(c) <==> left == 1)
  }

  lemma WaitsOn(s: State, steps: seq<Step>, c: Id)
    requires Inv(s) && Legal(s, steps) && NotSignalled(s, steps, c) && s.Waiting(c) && TickCount(steps) < Remaining(s, c)
    ensures WaitsWith(Run(s, steps), c, Remaining(s, c) - TickCount(steps))
  {
    WaitsUntil(s, steps, c);
    RunKeeps(s, steps);
    NotReady(Run(s, steps), c);
    TickOne(Run(s, steps), c);
  }

  /** A co-routine that delays for d ticks is ready after exactly d ticks, whatever else happens: no event can cut a
      plain delay short, and no wrap of the counter shortens or lengthens it. */
  lemma ReadyAfterDelay(s: State, c: Id, d: Tick, steps: seq<Step>)
    requires Inv(s) && Enabled(s, Delays(c, d)) && Inv(Do(s, Delays(c, d)))
    requires Legal(Do(s, Delays(c, d)), steps) && TickCount(steps) < d
    ensures WaitsWith(Run(Do(s, Delays(c, d)), steps), c, d - TickCount(steps))
  {
    var t := Delay(s, c, d);
    DelayExact(s, c, d);
    DelayKeeps(s, c, d);
    assert Untied(t, c) by { forall p ensures c !in t.At(p) { assert Queued(t, p); } }
    UntiedNotSignalled(t, steps, c);
    WaitsOn(t, steps, c);
  }

  /** A co-routine that waits for an event for at most d ticks, and whose event is not served before, is ready after
      exactly d ticks. */
  lemma ReadyAfterTimeout(s: State, c: Id, d: Tick, e: Event, steps: seq<Step>)
    requires Inv(s) && Enabled(s, Awaits(c, d, e)) && Inv(Do(s, Awaits(c, d, e)))
    requires Legal(Do(s, Awaits(c, d, e)), steps) && TickCount(steps) < d && NotSignalled(Do(s, Awaits(c, d, e)), steps, c)
    ensures WaitsWith(Run(Do(s, Awaits(c, d, e)), steps), c, d - TickCount(steps))
  {
    AwaitExact(s, c, d, e);
    WaitsOn(Do(s, Awaits(c, d, e)), steps, c);
  }

  /** Waiting for an event leaves the ticks of the delay to go, and the co-routine in the event list. */
  lemma AwaitExact(s: State, c: Id, d: Tick, e: Event)
    requires Inv(s) && Enabled(s, Awaits(c, d, e))
    ensures var t := Do(s, Awaits(c, d, e));
            Inv(t) && t.Waiting(c) && Remaining(t, c) == d && c in t.At(On(e))
  {
    StepKeeps(s, Awaits(c, d, e));
    var u := Delay(s, c, d);
    DelayExact(s, c, d);
    SameTimes(u, AddEvent(u, c, e));
    var q := u.At(On(e));
    InsertMembers(q, Position(EventValues(u, q), |u.ready| - u.Priority(c)), c);
  }

  /** A wait whose event is served before its time is over then: its co-routine is ready as soon as its event is drained,
      and out of every list. */
  lemma ReadyAfterEvent(s: State, c: Id)
    requires Inv(s) && c in s.At(Pending)
    ensures s.Waiting(c) && Inv(Drain(s)) && Drain(s).IsReady(c) && !Drain(s).Waiting(c)
  {
    assert Queued(s, Pending);
    StepKeeps(s, Drains);
    DrainExact(s);
  }

  /** The scheduler's static variables; the lists, kept together as `s`, are updated piece by piece. */
  class Scheduler {
    var s: State
    var lastTick: Tick    // xLastTickCount
    var current: Id       // pxCurrentCoRoutine

    ghost predicate Valid()
      reads this
    {
      Inv(s) && lastTick == s.tick
    }

    /** prvInitialiseCoRoutineLists */
    constructor (priorities: nat)
      requires priorities > 0
      ensures Valid() && s == State(seq(priorities, i => Ring([], 0)), [], [], map[], map[], map[], map[], 0, 0)
    {
      s := State(seq(priorities, i => Ring([], 0)), [], [], map[], map[], map[], map[], 0, 0);
      lastTick, current := 0, 0;
    }

    /** vCoRoutineAddToDelayedList */
    method AddToDelayedList(ticksToDelay: Tick, eventList: Option<Event>)
      requires Valid() && s.IsReady(current) && ticksToDelay > 0
      modifies this`s
      ensures Valid()
      ensures s == Do(old(s), match eventList case None => Delays(current, ticksToDelay) case Some(e) => Awaits(current, ticksToDelay, e))
    {
      StepKeeps(s, Delays(current, ticksToDelay));
      if eventList.Some? { StepKeeps(s, Awaits(current, ticksToDelay, eventList.value)); }
      var timeToWake := TimeToWake(s.tick, ticksToDelay);
      s := Park(s, current, timeToWake);
      if timeToWake < s.tick {
        s := s.(overflow := Enlist(s, s.overflow, current));
      } else {
        s := s.(delayed := Enlist(s, s.delayed, current));
      }
      if eventList.Some? {
        s := AddEvent(s, current, eventList.value);
      }
    }

    /** prvCheckPendingReadyList */
    method CheckPendingReadyList()
      requires Valid()
      modifies this`s
      ensures Valid() && s == Drain(old(s))
    {
      StepKeeps(s, Drains);
      while s.At(Pending) != []
        invariant WellFormed(s) && Drain(s) == Drain(old(s))
        decreases |s.At(Pending)|
      {
        var unblocked := s.At(Pending)[0];
        assert Queued(s, Pending) && unblocked in s.At(Pending);
        WithoutNoDup(s.At(Pending), unblocked);
        ghost var next := Rouse(s, unblocked);
        DetachKeeps(s, unblocked);
        s := DropEvent(s, unblocked);
        s := DropDelay(s, unblocked);
        s := MakeReady(s, unblocked);
        assert s == next;
      }
    }

    /** The expiry loop inside prvCheckDelayedList. */
    method ExpireDelayed()
      requires WellFormed(s)
      modifies this`s
      ensures s == Expire(old(s))
    {
      while s.delayed != []
        invariant WellFormed(s) && Expire(s) == Expire(old(s))
        decreases |s.delayed|
      {
        var c := s.delayed[0];
        if s.tick < s.Wake(c) {
          break;
        }
        assert c in s.delayed;
        WithoutNoDup(s.delayed, c);
        ghost var next := Rouse(s, c);
        DetachKeeps(s, c);
        s := DropDelay(DropEvent(s, c), c);
        s := MakeReady(s, c);
        assert s == next;
      }
    }

    /** The body of the outer loop of prvCheckDelayedList. */
    method PassTick()
      requires WellFormed(s)
      modifies this`s
      ensures s == TickOnce(old(s))
    {
      CountTickKeeps(s);
      if s.tick == MAX_DELAY {
        s := s.(tick := 0);
        s := s.(delayed := s.overflow, overflow := s.delayed);
      } else {
        s := s.(tick := s.tick + 1);
      }
      ExpireDelayed();
    }

    /** The outer loop of prvCheckDelayedList, for the ticks that have passed. */
    method PassTicks(ticks: nat)
      requires WellFormed(s)
      modifies this`s
      ensures s == Ticks(old(s), ticks)
    {
      ghost var was := s;
      for passed := 0 to ticks
        invariant WellFormed(s) && s == Ticks(was, passed)
      {
        ghost var next := Ticks(was, passed + 1);
        PassTick();
        assert s == next;
      }
    }

    /** prvCheckDelayedList, when the kernel tick count reads `now`. */
    method CheckDelayedList(now: Tick)
      requires Valid()
      modifies this`s, this`lastTick
      ensures Valid() && s.tick == now && s == Ticks(old(s), Elapsed(now, old(s).tick))
    {
      var passed := Elapsed(now, lastTick);
      TicksKeeps(s, passed);
      PassTicks(passed);
      lastTick := s.tick;
    }

    /** vCoRoutineSchedule up to the call of the chosen co-routine. */
    method Schedule(now: Tick) returns (running: Option<Id>)
      requires Valid()
      modifies this
      ensures Valid() && s.tick == now
      ensures var t := Ticks(Drain(old(s)), Elapsed(now, old(s).tick));
              running == Dispatch(t).1 && s == Dispatch(t).0
      ensures current == if running == None then old(current) else running.value
    {
      CheckPendingReadyList();
      CheckDelayedList(now);
      StepKeeps(s, Dispatches);
      running := Pick();
      if running.Some? {
        current := running.value;
      }
    }

    /** The search for the highest ready priority, and the walk along its list. */
    method Pick() returns (running: Option<Id>)
      requires ReadyOK(s)
      modifies this`s
      ensures running == Dispatch(old(s)).1 && s == Dispatch(old(s)).0
    {
      ghost var t := s;
      assert Slot(t, TopReady(t.ready, t.top));
      while s.ready[s.top].items == []
        invariant s == t.(top := s.top) && s.top <= t.top && TopReady(t.ready, s.top) == TopReady(t.ready, t.top)
        decreases s.top
      {
        if s.top == 0 {
          return None;
        }
        s := s.(top := s.top - 1);
      }
      var r := Next(s.ready[s.top]);
      s := s.(ready := s.ready[s.top := r]);
      running := Some(r.items[r.at - 1]);
    }

    /** xCoRoutineRemoveFromEventList; true when the readied co-routine should run before the current one. */
    method RemoveFromEventList(e: Event) returns (higher: bool)
      requires Valid() && s.At(On(e)) != []
      modifies this`s
      ensures Valid() && s == Do(old(s), Signals(e))
      ensures higher <==> s.Priority(old(s).At(On(e))[0]) >= s.Priority(current)
    {
      StepKeeps(s, Signals(e));
      var unblocked := s.At(On(e))[0];
      s := DropEvent(s, unblocked);
      s := s.(waiters := s.waiters[Pending := s.At(Pending) + [unblocked]], home := s.home[unblocked := Pending]);
      higher := s.Priority(unblocked) >= s.Priority(current);
    }
  }
}
