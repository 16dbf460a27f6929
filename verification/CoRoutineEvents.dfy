/** Who an event wakes: the event lists of the co-routine scheduler stand in order of priority, and of arrival among
    equals, in every run. */
module CoRoutineEvents {
  import opened Rings
  import opened CoRoutines
  import opened CoRoutineTime

  /** When each co-routine last began to wait for an event, counted in steps. */
  type Stamps = map<Id, nat>

  function Stamp(m: Stamps, c: Id): nat { if c in m then m[c] else 0 }

  /** `a` is to be woken before `b`: it has a higher priority, or the same and has waited longer. */
  ghost predicate Before(s: State, m: Stamps, a: Id, b: Id) {
    s.Priority(a) > s.Priority(b) || (s.Priority(a) == s.Priority(b) && Stamp(m, a) < Stamp(m, b))
  }

  ghost predicate InTurn(s: State, m: Stamps, q: seq<Id>) {
    forall i, j :: 0 <= i < j < |q| ==> Before(s, m, q[i], q[j])
  }

  /** Everybody on the list came before step `n`. */
  ghost predicate Arrived(m: Stamps, q: seq<Id>, n: nat) { forall c :: c in q ==> Stamp(m, c) < n }

  ghost predicate ListOK(s: State, m: Stamps, n: nat, e: Event) { InTurn(s, m, s.At(On(e))) && Arrived(m, s.At(On(e)), n) }

  ghost predicate Ordered(s: State, m: Stamps, n: nat) { forall e :: ListOK(s, m, n, e) }

  // ----- what becomes of one list ---------------------------------------------------

  lemma WithoutInTurn(s: State, m: Stamps, q: seq<Id>, c: Id)
    requires InTurn(s, m, q)
    ensures InTurn(s, m, Without(q, c))
  {
    var from := WithoutOrder(q, c);
    forall i, j | 0 <= i < j < |Without(q, c)| ensures Before(s, m, Without(q, c)[i], Without(q, c)[j]) {
      assert Before(s, m, q[from[i]], q[from[j]]);
    }
  }

  /** A list in turn is sorted by the item values. */
  lemma InTurnSorted(s: State, m: Stamps, q: seq<Id>)
    requires InTurn(s, m, q)
    ensures Sorted(EventValues(s, q))
  {
    forall i, j | 0 <= i < j < |q| ensures EventValues(s, q)[i] <= EventValues(s, q)[j] {
      assert Before(s, m, q[i], q[j]);
    }
  }

  /** The place vListInsert finds for a newcomer is its turn: behind all of its priority, in front of all below. */
  lemma InsertInTurn(s: State, m: Stamps, q: seq<Id>, c: Id, n: nat)
    requires InTurn(s, m, q) && Arrived(m, q, n) && c !in q
    ensures var r := InsertAt(q, Position(EventValues(s, q), |s.ready| - s.Priority(c)), c);
            InTurn(s, m[c := n], r) && Arrived(m[c := n], r, n + 1)
  {
    var k := Position(EventValues(s, q), |s.ready| - s.Priority(c));
    var m' := m[c := n];
    InsertMembers(q, k, c);
    forall x | x in q ensures Stamp(m', x) == Stamp(m, x) < n {}
    StampsStay(s, m, q, c, n);
    Around(s, m, q, c, n, k);
    InsertBetween(s, m', q, c, k);
  }

  /** The newcomer's stamp does not matter where it is not. */
  lemma StampsStay(s: State, m: Stamps, q: seq<Id>, c: Id, n: nat)
    requires InTurn(s, m, q) && c !in q
    ensures InTurn(s, m[c := n], q)
  {
    forall i, j | 0 <= i < j < |q| ensures Before(s, m[c := n], q[i], q[j]) {
      assert Before(s, m, q[i], q[j]) && q[i] in q && q[j] in q;
    }
  }

  lemma Around(s: State, m: Stamps, q: seq<Id>, c: Id, n: nat, k: nat)
    requires InTurn(s, m, q) && Arrived(m, q, n) && c !in q && k == Position(EventValues(s, q), |s.ready| - s.Priority(c))
    ensures k <= |q|
    ensures forall i :: 0 <= i < k ==> Before(s, m[c := n], q[i], c)
    ensures forall j :: k <= j < |q| ==> Before(s, m[c := n], c, q[j])
  {
    var vs := EventValues(s, q);
    InTurnSorted(s, m, q);
    forall i | 0 <= i < k ensures Before(s, m[c := n], q[i], c) { assert q[i] in q && vs[i] <= |s.ready| - s.Priority(c); }
    forall j | k <= j < |q| ensures Before(s, m[c := n], c, q[j]) { assert j == k || vs[k] <= vs[j]; }
  }

  lemma InsertBetween(s: State, m: Stamps, q: seq<Id>, c: Id, k: nat)
    requires InTurn(s, m, q) && k <= |q|
    requires forall i :: 0 <= i < k ==> Before(s, m, q[i], c)
    requires forall j :: k <= j < |q| ==> Before(s, m, c, q[j])
    ensures InTurn(s, m, InsertAt(q, k, c))
  {
    var r := InsertAt(q, k, c);
    forall i, j | 0 <= i < j < |r| ensures Before(s, m, r[i], r[j]) {
      var a, b := if i < k then i else i - 1, if j < k then j else j - 1;
      assert i != k ==> r[i] == q[a];
      assert j != k ==> r[j] == q[b];
      assert i != k && j != k ==> Before(s, m, q[a], q[b]);
    }
  }

  // ----- steps ------------------------------------------------------------------------

  /** Both states have the same priorities, and the lists of `t` are those of `s` with co-routines taken out. */
  lemma SameTurns(s: State, t: State, m: Stamps, n: nat, c: Id)
    requires Ordered(s, m, n) && t.priorities == s.priorities
    requires forall e :: t.At(On(e)) == s.At(On(e)) || t.At(On(e)) == Without(s.At(On(e)), c)
    ensures Ordered(t, m, n)
  {
    forall e ensures ListOK(t, m, n, e) {
      assert ListOK(s, m, n, e);
      WithoutInTurn(s, m, s.At(On(e)), c);
      SamePriorities(s, t, m, t.At(On(e)));
    }
  }

  lemma RousePriorities(s: State, c: Id)
    requires WellFormed(s) && s.Waiting(c)
    ensures Rouse(s, c).priorities == s.priorities
  {}

  lemma {:induction false} ExpireOrdered(s: State, m: Stamps, n: nat)
    requires WellFormed(s) && Ordered(s, m, n)
    ensures Ordered(Expire(s), m, n)
    decreases |s.delayed|
  {
    if s.delayed != [] && s.Wake(s.delayed[0]) <= s.tick {
      var c := s.delayed[0];
      WithoutNoDup(s.delayed, c);
      assert s.Waiting(c);
      RousePriorities(s, c);
      SameTurns(s, Rouse(s, c), m, n, c);
      ExpireOrdered(Rouse(s, c), m, n);
    }
  }

  lemma {:induction false} DrainOrdered(s: State, m: Stamps, n: nat)
    requires WellFormed(s) && Ordered(s, m, n)
    ensures Ordered(Drain(s), m, n)
    decreases |s.At(Pending)|
  {
    if s.At(Pending) != [] {
      var c := s.At(Pending)[0];
      assert Queued(s, Pending) && c in s.At(Pending);
      WithoutNoDup(s.At(Pending), c);
      RousePriorities(s, c);
      SameTurns(s, Rouse(s, c), m, n, c);
      DrainOrdered(Rouse(s, c), m, n);
    }
  }

  lemma SignalOrdered(s: State, e: Event, m: Stamps, n: nat)
    requires WellFormed(s) && s.At(On(e)) != [] && Ordered(s, m, n)
    ensures Ordered(Signal(s, e), m, n)
  {
    var c := s.At(On(e))[0];
    DropEventKeeps(s, c);
    SameTurns(s, Signal(s, e), m, n, c);
  }

  lemma CreateOrdered(s: State, c: Id, p: nat, m: Stamps, n: nat)
    requires WellFormed(s) && !s.Waiting(c) && !s.IsReady(c) && Ordered(s, m, n)
    ensures Ordered(Create(s, c, p), m, n)
  {
    var t := Create(s, c, p);
    forall e ensures ListOK(t, m, n, e) {
      assert ListOK(s, m, n, e) && Queued(s, On(e)) && t.At(On(e)) == s.At(On(e));
      forall i, j | 0 <= i < j < |s.At(On(e))| ensures Before(t, m, s.At(On(e))[i], s.At(On(e))[j]) {
        assert Before(s, m, s.At(On(e))[i], s.At(On(e))[j]);
        assert s.At(On(e))[i] in s.At(On(e)) && s.At(On(e))[j] in s.At(On(e));
      }
    }
  }

  lemma AwaitOrdered(s: State, c: Id, d: Tick, e: Event, m: Stamps, n: nat)
    requires Inv(s) && Enabled(s, Awaits(c, d, e)) && Ordered(s, m, n)
    ensures Ordered(Do(s, Awaits(c, d, e)), m[c := n], n + 1)
  {
    DelayMoves(s, c, d);
    var u, m', n' := Delay(s, c, d), m[c := n], n + 1;
    forall x ensures ListOK(AddEvent(u, c, e), m', n', x) {
      assert ListOK(s, m, n, x) && Queued(s, On(x));
      assert u.At(On(x)) == s.At(On(x)) && u.priorities == s.priorities;
      SamePriorities(s, u, m, s.At(On(x)));
      AwaitList(u, c, e, m, n, x);
    }
  }

  lemma AwaitList(u: State, c: Id, e: Event, m: Stamps, n: nat, x: Event)
    requires ListOK(u, m, n, x) && c !in u.At(On(x))
    ensures ListOK(AddEvent(u, c, e), m[c := n], n + 1, x)
  {
    var t, m' := AddEvent(u, c, e), m[c := n];
    if x == e { InsertInTurn(u, m, u.At(On(e)), c, n); } else { StampsStay(u, m, u.At(On(x)), c, n); }
    SamePriorities(u, t, m', t.At(On(x)));
    forall y | y in u.At(On(x)) ensures Stamp(m', y) == Stamp(m, y) {}
  }

  lemma SamePriorities(u: State, t: State, m: Stamps, q: seq<Id>)
    requires t.priorities == u.priorities && InTurn(u, m, q)
    ensures InTurn(t, m, q)
  {
    forall i, j | 0 <= i < j < |q| ensures Before(t, m, q[i], q[j]) { assert Before(u, m, q[i], q[j]); }
  }

  function Stamped(m: Stamps, step: Step, n: nat): Stamps { if step.Awaits? then m[step.c := n] else m }

  lemma Later(s: State, m: Stamps, n: nat)
    requires Ordered(s, m, n)
    ensures Ordered(s, m, n + 1)
  {
    var n' := n + 1;
    forall e ensures ListOK(s, m, n', e) { assert ListOK(s, m, n, e); }
  }

  lemma TickOrdered(s: State, m: Stamps, n: nat)
    requires WellFormed(s) && Ordered(s, m, n)
    ensures Ordered(TickOnce(s), m, n)
  {
    CountTickKeeps(s);
    SameTurns(s, CountTick(s), m, n, 0);
    ExpireOrdered(CountTick(s), m, n);
  }

  lemma StepOrdered(s: State, step: Step, m: Stamps, n: nat)
    requires Inv(s) && Enabled(s, step) && Ordered(s, m, n)
    ensures Ordered(Do(s, step), Stamped(m, step, n), n + 1)
  {
    if step.Awaits? {
      AwaitOrdered(s, step.c, step.d, step.e, m, n);
    } else {
      OtherOrdered(s, step, m, n);
      Later(Do(s, step), m, n);
    }
  }

  lemma OtherOrdered(s: State, step: Step, m: Stamps, n: nat)
    requires Inv(s) && Enabled(s, step) && !step.Awaits? && Ordered(s, m, n)
    ensures Ordered(Do(s, step), m, n)
  {
    match step {
      case Tick => TickOrdered(s, m, n);
      case Delays(c, d) => SameTurns(s, Delay(s, c, d), m, n, c);
      case Signals(e) => SignalOrdered(s, e, m, n);
      case Drains => DrainOrdered(s, m, n);
      case Dispatches => SameTurns(s, Dispatch(s).0, m, n, 0);
      case Creates(c, p) => CreateOrdered(s, c, p, m, n);
    }
  }

  // ----- runs ---------------------------------------------------------------------------

  /** The stamps after a run that began at step `n`. */
  ghost function StampsAfter(steps: seq<Step>, m: Stamps, n: nat): Stamps {
    if steps == [] then m else StampsAfter(steps[1..], Stamped(m, steps[0], n), n + 1)
  }

  lemma {:induction false} RunOrdered(s: State, steps: seq<Step>, m: Stamps, n: nat)
    requires Inv(s) && Legal(s, steps) && Ordered(s, m, n)
    ensures Ordered(Run(s, steps), StampsAfter(steps, m, n), n + |steps|)
    decreases |steps|
  {
    if steps != [] {
      StepKeeps(s, steps[0]);
      StepOrdered(s, steps[0], m, n);
      RunOrdered(Do(s, steps[0]), steps[1..], Stamped(m, steps[0], n), n + 1);
    }
  }

  /** The lists after prvInitialiseCoRoutineLists. */
  ghost predicate Starting(s: State) { Inv(s) && forall p :: s.At(p) == [] }

  /** The signal moves to the pending list the one co-routine on the event that is before all others. */
  ghost predicate ServesInTurn(s: State, m: Stamps, e: Event)
    requires s.At(On(e)) != []
  {
    var x, t := s.At(On(e))[0], Signal(s, e);
    && t.At(Pending) == s.At(Pending) + [x] && t.At(On(e)) == s.At(On(e))[1..]
    && forall c :: c in s.At(On(e)) && c != x ==> Before(s, m, x, c)
  }

  /** In every state reached, an event list stands in order of priority, and of arrival among equals; so a signal moves to
      the pending list a waiter than which none on the event has a higher priority, the longest waiting of its equals. */
  lemma SignalServesInTurn(s: State, steps: seq<Step>, e: Event)
    requires Starting(s) && Legal(s, steps)
    ensures var t, m := Run(s, steps), StampsAfter(steps, map[], 0);
            InTurn(t, m, t.At(On(e))) && (t.At(On(e)) != [] ==> ServesInTurn(t, m, e))
  {
    var t, m := Run(s, steps), StampsAfter(steps, map[], 0);
    StartOrdered(s);
    RunKeeps(s, steps);
    RunOrdered(s, steps, map[], 0);
    assert ListOK(t, m, |steps|, e);
    if t.At(On(e)) != [] { FirstServed(t, m, e); }
  }

  lemma StartOrdered(s: State)
    requires Starting(s)
    ensures Ordered(s, map[], 0)
  {
    forall e ensures ListOK(s, map[], 0, e) {}
  }

  lemma FirstServed(s: State, m: Stamps, e: Event)
    requires WellFormed(s) && s.At(On(e)) != [] && InTurn(s, m, s.At(On(e)))
    ensures ServesInTurn(s, m, e)
  {
    var x := s.At(On(e))[0];
    assert Queued(s, On(e)) && Queued(s, Pending) && x in s.At(On(e));
    DropEventKeeps(s, x);
    WithoutNoDup(s.At(On(e)), x);
    WithoutSame(s.At(Pending), x);
    forall c | c in s.At(On(e)) && c != x ensures Before(s, m, x, c) {
      var j :| 0 <= j < |s.At(On(e))| && s.At(On(e))[j] == c;
    }
  }
}
