/** The co-routine scheduler of lib/FreeRTOS-Kernel/croutine.c, as steps on its lists. A list is
    written as the items in order; ready lists also carry the pxIndex position (see Rings). */
module CoRoutines {
  import opened Rings

  type Id = int      // a co-routine
  type Event = int   // an event list

  /** The list an event item is in: the pending ready list or an event list. */
  datatype Place = Pending | On(event: Event)

  datatype State = State(
    ready: seq<Ring<Id>>,          // pxReadyCoRoutineLists, by priority
    delayed: seq<Id>,              // *pxDelayedCoRoutineList
    overflow: seq<Id>,             // *pxOverflowDelayedCoRoutineList
    waiters: map<Place, seq<Id>>,  // xPendingReadyCoRoutineList and the event lists in use
    home: map<Id, Place>,          // pxContainer of the event items
    wakes: map<Id, Tick>,          // xItemValue of the generic items
    priorities: map<Id, nat>,      // uxPriority
    top: nat,                      // uxTopCoRoutineReadyPriority
    tick: Tick)                    // xCoRoutineTickCount
  {
    function Wake(c: Id): Tick { if c in wakes then wakes[c] else 0 }

    function Priority(c: Id): nat { if c in priorities then priorities[c] else 0 }

    function At(p: Place): seq<Id> { if p in waiters then waiters[p] else [] }

    ghost predicate Waiting(c: Id) { c in delayed || c in overflow }

    ghost predicate IsReady(c: Id) { Priority(c) < |ready| && c in ready[Priority(c)].items }
  }

  // ----- lists of co-routines ---------------------------------------------

  /** The item values of a delay list, in list order. */
  function Wakes(s: State, q: seq<Id>): (vs: seq<int>)
    ensures |vs| == |q| && forall i :: 0 <= i < |q| ==> vs[i] == s.Wake(q[i])
  {
    seq(|q|, i requires 0 <= i < |q| => s.Wake(q[i]))
  }

  lemma WithoutSorted(s: State, q: seq<Id>, c: Id)
    requires Sorted(Wakes(s, q))
    ensures Sorted(Wakes(s, Without(q, c)))
  {
    var m := WithoutOrder(q, c);
    forall i, j | 0 <= i < j < |m| ensures Wakes(s, Without(q, c))[i] <= Wakes(s, Without(q, c))[j] {
      assert Wakes(s, q)[m[i]] <= Wakes(s, q)[m[j]];
    }
  }

  // ----- the invariant -----------------------------------------------------

  /** What one ready list holds. */
  ghost predicate Slot(s: State, p: nat)
    requires p < |s.ready|
  {
    && s.ready[p].Valid()
    && (forall c :: c in s.ready[p].items ==> s.Priority(c) == p)
    && (p > s.top ==> s.ready[p].items == [])
  }

  ghost predicate ReadyOK(s: State) {
    s.top < |s.ready| && forall p :: 0 <= p < |s.ready| ==> Slot(s, p)
  }

  ghost predicate Parked(s: State, q: seq<Id>) {
    && NoDup(q) && Sorted(Wakes(s, q))
    && forall c :: c in q ==> s.Priority(c) < |s.ready| && !s.IsReady(c)
  }

  ghost predicate DelayOK(s: State) {
    && Parked(s, s.delayed) && Parked(s, s.overflow)
    && forall c :: c in s.delayed ==> c !in s.overflow
  }

  /** What one list of event items holds. */
  ghost predicate Queued(s: State, p: Place) {
    && NoDup(s.At(p))
    && forall c :: c in s.At(p) ==> c in s.home && s.home[c] == p && s.Waiting(c)
  }

  ghost predicate Housed(s: State, c: Id) {
    c in s.home ==> c in s.At(s.home[c])
  }

  ghost predicate EventOK(s: State) {
    (forall p :: Queued(s, p)) && (forall c :: Housed(s, c))
  }

  /** A co-routine is in one place, a ready list or a delay list in wake order, and only a
      delayed one has its event item in a list, the one it records. */
  ghost predicate WellFormed(s: State) { ReadyOK(s) && DelayOK(s) && EventOK(s) }

  /** The current list holds wake times of this epoch, the overflow list wake times of the next. */
  ghost predicate Timely(s: State) {
    && (forall c :: c in s.delayed ==> s.tick < s.Wake(c))
    && (forall c :: c in s.overflow ==> s.Wake(c) <= s.tick)
  }

  ghost predicate Inv(s: State) { WellFormed(s) && Timely(s) }

  // ----- the operations ----------------------------------------------------

  /** prvAddCoRoutineToReadyQueue */
  function MakeReady(s: State, c: Id): State
    requires ReadyOK(s) && s.Priority(c) < |s.ready|
  {
    var p := s.Priority(c);
    assert Slot(s, p);
    s.(top := if p > s.top then p else s.top, ready := s.ready[p := InsertEnd(s.ready[p], c)])
  }

  lemma ParkedSame(s: State, t: State, q: seq<Id>)
    requires Parked(s, q) && |t.ready| == |s.ready| && t.priorities == s.priorities
    requires forall c :: c in q ==> t.Wake(c) == s.Wake(c) && !t.IsReady(c)
    ensures Parked(t, q)
  {
    assert forall i :: 0 <= i < |q| ==> Wakes(t, q)[i] == t.Wake(q[i]) && q[i] in q;
    assert forall c :: t.Priority(c) == s.Priority(c);
  }

  lemma MakeReadyKeeps(s: State, c: Id)
    requires WellFormed(s) && s.Priority(c) < |s.ready| && !s.Waiting(c) && !s.IsReady(c)
    ensures WellFormed(MakeReady(s, c))
    ensures forall d :: MakeReady(s, c).IsReady(d) <==> s.IsReady(d) || d == c
  {
    var t := MakeReady(s, c);
    MakeReadyOK(s, c);
    ParkedSame(s, t, s.delayed);
    ParkedSame(s, t, s.overflow);
    SameEvents(s, t);
  }

  lemma MakeReadyOK(s: State, c: Id)
    requires ReadyOK(s) && s.Priority(c) < |s.ready| && !s.IsReady(c)
    ensures ReadyOK(MakeReady(s, c))
    ensures forall d :: MakeReady(s, c).IsReady(d) <==> s.IsReady(d) || d == c
  {
    var p, t := s.Priority(c), MakeReady(s, c);
    var r := s.ready[p];
    var k := if r.at == 0 then |r.items| else r.at - 1;
    assert Slot(s, p);
    InsertValid(r, k, c);
    InsertMembers(r.items, k, c);
    forall q | 0 <= q < |t.ready| ensures Slot(t, q) {
      assert Slot(s, q);
      assert forall d :: t.Priority(d) == s.Priority(d);
    }
    forall d ensures t.IsReady(d) <==> s.IsReady(d) || d == c {
      assert t.Priority(d) == s.Priority(d);
    }
  }

  /** The newcomer's turn among the ready ones of its priority is the one vListInsertEnd gives it. */
  lemma ReadyTurn(s: State, c: Id)
    requires WellFormed(s) && s.Priority(c) < |s.ready| && !s.IsReady(c)
    ensures var old_, new_ := s.ready[s.Priority(c)], MakeReady(s, c).ready[s.Priority(c)];
            && old_.Valid() && new_.Valid()
            && Upcoming(new_) == (if old_.at == 0 then Upcoming(old_) + [c] else InsertAt(Upcoming(old_), |old_.items| - 1, c))
            && (forall p :: 0 <= p < |s.ready| && p != s.Priority(c) ==> MakeReady(s, c).ready[p] == s.ready[p])
            && MakeReady(s, c).top >= s.top && (MakeReady(s, c).top == s.top || MakeReady(s, c).top == s.Priority(c))
  {
    assert Slot(s, s.Priority(c));
    InsertEndIsLast(s.ready[s.Priority(c)], c);
  }

  /** EventOK looks at nothing but the event items and who is waiting. */
  lemma SameEvents(s: State, t: State)
    requires EventOK(s) && t.waiters == s.waiters && t.home == s.home
    requires forall c :: c in s.home ==> (t.Waiting(c) <==> s.Waiting(c))
    ensures EventOK(t)
  {
    forall p ensures Queued(t, p) {
      assert Queued(s, p) && t.At(p) == s.At(p);
    }
    forall c ensures Housed(t, c) {
      assert Housed(s, c);
      if c in s.home { assert t.At(s.home[c]) == s.At(s.home[c]); }
    }
  }

  /** uxListRemove on the event item, if it is in a list. */
  function DropEvent(s: State, c: Id): State {
    if c in s.home
    then s.(waiters := s.waiters[s.home[c] := Without(s.At(s.home[c]), c)], home := s.home - {c})
    else s
  }

  lemma DropEventKeeps(s: State, c: Id)
    requires WellFormed(s)
    ensures WellFormed(DropEvent(s, c)) && c !in DropEvent(s, c).home
    ensures forall p :: DropEvent(s, c).At(p) == Without(s.At(p), c)
  {
    forall p ensures DropEvent(s, c).At(p) == Without(s.At(p), c) { DropEventAt(s, c, p); }
    DropEventOK(s, c);
    SameParts(s, DropEvent(s, c));
  }

  lemma DropEventOK(s: State, c: Id)
    requires EventOK(s)
    ensures EventOK(DropEvent(s, c)) && c !in DropEvent(s, c).home
  {
    var t := DropEvent(s, c);
    forall p ensures Queued(t, p) {
      DropEventQueued(s, c, p);
    }
    forall d ensures Housed(t, d) {
      DropEventHoused(s, c, d);
    }
  }

  lemma DropEventQueued(s: State, c: Id, p: Place)
    requires EventOK(s)
    ensures Queued(DropEvent(s, c), p)
  {
    assert Queued(s, p);
    DropEventAt(s, c, p);
    WithoutNoDup(s.At(p), c);
  }

  lemma DropEventHoused(s: State, c: Id, d: Id)
    requires EventOK(s)
    ensures Housed(DropEvent(s, c), d)
  {
    assert Housed(s, d);
    if d in DropEvent(s, c).home {
      DropEventAt(s, c, s.home[d]);
    }
  }

  lemma DropEventAt(s: State, c: Id, p: Place)
    requires EventOK(s)
    ensures DropEvent(s, c).At(p) == Without(s.At(p), c)
  {
    assert Queued(s, p);
    WithoutSame(s.At(p), c);
  }

  /** ReadyOK and DelayOK look at nothing but the ready and delay lists, the wake times, the priorities and the top. */
  lemma SameParts(s: State, t: State)
    requires t.ready == s.ready && t.delayed == s.delayed && t.overflow == s.overflow
    requires t.wakes == s.wakes && t.priorities == s.priorities && t.top == s.top
    ensures ReadyOK(s) ==> ReadyOK(t)
    ensures DelayOK(s) ==> DelayOK(t)
  {
    SameReady(s, t);
    if DelayOK(s) {
      ParkedSame(s, t, s.delayed);
      ParkedSame(s, t, s.overflow);
    }
  }

  lemma SameReady(s: State, t: State)
    requires t.ready == s.ready && t.priorities == s.priorities && t.top == s.top
    ensures ReadyOK(s) ==> ReadyOK(t)
    ensures forall c :: t.IsReady(c) <==> s.IsReady(c)
  {
    forall c ensures t.IsReady(c) <==> s.IsReady(c) {
      assert t.Priority(c) == s.Priority(c);
    }
    if ReadyOK(s) {
      forall p | 0 <= p < |t.ready| ensures Slot(t, p) {
        assert Slot(s, p) && forall c :: t.Priority(c) == s.Priority(c);
      }
    }
  }

  /** uxListRemove on the generic item of a waiting co-routine. */
  function DropDelay(s: State, c: Id): State {
    s.(delayed := Without(s.delayed, c), overflow := Without(s.overflow, c))
  }

  lemma DropDelayKeeps(s: State, c: Id)
    requires WellFormed(s) && c !in s.home
    ensures WellFormed(DropDelay(s, c))
  {
    var t := DropDelay(s, c);
    SameReady(s, t);
    ParkedWithout(s, t, s.delayed, c);
    ParkedWithout(s, t, s.overflow, c);
    SameEvents(s, t);
  }

  lemma ParkedWithout(s: State, t: State, q: seq<Id>, c: Id)
    requires Parked(s, q) && t.ready == s.ready && t.wakes == s.wakes && t.priorities == s.priorities
    ensures Parked(t, Without(q, c))
  {
    WithoutNoDup(q, c);
    WithoutSorted(s, q, c);
    assert Wakes(t, Without(q, c)) == Wakes(s, Without(q, c));
    forall d | d in Without(q, c) ensures t.Priority(d) < |t.ready| && !t.IsReady(d) {
      assert d in q && t.Priority(d) == s.Priority(d) && (t.IsReady(d) <==> s.IsReady(d));
    }
  }

  /** Taking a waiting co-routine out of its delay list and its event list. */
  function Detach(s: State, c: Id): State { DropDelay(DropEvent(s, c), c) }

  lemma DetachKeeps(s: State, c: Id)
    requires WellFormed(s)
    ensures WellFormed(Detach(s, c)) && !Detach(s, c).Waiting(c)
    ensures forall p :: Detach(s, c).At(p) == Without(s.At(p), c)
    ensures forall d :: Detach(s, c).IsReady(d) <==> s.IsReady(d)
  {
    DropEventKeeps(s, c);
    DropDelayKeeps(DropEvent(s, c), c);
    SameReady(s, Detach(s, c));
    assert forall p :: Detach(s, c).At(p) == DropEvent(s, c).At(p);
  }

  /** Moving a waiting co-routine to its ready list. */
  function Rouse(s: State, c: Id): (t: State)
    requires WellFormed(s) && s.Waiting(c)
    ensures WellFormed(t) && t.tick == s.tick && t.wakes == s.wakes
    ensures t.delayed == Without(s.delayed, c) && t.overflow == Without(s.overflow, c)
    ensures forall p :: t.At(p) == Without(s.At(p), c)
    ensures forall d :: t.IsReady(d) <==> s.IsReady(d) || d == c
  {
    DetachKeeps(s, c);
    MakeReadyKeeps(Detach(s, c), c);
    assert forall p :: MakeReady(Detach(s, c), c).At(p) == Detach(s, c).At(p);
    MakeReady(Detach(s, c), c)
  }

  /** The inner loop of prvCheckDelayedList. */
  function Expire(s: State): (t: State)
    requires WellFormed(s)
    ensures WellFormed(t) && t.tick == s.tick && t.wakes == s.wakes
    decreases |s.delayed|
  {
    if s.delayed == [] || s.tick < s.Wake(s.delayed[0]) then s
    else
      WithoutNoDup(s.delayed, s.delayed[0]);
      Expire(Rouse(s, s.delayed[0]))
  }

  /** The counter steps, and at the wrap the delay lists change places. */
  function CountTick(s: State): State {
    if s.tick == MAX_DELAY then s.(tick := 0, delayed := s.overflow, overflow := s.delayed)
    else s.(tick := s.tick + 1)
  }

  lemma SwapKeeps(s: State)
    requires WellFormed(s)
    ensures WellFormed(s.(delayed := s.overflow, overflow := s.delayed))
    ensures forall c :: s.(delayed := s.overflow, overflow := s.delayed).IsReady(c) <==> s.IsReady(c)
  {
    var t := s.(delayed := s.overflow, overflow := s.delayed);
    SameReady(s, t);
    ParkedSame(s, t, s.delayed);
    ParkedSame(s, t, s.overflow);
    SameEvents(s, t);
  }

  lemma CountTickKeeps(s: State)
    requires WellFormed(s)
    ensures WellFormed(CountTick(s))
    ensures forall c :: CountTick(s).IsReady(c) <==> s.IsReady(c)
  {
    var u := s.(tick := CountTick(s).tick);
    SameParts(s, u);
    SameReady(s, u);
    SameEvents(s, u);
    SwapKeeps(u);
  }

  /** One round of the outer loop of prvCheckDelayedList. */
  function TickOnce(s: State): (t: State)
    requires WellFormed(s)
    ensures WellFormed(t)
  {
    CountTickKeeps(s);
    Expire(CountTick(s))
  }

  function Ticks(s: State, n: nat): (t: State)
    requires WellFormed(s)
    ensures WellFormed(t)
    decreases n
  {
    if n == 0 then s else TickOnce(Ticks(s, n - 1))
  }

  /** prvCheckPendingReadyList */
  function Drain(s: State): (t: State)
    requires WellFormed(s)
    ensures WellFormed(t) && t.tick == s.tick && t.wakes == s.wakes
    decreases |s.At(Pending)|
  {
    if s.At(Pending) == [] then s
    else
      var c := s.At(Pending)[0];
      assert Queued(s, Pending) && c in s.At(Pending);
      WithoutNoDup(s.At(Pending), c);
      Drain(Rouse(s, c))
  }

  /** The unsigned sum wraps at 32 bits. */
  function TimeToWake(tick: Tick, d: Tick): (v: Tick)
    ensures v == tick + d || v == tick + d - MAX_DELAY - 1
    ensures v < tick <==> tick + d > MAX_DELAY
  {
    (tick + d) % 0x1_0000_0000
  }

  /** Off the ready list, with the wake time as item value. */
  function Park(s: State, c: Id, v: Tick): State
    requires s.IsReady(c)
  {
    var p := s.Priority(c);
    s.(ready := s.ready[p := Remove(s.ready[p], IndexOf(s.ready[p].items, c))], wakes := s.wakes[c := v])
  }

  /** vListInsert of the generic item into a delay list. */
  function Enlist(s: State, q: seq<Id>, c: Id): seq<Id> {
    InsertAt(q, Position(Wakes(s, q), s.Wake(c)), c)
  }

  /** vCoRoutineAddToDelayedList, for the running co-routine `c` and no event list. */
  function Delay(s: State, c: Id, d: Tick): State
    requires s.IsReady(c)
  {
    var v := TimeToWake(s.tick, d);
    var t := Park(s, c, v);
    if v < s.tick then t.(overflow := Enlist(t, s.overflow, c)) else t.(delayed := Enlist(t, s.delayed, c))
  }

  lemma ParkReadyOK(s: State, c: Id, v: Tick)
    requires ReadyOK(s) && s.IsReady(c)
    ensures ReadyOK(Park(s, c, v))
    ensures forall x :: Park(s, c, v).IsReady(x) <==> s.IsReady(x) && x != c
  {
    var p, t := s.Priority(c), Park(s, c, v);
    var r := s.ready[p];
    assert Slot(s, p);
    RemoveValid(r, IndexOf(r.items, c));
    RemoveMembers(r, IndexOf(r.items, c));
    forall q | 0 <= q < |t.ready| ensures Slot(t, q) {
      assert Slot(s, q);
      assert forall d :: t.Priority(d) == s.Priority(d);
    }
    forall d ensures t.IsReady(d) <==> s.IsReady(d) && d != c {
      assert t.Priority(d) == s.Priority(d);
    }
  }

  lemma RemoveMembers(r: Ring<Id>, k: nat)
    requires r.Valid() && k < |r.items|
    ensures forall d :: d in Remove(r, k).items <==> d in r.items && d != r.items[k]
  {
    assert r.items == r.items[..k] + [r.items[k]] + r.items[k + 1..];
  }

  lemma ParkKeeps(s: State, c: Id, v: Tick)
    requires WellFormed(s) && s.IsReady(c)
    ensures WellFormed(Park(s, c, v)) && !s.Waiting(c)
  {
    var t := Park(s, c, v);
    ParkReadyOK(s, c, v);
    ParkedSame(s, t, s.delayed);
    ParkedSame(s, t, s.overflow);
    SameEvents(s, t);
  }

  /** Sorted insertion keeps a delay list in order. */
  lemma EnlistKeeps(s: State, q: seq<Id>, c: Id)
    requires Parked(s, q) && c !in q && s.Priority(c) < |s.ready| && !s.IsReady(c)
    ensures Parked(s, Enlist(s, q, c)) && forall x :: x in Enlist(s, q, c) <==> x in q || x == c
  {
    var k := Position(Wakes(s, q), s.Wake(c));
    InsertNoDup(q, k, c);
    InsertMembers(q, k, c);
    EnlistSorted(s, q, c);
  }

  lemma EnlistSorted(s: State, q: seq<Id>, c: Id)
    requires Sorted(Wakes(s, q))
    ensures Sorted(Wakes(s, Enlist(s, q, c)))
  {
    var k := Position(Wakes(s, q), s.Wake(c));
    SortedInsert(Wakes(s, q), s.Wake(c));
    assert Wakes(s, InsertAt(q, k, c)) == InsertAt(Wakes(s, q), k, s.Wake(c));
  }

  /** Delaying only moves `c`. */
  lemma DelayMoves(s: State, c: Id, d: Tick)
    requires WellFormed(s) && s.IsReady(c)
    ensures !s.Waiting(c)
    ensures forall x :: x in Delay(s, c, d).delayed <==> x in s.delayed || (x == c && TimeToWake(s.tick, d) >= s.tick)
    ensures forall x :: x in Delay(s, c, d).overflow <==> x in s.overflow || (x == c && TimeToWake(s.tick, d) < s.tick)
    ensures forall x :: Delay(s, c, d).IsReady(x) <==> s.IsReady(x) && x != c
  {
    var v := TimeToWake(s.tick, d);
    var t, u := Park(s, c, v), Delay(s, c, d);
    ParkReadyOK(s, c, v);
    InsertMembers(s.overflow, Position(Wakes(t, s.overflow), t.Wake(c)), c);
    InsertMembers(s.delayed, Position(Wakes(t, s.delayed), t.Wake(c)), c);
    SameReady(t, u);
  }

  /** Delaying keeps every co-routine in one place. */
  lemma DelayKeeps(s: State, c: Id, d: Tick)
    requires WellFormed(s) && s.IsReady(c)
    ensures WellFormed(Delay(s, c, d)) && c !in Delay(s, c, d).home
  {
    var v := TimeToWake(s.tick, d);
    var t, u := Park(s, c, v), Delay(s, c, d);
    DelayMoves(s, c, d);
    ParkKeeps(s, c, v);
    ParkReadyOK(s, c, v);
    NotHoused(s, c);
    EnlistedKeeps(t, c, v < s.tick);
  }

  lemma EnlistedKeeps(t: State, c: Id, wraps: bool)
    requires WellFormed(t) && !t.Waiting(c) && !t.IsReady(c) && t.Priority(c) < |t.ready| && c !in t.home
    ensures WellFormed(if wraps then t.(overflow := Enlist(t, t.overflow, c)) else t.(delayed := Enlist(t, t.delayed, c)))
  {
    var u := if wraps then t.(overflow := Enlist(t, t.overflow, c)) else t.(delayed := Enlist(t, t.delayed, c));
    if wraps { EnlistKeeps(t, t.overflow, c); } else { EnlistKeeps(t, t.delayed, c); }
    SameReady(t, u);
    ParkedSame(t, u, u.delayed);
    ParkedSame(t, u, u.overflow);
    SameEvents(t, u);
  }

  lemma NotHoused(s: State, c: Id)
    requires EventOK(s) && !s.Waiting(c)
    ensures c !in s.home
  {
    assert Housed(s, c);
    assert c in s.home ==> Queued(s, s.home[c]);
  }

  // ----- events, creation, dispatch ----------------------------------------

  /** Event lists are in priority order: the item value is configMAX_CO_ROUTINE_PRIORITIES less the priority. */
  function EventValues(s: State, q: seq<Id>): (vs: seq<int>)
    ensures |vs| == |q| && forall i :: 0 <= i < |q| ==> vs[i] == |s.ready| - s.Priority(q[i])
  {
    seq(|q|, i requires 0 <= i < |q| => |s.ready| - s.Priority(q[i]))
  }

  /** The part of vCoRoutineAddToDelayedList for an event list. */
  function AddEvent(s: State, c: Id, e: Event): State {
    var q := s.At(On(e));
    s.(waiters := s.waiters[On(e) := InsertAt(q, Position(EventValues(s, q), |s.ready| - s.Priority(c)), c)],
       home := s.home[c := On(e)])
  }

  lemma AddEventKeeps(s: State, c: Id, e: Event)
    requires WellFormed(s) && s.Waiting(c) && c !in s.home
    ensures WellFormed(AddEvent(s, c, e))
    ensures forall d :: AddEvent(s, c, e).IsReady(d) <==> s.IsReady(d)
  {
    var q, t := s.At(On(e)), AddEvent(s, c, e);
    PutAwayKeeps(s, t, c, On(e), Position(EventValues(s, q), |s.ready| - s.Priority(c)));
  }

  /** Putting a homeless event item into one list. */
  lemma PutAwayKeeps(s: State, t: State, c: Id, p: Place, k: nat)
    requires WellFormed(s) && s.Waiting(c) && c !in s.home && k <= |s.At(p)|
    requires t == s.(waiters := s.waiters[p := InsertAt(s.At(p), k, c)], home := s.home[c := p])
    ensures WellFormed(t)
    ensures forall d :: t.IsReady(d) <==> s.IsReady(d)
  {
    assert Queued(s, p);
    InsertNoDup(s.At(p), k, c);
    InsertMembers(s.At(p), k, c);
    forall q ensures Queued(t, q) {
      assert Queued(s, q) && (q != p ==> t.At(q) == s.At(q));
    }
    forall d ensures Housed(t, d) {
      assert Housed(s, d);
      if d in t.home && d != c { assert t.At(s.home[d]) == (if s.home[d] == p then InsertAt(s.At(p), k, c) else s.At(s.home[d])); }
    }
    SameParts(s, t);
    SameReady(s, t);
  }

  /** xCoRoutineRemoveFromEventList: the first waiter's event item moves to the pending ready list. */
  function Signal(s: State, e: Event): State
    requires s.At(On(e)) != []
  {
    var c := s.At(On(e))[0];
    var t := DropEvent(s, c);
    t.(waiters := t.waiters[Pending := t.At(Pending) + [c]], home := t.home[c := Pending])
  }

  lemma SignalKeeps(s: State, e: Event)
    requires WellFormed(s) && s.At(On(e)) != []
    ensures WellFormed(Signal(s, e))
    ensures forall d :: Signal(s, e).IsReady(d) <==> s.IsReady(d)
  {
    var c := s.At(On(e))[0];
    assert Queued(s, On(e)) && c in s.At(On(e));
    DropEventKeeps(s, c);
    var t := DropEvent(s, c);
    assert InsertAt(t.At(Pending), |t.At(Pending)|, c) == t.At(Pending) + [c];
    PutAwayKeeps(t, Signal(s, e), c, Pending, |t.At(Pending)|);
    SameReady(s, t);
  }

  /** Exactly the co-routines whose event is pending are readied. */
  lemma {:induction false} DrainExact(s: State)
    requires WellFormed(s)
    ensures Drain(s).At(Pending) == []
    ensures forall c :: Drain(s).IsReady(c) <==> s.IsReady(c) || c in s.At(Pending)
    ensures forall c :: c in Drain(s).delayed <==> c in s.delayed && c !in s.At(Pending)
    ensures forall c :: c in Drain(s).overflow <==> c in s.overflow && c !in s.At(Pending)
    decreases |s.At(Pending)|
  {
    if s.At(Pending) != [] {
      var c := s.At(Pending)[0];
      assert Queued(s, Pending) && c in s.At(Pending);
      WithoutNoDup(s.At(Pending), c);
      DrainExact(Rouse(s, c));
    }
  }

  /** The tail of xCoRoutineCreate, for a co-routine that is in no list. */
  function Create(s: State, c: Id, p: nat): State
    requires WellFormed(s) && !s.Waiting(c) && !s.IsReady(c)
  {
    var q := if p >= |s.ready| then |s.ready| - 1 else p;
    PrioritiseKeeps(s, c, q);
    MakeReady(s.(priorities := s.priorities[c := q]), c)
  }

  lemma PrioritiseKeeps(s: State, c: Id, q: nat)
    requires WellFormed(s) && !s.Waiting(c) && !s.IsReady(c) && q < |s.ready|
    ensures WellFormed(s.(priorities := s.priorities[c := q]))
    ensures forall d :: s.(priorities := s.priorities[c := q]).IsReady(d) <==> s.IsReady(d)
  {
    var t := s.(priorities := s.priorities[c := q]);
    forall p | 0 <= p < |s.ready| ensures Slot(t, p) && c !in s.ready[p].items {
      assert Slot(s, p);
      assert forall d :: d != c ==> t.Priority(d) == s.Priority(d);
    }
    forall d ensures t.IsReady(d) <==> s.IsReady(d) {
      assert d != c ==> t.Priority(d) == s.Priority(d);
    }
    ParkedPrioritised(s, t, c, s.delayed);
    ParkedPrioritised(s, t, c, s.overflow);
    SameEvents(s, t);
  }

  lemma ParkedPrioritised(s: State, t: State, c: Id, q: seq<Id>)
    requires Parked(s, q) && c !in q && |t.ready| == |s.ready| && t.wakes == s.wakes
    requires forall d :: (d != c ==> t.Priority(d) == s.Priority(d)) && (t.IsReady(d) <==> s.IsReady(d))
    ensures Parked(t, q)
  {
    assert Wakes(t, q) == Wakes(s, q);
  }

  lemma CreateKeeps(s: State, c: Id, p: nat)
    requires WellFormed(s) && !s.Waiting(c) && !s.IsReady(c)
    ensures WellFormed(Create(s, c, p))
    ensures forall d :: Create(s, c, p).IsReady(d) <==> s.IsReady(d) || d == c
    ensures Create(s, c, p).Priority(c) == p || (p >= |s.ready| && Create(s, c, p).Priority(c) == |s.ready| - 1)
    ensures forall d :: d != c ==> Create(s, c, p).Priority(d) == s.Priority(d)
  {
    var q := if p >= |s.ready| then |s.ready| - 1 else p;
    PrioritiseKeeps(s, c, q);
    MakeReadyKeeps(s.(priorities := s.priorities[c := q]), c);
  }

  /** The search of vCoRoutineSchedule for the highest ready priority. */
  function TopReady(ready: seq<Ring<Id>>, top: nat): (p: nat)
    requires top < |ready|
    ensures p <= top && (ready[p].items != [] || p == 0)
    ensures forall q :: p < q <= top ==> ready[q].items == []
  {
    if ready[top].items != [] || top == 0 then top else TopReady(ready, top - 1)
  }

  /** The dispatch part of vCoRoutineSchedule: the next state and who runs. */
  function Dispatch(s: State): (State, Option<Id>)
    requires ReadyOK(s)
  {
    var p := TopReady(s.ready, s.top);
    assert Slot(s, p);
    var t := s.(top := p);
    if s.ready[p].items == [] then (t, None)
    else
      var r := Next(s.ready[p]);
      (t.(ready := s.ready[p := r]), Some(r.items[r.at - 1]))
  }

  lemma ServeKeeps(s: State, p: nat, r: Ring<Id>)
    requires WellFormed(s) && p < |s.ready| && r.items == s.ready[p].items && r.at <= |r.items|
    requires forall q :: p < q <= s.top ==> s.ready[q].items == []
    ensures p <= s.top ==> WellFormed(s.(top := p, ready := s.ready[p := r]))
    ensures forall c :: s.(top := p, ready := s.ready[p := r]).IsReady(c) <==> s.IsReady(c)
  {
    var t := s.(top := p, ready := s.ready[p := r]);
    assert forall d :: t.Priority(d) == s.Priority(d);
    forall q | 0 <= q < |t.ready| && p <= s.top ensures Slot(t, q) {
      assert Slot(s, q);
    }
    ParkedSame(s, t, s.delayed);
    ParkedSame(s, t, s.overflow);
    SameEvents(s, t);
  }

  lemma DispatchKeeps(s: State)
    requires WellFormed(s)
    ensures WellFormed(Dispatch(s).0)
    ensures forall c :: Dispatch(s).0.IsReady(c) <==> s.IsReady(c)
  {
    var p := TopReady(s.ready, s.top);
    assert Slot(s, p);
    assert s.ready == s.ready[p := s.ready[p]];
    ServeKeeps(s, p, if s.ready[p].items == [] then s.ready[p] else Next(s.ready[p]));
  }

  /** Nobody runs only when nobody is ready. */
  lemma DispatchIdle(s: State)
    requires WellFormed(s)
    ensures Dispatch(s).1 == None <==> forall c :: !s.IsReady(c)
  {
    var p := TopReady(s.ready, s.top);
    assert Slot(s, p);
    forall d | s.IsReady(d) ensures s.ready[p].items != [] {
      assert Slot(s, s.Priority(d));
    }
    if s.ready[p].items != [] {
      assert s.ready[p].items[0] in s.ready[p].items;
      assert s.IsReady(s.ready[p].items[0]);
    }
  }

  /** Whoever runs is ready and of the highest ready priority, and goes to the back of its round. */
  lemma DispatchHighest(s: State)
    requires WellFormed(s) && Dispatch(s).1 != None
    ensures var c := Dispatch(s).1.value;
            && s.IsReady(c) && (forall d :: s.IsReady(d) ==> s.Priority(d) <= s.Priority(c))
            && Slot(s, s.Priority(c)) && Slot(Dispatch(s).0, s.Priority(c))
            && Upcoming(s.ready[s.Priority(c)])[0] == c
            && Upcoming(Dispatch(s).0.ready[s.Priority(c)]) == Upcoming(s.ready[s.Priority(c)])[1..] + [c]
  {
    DispatchKeeps(s);
    var p := TopReady(s.ready, s.top);
    assert Slot(s, p);
    forall d | s.IsReady(d) ensures s.Priority(d) <= p {
      assert Slot(s, s.Priority(d));
    }
    NextRotates(s.ready[p]);
    var c := Next(s.ready[p]).items[Next(s.ready[p]).at - 1];
    assert c in s.ready[p].items && s.Priority(c) == p;
    assert Slot(Dispatch(s).0, p);
  }
}
