/** The timers of furi/core/event_loop_timer.c: a list of active timers by remaining time and a
    queue of deferred requests, on a 32-bit clock that wraps. */
module Timers {
  import opened Rings

  type Id = int
  const WAIT_FOREVER: Tick := 0xFFFF_FFFF   // FuriWaitForever

  datatype Request = Idle | Start | Stop | Free   // Idle is FuriEventLoopTimerRequestNone

  datatype Timer = Timer(interval: Tick, start: Tick, next: Tick, request: Request, active: bool, periodic: bool)

  /** What furi_event_loop_timer_alloc leaves behind. */
  function NewTimer(periodic: bool): Timer { Timer(0, 0, 0, Idle, false, periodic) }

  datatype State = State(
    timers: map<Id, Timer>,   // the allocated timers
    list: seq<Id>,            // timer_list, the active ones
    queue: seq<Id>,           // timer_queue
    now: Tick)                // xTaskGetTickCount
  {
    function At(x: Id): Timer { if x in timers then timers[x] else NewTimer(false) }
  }

  /** furi_event_loop_timer_get_remaining_time_private */
  function Remaining(t: Timer, now: Tick): (r: Tick) {
    var e := Elapsed(now, t.start);
    if e < t.interval then t.interval - e else 0
  }

  predicate Expired(t: Timer, now: Tick) { Elapsed(now, t.start) >= t.interval }

  /** A timer is expired exactly when it has no time left ... */
  lemma ExpiredExact(t: Timer, now: Tick)
    ensures Expired(t, now) <==> Remaining(t, now) == 0
  {}

  /** ... that is, from its interval after its start on, across a wrap of the clock. */
  lemma ExpiresAfter(t: Timer, k: Tick)
    ensures Expired(t, (t.start + k) % 0x1_0000_0000) <==> k >= t.interval
  {}

  function Rems(s: State, q: seq<Id>): (vs: seq<int>)
    ensures |vs| == |q| && forall i :: 0 <= i < |q| ==> vs[i] == Remaining(s.At(q[i]), s.now)
  {
    seq(|q|, i requires 0 <= i < |q| => Remaining(s.At(q[i]), s.now))
  }

  /** A timer is queued exactly while it has a request, and listed exactly while it is active. */
  ghost predicate Placed(s: State, x: Id) {
    && (x in s.queue <==> x in s.timers && s.At(x).request != Idle)
    && (x in s.list <==> x in s.timers && s.At(x).active)
  }

  ghost predicate Inv(s: State) {
    && NoDup(s.queue) && NoDup(s.list)
    && (forall x :: Placed(s, x))
    && Sorted(Rems(s, s.list))
  }

  // ----- time --------------------------------------------------------------

  /** Letting `k` ticks pass takes `k` off the remaining time, down to 0, exactly when the timer has not
      been left 2^32 ticks past its start, or when its wrapped age still exceeds its interval. */
  lemma RemainingAfter(t: Timer, now: Tick, k: Tick, later: Tick)
    requires Elapsed(later, now) == k
    ensures Remaining(t, later) == (if Remaining(t, now) > k then Remaining(t, now) - k else 0) <==>
            (Elapsed(now, t.start) + k <= MAX_DELAY || Elapsed(now, t.start) + k - MAX_DELAY - 1 >= t.interval)
  {}

  /** An expired timer that nobody serves for 2^32 ticks comes back to life. */
  lemma StaleTimerRevives()
    ensures var t := Timer(10, 0, 10, Idle, true, false);
            Expired(t, MAX_DELAY) && Remaining(t, MAX_DELAY) == 0 && Remaining(t, 0) == 10
  {}

  /** No active timer is left 2^32 ticks past its start while `k` ticks pass. */
  ghost predicate Served(s: State, k: Tick) {
    forall x :: x in s.list ==> Elapsed(s.now, s.At(x).start) + k <= MAX_DELAY
  }

  function Pass(s: State, k: Tick): State { s.(now := (s.now + k) % 0x1_0000_0000) }

  /** Time alone keeps the list sorted. */
  lemma PassKeeps(s: State, k: Tick)
    requires Inv(s) && Served(s, k)
    ensures Inv(Pass(s, k))
    ensures forall x :: x in s.list ==> Remaining(s.At(x), Pass(s, k).now) == if Remaining(s.At(x), s.now) > k then Remaining(s.At(x), s.now) - k else 0
  {
    var t := Pass(s, k);
    assert Elapsed(t.now, s.now) == k;
    forall x ensures Placed(t, x) { assert Placed(s, x); }
    forall x | x in s.list ensures Remaining(s.At(x), t.now) == if Remaining(s.At(x), s.now) > k then Remaining(s.At(x), s.now) - k else 0 {
      RemainingAfter(s.At(x), s.now, k, t.now);
    }
    forall i, j | 0 <= i < j < |s.list| ensures Rems(t, s.list)[i] <= Rems(t, s.list)[j] {
      assert s.list[i] in s.list && s.list[j] in s.list && t.At(s.list[i]) == s.At(s.list[i]) && t.At(s.list[j]) == s.At(s.list[j]);
      assert Rems(s, s.list)[i] <= Rems(s, s.list)[j];
    }
  }

  /** furi_event_loop_get_timer_wait_time */
  function WaitTime(s: State): Tick {
    if s.list == [] then WAIT_FOREVER else Remaining(s.At(s.list[0]), s.now)
  }

  /** The loop never plans to sleep past a deadline: its wait is the least remaining time of all active timers. */
  lemma WaitIsLeast(s: State)
    requires Inv(s)
    ensures forall x :: x in s.timers && s.At(x).active ==> WaitTime(s) <= Remaining(s.At(x), s.now)
    ensures if exists x :: x in s.timers && s.At(x).active
            then exists x :: x in s.timers && s.At(x).active && Remaining(s.At(x), s.now) == WaitTime(s)
            else WaitTime(s) == WAIT_FOREVER
  {
    forall x | x in s.timers && s.At(x).active ensures WaitTime(s) <= Remaining(s.At(x), s.now) {
      assert Placed(s, x);
      var i :| 0 <= i < |s.list| && s.list[i] == x;
      assert Rems(s, s.list)[0] == WaitTime(s) && (i > 0 ==> Rems(s, s.list)[0] <= Rems(s, s.list)[i]);
    }
    if s.list != [] {
      assert Placed(s, s.list[0]) && s.list[0] in s.list;
    } else {
      forall x ensures !(x in s.timers && s.At(x).active) { assert Placed(s, x); }
    }
  }

  // ----- the active list -----------------------------------------------------

  /** Where furi_event_loop_schedule_timer stops, walking back from the end: after the last timer due no later. */
  function Slot(vs: seq<int>, v: int): (k: nat)
    ensures k <= |vs|
  {
    if vs == [] then 0 else if v >= vs[|vs| - 1] then |vs| else Slot(vs[..|vs| - 1], v)
  }

  /** On a sorted list that is in front of the first timer due later, so equals stay in order of arrival. */
  lemma {:induction false} SlotIsPosition(vs: seq<int>, v: int)
    requires Sorted(vs)
    ensures Slot(vs, v) == Position(vs, v)
  {
    if vs != [] {
      var n := |vs| - 1;
      if v < vs[n] {
        SlotIsPosition(vs[..n], v);
        PositionPrefix(vs, v);
      }
    }
  }

  lemma PositionPrefix(vs: seq<int>, v: int)
    requires vs != [] && v < vs[|vs| - 1]
    ensures Position(vs, v) == Position(vs[..|vs| - 1], v)
  {}

  /** furi_event_loop_schedule_timer, on the list. */
  function Scheduled(s: State, x: Id): State {
    s.(list := InsertAt(s.list, Slot(Rems(s, s.list), Remaining(s.At(x), s.now)), x))
  }

  /** The values of a sublist of a sorted list are sorted. */
  lemma WithoutSorted(s: State, q: seq<Id>, x: Id)
    requires Sorted(Rems(s, q))
    ensures Sorted(Rems(s, Without(q, x)))
  {
    var m := WithoutOrder(q, x);
    forall i, j | 0 <= i < j < |m| ensures Rems(s, Without(q, x))[i] <= Rems(s, Without(q, x))[j] {
      assert Rems(s, q)[m[i]] <= Rems(s, q)[m[j]];
    }
  }

  lemma RemsFrame(s: State, t: State, q: seq<Id>)
    requires t.now == s.now && forall x :: x in q ==> t.At(x) == s.At(x)
    ensures Rems(t, q) == Rems(s, q)
  {
    assert forall i :: 0 <= i < |q| ==> q[i] in q;
  }

  lemma ScheduledKeeps(s: State, x: Id)
    requires NoDup(s.list) && x !in s.list && Sorted(Rems(s, s.list))
    ensures NoDup(Scheduled(s, x).list) && Sorted(Rems(Scheduled(s, x), Scheduled(s, x).list))
    ensures forall y :: y in Scheduled(s, x).list <==> y in s.list || y == x
    ensures Scheduled(s, x).list == InsertAt(s.list, Position(Rems(s, s.list), Remaining(s.At(x), s.now)), x)
  {
    var vs, v, t := Rems(s, s.list), Remaining(s.At(x), s.now), Scheduled(s, x);
    SlotIsPosition(vs, v);
    SortedInsert(vs, v);
    var k := Position(vs, v);
    InsertMembers(s.list, k, x);
    InsertNoDup(s.list, k, x);
    RemsFrame(s, t, t.list);
    RemsInsert(s, s.list, k, x);
  }

  lemma RemsInsert(s: State, q: seq<Id>, k: nat, x: Id)
    requires k <= |q|
    ensures Rems(s, InsertAt(q, k, x)) == InsertAt(Rems(s, q), k, Remaining(s.At(x), s.now))
  {}

  // ----- requests --------------------------------------------------------------

  /** furi_event_loop_timer_enqueue_request, after `next` was set for a start; not allowed once a free is pending. */
  function Enqueue(s: State, x: Id, r: Request, next: Tick): State
    requires x in s.timers
  {
    var t := s.At(x);
    var q := if t.request != Idle then Without(s.queue, x) else s.queue;
    s.(timers := s.timers[x := t.(request := r, next := if r == Start then next else t.next)], queue := q + [x])
  }

  lemma EnqueueKeeps(s: State, x: Id, r: Request, next: Tick)
    requires Inv(s) && x in s.timers && r != Idle
    ensures Inv(Enqueue(s, x, r, next))
  {
    var t := Enqueue(s, x, r, next);
    assert Placed(s, x);
    WithoutNoDup(s.queue, x);
    WithoutSame(s.queue, x);
    var q := Without(s.queue, x);
    assert t.queue == InsertAt(q, |q|, x);
    InsertNoDup(q, |q|, x);
    InsertMembers(q, |q|, x);
    forall y ensures Placed(t, y) {
      assert Placed(s, y);
      assert y != x ==> t.At(y) == s.At(y);
    }
    forall y ensures Remaining(t.At(y), t.now) == Remaining(s.At(y), s.now) {
      assert y != x ==> t.At(y) == s.At(y);
    }
    assert Rems(t, t.list) == Rems(s, s.list);
  }

  /** The head of the queue taken off it and off the active list, with its request carried out ... */
  function Relieved(s: State): State
    requires s.queue != [] && s.queue[0] in s.timers
  {
    var x := s.queue[0];
    var t := s.At(x);
    var u := s.(queue := s.queue[1..], list := if t.active then Without(s.list, x) else s.list);
    match t.request
    case Start => u.(timers := u.timers[x := t.(active := true, interval := t.next, start := s.now, request := Idle)])
    case Stop => u.(timers := u.timers[x := t.(active := false, request := Idle)])
    case Free => u.(timers := u.timers - {x})
    case Idle => u
  }

  /** ... and scheduled if that was a start: one round of furi_event_loop_process_timer_queue. */
  function ServeHead(s: State): State
    requires s.queue != [] && s.queue[0] in s.timers
  {
    if s.At(s.queue[0]).request == Start then Scheduled(Relieved(s), s.queue[0]) else Relieved(s)
  }

  /** What its last request makes of a timer. */
  ghost predicate Answered(s: State, t: State, x: Id)
    requires x in s.timers
  {
    match s.At(x).request
    case Start => x in t.timers && t.At(x) == s.At(x).(active := true, interval := s.At(x).next, start := s.now, request := Idle)
    case Stop => x in t.timers && t.At(x) == s.At(x).(active := false, request := Idle)
    case Free => x !in t.timers
    case Idle => x in t.timers && t.At(x) == s.At(x)
  }

  lemma ServeHeadKeeps(s: State)
    requires Inv(s) && s.queue != []
    ensures s.queue[0] in s.timers && s.At(s.queue[0]).request != Idle
    ensures Inv(ServeHead(s)) && ServeHead(s).now == s.now && ServeHead(s).queue == s.queue[1..]
    ensures Answered(s, ServeHead(s), s.queue[0])
    ensures forall y :: y != s.queue[0] ==> ServeHead(s).At(y) == s.At(y) && (y in ServeHead(s).timers <==> y in s.timers)
  {
    var x := s.queue[0];
    assert Placed(s, x) && x in s.queue;
    WithoutSame(s.list, x);
    WithoutNoDup(s.list, x);
    WithoutSorted(s, s.list, x);
    ServeHeadList(s);
    Settle(s, ServeHead(s));
  }

  lemma ServeHeadList(s: State)
    requires s.queue != [] && s.queue[0] in s.timers && s.At(s.queue[0]).request != Idle
    requires NoDup(Without(s.list, s.queue[0])) && Sorted(Rems(s, Without(s.list, s.queue[0])))
    requires !s.At(s.queue[0]).active ==> Without(s.list, s.queue[0]) == s.list
    ensures var t, x := ServeHead(s), s.queue[0];
            && NoDup(t.list) && Sorted(Rems(t, t.list))
            && (forall y :: y in t.list <==> y in Without(s.list, x) || (y == x && s.At(x).request == Start))
            && (forall y :: y != x ==> t.At(y) == s.At(y))
  {
    RelievedRems(s);
    if s.At(s.queue[0]).request == Start {
      ScheduledKeeps(Relieved(s), s.queue[0]);
    }
    ServeHeadFrame(s);
  }

  lemma ServeHeadFrame(s: State)
    requires s.queue != [] && s.queue[0] in s.timers
    ensures forall y :: y != s.queue[0] ==> ServeHead(s).At(y) == s.At(y)
  {}

  lemma RelievedRems(s: State)
    requires s.queue != [] && s.queue[0] in s.timers
    ensures var q := Without(s.list, s.queue[0]); Rems(Relieved(s), q) == Rems(s, q)
  {
    RelievedFrame(s);
    RemsFrame(s, Relieved(s), Without(s.list, s.queue[0]));
  }

  lemma RelievedFrame(s: State)
    requires s.queue != [] && s.queue[0] in s.timers
    ensures forall y :: y != s.queue[0] ==> Relieved(s).At(y) == s.At(y)
  {}

  /** Where everything is after one timer has been served. */
  lemma Settle(s: State, t: State)
    requires Inv(s) && s.queue != [] && t.queue == s.queue[1..]
    requires NoDup(t.list) && Sorted(Rems(t, t.list))
    requires forall y :: y != s.queue[0] ==> t.At(y) == s.At(y) && (y in t.timers <==> y in s.timers)
    requires var x := s.queue[0];
             && (x in t.timers ==> t.At(x).request == Idle)
             && (forall y :: y in t.list <==> (y in s.list && y != x) || (y == x && x in t.timers && t.At(x).active))
    ensures Inv(t)
  {
    assert s.queue[0] !in t.queue;
    assert forall y :: y in s.queue <==> y == s.queue[0] || y in t.queue;
    forall y ensures Placed(t, y) { assert Placed(s, y); }
  }

  /** furi_event_loop_process_timer_queue */
  function Serve(s: State): (t: State)
    requires Inv(s)
    ensures Inv(t) && t.queue == [] && t.now == s.now
    decreases |s.queue|
  {
    if s.queue == [] then s
    else
      ServeHeadKeeps(s);
      Serve(ServeHead(s))
  }

  /** Draining the queue leaves every timer as its last request asks, started now, stopped or freed. */
  lemma {:induction false} ServeAnswers(s: State)
    requires Inv(s)
    ensures forall x :: x in s.timers ==> Answered(s, Serve(s), x)
    ensures forall x :: x in Serve(s).timers ==> x in s.timers
    decreases |s.queue|
  {
    if s.queue != [] {
      ServeHeadKeeps(s);
      var h, u := s.queue[0], ServeHead(s);
      ServeAnswers(u);
      forall x | x in s.timers ensures Answered(s, Serve(s), x) {
        assert x in u.timers ==> Answered(u, Serve(u), x);
        assert x !in u.timers ==> x == h && x !in Serve(u).timers;
      }
    } else {
      forall x | x in s.timers ensures Answered(s, s, x) { assert Placed(s, x); }
    }
  }

  /** One call of the timer API: start with an interval, restart, stop or free. */
  datatype Call = Call(timer: Id, request: Request, next: Tick)

  ghost predicate Allowed(s: State, c: Call) {
    c.timer in s.timers && c.request != Idle && s.At(c.timer).request != Free
  }

  ghost predicate AllAllowed(s: State, calls: seq<Call>)
    decreases |calls|
  {
    calls != [] ==>
      Allowed(s, calls[0]) && AllAllowed(Enqueue(s, calls[0].timer, calls[0].request, calls[0].next), calls[1..])
  }

  ghost function EnqueueAll(s: State, calls: seq<Call>): State
    requires AllAllowed(s, calls)
    decreases |calls|
  {
    if calls == [] then s
    else EnqueueAll(Enqueue(s, calls[0].timer, calls[0].request, calls[0].next), calls[1..])
  }

  /** The last call for `x`, or what was requested before. */
  ghost function LastRequest(s: State, calls: seq<Call>, x: Id): Request {
    if calls == [] then s.At(x).request
    else if calls[|calls| - 1].timer == x then calls[|calls| - 1].request
    else LastRequest(s, calls[..|calls| - 1], x)
  }

  /** The interval of the last start of `x`, or the one it had been given before. */
  ghost function LastInterval(s: State, calls: seq<Call>, x: Id): Tick {
    if calls == [] then s.At(x).next
    else if calls[|calls| - 1].timer == x && calls[|calls| - 1].request == Start then calls[|calls| - 1].next
    else LastInterval(s, calls[..|calls| - 1], x)
  }

  lemma {:induction false} LastOfRest(s: State, calls: seq<Call>, x: Id)
    requires calls != [] && calls[0].timer in s.timers
    ensures var t := Enqueue(s, calls[0].timer, calls[0].request, calls[0].next);
            LastRequest(t, calls[1..], x) == LastRequest(s, calls, x) && LastInterval(t, calls[1..], x) == LastInterval(s, calls, x)
    decreases |calls|
  {
    var n := |calls| - 1;
    if n > 0 {
      assert calls[1..][n - 1] == calls[n];
      assert calls[1..][..n - 1] == calls[..n][1..];
      LastOfRest(s, calls[..n], x);
    } else {
      assert calls[..0] == [] && calls[1..] == [];
      assert LastRequest(s, calls[..0], x) == s.At(x).request && LastInterval(s, calls[..0], x) == s.At(x).next;
    }
  }

  /** Calls change nothing but the request and the interval to come. */
  lemma {:induction false} EnqueueAllKeeps(s: State, calls: seq<Call>)
    requires Inv(s) && AllAllowed(s, calls)
    ensures var t := EnqueueAll(s, calls);
            && Inv(t) && t.timers.Keys == s.timers.Keys && t.list == s.list && t.now == s.now
            && forall x :: t.At(x) == s.At(x).(request := LastRequest(s, calls, x), next := LastInterval(s, calls, x))
    decreases |calls|
  {
    if calls != [] {
      var c := calls[0];
      EnqueueKeeps(s, c.timer, c.request, c.next);
      EnqueueAllKeeps(Enqueue(s, c.timer, c.request, c.next), calls[1..]);
      forall x ensures EnqueueAll(s, calls).At(x) == s.At(x).(request := LastRequest(s, calls, x), next := LastInterval(s, calls, x)) {
        LastOfRest(s, calls, x);
      }
    }
  }

  /** What the last call for a timer makes of it: running from now with the interval of its last start, stopped, freed, or
      what it was. */
  ghost predicate Obeys(s: State, t: State, x: Id, last: Request, interval: Tick) {
    match last
    case Start => x in t.timers && x in t.list && t.At(x).active && t.At(x).interval == interval && Remaining(t.At(x), t.now) == interval
    case Stop => x in t.timers && !t.At(x).active && x !in t.list
    case Free => x !in t.timers && x !in t.list
    case Idle => x in t.timers && t.At(x) == s.At(x) && (x in t.list <==> x in s.list)
  }

  /** However requests pile up before the queue is drained, each timer ends as the last of them asks, and one that got
      none stays as it was. */
  lemma LastRequestWins(s: State, calls: seq<Call>)
    requires Inv(s) && AllAllowed(s, calls)
    ensures var t := Serve(EnqueueAllInv(s, calls));
            && Inv(t) && t.queue == [] && t.now == s.now
            && forall x :: x in s.timers ==> Obeys(s, t, x, LastRequest(s, calls, x), LastInterval(s, calls, x))
  {
    EnqueueAllKeeps(s, calls);
    var u := EnqueueAll(s, calls);
    var t := Serve(u);
    ServeAnswers(u);
    forall x | x in s.timers ensures Obeys(s, t, x, LastRequest(s, calls, x), LastInterval(s, calls, x)) {
      assert Answered(u, t, x) && Placed(t, x) && Placed(s, x);
      if LastRequest(s, calls, x) == Idle { Uncalled(s, calls, x); }
    }
  }

  lemma {:induction false} Uncalled(s: State, calls: seq<Call>, x: Id)
    requires AllAllowed(s, calls) && LastRequest(s, calls, x) == Idle
    ensures LastInterval(s, calls, x) == s.At(x).next && s.At(x).request == Idle
    decreases |calls|
  {
    if calls != [] {
      LastOfRest(s, calls, x);
      Uncalled(Enqueue(s, calls[0].timer, calls[0].request, calls[0].next), calls[1..], x);
    }
  }

  /** Two timers started one after the other with one interval stand in the list, and so fire, in that order. */
  lemma StartedInOrder(s: State, a: Id, b: Id, n: Tick)
    requires Inv(s) && s.queue == [] && a != b && a in s.timers && b in s.timers
    ensures var calls := [Call(a, Start, n), Call(b, Start, n)];
            && AllAllowed(s, calls)
            && var t := Serve(EnqueueAllInv(s, calls));
               a in t.list && b in t.list && IndexOf(t.list, a) < IndexOf(t.list, b)
  {
    var v := BothQueued(s, a, b, n);
    ServeHeadKeeps(v);
    var w := ServeHead(v);
    FirstServed(v, a, n);
    assert w.At(b) == v.At(b);
    ServeHeadKeeps(w);
    assert Serve(v) == Serve(w) == ServeHead(w);
    LastBehind(w, a, n);
  }

  lemma BothQueued(s: State, a: Id, b: Id, n: Tick) returns (v: State)
    requires Inv(s) && s.queue == [] && a != b && a in s.timers && b in s.timers
    ensures var calls := [Call(a, Start, n), Call(b, Start, n)]; AllAllowed(s, calls) && v == EnqueueAllInv(s, calls)
    ensures Inv(v) && v.queue == [a, b] && v.At(a).request == v.At(b).request == Start && v.At(a).next == v.At(b).next == n
  {
    var calls := [Call(a, Start, n), Call(b, Start, n)];
    assert Placed(s, a) && Placed(s, b);
    var u := Enqueue(s, a, Start, n);
    assert calls[1..] == [Call(b, Start, n)] && calls[1..][1..] == [];
    assert Allowed(u, calls[1]);
    assert AllAllowed(u, calls[1..]);
    v := EnqueueAllInv(s, calls);
    var rest := calls[1..];
    assert rest[0] == Call(b, Start, n) && rest[1..] == [];
    assert v == EnqueueAll(s, calls) == EnqueueAll(u, rest) == EnqueueAll(Enqueue(u, b, Start, n), rest[1..]);
    assert v == Enqueue(u, b, Start, n);
    assert u.queue == [a] && u.At(b) == s.At(b);
  }

  lemma FirstServed(s: State, a: Id, n: Tick)
    requires Inv(s) && s.queue != [] && s.queue[0] == a && s.At(a).request == Start && s.At(a).next == n
    ensures var t := ServeHead(s); a in t.list && Remaining(t.At(a), t.now) == n
  {
    ServeHeadKeeps(s);
    assert Placed(ServeHead(s), a);
  }

  /** A timer that is started goes behind every listed one due at the same time or before. */
  lemma LastBehind(s: State, a: Id, n: Tick)
    requires Inv(s) && s.queue != [] && s.queue[0] in s.timers && s.At(s.queue[0]).request == Start && s.At(s.queue[0]).next == n
    requires a in s.list && a != s.queue[0] && Remaining(s.At(a), s.now) <= n
    ensures var t := ServeHead(s); a in t.list && s.queue[0] in t.list && IndexOf(t.list, a) < IndexOf(t.list, s.queue[0])
  {
    var b, u := s.queue[0], Relieved(s);
    var q := Without(s.list, b);
    RelievedList(s);
    RelievedFrame(s);
    ScheduledKeeps(u, b);
    BeforePosition(Rems(u, q), n, IndexOf(q, a));
    IndexInserted(q, Position(Rems(u, q), n), b, a);
  }

  lemma RelievedList(s: State)
    requires Inv(s) && s.queue != [] && s.queue[0] in s.timers && s.At(s.queue[0]).request == Start
    ensures var b, u := s.queue[0], Relieved(s);
            && u.list == Without(s.list, b) && NoDup(u.list) && b !in u.list && Sorted(Rems(u, u.list))
            && Remaining(u.At(b), u.now) == s.At(b).next && u.now == s.now
  {
    var b := s.queue[0];
    assert Placed(s, b);
    WithoutSame(s.list, b);
    WithoutNoDup(s.list, b);
    WithoutSorted(s, s.list, b);
    RelievedRems(s);
  }

  lemma BeforePosition(vs: seq<int>, v: int, i: nat)
    requires Sorted(vs) && i < |vs| && vs[i] <= v
    ensures i < Position(vs, v)
  {}

  lemma {:induction false} IndexInserted(q: seq<Id>, k: nat, b: Id, a: Id)
    requires NoDup(q) && b !in q && a in q && IndexOf(q, a) < k <= |q|
    ensures a in InsertAt(q, k, b) && b in InsertAt(q, k, b) && IndexOf(InsertAt(q, k, b), a) < IndexOf(InsertAt(q, k, b), b)
  {
    var r := InsertAt(q, k, b);
    assert r[k] == b && r[IndexOf(q, a)] == a;
    if q[0] != a {
      assert r[1..] == InsertAt(q[1..], k - 1, b);
      IndexInserted(q[1..], k - 1, b, a);
    }
  }

  /** A restart asks for the interval the timer runs with: right behind a start that is still in the queue it is the old
      interval that counts, and so the new one only if they are the same. */
  lemma RestartForgets(s: State, x: Id, n: Tick)
    requires Inv(s) && x in s.timers && s.At(x).request != Free
    ensures var calls := [Call(x, Start, n), Call(x, Start, s.At(x).interval)];
            && AllAllowed(s, calls)
            && Obeys(s, Serve(EnqueueAllInv(s, calls)), x, Start, s.At(x).interval)
  {
    var calls := [Call(x, Start, n), Call(x, Start, s.At(x).interval)];
    var t := Enqueue(s, x, Start, n);
    assert calls[1..] == [Call(x, Start, s.At(x).interval)] && calls[1..][1..] == [];
    assert Allowed(t, calls[1]);
    assert AllAllowed(t, calls[1..]);
    LastRequestWins(s, calls);
  }

  ghost function EnqueueAllInv(s: State, calls: seq<Call>): (t: State)
    requires Inv(s) && AllAllowed(s, calls)
    ensures Inv(t)
  {
    EnqueueAllKeeps(s, calls);
    EnqueueAll(s, calls)
  }

  // ----- expiry -----------------------------------------------------------------

  /** Whole intervals are added to the start of a periodic timer, with 32-bit wrap-around. */
  function Rearmed(t: Timer, now: Tick): Timer
    requires t.interval > 0
  {
    t.(start := (t.start + t.interval * (Elapsed(now, t.start) / t.interval)) % 0x1_0000_0000)
  }

  /** A re-armed timer keeps its phase: its age is what was left over of the last interval, so its
      next deadline lies ahead and on the original grid. */
  lemma RearmedOnGrid(t: Timer, now: Tick)
    requires t.interval > 0
    ensures Elapsed(now, Rearmed(t, now).start) == Elapsed(now, t.start) % t.interval
    ensures 0 < Remaining(Rearmed(t, now), now) <= t.interval
  {
    var e, n := Elapsed(now, t.start), t.interval;
    Division(e, n);
    WrappedSum(t.start, n * (e / n));
  }

  lemma Division(e: int, n: int)
    requires e >= 0 && n > 0
    ensures 0 <= n * (e / n) <= e && e == n * (e / n) + e % n
  {}

  lemma WrappedSum(a: Tick, b: Tick)
    ensures var c := (a + b) % 0x1_0000_0000;
            c == a + b || c == a + b - MAX_DELAY - 1
  {}

  /** furi_event_loop_process_expired_timers up to the callback, when the front timer has expired. */
  function FireFront(s: State): State
    requires s.list != [] && s.list[0] in s.timers && (s.At(s.list[0]).periodic ==> s.At(s.list[0]).interval > 0)
  {
    var x := s.list[0];
    var t := s.At(x);
    var u := s.(list := s.list[1..]);
    if t.periodic then Scheduled(u.(timers := u.timers[x := Rearmed(t, s.now)]), x)
    else u.(timers := u.timers[x := t.(active := false)])
  }

  lemma FireFrontKeeps(s: State)
    requires Inv(s) && s.list != [] && s.list[0] in s.timers
    requires s.At(s.list[0]).periodic ==> s.At(s.list[0]).interval > 0
    ensures Inv(FireFront(s))
    ensures var x := s.list[0];
            if s.At(x).periodic
            then FireFront(s).At(x) == Rearmed(s.At(x), s.now) && x in FireFront(s).list
            else FireFront(s).At(x) == s.At(x).(active := false) && x !in FireFront(s).list
    ensures forall y :: y != s.list[0] ==> FireFront(s).At(y) == s.At(y) && (y in FireFront(s).list <==> y in s.list)
  {
    var x, t := s.list[0], FireFront(s);
    FireFrontList(s);
    forall y ensures Placed(t, y) { assert Placed(s, y); }
  }

  lemma FireFrontList(s: State)
    requires NoDup(s.list) && Sorted(Rems(s, s.list)) && s.list != [] && s.list[0] in s.timers
    requires s.At(s.list[0]).periodic ==> s.At(s.list[0]).interval > 0
    ensures var x, t := s.list[0], FireFront(s);
            && NoDup(t.list) && Sorted(Rems(t, t.list))
            && (forall y :: y in t.list <==> (y in s.list && y != x) || (y == x && s.At(x).periodic))
            && (forall y :: y != x ==> t.At(y) == s.At(y))
  {
    var x := s.list[0];
    WithoutNoDup(s.list, x);
    WithoutSorted(s, s.list, x);
    var w := s.(list := s.list[1..], timers := s.timers[x := if s.At(x).periodic then Rearmed(s.At(x), s.now) else s.At(x).(active := false)]);
    assert w.list == Without(s.list, x);
    RemsFrame(s, w, w.list);
    if s.At(x).periodic {
      ScheduledKeeps(w, x);
      assert FireFront(s) == Scheduled(w, x);
    }
  }

  // ----- runs --------------------------------------------------------------------

  /** Ticks passing, a timer allocated, a call of the timer API, the queue drained, and the front timer served with
      the calls its callback makes. */
  datatype Step = Ticks(k: Tick) | Allocate(x: Id, periodic: bool) | Request(call: Call) | Drain | Expire(calls: seq<Call>)

  /** The only demands on the surroundings: no active timer is left 2^32 ticks past its start, a freed timer is not
      used, and no periodic timer has interval 0. */
  ghost predicate Enabled(s: State, step: Step) {
    match step
    case Ticks(k) => Served(s, k)
    case Allocate(x, _) => x !in s.timers
    case Request(c) => Allowed(s, c)
    case Drain => Inv(s)
    case Expire(calls) =>
      && s.list != [] && s.list[0] in s.timers && Expired(s.At(s.list[0]), s.now)
      && (s.At(s.list[0]).periodic ==> s.At(s.list[0]).interval > 0) && AllAllowed(FireFront(s), calls)
  }

  ghost function Do(s: State, step: Step): State
    requires Enabled(s, step)
  {
    match step
    case Ticks(k) => Pass(s, k)
    case Allocate(x, periodic) => s.(timers := s.timers[x := NewTimer(periodic)])
    case Request(c) => Enqueue(s, c.timer, c.request, c.next)
    case Drain => Serve(s)
    case Expire(calls) => EnqueueAll(FireFront(s), calls)
  }

  lemma AllocateKeeps(s: State, x: Id, periodic: bool)
    requires Inv(s) && x !in s.timers
    ensures Inv(s.(timers := s.timers[x := NewTimer(periodic)]))
  {
    var t := s.(timers := s.timers[x := NewTimer(periodic)]);
    forall y ensures t.At(y) == s.At(y) || y == x {}
    forall y ensures Placed(t, y) { assert Placed(s, y); }
    assert Placed(s, x);
    RemsFrame(s, t, s.list);
  }

  lemma StepKeeps(s: State, step: Step)
    requires Inv(s) && Enabled(s, step)
    ensures Inv(Do(s, step)) && Do(s, step).now == (s.now + if step.Ticks? then step.k else 0) % 0x1_0000_0000
  {
    match step {
      case Ticks(k) => PassKeeps(s, k);
      case Allocate(x, periodic) => AllocateKeeps(s, x, periodic);
      case Request(c) => EnqueueKeeps(s, c.timer, c.request, c.next);
      case Drain =>
      case Expire(calls) => FireFrontKeeps(s); EnqueueAllKeeps(FireFront(s), calls);
    }
  }

  ghost predicate Legal(s: State, steps: seq<Step>)
    decreases |steps|
  {
    steps != [] ==> Enabled(s, steps[0]) && Legal(Do(s, steps[0]), steps[1..])
  }

  ghost function Run(s: State, steps: seq<Step>): State
    requires Legal(s, steps)
    decreases |steps|
  {
    if steps == [] then s else Run(Do(s, steps[0]), steps[1..])
  }

  const Initial := State(map[], [], [], 0)

  ghost function TicksIn(steps: seq<Step>): nat {
    if steps == [] then 0 else (if steps[0].Ticks? then steps[0].k else 0) + TicksIn(steps[1..])
  }

  lemma WrapTwice(a: nat, b: nat)
    ensures (a % 0x1_0000_0000 + b) % 0x1_0000_0000 == (a + b) % 0x1_0000_0000
  {}

  /** Every run keeps queue, list and flags in step, and only ticks move the clock, which wraps. */
  lemma {:induction false} RunKeeps(s: State, steps: seq<Step>)
    requires Inv(s) && Legal(s, steps)
    ensures Inv(Run(s, steps)) && Run(s, steps).now == (s.now + TicksIn(steps)) % 0x1_0000_0000
    decreases |steps|
  {
    if steps != [] {
      StepKeeps(s, steps[0]);
      var k := if steps[0].Ticks? then steps[0].k else 0;
      RunKeeps(Do(s, steps[0]), steps[1..]);
      WrapTwice(s.now + k, TicksIn(steps[1..]));
    } else {
      assert s.now % 0x1_0000_0000 == s.now;
    }
  }

  /** Sleeping for the computed wait or less leaves no timer stale. */
  lemma SleepServes(s: State, k: Tick)
    requires Inv(s) && k <= WaitTime(s)
    ensures Served(s, k)
  {
    WaitIsLeast(s);
    forall x | x in s.list ensures Elapsed(s.now, s.At(x).start) + k <= MAX_DELAY {
      assert Placed(s, x);
      assert k <= Remaining(s.At(x), s.now);
    }
  }

  /** Whatever happened before, sleeping for the computed wait or less leaves no timer stale, brings every active timer
      closer by what was slept and takes none past its deadline; and the front one is expired, and fires, exactly when the
      whole wait was slept. */
  lemma SleepMeetsDeadlines(steps: seq<Step>, k: Tick)
    requires Legal(Initial, steps) && k <= WaitTime(Run(Initial, steps))
    ensures var s := Run(Initial, steps);
            && Served(s, k)
            && (forall x :: x in s.list ==> Remaining(s.At(x), Pass(s, k).now) == Remaining(s.At(x), s.now) - k)
            && (s.list != [] ==> (Expired(s.At(s.list[0]), Pass(s, k).now) <==> k == WaitTime(s)))
  {
    var s := Run(Initial, steps);
    forall x ensures Placed(Initial, x) {}
    RunKeeps(Initial, steps);
    SleepServes(s, k);
    PassKeeps(s, k);
    WaitIsLeast(s);
    forall x | x in s.list ensures WaitTime(s) <= Remaining(s.At(x), s.now) { assert Placed(s, x); }
    if s.list != [] {
      assert s.list[0] in s.list;
      ExpiredExact(s.At(s.list[0]), Pass(s, k).now);
    }
  }

  /** The timer part of the event loop. */
  class TimerLoop {
    var timers: map<Id, Timer>
    var list: seq<Id>
    var queue: seq<Id>
    var now: Tick

    ghost function S(): State
      reads this
    {
      State(timers, list, queue, now)
    }

    constructor ()
      ensures S() == State(map[], [], [], 0) && Inv(S())
    {
      timers, list, queue, now := map[], [], [], 0;
      new;
      forall x ensures Placed(S(), x) {}
    }

    /** furi_event_loop_schedule_timer: the search runs back from the end of the list. */
    method Schedule(x: Id)
      requires x in timers && forall y :: y in list ==> y in timers
      modifies this`list
      ensures S() == Scheduled(old(S()), x)
    {
      var remaining := Remaining(timers[x], now);
      var k := |list|;
      ghost var vs := Rems(S(), list);
      assert vs[..k] == vs;
      while k > 0 && remaining < Remaining(timers[list[k - 1]], now)
        invariant k <= |list| && Slot(vs[..k], remaining) == Slot(vs, remaining)
      {
        assert vs[..k][..k - 1] == vs[..k - 1] && vs[k - 1] == Remaining(timers[list[k - 1]], now);
        k := k - 1;
      }
      assert k > 0 ==> vs[..k][k - 1] == Remaining(timers[list[k - 1]], now);
      list := InsertAt(list, k, x);
    }

    lemma Listed()
      requires Inv(S())
      ensures forall x :: x in list || x in queue ==> x in timers
    {
      forall x | x in list || x in queue ensures x in timers { assert Placed(S(), x); }
    }

    /** furi_event_loop_timer_alloc */
    method Alloc(x: Id, periodic: bool)
      requires Inv(S()) && x !in timers
      modifies this`timers
      ensures Inv(S()) && S() == old(S()).(timers := old(timers)[x := NewTimer(periodic)])
      ensures !S().At(x).active && S().At(x).request == Idle && S().At(x).periodic == periodic
    {
      Listed();
      ghost var s := S();
      timers := timers[x := NewTimer(periodic)];
      RemsFrame(s, S(), list);
      forall y ensures Placed(S(), y) { assert Placed(s, y) && (y != x ==> S().At(y) == s.At(y)); }
    }

    /** furi_event_loop_timer_enqueue_request, with the interval of a start or restart. */
    method EnqueueRequest(x: Id, request: Request, next: Tick)
      requires Inv(S()) && Allowed(S(), Call(x, request, next))
      modifies this`timers, this`queue
      ensures Inv(S()) && S() == Enqueue(old(S()), x, request, next)
    {
      ghost var s := S();
      EnqueueKeeps(s, x, request, next);
      if request == Start {
        timers := timers[x := timers[x].(next := next)];
      }
      if timers[x].request != Idle {
        queue := Without(queue, x);
      }
      timers := timers[x := timers[x].(request := request)];
      queue := queue + [x];
      assert S() == Enqueue(s, x, request, next);
    }

    /** furi_event_loop_process_timer_queue */
    method ProcessQueue()
      requires Inv(S())
      modifies this
      ensures Inv(S()) && S() == Serve(old(S()))
    {
      while queue != []
        invariant Inv(S()) && Serve(S()) == Serve(old(S()))
        decreases |queue|
      {
        ServeHeadKeeps(S());
        ServeOne();
      }
    }

    /** The body of the loop of furi_event_loop_process_timer_queue. */
    method ServeOne()
      requires Inv(S()) && queue != [] && queue[0] in timers
      modifies this
      ensures S() == ServeHead(old(S()))
    {
      Listed();
      ghost var s := S();
      var x := queue[0];
      assert Placed(s, x);
      queue := queue[1..];
      if timers[x].active {
        list := Without(list, x);
      }
      match timers[x].request {
        case Start =>
          timers := timers[x := timers[x].(active := true)];
          timers := timers[x := timers[x].(interval := timers[x].next)];
          timers := timers[x := timers[x].(start := now)];
          timers := timers[x := timers[x].(request := Idle)];
          assert S() == Relieved(s);
          Schedule(x);
        case Stop =>
          timers := timers[x := timers[x].(active := false)];
          timers := timers[x := timers[x].(request := Idle)];
        case Free =>
          timers := timers - {x};
        case Idle =>
          assert false;
      }
    }

    /** furi_event_loop_process_expired_timers; `calls` are the timer calls the callback makes. */
    method ProcessExpired(calls: seq<Call>) returns (fired: bool)
      requires Inv(S())
      requires list != [] ==> (S().At(list[0]).periodic ==> S().At(list[0]).interval > 0)
      requires list != [] && list[0] in timers && Expired(timers[list[0]], now) ==> AllAllowed(FireFront(S()), calls)
      modifies this
      ensures Inv(S())
      ensures fired <==> (exists x :: x in old(timers) && old(timers)[x].active) && WaitTime(old(S())) == 0
      ensures fired ==> old(list) != [] && Remaining(old(S()).At(old(list)[0]), now) == 0
      ensures fired ==> old(list)[0] in old(timers) && AllAllowed(FireFront(old(S())), calls) && S() == EnqueueAll(FireFront(old(S())), calls)
      ensures !fired ==> S() == old(S())
    {
      Listed();
      WaitIsLeast(S());
      if list == [] {
        return false;
      }
      var x := list[0];
      assert Placed(S(), x);
      ExpiredExact(timers[x], now);
      if !Expired(timers[x], now) {
        return false;
      }
      FireFrontKeeps(S());
      Fire();
      Callback(calls);
      fired := true;
    }

    /** The part of furi_event_loop_process_expired_timers that takes the front timer. */
    method Fire()
      requires list != [] && list[0] in timers && (timers[list[0]].periodic ==> timers[list[0]].interval > 0)
      requires forall y :: y in list ==> y in timers
      modifies this`timers, this`list
      ensures S() == FireFront(old(S()))
    {
      ghost var s := S();
      var x := list[0];
      list := list[1..];
      if timers[x].periodic {
        var events := Elapsed(now, timers[x].start) / timers[x].interval;
        timers := timers[x := timers[x].(start := (timers[x].start + timers[x].interval * events) % 0x1_0000_0000)];
        assert timers == s.timers[x := Rearmed(s.At(x), s.now)];
        Schedule(x);
      } else {
        timers := timers[x := timers[x].(active := false)];
      }
    }

    method Callback(calls: seq<Call>)
      requires Inv(S()) && AllAllowed(S(), calls)
      modifies this`timers, this`queue
      ensures Inv(S()) && S() == EnqueueAll(old(S()), calls)
    {
      var rest := calls;
      while rest != []
        invariant Inv(S()) && AllAllowed(S(), rest) && EnqueueAll(S(), rest) == EnqueueAll(old(S()), calls)
        decreases |rest|
      {
        EnqueueRequest(rest[0].timer, rest[0].request, rest[0].next);
        rest := rest[1..];
      }
    }

    /** furi_event_loop_get_timer_wait_time */
    method GetWaitTime() returns (wait: Tick)
      requires Inv(S())
      ensures wait == WaitTime(S())
    {
      Listed();
      wait := WAIT_FOREVER;
      if list != [] {
        wait := Remaining(timers[list[0]], now);
      }
    }
  }
}
