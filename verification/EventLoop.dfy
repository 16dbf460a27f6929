/** The reactor of furi/core/event_loop.c as a state machine: the loop thread moves through its
    program points while other threads and interrupts put, take and notify in between. */
module EventLoop {
  import opened Rings

  type Id = int       // a FuriEventLoopItem
  type Object = int   // a message queue

  datatype Dir = In | Out
  datatype Flag = Event | Stop | Timer | Pending | ThreadFlag

  datatype Item = Item(source: Object, dir: Dir, edge: bool, owned: bool)   // owned: owner != NULL
  datatype Queue = Queue(count: nat, capacity: nat)

  /** Where the loop thread stands; `rest` are the flags it has taken and will restore. */
  datatype Point =
    | Wait                                    // at xTaskNotifyWaitIndexed
    | Got(taken: set<Flag>)                   // flags taken, branch not chosen
    | Looking(rest: set<Flag>)                // about to pop the waiting list
    | Popped(item: Id, rest: set<Flag>)       // current_item set, first level check ahead
    | Calling(item: Id, rest: set<Flag>)      // inside the item's callback
    | Called(item: Id, rest: set<Flag>)       // second level check ahead
    | Judged(item: Id, again: bool, rest: set<Flag>)
    | Syncing(rest: set<Flag>)
    | Restoring(rest: set<Flag>)
    | TimerWork(rest: set<Flag>)              // draining the timer queue
    | PendingWork                             // inside the pending callbacks
    | UserWork                                // inside a timer, tick or thread-flag callback
    | Created                                 // furi_event_loop_run not called yet
    | Stopped                                 // furi_event_loop_run has returned

  datatype State = State(
    items: map<Id, Item>,              // allocated items
    tree: map<Object, Id>,             // subscriptions
    links: map<(Object, Dir), Id>,     // item_in and item_out of the objects' links
    waiting: seq<Id>,                  // waiting_list
    flags: set<Flag>,                  // the task notification value
    queues: map<Object, Queue>,
    inflight: multiset<(Object, Dir)>, // queue operations whose notify is still to come
    requests: nat,                     // length of the timer queue
    calls: nat,                        // length of the pending queue
    at: Point)
  {
    function Level(o: Object, d: Dir): int {
      if o !in queues then 0 else if d == In then queues[o].count else queues[o].capacity - queues[o].count
    }

    ghost predicate Owns(i: Id) { i in items && items[i].owned }
  }

  /** Flags the loop thread holds and has not yet acted on. */
  ghost function Held(p: Point): set<Flag> {
    match p
    case Got(f) => f
    case Looking(r) => r
    case Popped(_, r) => r
    case Calling(_, r) => r
    case Called(_, r) => r
    case Judged(_, _, r) => r
    case Syncing(r) => r
    case Restoring(r) => r
    case TimerWork(r) => r
    case _ => {}
  }

  /** The loop will look at the waiting list, or set the Event flag if it is not empty, before it waits. */
  ghost predicate WillSync(p: Point) {
    p.Looking? || p.Popped? || p.Calling? || p.Called? || p.Judged? || p.Syncing? || (p.Got? && Event in p.taken)
  }

  /** The item is being processed and its level will be checked again, or it will be put back. */
  ghost predicate Covered(p: Point, i: Id) {
    (p.Popped? && p.item == i) || (p.Calling? && p.item == i) || (p.Called? && p.item == i) || (p.Judged? && p.item == i && p.again)
  }

  /** instance->current_item */
  function Current(p: Point): Option<Id> {
    match p
    case Popped(i, _) => Some(i)
    case Calling(i, _) => Some(i)
    case Called(i, _) => Some(i)
    case _ => None
  }

  /** The item the loop thread still has a pointer to. */
  ghost predicate Holds(p: Point, i: Id) {
    Current(p) == Some(i) || (p.Judged? && p.item == i)
  }

  // ----- the invariant, piece by piece -----------------------------------------

  ghost predicate ItemOK(s: State, i: Id) {
    && (i in s.waiting ==> s.Owns(i))
    && (s.Owns(i) ==> s.items[i].source in s.tree && s.tree[s.items[i].source] == i
                      && (s.items[i].source, s.items[i].dir) in s.links && s.links[(s.items[i].source, s.items[i].dir)] == i)
    && (i in s.items && !s.items[i].owned ==> Holds(s.at, i))
    && (Holds(s.at, i) ==> i in s.items)
  }

  ghost predicate TreeOK(s: State, o: Object) {
    o in s.tree ==> s.Owns(s.tree[o]) && s.items[s.tree[o]].source == o
  }

  ghost predicate LinkOK(s: State, o: Object, d: Dir) {
    (o, d) in s.links ==>
      s.Owns(s.links[(o, d)]) && s.items[s.links[(o, d)]].source == o && s.items[s.links[(o, d)]].dir == d
  }

  /** A subscribed level-triggered item whose level is up is waiting, or about to be looked at again,
      or its notify is on the way. */
  ghost predicate LevelOK(s: State, i: Id) {
    s.Owns(i) && !s.items[i].edge && s.Level(s.items[i].source, s.items[i].dir) > 0 ==>
      i in s.waiting || Covered(s.at, i) || (s.items[i].source, s.items[i].dir) in s.inflight
  }

  ghost predicate Inv(s: State) {
    && NoDup(s.waiting)
    && (forall i :: ItemOK(s, i)) && (forall o :: TreeOK(s, o)) && (forall o, d :: LinkOK(s, o, d))
    && (forall i :: LevelOK(s, i))
  }

  /** The loop has something to do for the item: its level is up and no notify for it is on the way, or it is
      edge-triggered and has been notified. */
  ghost predicate Outstanding(s: State, i: Id) {
    s.Owns(i) &&
      if s.items[i].edge then i in s.waiting
      else s.Level(s.items[i].source, s.items[i].dir) > 0 && (s.items[i].source, s.items[i].dir) !in s.inflight
  }

  /** Nothing outstanding is without its flag, unless the loop is about to deal with it. */
  ghost predicate Live(s: State) {
    && (forall i :: Outstanding(s, i) ==> Event in s.flags || WillSync(s.at))
    && RequestsLive(s) && CallsLive(s)
  }

  ghost predicate RequestsLive(s: State) {
    s.requests > 0 ==> Timer in s.flags || Timer in Held(s.at) || s.at.TimerWork?
  }

  ghost predicate CallsLive(s: State) {
    s.calls > 0 ==> Pending in s.flags || Pending in Held(s.at) || s.at.PendingWork?
  }

  // ----- the steps --------------------------------------------------------------

  /** furi_event_loop_item_notify: one critical section and the flag. */
  function Notify(s: State, i: Id): State {
    s.(waiting := if i in s.waiting then s.waiting else s.waiting + [i], flags := s.flags + {Event})
  }

  /** furi_event_loop_link_notify */
  function LinkNotify(s: State, o: Object, d: Dir): State {
    if (o, d) in s.links then Notify(s, s.links[(o, d)]) else s
  }

  /** furi_event_loop_object_subscribe; `i` is the address of the new item. */
  function Subscribe(s: State, i: Id, o: Object, d: Dir, edge: bool): State {
    var t := s.(items := s.items[i := Item(o, d, edge, true)], tree := s.tree[o := i], links := s.links[(o, d) := i]);
    if !edge && s.Level(o, d) > 0 then Notify(t, i) else t
  }

  /** furi_event_loop_unsubscribe: the item being processed is only disowned, any other is freed. */
  function Unsubscribe(s: State, o: Object): State
    requires o in s.tree && s.tree[o] in s.items
  {
    var i := s.tree[o];
    var t := s.(tree := s.tree - {o}, links := s.links - {(o, s.items[i].dir)}, waiting := Without(s.waiting, i));
    if Current(s.at) == Some(i) then t.(items := s.items[i := s.items[i].(owned := false)])
    else t.(items := s.items - {i})
  }

  /** Code of the application runs in the loop's thread. */
  predicate UserCode(p: Point) {
    p.Calling? || p.PendingWork? || p.UserWork? || p.Created? || p.Stopped?
  }

  datatype Step =
    // the loop thread
    | Begin | Take | Timeout | Choose | Pop | FirstCheck | Return | SecondCheck | Finish | Sync | Restore
    | ServeTimers | PendingDone | PendingEnd | UserEnd
    // application code in the loop thread
    | SubscribeTo(item: Id, o: Object, d: Dir, edge: bool)
    | UnsubscribeFrom(o: Object)
    | RequestTimer
    | PendCall
    // any thread or interrupt
    | Create(o: Object, capacity: nat)
    | Put(o: Object)
    | Get(o: Object)
    | Reset(o: Object)
    | NotifyFor(o: Object, d: Dir)
    | RequestStop
    | SignalThread

  ghost predicate Enabled(s: State, step: Step) {
    match step
    case Begin => s.at.Created? || s.at.Stopped?
    case Take => s.at.Wait? && s.flags != {}
    case Timeout => s.at.Wait? && s.flags == {}
    case Choose => s.at.Got?
    case Pop => s.at.Looking?
    case FirstCheck => s.at.Popped?
    case Return => s.at.Calling?
    case SecondCheck => s.at.Called?
    case Finish => s.at.Judged?
    case Sync => s.at.Syncing?
    case Restore => s.at.Restoring?
    case ServeTimers => s.at.TimerWork?
    case PendingDone => s.at.PendingWork? && s.calls > 0
    case PendingEnd => s.at.PendingWork? && s.calls == 0
    case UserEnd => s.at.UserWork?
    case SubscribeTo(i, o, d, _) => UserCode(s.at) && i !in s.items && o !in s.tree && (o, d) !in s.links
    case UnsubscribeFrom(o) => UserCode(s.at) && o in s.tree
    case RequestTimer => UserCode(s.at)
    case PendCall => UserCode(s.at)
    case Create(o, _) => o !in s.queues && o !in s.tree
    case Put(o) => o in s.queues && s.queues[o].count < s.queues[o].capacity
    case Get(o) => o in s.queues && s.queues[o].count > 0
    case Reset(o) => o in s.queues
    case NotifyFor(o, d) => (o, d) in s.inflight
    case _ => true
  }

  /** The if-chain of furi_event_loop_run. */
  function Branch(f: set<Flag>): Point {
    if Stop in f then Stopped
    else if Event in f then Looking(f - {Event})
    else if Timer in f then TimerWork(f - {Timer})
    else if Pending in f then PendingWork
    else UserWork
  }

  ghost function Do(s: State, step: Step): State
    requires Inv(s) && Enabled(s, step)
  {
    match step
    case Begin => s.(at := Wait)
    case Take => s.(flags := {}, at := Got(s.flags))
    case Timeout => s.(at := UserWork)
    case Choose => s.(at := Branch(s.at.taken))
    case Pop =>
      if s.waiting == [] then s.(at := Restoring(s.at.rest))
      else s.(waiting := s.waiting[1..], at := Popped(s.waiting[0], s.at.rest))
    case FirstCheck =>
      assert ItemOK(s, s.at.item);
      var x := s.items[s.at.item];
      s.(at := if x.edge || s.Level(x.source, x.dir) > 0 then Calling(s.at.item, s.at.rest) else Judged(s.at.item, false, s.at.rest))
    case Return => s.(at := Called(s.at.item, s.at.rest))
    case SecondCheck =>
      assert ItemOK(s, s.at.item);
      var x := s.items[s.at.item];
      s.(at := Judged(s.at.item, !x.edge && s.Level(x.source, x.dir) > 0, s.at.rest))
    case Finish =>
      assert ItemOK(s, s.at.item);
      var t := s.(at := Syncing(s.at.rest));
      if !s.items[s.at.item].owned then t.(items := s.items - {s.at.item})
      else if s.at.again then Notify(t, s.at.item) else t
    case Sync => s.(flags := if s.waiting != [] then s.flags + {Event} else s.flags, at := Restoring(s.at.rest))
    case Restore => s.(flags := s.flags + s.at.rest, at := Wait)
    case ServeTimers => s.(requests := 0, at := Restoring(s.at.rest))
    case PendingDone => s.(calls := s.calls - 1)
    case PendingEnd => s.(at := Wait)
    case UserEnd => s.(at := Wait)
    case SubscribeTo(i, o, d, edge) => Subscribe(s, i, o, d, edge)
    case UnsubscribeFrom(o) => assert TreeOK(s, o); Unsubscribe(s, o)
    case RequestTimer => s.(requests := s.requests + 1, flags := s.flags + {Timer})
    case PendCall => s.(calls := s.calls + 1, flags := s.flags + {Pending})
    case Create(o, capacity) => s.(queues := s.queues[o := Queue(0, capacity)])
    case Put(o) => s.(queues := s.queues[o := s.queues[o].(count := s.queues[o].count + 1)], inflight := s.inflight + multiset{(o, In)})
    case Get(o) => s.(queues := s.queues[o := s.queues[o].(count := s.queues[o].count - 1)], inflight := s.inflight + multiset{(o, Out)})
    case Reset(o) => s.(queues := s.queues[o := s.queues[o].(count := 0)], inflight := s.inflight + multiset{(o, Out)})
    case NotifyFor(o, d) => LinkNotify(s.(inflight := s.inflight - multiset{(o, d)}), o, d)
    case RequestStop => s.(flags := s.flags + {Stop})
    case SignalThread => s.(flags := s.flags + {ThreadFlag})
  }

  // ----- what the steps keep -----------------------------------------------------

  lemma NotifyKeeps(s: State, i: Id)
    requires Inv(s) && s.Owns(i)
    ensures Inv(Notify(s, i)) && i in Notify(s, i).waiting
  {
    var t := Notify(s, i);
    assert i !in s.waiting ==> t.waiting == InsertAt(s.waiting, |s.waiting|, i);
    if i !in s.waiting { InsertNoDup(s.waiting, |s.waiting|, i); }
    forall j ensures ItemOK(t, j) && LevelOK(t, j) { assert ItemOK(s, j) && LevelOK(s, j); }
    forall o ensures TreeOK(t, o) { assert TreeOK(s, o); }
    forall o, d ensures LinkOK(t, o, d) { assert LinkOK(s, o, d); }
  }

  /** A step that touches neither items nor levels, nor the item being processed. */
  lemma QuietKeeps(s: State, t: State)
    requires Inv(s)
    requires t.items == s.items && t.tree == s.tree && t.links == s.links && t.waiting == s.waiting
    requires t.queues == s.queues && t.inflight == s.inflight
    requires forall i :: Holds(t.at, i) <==> Holds(s.at, i)
    requires forall i :: Covered(s.at, i) ==> Covered(t.at, i)
    ensures Inv(t)
  {
    forall i ensures ItemOK(t, i) && LevelOK(t, i) { assert ItemOK(s, i) && LevelOK(s, i); }
    forall o ensures TreeOK(t, o) { assert TreeOK(s, o); }
    forall o, d ensures LinkOK(t, o, d) { assert LinkOK(s, o, d); }
  }

  /** A step of the queues: whatever level it raises has its notify on the way. */
  lemma FlowKeeps(s: State, t: State)
    requires Inv(s) && t == s.(queues := t.queues, inflight := t.inflight) && s.inflight <= t.inflight
    requires forall i :: s.Owns(i) && t.Level(s.items[i].source, s.items[i].dir) > 0 ==>
               s.Level(s.items[i].source, s.items[i].dir) > 0 || (s.items[i].source, s.items[i].dir) in t.inflight
    ensures Inv(t)
  {
    forall i ensures ItemOK(t, i) && LevelOK(t, i) { assert ItemOK(s, i) && LevelOK(s, i); }
    forall o ensures TreeOK(t, o) { assert TreeOK(s, o); }
    forall o, d ensures LinkOK(t, o, d) { assert LinkOK(s, o, d); }
  }

  lemma CreateKeeps(s: State, o: Object, capacity: nat)
    requires Inv(s) && o !in s.queues && o !in s.tree
    ensures Inv(s.(queues := s.queues[o := Queue(0, capacity)]))
  {
    forall i | s.Owns(i) ensures s.items[i].source != o { assert ItemOK(s, i); }
    FlowKeeps(s, s.(queues := s.queues[o := Queue(0, capacity)]));
  }

  /** A notify in flight arrives. */
  lemma ArriveKeeps(s: State, o: Object, d: Dir)
    requires Inv(s) && (o, d) in s.inflight
    ensures Inv(LinkNotify(s.(inflight := s.inflight - multiset{(o, d)}), o, d))
  {
    assert LinkOK(s, o, d);
    var t := LinkNotify(s, o, d);
    if (o, d) in s.links { NotifyKeeps(s, s.links[(o, d)]); }
    var u := t.(inflight := t.inflight - multiset{(o, d)});
    forall i ensures ItemOK(u, i) && LevelOK(u, i) {
      assert ItemOK(t, i) && LevelOK(t, i) && ItemOK(s, i);
    }
    forall x ensures TreeOK(u, x) { assert TreeOK(t, x); }
    forall x, e ensures LinkOK(u, x, e) { assert LinkOK(t, x, e); }
    assert u == LinkNotify(s.(inflight := s.inflight - multiset{(o, d)}), o, d);
  }

  lemma PopKeeps(s: State)
    requires Inv(s) && s.at.Looking?
    ensures Inv(Do(s, Pop))
  {
    var t := Do(s, Pop);
    if s.waiting == [] {
      QuietKeeps(s, t);
    } else {
      var h := s.waiting[0];
      WithoutNoDup(s.waiting, h);
      assert t.waiting == Without(s.waiting, h);
      assert ItemOK(s, h);
      forall i ensures ItemOK(t, i) && LevelOK(t, i) { assert ItemOK(s, i) && LevelOK(s, i); }
      forall o ensures TreeOK(t, o) { assert TreeOK(s, o); }
      forall o, d ensures LinkOK(t, o, d) { assert LinkOK(s, o, d); }
    }
  }

  /** A level check, which either keeps the item covered or finds its level down. */
  lemma CheckKeeps(s: State, t: State, i: Id)
    requires Inv(s) && Holds(s.at, i) && t == s.(at := t.at)
    requires forall j :: Holds(s.at, j) <==> j == i
    requires forall j :: Holds(t.at, j) <==> j == i
    requires forall j :: Covered(s.at, j) ==> j == i
    requires i in s.items && (Covered(t.at, i) || s.items[i].edge || s.Level(s.items[i].source, s.items[i].dir) <= 0)
    ensures Inv(t)
  {
    forall j ensures ItemOK(t, j) && LevelOK(t, j) { assert ItemOK(s, j) && LevelOK(s, j); }
    forall o ensures TreeOK(t, o) { assert TreeOK(s, o); }
    forall o, d ensures LinkOK(t, o, d) { assert LinkOK(s, o, d); }
  }

  lemma FinishKeeps(s: State)
    requires Inv(s) && s.at.Judged?
    ensures Inv(Do(s, Finish))
  {
    var i, t := s.at.item, Do(s, Finish);
    assert ItemOK(s, i);
    if s.items[i].owned && s.at.again {
      NotifyKeeps(s, i);
      var u := Notify(s, i);
      assert t == u.(at := Syncing(s.at.rest));
      forall j ensures ItemOK(t, j) && LevelOK(t, j) { assert ItemOK(u, j) && LevelOK(u, j); }
      forall o ensures TreeOK(t, o) { assert TreeOK(u, o); }
      forall o, d ensures LinkOK(t, o, d) { assert LinkOK(u, o, d); }
    } else {
      forall j ensures ItemOK(t, j) && LevelOK(t, j) { assert ItemOK(s, j) && LevelOK(s, j); }
      forall o ensures TreeOK(t, o) { assert TreeOK(s, o); }
      forall o, d ensures LinkOK(t, o, d) { assert LinkOK(s, o, d); }
    }
  }

  lemma SubscribeKeeps(s: State, i: Id, o: Object, d: Dir, edge: bool)
    requires Inv(s) && Enabled(s, SubscribeTo(i, o, d, edge))
    ensures Inv(Subscribe(s, i, o, d, edge))
  {
    var t := Subscribe(s, i, o, d, edge);
    assert ItemOK(s, i);
    if !edge && s.Level(o, d) > 0 {
      assert t.waiting == InsertAt(s.waiting, |s.waiting|, i);
      InsertNoDup(s.waiting, |s.waiting|, i);
    }
    forall j ensures ItemOK(t, j) && LevelOK(t, j) { SubscribeItem(s, i, o, d, edge, j); }
    forall x ensures TreeOK(t, x) { assert TreeOK(s, x); }
    forall x, e ensures LinkOK(t, x, e) { assert LinkOK(s, x, e); }
  }

  lemma SubscribeItem(s: State, i: Id, o: Object, d: Dir, edge: bool, j: Id)
    requires i !in s.items && o !in s.tree && (o, d) !in s.links && i !in s.waiting
    requires ItemOK(s, j) && LevelOK(s, j)
    ensures ItemOK(Subscribe(s, i, o, d, edge), j) && LevelOK(Subscribe(s, i, o, d, edge), j)
  {}

  lemma UnsubscribeKeeps(s: State, o: Object)
    requires Inv(s) && UserCode(s.at) && o in s.tree
    ensures s.tree[o] in s.items && Inv(Unsubscribe(s, o))
  {
    assert TreeOK(s, o);
    var i, t := s.tree[o], Unsubscribe(s, o);
    assert ItemOK(s, i);
    WithoutNoDup(s.waiting, i);
    forall j ensures ItemOK(t, j) && LevelOK(t, j) { assert ItemOK(s, j) && LevelOK(s, j); }
    forall x ensures TreeOK(t, x) { assert TreeOK(s, x) && (x in s.tree ==> ItemOK(s, s.tree[x])); }
    forall x, e ensures LinkOK(t, x, e) { assert LinkOK(s, x, e); }
  }

  /** The steps that only move the loop thread or its flags. */
  predicate Plain(step: Step) {
    step.Begin? || step.Take? || step.Timeout? || step.Choose? || step.Return? || step.Sync? || step.Restore?
    || step.ServeTimers? || step.PendingDone? || step.PendingEnd? || step.UserEnd?
  }

  lemma PlainKeeps(s: State, step: Step)
    requires Inv(s) && Enabled(s, step) && Plain(step)
    ensures Inv(Do(s, step))
  {
    var t := Do(s, step);
    assert forall i :: Holds(t.at, i) <==> Holds(s.at, i);
    QuietKeeps(s, t);
  }

  lemma FlagStepKeeps(s: State, step: Step)
    requires Inv(s) && Enabled(s, step)
    requires step.RequestTimer? || step.PendCall? || step.RequestStop? || step.SignalThread?
    ensures Inv(Do(s, step))
  {
    QuietKeeps(s, Do(s, step));
  }

  lemma QueueStepKeeps(s: State, step: Step)
    requires Inv(s) && Enabled(s, step) && (step.Put? || step.Get? || step.Reset?)
    ensures Inv(Do(s, step))
  {
    FlowKeeps(s, Do(s, step));
  }

  lemma CheckStepKeeps(s: State, step: Step)
    requires Inv(s) && Enabled(s, step) && (step.FirstCheck? || step.SecondCheck?)
    ensures Inv(Do(s, step))
  {
    assert ItemOK(s, s.at.item);
    CheckKeeps(s, Do(s, step), s.at.item);
  }

  /** Every step of every thread keeps the invariant, runs of the loop after a stop included. */
  lemma StepKeeps(s: State, step: Step)
    requires Inv(s) && Enabled(s, step)
    ensures Inv(Do(s, step))
  {
    if Plain(step) {
      PlainKeeps(s, step);
    } else {
      match step {
        case Pop => PopKeeps(s);
        case FirstCheck => CheckStepKeeps(s, step);
        case SecondCheck => CheckStepKeeps(s, step);
        case Finish => FinishKeeps(s);
        case SubscribeTo(i, o, d, edge) => SubscribeKeeps(s, i, o, d, edge);
        case UnsubscribeFrom(o) => UnsubscribeKeeps(s, o);
        case Create(o, c) => CreateKeeps(s, o, c);
        case Put(o) => QueueStepKeeps(s, step);
        case Get(o) => QueueStepKeeps(s, step);
        case Reset(o) => QueueStepKeeps(s, step);
        case NotifyFor(o, d) => ArriveKeeps(s, o, d);
        case _ => FlagStepKeeps(s, step);
      }
    }
  }

  // ----- whole runs ------------------------------------------------------------------

  /** furi_event_loop_alloc */
  const Initial: State := State(map[], map[], map[], [], {}, map[], multiset{}, 0, 0, Created)

  ghost predicate Legal(s: State, steps: seq<Step>)
    requires Inv(s)
    decreases |steps|
  {
    steps != [] ==> Enabled(s, steps[0]) && (StepKeeps(s, steps[0]); Legal(Do(s, steps[0]), steps[1..]))
  }

  ghost function Run(s: State, steps: seq<Step>): (t: State)
    requires Inv(s) && Legal(s, steps)
    decreases |steps|
  {
    if steps == [] then s else
      StepKeeps(s, steps[0]);
      Run(Do(s, steps[0]), steps[1..])
  }

  lemma {:induction false} RunKeeps(s: State, steps: seq<Step>)
    requires Inv(s) && Legal(s, steps)
    ensures Inv(Run(s, steps))
    decreases |steps|
  {
    if steps != [] {
      StepKeeps(s, steps[0]);
      RunKeeps(Do(s, steps[0]), steps[1..]);
    }
  }

  lemma InitialOK()
    ensures Inv(Initial)
  {
    forall i ensures ItemOK(Initial, i) && LevelOK(Initial, i) {}
    forall o ensures TreeOK(Initial, o) {}
    forall o, d ensures LinkOK(Initial, o, d) {}
  }

  /** A run from the freshly allocated loop, and where it ends. */
  ghost predicate LegalRun(steps: seq<Step>) {
    InitialOK();
    Legal(Initial, steps)
  }

  ghost predicate CarefulRun(steps: seq<Step>)
    requires LegalRun(steps)
  {
    InitialOK();
    Careful(Initial, steps)
  }

  ghost function Reached(steps: seq<Step>): State
    requires LegalRun(steps)
  {
    InitialOK();
    Run(Initial, steps)
  }

  ghost function Occurrences(q: seq<Id>, i: Id): nat { multiset(q)[i] }

  lemma OnceOnly(q: seq<Id>, i: Id)
    requires NoDup(q) && i in q
    ensures Occurrences(q, i) == 1
  {
    var k :| 0 <= k < |q| && q[k] == i;
    assert q == q[..k] + [i] + q[k + 1..];
    assert i !in q[..k] && i !in q[k + 1..];
  }

  /** The loop thread takes a stop flag, and with it every other flag that is up. */
  ghost predicate Stops(s: State, step: Step) { step == Choose && s.at.Got? && Stop in s.at.taken }

  /** The Event flag is up, or the loop will look at the waiting list before it waits. */
  ghost predicate Raised(s: State) { Event in s.flags || WillSync(s.at) }

  /** Only a stop takes a flag away from what is outstanding. */
  lemma StepStaysLive(s: State, step: Step)
    requires Inv(s) && Live(s) && Enabled(s, step) && !Stops(s, step)
    ensures Live(Do(s, step))
  {
    StepKeeps(s, step);
    WorkStaysLive(s, step);
    forall i | Outstanding(Do(s, step), i) ensures Raised(Do(s, step)) { StillRaised(s, step, i); }
  }

  lemma WorkStaysLive(s: State, step: Step)
    requires Inv(s) && Live(s) && Enabled(s, step) && !Stops(s, step)
    ensures RequestsLive(Do(s, step)) && CallsLive(Do(s, step))
  {
    if Plain(step) { PlainWork(s, step); } else { OthersGrow(s, step); }
  }

  lemma PlainWork(s: State, step: Step)
    requires Inv(s) && Live(s) && Enabled(s, step) && Plain(step) && !Stops(s, step)
    ensures RequestsLive(Do(s, step)) && CallsLive(Do(s, step))
  {}

  /** No flag is taken away, and new work comes with its flag. */
  ghost predicate FlagsGrow(s: State, t: State) {
    && s.flags <= t.flags && Held(t.at) == Held(s.at)
    && (t.requests == s.requests || Timer in t.flags) && (t.calls == s.calls || Pending in t.flags)
    && t.at.TimerWork? == s.at.TimerWork? && t.at.PendingWork? == s.at.PendingWork? && t.at.Stopped? == s.at.Stopped?
  }

  lemma OthersGrow(s: State, step: Step)
    requires Inv(s) && Enabled(s, step) && !Plain(step)
    ensures FlagsGrow(s, Do(s, step))
  {
    if step.Pop? || step.FirstCheck? || step.SecondCheck? || step.Finish? {
      ListGrows(s, step);
    } else if step.SubscribeTo? || step.UnsubscribeFrom? || step.NotifyFor? {
      TreeGrows(s, step);
    } else {
      FlowGrows(s, step);
    }
  }

  lemma ListGrows(s: State, step: Step)
    requires Inv(s) && Enabled(s, step) && (step.Pop? || step.FirstCheck? || step.SecondCheck? || step.Finish?)
    ensures FlagsGrow(s, Do(s, step))
  {}

  lemma TreeGrows(s: State, step: Step)
    requires Inv(s) && Enabled(s, step) && (step.SubscribeTo? || step.UnsubscribeFrom? || step.NotifyFor?)
    ensures FlagsGrow(s, Do(s, step))
  {}

  lemma FlowGrows(s: State, step: Step)
    requires Inv(s) && Enabled(s, step) && Flow(step)
    ensures FlagsGrow(s, Do(s, step))
  {
    if step.Put? || step.Get? || step.Reset? || step.Create? { QueuesOnly(s, step); } else { FlagsOnly(s, step); }
  }

  lemma QueuesOnly(s: State, step: Step)
    requires Inv(s) && Enabled(s, step) && (step.Put? || step.Get? || step.Reset? || step.Create?)
    ensures Do(s, step) == s.(queues := Do(s, step).queues, inflight := Do(s, step).inflight)
  {}

  lemma FlagsOnly(s: State, step: Step)
    requires Inv(s) && Enabled(s, step) && (step.RequestTimer? || step.PendCall? || step.RequestStop? || step.SignalThread?)
    ensures FlagsGrow(s, Do(s, step))
  {}

  /** The steps that touch only flags and queues. */
  predicate Flow(step: Step) {
    step.RequestTimer? || step.PendCall? || step.RequestStop? || step.SignalThread?
    || step.Put? || step.Get? || step.Reset? || step.Create?
  }

  lemma StillRaised(s: State, step: Step, i: Id)
    requires Inv(s) && Live(s) && Enabled(s, step) && !Stops(s, step)
    requires Inv(Do(s, step)) && Outstanding(Do(s, step), i)
    ensures Raised(Do(s, step))
  {
    var t := Do(s, step);
    assert LevelOK(t, i);
    if Plain(step) {
      PlainRaised(s, step);
    } else {
      match step {
        case Pop => PopRaised(s);
        case FirstCheck => CheckRaised(s, step);
        case SecondCheck => CheckRaised(s, step);
        case Finish => FinishRaised(s);
        case _ => FreeRaised(s, step, i);
      }
    }
  }

  /** The steps outside the loop's own code. */
  lemma FreeRaised(s: State, step: Step, i: Id)
    requires Inv(s) && Live(s) && Enabled(s, step) && Outstanding(Do(s, step), i)
    requires Flow(step) || step.SubscribeTo? || step.UnsubscribeFrom? || step.NotifyFor?
    ensures Raised(Do(s, step))
  {
    match step {
      case SubscribeTo(j, o, d, edge) => SubscribeRaised(s, j, o, d, edge, i);
      case UnsubscribeFrom(o) => assert TreeOK(s, o); UnsubscribeRaised(s, o, i);
      case NotifyFor(o, d) => ArriveRaised(s, o, d, i);
      case _ => FlowRaised(s, step, i);
    }
  }

  /** Only an empty waiting list leaves a round of the loop without the Event flag. */
  lemma PlainRaised(s: State, step: Step)
    requires Inv(s) && Enabled(s, step) && Plain(step) && !Stops(s, step)
    ensures Raised(s) && s.waiting != [] ==> Raised(Do(s, step))
    ensures forall i :: Outstanding(s, i) == Outstanding(Do(s, step), i)
  {}

  lemma PopRaised(s: State)
    requires Inv(s) && s.at.Looking?
    ensures s.waiting != [] ==> Raised(Do(s, Pop))
    ensures Do(s, Pop).waiting == [] || Raised(Do(s, Pop))
    ensures s.waiting == [] ==> !WillSync(Do(s, Pop).at)
  {}

  lemma CheckRaised(s: State, step: Step)
    requires Inv(s) && Enabled(s, step) && (step.FirstCheck? || step.SecondCheck?)
    ensures Raised(Do(s, step))
  {}

  lemma FinishRaised(s: State)
    requires Inv(s) && s.at.Judged?
    ensures Raised(Do(s, Finish))
  {}

  lemma SubscribeRaised(s: State, j: Id, o: Object, d: Dir, edge: bool, i: Id)
    requires Inv(s) && Live(s) && Enabled(s, SubscribeTo(j, o, d, edge)) && Outstanding(Subscribe(s, j, o, d, edge), i)
    ensures Raised(Subscribe(s, j, o, d, edge))
  {
    assert ItemOK(s, i);
    assert i != j ==> Outstanding(s, i);
  }

  lemma UnsubscribeRaised(s: State, o: Object, i: Id)
    requires Inv(s) && Live(s) && o in s.tree && s.tree[o] in s.items && Outstanding(Unsubscribe(s, o), i)
    ensures Raised(Unsubscribe(s, o))
  {
    assert Outstanding(s, i);
  }

  lemma ArriveRaised(s: State, o: Object, d: Dir, i: Id)
    requires Inv(s) && Live(s) && (o, d) in s.inflight && Outstanding(Do(s, NotifyFor(o, d)), i)
    ensures Raised(Do(s, NotifyFor(o, d)))
  {
    assert ItemOK(s, i);
    assert (o, d) !in s.links ==> Outstanding(s, i);
  }

  /** What other threads do to flags and queues. */
  lemma FlowRaised(s: State, step: Step, i: Id)
    requires Inv(s) && Live(s) && Enabled(s, step) && Outstanding(Do(s, step), i) && Flow(step)
    ensures Raised(Do(s, step))
  {
    assert ItemOK(s, i);
    assert Outstanding(s, i);
  }

  /** What has to hold before a stopped loop is run again: outstanding items have the Event flag, and timer requests
      and pending calls theirs. */
  ghost predicate Resumable(s: State) {
    && (forall i :: Outstanding(s, i) ==> Event in s.flags)
    && (s.requests > 0 ==> Timer in s.flags) && (s.calls > 0 ==> Pending in s.flags)
  }

  /** A run in which a stopped loop is only run again when that holds. */
  ghost predicate Careful(s: State, steps: seq<Step>)
    requires Inv(s) && Legal(s, steps)
    decreases |steps|
  {
    steps != [] ==>
      && (steps[0] == Begin && s.at.Stopped? ==> Resumable(s))
      && (StepKeeps(s, steps[0]); Careful(Do(s, steps[0]), steps[1..]))
  }

  lemma {:induction false} CarefulStaysLive(s: State, steps: seq<Step>)
    requires Inv(s) && Legal(s, steps) && Careful(s, steps) && (s.at.Stopped? || Live(s))
    ensures Run(s, steps).at.Stopped? || Live(Run(s, steps))
    decreases |steps|
  {
    if steps != [] {
      StepKeeps(s, steps[0]);
      CarefulStep(s, steps[0]);
      CarefulStaysLive(Do(s, steps[0]), steps[1..]);
    }
  }

  lemma CarefulStep(s: State, step: Step)
    requires Inv(s) && Enabled(s, step) && (s.at.Stopped? || Live(s))
    requires step == Begin && s.at.Stopped? ==> Resumable(s)
    ensures Do(s, step).at.Stopped? || Live(Do(s, step))
  {
    if s.at.Stopped? {
      if step == Begin { StepStaysLive(s, step); }
    } else if !Stops(s, step) {
      StepStaysLive(s, step);
    }
  }

  /** The wait of the loop cannot miss anything: an outstanding item is in the waiting list exactly once with the Event
      flag up, so that the wait returns at once, and so are Timer and Pending when there is work for them. */
  ghost predicate Awake(s: State) {
    && (forall i :: Outstanding(s, i) ==> Occurrences(s.waiting, i) == 1 && Event in s.flags)
    && (s.requests > 0 ==> Timer in s.flags) && (s.calls > 0 ==> Pending in s.flags)
  }

  lemma WaitIsAwake(s: State)
    requires Inv(s) && s.at.Wait?
    ensures Live(s) <==> Awake(s)
  {
    forall i | Outstanding(s, i) ensures Occurrences(s.waiting, i) == 1 {
      assert LevelOK(s, i);
      OnceOnly(s.waiting, i);
    }
  }

  /** No wakeup is lost: whenever the loop reaches its wait, on any interleaving, nothing that is outstanding can be
      missed; in the first run always, and in later runs when the loop was run again with care. */
  lemma NoLostWakeup(steps: seq<Step>)
    requires LegalRun(steps) && (BeginCount(steps) <= 1 || CarefulRun(steps)) && Reached(steps).at.Wait?
    ensures Awake(Reached(steps))
  {
    InitialOK();
    RunKeeps(Initial, steps);
    if BeginCount(steps) <= 1 { OneRunIsCareful(Initial, steps); }
    CarefulStaysLive(Initial, steps);
    WaitIsAwake(Reached(steps));
  }

  ghost function BeginCount(steps: seq<Step>): nat {
    if steps == [] then 0 else (if steps[0] == Begin then 1 else 0) + BeginCount(steps[1..])
  }

  /** Care is only needed to run a loop again: as long as it is run once, stopped or not, nothing can be missed. */
  lemma {:induction false} OneRunIsCareful(s: State, steps: seq<Step>)
    requires Inv(s) && Legal(s, steps) && BeginCount(steps) <= if s.at.Created? then 1 else 0
    ensures Careful(s, steps)
    decreases |steps|
  {
    if steps != [] {
      StepKeeps(s, steps[0]);
      if s.at.Created? { CreatedStays(s, steps[0]); }
      OneRunIsCareful(Do(s, steps[0]), steps[1..]);
    }
  }

  lemma CreatedStays(s: State, step: Step)
    requires Inv(s) && Enabled(s, step) && s.at.Created?
    ensures Do(s, step).at.Created? || step == Begin
  {}

  /** Items are freed when they are unsubscribed, at once or as soon as their processing is over: at its
      wait the loop holds exactly the subscribed ones, each linked from its object. */
  lemma NoLeakedItem(steps: seq<Step>)
    requires LegalRun(steps) && Reached(steps).at.Wait?
    ensures var s := Reached(steps);
            forall i :: i in s.items <==> exists o :: o in s.tree && s.tree[o] == i
    ensures var s := Reached(steps);
            forall i :: i in s.items ==> (s.items[i].source, s.items[i].dir) in s.links && s.links[(s.items[i].source, s.items[i].dir)] == i
  {
    InitialOK();
    var s := Reached(steps);
    RunKeeps(Initial, steps);
    forall i | i in s.items
      ensures s.items[i].source in s.tree && s.tree[s.items[i].source] == i
      ensures (s.items[i].source, s.items[i].dir) in s.links && s.links[(s.items[i].source, s.items[i].dir)] == i
    {
      assert ItemOK(s, i);
    }
    forall o | o in s.tree ensures s.tree[o] in s.items { assert TreeOK(s, o); }
  }

  // ----- fairness ----------------------------------------------------------------------

  lemma {:induction false} IndexAppend(q: seq<Id>, i: Id, x: Id)
    requires i in q
    ensures IndexOf(q + [x], i) == IndexOf(q, i)
  {
    if q[0] != i {
      assert (q + [x])[1..] == q[1..] + [x];
      IndexAppend(q[1..], i, x);
    }
  }

  lemma {:induction false} IndexWithout(q: seq<Id>, i: Id, x: Id)
    requires i in q && i != x
    ensures IndexOf(Without(q, x), i) <= IndexOf(q, i)
  {
    if q[0] != i {
      IndexWithout(q[1..], i, x);
      if q[0] != x { assert ([q[0]] + Without(q[1..], x))[1..] == Without(q[1..], x); }
    }
  }

  /** The step takes `i` off the front of the waiting list for processing. */
  ghost predicate Dispatches(s: State, step: Step, i: Id) {
    step == Pop && s.waiting != [] && s.waiting[0] == i
  }

  ghost predicate Unsubscribes(s: State, step: Step, i: Id) {
    step.UnsubscribeFrom? && step.o in s.tree && s.tree[step.o] == i
  }

  /** No step moves a waiting item back, and every other pop moves it forward. */
  lemma StepForward(s: State, step: Step, i: Id)
    requires Inv(s) && Enabled(s, step) && i in s.waiting && !Dispatches(s, step, i) && !Unsubscribes(s, step, i)
    ensures i in Do(s, step).waiting
    ensures IndexOf(Do(s, step).waiting, i) <= IndexOf(s.waiting, i) - if step == Pop then 1 else 0
  {
    if Plain(step) || step == Pop {
      PlainForward(s, step, i);
    } else if step.UnsubscribeFrom? {
      IndexWithout(s.waiting, i, s.tree[step.o]);
    } else {
      OtherForward(s, step);
      if Do(s, step).waiting != s.waiting {
        var x := Do(s, step).waiting[|s.waiting|];
        IndexAppend(s.waiting, i, x);
      }
    }
  }

  lemma PlainForward(s: State, step: Step, i: Id)
    requires Inv(s) && Enabled(s, step) && i in s.waiting && !Dispatches(s, step, i) && (Plain(step) || step == Pop)
    ensures i in Do(s, step).waiting
    ensures IndexOf(Do(s, step).waiting, i) <= IndexOf(s.waiting, i) - if step == Pop then 1 else 0
  {}

  /** The rest at most append one item. */
  lemma OtherForward(s: State, step: Step)
    requires Inv(s) && Enabled(s, step) && !Plain(step) && step != Pop && !step.UnsubscribeFrom?
    ensures Appends(s.waiting, Do(s, step).waiting)
  {
    if step.SubscribeTo? || step.Finish? || step.NotifyFor? { Notified(s, step); } else { Unnotified(s, step); }
  }

  ghost predicate Appends(q: seq<Id>, r: seq<Id>) { r == q || (|r| == |q| + 1 && r == q + [r[|q|]]) }

  lemma Notified(s: State, step: Step)
    requires Inv(s) && Enabled(s, step) && (step.SubscribeTo? || step.Finish? || step.NotifyFor?)
    ensures Appends(s.waiting, Do(s, step).waiting)
  {}

  lemma Unnotified(s: State, step: Step)
    requires Inv(s) && Enabled(s, step) && !Plain(step) && step != Pop && !step.UnsubscribeFrom?
    requires !step.SubscribeTo? && !step.Finish? && !step.NotifyFor?
    ensures Do(s, step).waiting == s.waiting
  {}

  ghost function PopCount(steps: seq<Step>): nat {
    if steps == [] then 0 else (if steps[0] == Pop then 1 else 0) + PopCount(steps[1..])
  }

  /** Along the run `i` is dispatched, or unsubscribed. */
  ghost predicate Resolved(s: State, steps: seq<Step>, i: Id)
    requires Inv(s) && Legal(s, steps)
    decreases |steps|
  {
    steps != [] &&
      (Dispatches(s, steps[0], i) || Unsubscribes(s, steps[0], i)
       || (StepKeeps(s, steps[0]); Resolved(Do(s, steps[0]), steps[1..], i)))
  }

  /** Nobody starves: an item with k items ahead of it is dispatched within k + 1 pops of the waiting
      list, unless it is unsubscribed, however often other items are notified in between. */
  lemma {:induction false} NoStarvation(s: State, steps: seq<Step>, i: Id)
    requires Inv(s) && Legal(s, steps) && i in s.waiting && PopCount(steps) > IndexOf(s.waiting, i)
    ensures Resolved(s, steps, i)
    decreases |steps|
  {
    if !Dispatches(s, steps[0], i) && !Unsubscribes(s, steps[0], i) {
      StepKeeps(s, steps[0]);
      StepForward(s, steps[0], i);
      NoStarvation(Do(s, steps[0]), steps[1..], i);
    }
  }

  // ----- callbacks ------------------------------------------------------------------------

  /** The first look at a popped item, and what it leads to: its callback, or nothing when it is level-triggered and its
      level has gone down. */
  ghost predicate LooksAt(s: State, step: Step, i: Id) { step == FirstCheck && s.at.Popped? && s.at.item == i }

  ghost predicate Idles(s: State, i: Id) {
    i in s.items && !s.items[i].edge && s.Level(s.items[i].source, s.items[i].dir) <= 0
  }

  ghost predicate Enters(s: State, step: Step, i: Id)
    requires Inv(s) && Enabled(s, step)
  {
    LooksAt(s, step, i) && Do(s, step).at == Calling(i, s.at.rest)
  }

  /** Along the run the callback of `i` is entered, or its turn comes with nothing to do, or it is unsubscribed. */
  ghost predicate Attended(s: State, steps: seq<Step>, i: Id)
    requires Inv(s) && Legal(s, steps)
    decreases |steps|
  {
    steps != [] &&
      (Enters(s, steps[0], i) || (LooksAt(s, steps[0], i) && Idles(s, i)) || Unsubscribes(s, steps[0], i)
       || (StepKeeps(s, steps[0]); Attended(Do(s, steps[0]), steps[1..], i)))
  }

  ghost function LookCount(steps: seq<Step>): nat {
    if steps == [] then 0 else (if steps[0] == FirstCheck then 1 else 0) + LookCount(steps[1..])
  }

  /** The looks still to come before the one at `i`. */
  ghost function LooksAhead(s: State, i: Id): nat
    requires i in s.waiting || (s.at.Popped? && s.at.item == i)
  {
    if s.at.Popped? && s.at.item == i then 0 else IndexOf(s.waiting, i) + if s.at.Popped? then 1 else 0
  }

  /** Every waiting item gets its callback in turn: with k looks ahead of it, its callback is entered at the latest by
      look k + 1, unless it is unsubscribed first or its level is down when its turn comes. */
  lemma {:induction false} CalledInTurn(s: State, steps: seq<Step>, i: Id)
    requires Inv(s) && Legal(s, steps) && (i in s.waiting || (s.at.Popped? && s.at.item == i))
    requires LookCount(steps) > LooksAhead(s, i)
    ensures Attended(s, steps, i)
    decreases |steps|
  {
    StepKeeps(s, steps[0]);
    if LooksAt(s, steps[0], i) {
      LookDecides(s, i);
    } else if !Unsubscribes(s, steps[0], i) {
      TurnComes(s, steps[0], i);
      CalledInTurn(Do(s, steps[0]), steps[1..], i);
    }
  }

  /** An edge-triggered item is called at the look; a level-triggered one exactly when its level is up then. */
  lemma LookDecides(s: State, i: Id)
    requires Inv(s) && s.at.Popped? && s.at.item == i
    ensures Enters(s, FirstCheck, i) <==> !Idles(s, i)
  {
    assert ItemOK(s, i);
  }

  lemma TurnComes(s: State, step: Step, i: Id)
    requires Inv(s) && Enabled(s, step) && !LooksAt(s, step, i) && !Unsubscribes(s, step, i)
    requires i in s.waiting || (s.at.Popped? && s.at.item == i)
    ensures var t := Do(s, step);
            && (i in t.waiting || (t.at.Popped? && t.at.item == i))
            && LooksAhead(t, i) <= LooksAhead(s, i) - if step == FirstCheck then 1 else 0
  {
    PoppedMoves(s, step);
    if i in s.waiting && !Dispatches(s, step, i) && !(s.at.Popped? && s.at.item == i) { StepForward(s, step, i); }
  }

  /** An item is popped only by a pop, and then stays so until it is looked at. */
  lemma PoppedMoves(s: State, step: Step)
    requires Inv(s) && Enabled(s, step)
    ensures s.at.Popped? && step != FirstCheck ==> Do(s, step).at == s.at
    ensures step == FirstCheck ==> !Do(s, step).at.Popped?
    ensures step == Pop && s.waiting != [] ==> Do(s, step).at.Popped? && Do(s, step).at.item == s.waiting[0]
    ensures !s.at.Popped? && step != Pop ==> !Do(s, step).at.Popped?
  {
    if step == Pop || step == FirstCheck { LookMoves(s, step); } else { ElsewhereMoves(s, step); }
  }

  lemma LookMoves(s: State, step: Step)
    requires Inv(s) && Enabled(s, step) && (step == Pop || step == FirstCheck)
    ensures step == FirstCheck ==> !Do(s, step).at.Popped?
    ensures step == Pop && s.waiting != [] ==> Do(s, step).at.Popped? && Do(s, step).at.item == s.waiting[0]
  {}

  lemma ElsewhereMoves(s: State, step: Step)
    requires Inv(s) && Enabled(s, step) && step != Pop && step != FirstCheck
    ensures s.at.Popped? ==> Do(s, step).at == s.at
    ensures !s.at.Popped? ==> !Do(s, step).at.Popped?
  {}

  /** The item whose callback has been entered since the last pop, if any. */
  ghost function EnteredSince(s: State, steps: seq<Step>, e: Option<Id>): Option<Id>
    requires Inv(s) && Legal(s, steps)
    decreases |steps|
  {
    if steps == [] then e
    else
      StepKeeps(s, steps[0]);
      var t := Do(s, steps[0]);
      EnteredSince(t, steps[1..], if steps[0] == Pop then None else if t.at.Calling? then Some(t.at.item) else e)
  }

  /** The loop asks whether an item needs another round only after its callback. */
  lemma {:induction false} CalledBack(s: State, steps: seq<Step>, e: Option<Id>)
    requires Inv(s) && Legal(s, steps) && AfterCallback(s, e)
    ensures AfterCallback(Run(s, steps), EnteredSince(s, steps, e))
    decreases |steps|
  {
    if steps != [] {
      StepKeeps(s, steps[0]);
      var t := Do(s, steps[0]);
      var d := if steps[0] == Pop then None else if t.at.Calling? then Some(t.at.item) else e;
      AfterCallbackStays(s, steps[0], e);
      CalledBack(t, steps[1..], d);
    }
  }

  ghost predicate AfterCallback(s: State, e: Option<Id>) {
    s.at.Calling? || s.at.Called? || (s.at.Judged? && s.at.again) ==> e == Some(s.at.item)
  }

  lemma AfterCallbackStays(s: State, step: Step, e: Option<Id>)
    requires Inv(s) && Enabled(s, step) && AfterCallback(s, e)
    ensures var t := Do(s, step);
            AfterCallback(t, if step == Pop then None else if t.at.Calling? then Some(t.at.item) else e)
  {}

  /** So in every run of the loop. */
  lemma CalledOnlyAfterCallback(steps: seq<Step>)
    requires LegalRun(steps) && Reached(steps).at.Called?
    ensures (InitialOK(); EnteredSince(Initial, steps, None) == Some(Reached(steps).at.item))
  {
    InitialOK();
    CalledBack(Initial, steps, None);
  }

  /** Pending calls are made one by one: those made and those left are those there were and those that came. */
  lemma {:induction false} CallsConserved(s: State, steps: seq<Step>)
    requires Inv(s) && Legal(s, steps)
    ensures Run(s, steps).calls + StepCount(steps, PendingDone) == s.calls + StepCount(steps, PendCall)
    decreases |steps|
  {
    if steps != [] {
      StepKeeps(s, steps[0]);
      CallsStep(s, steps[0]);
      CallsConserved(Do(s, steps[0]), steps[1..]);
    }
  }

  ghost function StepCount(steps: seq<Step>, step: Step): nat {
    if steps == [] then 0 else (if steps[0] == step then 1 else 0) + StepCount(steps[1..], step)
  }

  lemma CallsStep(s: State, step: Step)
    requires Inv(s) && Enabled(s, step)
    ensures Do(s, step).calls + (if step == PendingDone then 1 else 0) == s.calls + if step == PendCall then 1 else 0
  {
    if Plain(step) { PlainCalls(s, step); } else { OtherCalls(s, step); }
  }

  lemma PlainCalls(s: State, step: Step)
    requires Inv(s) && Enabled(s, step) && Plain(step)
    ensures Do(s, step).calls == if step == PendingDone then s.calls - 1 else s.calls
  {}

  lemma OtherCalls(s: State, step: Step)
    requires Inv(s) && Enabled(s, step) && !Plain(step)
    ensures Do(s, step).calls == if step == PendCall then s.calls + 1 else s.calls
  {}

  /** The loop never hangs: left alone with callbacks that return, it comes back to its wait, or has stopped; and a wait
      that times out leads to the timer and tick code. */
  lemma {:induction false} BackToWait(s: State) returns (steps: seq<Step>)
    requires Inv(s) && !s.at.Created?
    ensures Legal(s, steps) && (Run(s, steps).at.Wait? || Run(s, steps).at.Stopped?)
    ensures s.at.Wait? && s.flags == {} ==> Do(s, Timeout).at.UserWork?
    decreases Distance(s.at), if s.at.PendingWork? then s.calls else 0
  {
    if s.at.Wait? || s.at.Stopped? {
      steps := [];
    } else {
      var step := Onward(s);
      StepKeeps(s, step);
      OnwardIsNearer(s);
      var rest := BackToWait(Do(s, step));
      steps := [step] + rest;
      assert steps[1..] == rest;
    }
  }

  /** The step the loop thread takes next. */
  ghost function Onward(s: State): Step {
    match s.at
    case Got(_) => Choose
    case Looking(_) => Pop
    case Popped(_, _) => FirstCheck
    case Calling(_, _) => Return
    case Called(_, _) => SecondCheck
    case Judged(_, _, _) => Finish
    case Syncing(_) => Sync
    case Restoring(_) => Restore
    case TimerWork(_) => ServeTimers
    case PendingWork => if s.calls > 0 then PendingDone else PendingEnd
    case _ => UserEnd
  }

  ghost function Distance(p: Point): nat {
    match p
    case Got(_) => 9
    case Looking(_) => 8
    case Popped(_, _) => 7
    case Calling(_, _) => 6
    case Called(_, _) => 5
    case Judged(_, _, _) => 4
    case Syncing(_) => 3
    case TimerWork(_) => 3
    case Restoring(_) => 2
    case PendingWork => 1
    case UserWork => 1
    case _ => 0
  }

  lemma OnwardIsNearer(s: State)
    requires Inv(s) && !s.at.Created? && !s.at.Wait? && !s.at.Stopped?
    ensures Enabled(s, Onward(s)) && Nearer(s, Do(s, Onward(s)))
  {
    if Plain(Onward(s)) { PlainIsNearer(s); } else { ListIsNearer(s); }
  }

  ghost predicate Nearer(s: State, t: State) {
    !t.at.Created? && (Distance(t.at) < Distance(s.at) || (t.at == s.at && s.at.PendingWork? && t.calls < s.calls))
  }

  lemma PlainIsNearer(s: State)
    requires Inv(s) && !s.at.Created? && !s.at.Wait? && !s.at.Stopped? && Plain(Onward(s))
    ensures Enabled(s, Onward(s)) && Nearer(s, Do(s, Onward(s)))
  {}

  lemma ListIsNearer(s: State)
    requires Inv(s) && !s.at.Created? && !s.at.Wait? && !s.at.Stopped? && !Plain(Onward(s))
    ensures Enabled(s, Onward(s)) && Nearer(s, Do(s, Onward(s)))
  {}

  // ----- edge-triggered items are not called without a notification ---------------------

  /** The step notifies `i`. */
  ghost predicate Notifies(s: State, step: Step, i: Id) {
    step.NotifyFor? && (step.o, step.d) in s.links && s.links[(step.o, step.d)] == i
  }

  ghost function NotifyCount(s: State, steps: seq<Step>, i: Id): nat
    requires Inv(s) && Legal(s, steps)
    decreases |steps|
  {
    if steps == [] then 0
    else
      StepKeeps(s, steps[0]);
      (if Notifies(s, steps[0], i) then 1 else 0) + NotifyCount(Do(s, steps[0]), steps[1..], i)
  }

  ghost function CallCount(s: State, steps: seq<Step>, i: Id): nat
    requires Inv(s) && Legal(s, steps)
    decreases |steps|
  {
    if steps == [] then 0
    else
      StepKeeps(s, steps[0]);
      (if Enters(s, steps[0], i) then 1 else 0) + CallCount(Do(s, steps[0]), steps[1..], i)
  }

  /** Notifications of `i` not answered yet. */
  ghost function Unanswered(s: State, i: Id): nat {
    (if i in s.waiting then 1 else 0) + if s.at.Popped? && s.at.item == i then 1 else 0
  }

  /** Whenever there is an item `i`, it is edge-triggered. */
  ghost predicate StaysEdge(s: State, steps: seq<Step>, i: Id) {
    (i in s.items ==> s.items[i].edge) && forall k :: 0 <= k < |steps| && steps[k].SubscribeTo? && steps[k].item == i ==> steps[k].edge
  }

  /** An edge-triggered item is called at most once for each notification: not when it is subscribed, however high the
      level is, and not again because its level stays up. */
  lemma {:induction false} EdgeCallsBounded(s: State, steps: seq<Step>, i: Id)
    requires Inv(s) && Legal(s, steps) && StaysEdge(s, steps, i) && !(s.at.Judged? && s.at.item == i && s.at.again)
    ensures CallCount(s, steps, i) + Unanswered(Run(s, steps), i) <= NotifyCount(s, steps, i) + Unanswered(s, i)
    decreases |steps|
  {
    if steps != [] {
      StepKeeps(s, steps[0]);
      var t := Do(s, steps[0]);
      EdgeStep(s, steps[0], i);
      assert forall k :: 0 <= k < |steps[1..]| ==> steps[1..][k] == steps[k + 1];
      EdgeCallsBounded(t, steps[1..], i);
    }
  }

  lemma EdgeStep(s: State, step: Step, i: Id)
    requires Inv(s) && Enabled(s, step) && (i in s.items ==> s.items[i].edge) && !(s.at.Judged? && s.at.item == i && s.at.again)
    requires step.SubscribeTo? && step.item == i ==> step.edge
    ensures var t := Do(s, step);
            && (i in t.items ==> t.items[i].edge) && !(t.at.Judged? && t.at.item == i && t.at.again)
            && (if Enters(s, step, i) then 1 else 0) + Unanswered(t, i)
                 <= (if Notifies(s, step, i) then 1 else 0) + Unanswered(s, i)
  {
    PoppedMoves(s, step);
    EdgeStays(s, step, i);
    EdgeWaits(s, step, i);
  }

  lemma EdgeStays(s: State, step: Step, i: Id)
    requires Inv(s) && Enabled(s, step) && (i in s.items ==> s.items[i].edge) && !(s.at.Judged? && s.at.item == i && s.at.again)
    requires step.SubscribeTo? && step.item == i ==> step.edge
    ensures var t := Do(s, step);
            (i in t.items ==> t.items[i].edge) && !(t.at.Judged? && t.at.item == i && t.at.again)
  {
    if step.UnsubscribeFrom? { assert TreeOK(s, step.o); }
    if step == SecondCheck { assert ItemOK(s, s.at.item); }
  }

  /** It joins the waiting list only by a notification, and leaves it when it is popped. */
  lemma EdgeWaits(s: State, step: Step, i: Id)
    requires Inv(s) && Enabled(s, step) && (i in s.items ==> s.items[i].edge) && !(s.at.Judged? && s.at.item == i && s.at.again)
    requires step.SubscribeTo? && step.item == i ==> step.edge
    ensures i in Do(s, step).waiting ==> i in s.waiting || Notifies(s, step, i)
    ensures step == Pop && s.waiting != [] && s.waiting[0] == i ==> i !in Do(s, step).waiting
  {
    if step.SubscribeTo? || step.Finish? || step.NotifyFor? {
      EdgeJoins(s, step, i);
    } else if step == Pop || step.UnsubscribeFrom? || Plain(step) {
      EdgeLeaves(s, step, i);
    } else {
      Unnotified(s, step);
    }
  }

  lemma EdgeJoins(s: State, step: Step, i: Id)
    requires Inv(s) && Enabled(s, step) && (i in s.items ==> s.items[i].edge) && !(s.at.Judged? && s.at.item == i && s.at.again)
    requires step.SubscribeTo? || step.Finish? || step.NotifyFor?
    requires step.SubscribeTo? && step.item == i ==> step.edge
    ensures i in Do(s, step).waiting ==> i in s.waiting || Notifies(s, step, i)
  {}

  lemma EdgeLeaves(s: State, step: Step, i: Id)
    requires Inv(s) && Enabled(s, step) && (step == Pop || step.UnsubscribeFrom? || Plain(step))
    ensures i in Do(s, step).waiting ==> i in s.waiting
    ensures step == Pop && s.waiting != [] && s.waiting[0] == i ==> i !in Do(s, step).waiting
  {}

  // ----- what is lost ---------------------------------------------------------------------

  /** A taken flag is dealt with by the branch chosen for it, or kept for the next round. */
  ghost predicate Kept(f: set<Flag>, x: Flag) {
    var p := Branch(f);
    x in Held(p) || (x == Event && p.Looking?) || (x == Timer && p.TimerWork?) || (x == Pending && p.PendingWork?)
    || (x == ThreadFlag && p.UserWork?) || (x == Stop && p.Stopped?)
  }

  /** Of the flags taken together, Event, Timer and Pending survive unless the loop stops; a thread-flag
      notification survives exactly when neither a stop nor a bare Pending is taken with it. */
  lemma WhatIsKept(f: set<Flag>, x: Flag)
    requires x in f
    ensures x == Event || x == Timer || x == Pending ==> (Kept(f, x) <==> Stop !in f)
    ensures x == ThreadFlag ==> (Kept(f, x) <==> Stop !in f && (Event in f || Timer in f || Pending !in f))
  {}

  /** What becomes of a flag in one step: it stays, or is taken and held, or put back; and only when the loop chooses its
      branch is it dealt with, or, by a stop or as a thread flag beside a bare pending call, lost. */
  lemma FlagFate(s: State, step: Step, x: Flag)
    requires Inv(s) && Enabled(s, step) && (x in s.flags || x in Held(s.at))
    ensures var t := Do(s, step);
            x in t.flags || x in Held(t.at) || (step == Choose && Kept(s.at.taken, x))
            || (Stops(s, step) && x != Stop)
            || (step == Choose && x == ThreadFlag && Pending in s.at.taken && Event !in s.at.taken && Timer !in s.at.taken)
  {
    if Plain(step) { PlainFate(s, step, x); } else { OthersGrow(s, step); }
  }

  lemma PlainFate(s: State, step: Step, x: Flag)
    requires Inv(s) && Enabled(s, step) && Plain(step) && (x in s.flags || x in Held(s.at))
    ensures var t := Do(s, step);
            x in t.flags || x in Held(t.at) || (step == Choose && Kept(s.at.taken, x))
            || (Stops(s, step) && x != Stop)
            || (step == Choose && x == ThreadFlag && Pending in s.at.taken && Event !in s.at.taken && Timer !in s.at.taken)
  {}

  /** One more step at the end of a run. */
  lemma {:induction false} OneMore(s: State, steps: seq<Step>, step: Step)
    requires Inv(s) && Legal(s, steps) && Inv(Run(s, steps)) && Enabled(Run(s, steps), step)
    ensures Legal(s, steps + [step]) && Run(s, steps + [step]) == Do(Run(s, steps), step)
    decreases |steps|
  {
    if steps == [] {
      StepKeeps(s, step);
      assert steps + [step] == [step] && [step][1..] == [];
    } else {
      StepKeeps(s, steps[0]);
      assert (steps + [step])[1..] == steps[1..] + [step];
      OneMore(Do(s, steps[0]), steps[1..], step);
    }
  }

  /** The run is legal and ends in `s`. */
  ghost predicate Leads(steps: seq<Step>, s: State) {
    LegalRun(steps) && Reached(steps) == s && Inv(s)
  }

  lemma Further(steps: seq<Step>, s: State, step: Step, more: seq<Step>, t: State)
    requires Leads(steps, s) && Enabled(s, step) && more == steps + [step] && t == Do(s, step)
    ensures Leads(more, t)
  {
    InitialOK();
    OneMore(Initial, steps, step);
    StepKeeps(s, step);
  }

  lemma NoSteps()
    ensures Leads([], Initial)
  {
    InitialOK();
  }

  /** A pending callback and a thread-flag notification that arrive together: the loop is back at its wait after the
      callback, the thread flag is gone, and its callback has not been called. */
  lemma ThreadFlagLost()
    ensures var steps := [SignalThread, PendCall, Begin, Take, Choose, PendingDone, PendingEnd];
            LegalRun(steps) && Reached(steps) == Initial.(at := Wait)
  {
    BothTaken();
    var d := [SignalThread, PendCall, Begin, Take];
    var u := WithCall({}, Got({ThreadFlag, Pending}));
    Further(d, u, Choose, d + [Choose], WithCall({}, PendingWork));
    Further(d + [Choose], WithCall({}, PendingWork), PendingDone, d + [Choose] + [PendingDone], Initial.(at := PendingWork));
    Further(d + [Choose] + [PendingDone], Initial.(at := PendingWork), PendingEnd,
            [SignalThread, PendCall, Begin, Take, Choose, PendingDone, PendingEnd], Initial.(at := Wait));
  }

  function WithCall(flags: set<Flag>, at: Point): State {
    State(map[], map[], map[], [], flags, map[], multiset{}, 0, 1, at)
  }

  lemma BothTaken()
    ensures Leads([SignalThread, PendCall, Begin, Take], WithCall({}, Got({ThreadFlag, Pending})))
  {
    NoSteps();
    var a, b := [SignalThread], [SignalThread, PendCall];
    var f := {ThreadFlag, Pending};
    Further([], Initial, SignalThread, a, Initial.(flags := {ThreadFlag}));
    Further(a, Initial.(flags := {ThreadFlag}), PendCall, b, WithCall(f, Created));
    Further(b, WithCall(f, Created), Begin, b + [Begin], WithCall(f, Wait));
    Further(b + [Begin], WithCall(f, Wait), Take, [SignalThread, PendCall, Begin, Take], WithCall({}, Got(f)));
  }

  /** The steps up to a message in a subscribed queue, its notify arrived, and those of a stop after it. */
  const Message: seq<Step> := [Create(7, 4), SubscribeTo(1, 7, In, false), Begin, Put(7), NotifyFor(7, In)]
  const SwallowingStop: seq<Step> := Message + [RequestStop] + [Take] + [Choose]

  function WithMessage(flags: set<Flag>, at: Point): State {
    State(map[1 := Item(7, In, false, true)], map[7 := 1], map[(7, In) := 1], [1], flags, map[7 := Queue(1, 4)], multiset{}, 0, 0, at)
  }

  lemma MessageArrives()
    ensures Leads(Message, WithMessage({Event}, Wait))
  {
    MessagePut();
    var d := [Create(7, 4), SubscribeTo(1, 7, In, false), Begin, Put(7)];
    var u := Watching(Wait).(queues := map[7 := Queue(1, 4)], inflight := multiset{(7, In)});
    Further(d, u, NotifyFor(7, In), Message, WithMessage({Event}, Wait));
  }

  lemma MessagePut()
    ensures Leads([Create(7, 4), SubscribeTo(1, 7, In, false), Begin, Put(7)],
                  Watching(Wait).(queues := map[7 := Queue(1, 4)], inflight := multiset{(7, In)}))
  {
    EmptyQueueWatched();
    var b := [Create(7, 4), SubscribeTo(1, 7, In, false)];
    Further(b, Watching(Created), Begin, b + [Begin], Watching(Wait));
    var u := Watching(Wait).(queues := map[7 := Queue(1, 4)], inflight := multiset{(7, In)});
    Further(b + [Begin], Watching(Wait), Put(7), [Create(7, 4), SubscribeTo(1, 7, In, false), Begin, Put(7)], u);
  }

  function Watching(at: Point): State {
    State(map[1 := Item(7, In, false, true)], map[7 := 1], map[(7, In) := 1], [], {}, map[7 := Queue(0, 4)], multiset{}, 0, 0, at)
  }

  lemma EmptyQueueWatched()
    ensures Leads([Create(7, 4), SubscribeTo(1, 7, In, false)], Watching(Created))
  {
    NoSteps();
    var s := Initial.(queues := map[7 := Queue(0, 4)]);
    Further([], Initial, Create(7, 4), [Create(7, 4)], s);
    Further([Create(7, 4)], s, SubscribeTo(1, 7, In, false), [Create(7, 4), SubscribeTo(1, 7, In, false)], Watching(Created));
  }

  /** A stop that is taken together with the Event flag swallows it. */
  lemma StopSwallows()
    ensures Leads(SwallowingStop, WithMessage({}, Stopped))
  {
    MessageArrives();
    var both := {Event, Stop};
    Further(Message, WithMessage({Event}, Wait), RequestStop, Message + [RequestStop], WithMessage(both, Wait));
    Further(Message + [RequestStop], WithMessage(both, Wait), Take, Message + [RequestStop] + [Take], WithMessage({}, Got(both)));
    Further(Message + [RequestStop] + [Take], WithMessage({}, Got(both)), Choose, SwallowingStop, WithMessage({}, Stopped));
  }

  /** Run again after that stop, the loop waits although a message is there. */
  lemma RestartLosesWakeup()
    ensures LegalRun(SwallowingStop + [Begin])
    ensures var s := Reached(SwallowingStop + [Begin]);
            s.at.Wait? && s.Level(7, In) == 1 && s.inflight == multiset{} && s.flags == {} && !Awake(s)
  {
    StopSwallows();
    var s := WithMessage({}, Wait);
    Further(SwallowingStop, WithMessage({}, Stopped), Begin, SwallowingStop + [Begin], s);
    assert Outstanding(s, 1);
  }

  /** Running a stopped loop again: at every wait of every later run nothing is missed, if and only if what is outstanding
      when it is run again has its flag. */
  lemma RestartExact(s: State)
    requires Inv(s) && s.at.Stopped?
    ensures Inv(Do(s, Begin))
    ensures Resumable(s) <==>
              forall steps :: LaterWait(Do(s, Begin), steps) ==> Awake(Run(Do(s, Begin), steps))
  {
    StepKeeps(s, Begin);
    var t := Do(s, Begin);
    if Resumable(s) {
      StepStaysLive(s, Begin);
      forall steps | LaterWait(t, steps) ensures Awake(Run(t, steps)) {
        CarefulStaysLive(t, steps);
        RunKeeps(t, steps);
        WaitIsAwake(Run(t, steps));
      }
    } else {
      assert LaterWait(t, []);
      forall i ensures Outstanding(t, i) == Outstanding(s, i) {}
      assert !Awake(t);
      assert Run(t, []) == t;
    }
  }

  /** A careful run from `s` that ends at the wait. */
  ghost predicate LaterWait(s: State, steps: seq<Step>)
    requires Inv(s)
  {
    Legal(s, steps) && Careful(s, steps) && Run(s, steps).at.Wait?
  }

  /** The event loop's structure, with the objects it watches, updated piece by piece; one method per
      critical section or straight-line part. */
  class Loop {
    var s: State

    constructor ()
      ensures s == Initial && Inv(s)
    {
      s := Initial;
      new;
      InitialOK();
    }

    /** furi_event_loop_item_notify */
    method ItemNotify(i: Id)
      requires Inv(s) && s.Owns(i)
      modifies this
      ensures Inv(s) && s == Notify(old(s), i)
    {
      NotifyKeeps(s, i);
      if i !in s.waiting {
        s := s.(waiting := s.waiting + [i]);
      }
      s := s.(flags := s.flags + {Event});
    }

    /** furi_event_loop_link_notify, for a queue operation that is waiting to notify. */
    method LinkNotify(o: Object, d: Dir)
      requires Inv(s) && (o, d) in s.inflight
      modifies this
      ensures Inv(s) && s == Do(old(s), NotifyFor(o, d))
    {
      ghost var before := s;
      ArriveKeeps(s, o, d);
      assert LinkOK(s, o, d);
      if (o, d) in s.links {
        ItemNotify(s.links[(o, d)]);
      }
      s := s.(inflight := s.inflight - multiset{(o, d)});
    }

    /** furi_event_loop_object_subscribe */
    method Subscribe(i: Id, o: Object, d: Dir, edge: bool)
      requires Inv(s) && Enabled(s, SubscribeTo(i, o, d, edge))
      modifies this
      ensures Inv(s) && s == Do(old(s), SubscribeTo(i, o, d, edge))
    {
      SubscribeKeeps(s, i, o, d, edge);
      assert ItemOK(s, i);
      s := s.(items := s.items[i := Item(o, d, edge, true)]);
      s := s.(tree := s.tree[o := i]);
      s := s.(links := s.links[(o, d) := i]);
      if !edge {
        if s.Level(o, d) > 0 {
          s := s.(waiting := s.waiting + [i]);
          s := s.(flags := s.flags + {Event});
        }
      }
    }

    /** furi_event_loop_unsubscribe */
    method Unsubscribe(o: Object)
      requires Inv(s) && UserCode(s.at) && o in s.tree
      modifies this
      ensures Inv(s) && s == Do(old(s), UnsubscribeFrom(o))
    {
      UnsubscribeKeeps(s, o);
      assert TreeOK(s, o);
      var i := s.tree[o];
      s := s.(tree := s.tree - {o});
      s := s.(links := s.links - {(o, s.items[i].dir)});
      WithoutSame(s.waiting, i);
      if i in s.waiting {
        s := s.(waiting := Without(s.waiting, i));
      }
      if Current(s.at) == Some(i) {
        s := s.(items := s.items[i := s.items[i].(owned := false)]);
      } else {
        s := s.(items := s.items - {i});
      }
    }

    /** furi_event_loop_get_waiting_item */
    method GetWaitingItem() returns (item: Option<Id>)
      requires Inv(s) && s.at.Looking?
      modifies this
      ensures Inv(s) && s == Do(old(s), Pop)
      ensures item == if old(s).waiting == [] then None else Some(old(s).waiting[0])
    {
      PopKeeps(s);
      item := None;
      if s.waiting != [] {
        item := Some(s.waiting[0]);
        s := s.(waiting := s.waiting[1..], at := Popped(s.waiting[0], s.at.rest));
      } else {
        s := s.(at := Restoring(s.at.rest));
      }
    }

    /** The end of furi_event_loop_process_waiting_list up to the flag sync. */
    method FinishItem()
      requires Inv(s) && s.at.Judged?
      modifies this
      ensures Inv(s) && s == Do(old(s), Finish)
    {
      FinishKeeps(s);
      var i, again := s.at.item, s.at.again;
      assert ItemOK(s, i);
      s := s.(at := Syncing(s.at.rest));
      if !s.items[i].owned {
        s := s.(items := s.items - {i});
      } else if again {
        if i !in s.waiting {
          s := s.(waiting := s.waiting + [i]);
        }
        s := s.(flags := s.flags + {Event});
      }
    }

    /** furi_event_loop_sync_flags */
    method SyncFlags()
      requires Inv(s) && s.at.Syncing?
      modifies this
      ensures Inv(s) && s == Do(old(s), Sync)
    {
      StepKeeps(s, Sync);
      if s.waiting != [] {
        s := s.(flags := s.flags + {Event});
      }
      s := s.(at := Restoring(s.at.rest));
    }
  }
}
