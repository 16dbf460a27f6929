/** The single-owner protocol of dashboard/server/wifi-control-plane.ts: the stretches of code
    between two awaits are the steps, and any number of sessions interleave. */
module ControlPlane {

  type Board = string
  type Client = string
  type Session = int     // one call of openSession that got past its checks

  datatype OwnerState = Connecting | InUse
  datatype Owner = Owner(client: Client, state: OwnerState)

  /** Opening: connect() is awaited. Live: handed to the client. Closing: close() of the connection is
      awaited. Over: released. The closure's `closed` is true in the last two. */
  datatype Phase = Opening | Live | Closing | Over

  datatype Record = Record(board: Board, client: Client, phase: Phase)

  datatype Status = Status(id: Board, state: string)

  datatype State = State(
    boards: seq<Board>,
    owners: map<Board, Owner>,
    sessions: map<Session, Record>,
    releases: map<Session, nat>,     // how often each session has called releaseOwner
    orphans: set<Board>)             // boards whose connection factory threw
  {
    ghost predicate Active(x: Session, b: Board) {
      x in sessions && sessions[x].board == b && sessions[x].phase != Over
    }

    function Releases(x: Session): nat { if x in releases then releases[x] else 0 }
  }

  // ----- the steps ---------------------------------------------------------------

  datatype OpenError = UnknownBoard | AlreadyInUse | InvalidClient

  datatype Checked = Passes | Refused(error: OpenError)

  /** The checks of openSession, in their order. */
  function CheckOpen(s: State, b: Board, c: Client): Checked {
    if b !in s.boards then Refused(UnknownBoard)
    else if b in s.owners then Refused(AlreadyInUse)
    else if |c| < 1 || |c| > 128 then Refused(InvalidClient)
    else Passes
  }

  /** releaseOwner */
  function ReleaseOwner(owners: map<Board, Owner>, b: Board, c: Client): map<Board, Owner> {
    if b in owners && owners[b].client == c then owners - {b} else owners
  }

  function Release(s: State, x: Session): State
    requires x in s.sessions
  {
    var r := s.sessions[x];
    s.(owners := ReleaseOwner(s.owners, r.board, r.client),
       sessions := s.sessions[x := r.(phase := Over)],
       releases := s.releases[x := s.Releases(x) + 1])
  }

  datatype Step =
    | Open(x: Session, b: Board, c: Client)          // up to the await of connect()
    | OpenThrows(b: Board, c: Client)                // the connection factory throws
    | ConnectFails(x: Session)                       // connect() rejects
    | NotReady(x: Session)                           // connect() resolves, but not to the ready state
    | Ready(x: Session)
    | Disconnect(x: Session)                         // the connection reports a disconnect
    | Close(x: Session)                              // the client calls close()
    | CloseDone(x: Session)                          // the awaited close() settles, either way

  ghost predicate Enabled(s: State, step: Step) {
    match step
    case Open(x, b, c) => x !in s.sessions
    case OpenThrows(b, c) => true
    case ConnectFails(x) => x in s.sessions && s.sessions[x].phase == Opening
    case NotReady(x) => x in s.sessions && s.sessions[x].phase == Opening
    case Ready(x) => x in s.sessions && s.sessions[x].phase == Opening
    case Disconnect(x) => x in s.sessions && s.sessions[x].phase != Opening
    case Close(x) => x in s.sessions && s.sessions[x].phase != Opening
    case CloseDone(x) => x in s.sessions && s.sessions[x].phase == Closing
  }

  function Do(s: State, step: Step): State
    requires Enabled(s, step)
  {
    match step
    case Open(x, b, c) =>
      if CheckOpen(s, b, c) != Passes then s
      else s.(owners := s.owners[b := Owner(c, Connecting)], sessions := s.sessions[x := Record(b, c, Opening)])
    case OpenThrows(b, c) =>
      if CheckOpen(s, b, c) != Passes then s
      else s.(owners := s.owners[b := Owner(c, Connecting)], orphans := s.orphans + {b})
    case ConnectFails(x) => Release(s, x)
    case NotReady(x) => Release(s, x)
    case Ready(x) =>
      var r := s.sessions[x];
      s.(owners := s.owners[r.board := Owner(r.client, InUse)], sessions := s.sessions[x := r.(phase := Live)])
    case Disconnect(x) => if s.sessions[x].phase == Live then Release(s, x) else s
    case Close(x) => if s.sessions[x].phase == Live then s.(sessions := s.sessions[x := s.sessions[x].(phase := Closing)]) else s
    case CloseDone(x) => Release(s, x)
  }

  // ----- the invariant -------------------------------------------------------------

  /** One session at most holds the board, and the owner entry is that session's. */
  ghost predicate BoardOK(s: State, b: Board) {
    && (forall x, y :: s.Active(x, b) && s.Active(y, b) ==> x == y)
    && (forall x :: s.Active(x, b) ==>
          b in s.boards && b !in s.orphans && b in s.owners
          && s.owners[b] == Owner(s.sessions[x].client, if s.sessions[x].phase == Opening then Connecting else InUse))
    && (b in s.owners ==> b in s.boards && (b in s.orphans || exists x :: s.Active(x, b)))
    && (b in s.orphans ==> b in s.owners && s.owners[b].state == Connecting)
  }

  /** A session has released exactly when it is over, and then once. */
  ghost predicate SessionOK(s: State, x: Session) {
    s.Releases(x) == if x in s.sessions && s.sessions[x].phase == Over then 1 else 0
  }

  ghost predicate Inv(s: State) {
    (forall b :: BoardOK(s, b)) && forall x :: SessionOK(s, x)
  }

  /** A session lets go: only its own board changes, and that from its own owner entry to none. */
  lemma ReleaseKeeps(s: State, x: Session)
    requires Inv(s) && x in s.sessions && s.sessions[x].phase != Over
    ensures Inv(Release(s, x))
    ensures s.sessions[x].board in s.owners && Release(s, x).owners == s.owners - {s.sessions[x].board}
  {
    var t, b := Release(s, x), s.sessions[x].board;
    assert BoardOK(s, b) && s.Active(x, b);
    forall d ensures BoardOK(t, d) {
      assert BoardOK(s, d);
      assert forall y :: t.Active(y, d) <==> s.Active(y, d) && y != x;
    }
    forall y ensures SessionOK(t, y) { assert SessionOK(s, y); }
  }

  lemma OpenKeeps(s: State, x: Session, b: Board, c: Client)
    requires Inv(s) && x !in s.sessions && CheckOpen(s, b, c) == Passes
    ensures Inv(Do(s, Open(x, b, c)))
  {
    var t := Do(s, Open(x, b, c));
    forall d ensures BoardOK(t, d) {
      assert BoardOK(s, d);
      assert forall y :: t.Active(y, d) <==> s.Active(y, d) || (y == x && d == b);
    }
    forall y ensures SessionOK(t, y) { assert SessionOK(s, y); }
  }

  lemma OrphanKeeps(s: State, b: Board, c: Client)
    requires Inv(s) && CheckOpen(s, b, c) == Passes
    ensures Inv(Do(s, OpenThrows(b, c)))
  {
    var t := Do(s, OpenThrows(b, c));
    forall d ensures BoardOK(t, d) {
      assert BoardOK(s, d);
      assert forall y :: t.Active(y, d) <==> s.Active(y, d);
    }
    forall y ensures SessionOK(t, y) { assert SessionOK(s, y); }
  }

  /** Every step keeps the invariant. */
  lemma StepKeeps(s: State, step: Step)
    requires Inv(s) && Enabled(s, step)
    ensures Inv(Do(s, step)) && Do(s, step).boards == s.boards
  {
    match step {
      case Open(x, b, c) => if CheckOpen(s, b, c) == Passes { OpenKeeps(s, x, b, c); }
      case OpenThrows(b, c) => if CheckOpen(s, b, c) == Passes { OrphanKeeps(s, b, c); }
      case Ready(x) => MoveKeeps(s, Do(s, step), x);
      case Close(x) =>
        if s.sessions[x].phase == Live {
          OwnEntry(s, x);
          MoveKeeps(s, Do(s, step), x);
        }
      case Disconnect(x) => if s.sessions[x].phase == Live { ReleaseKeeps(s, x); }
      case ConnectFails(x) => ReleaseKeeps(s, x);
      case NotReady(x) => ReleaseKeeps(s, x);
      case CloseDone(x) => ReleaseKeeps(s, x);
    }
  }

  lemma OwnEntry(s: State, x: Session)
    requires Inv(s) && x in s.sessions && s.sessions[x].phase == Live
    ensures s.owners == s.owners[s.sessions[x].board := Owner(s.sessions[x].client, InUse)]
  {
    assert BoardOK(s, s.sessions[x].board) && s.Active(x, s.sessions[x].board);
  }

  /** A session moves on without letting go of its board. */
  lemma MoveKeeps(s: State, t: State, x: Session)
    requires Inv(s) && x in s.sessions && s.sessions[x].phase != Over && x in t.sessions
    requires t.boards == s.boards && t.orphans == s.orphans && t.releases == s.releases
    requires t.sessions == s.sessions[x := s.sessions[x].(phase := t.sessions[x].phase)]
    requires t.sessions[x].phase == Live || t.sessions[x].phase == Closing
    requires t.owners == s.owners[s.sessions[x].board := Owner(s.sessions[x].client, InUse)]
    ensures Inv(t)
  {
    assert BoardOK(s, s.sessions[x].board) && s.Active(x, s.sessions[x].board);
    forall d ensures BoardOK(t, d) {
      assert BoardOK(s, d);
      assert forall y :: t.Active(y, d) <==> s.Active(y, d);
    }
    forall y ensures SessionOK(t, y) { assert SessionOK(s, y); }
  }

  // ----- whole runs -------------------------------------------------------------------

  function Start(boards: seq<Board>): State { State(boards, map[], map[], map[], {}) }

  ghost predicate Legal(s: State, steps: seq<Step>)
    decreases |steps|
  {
    steps != [] ==> Enabled(s, steps[0]) && Legal(Do(s, steps[0]), steps[1..])
  }

  ghost function Run(s: State, steps: seq<Step>): State
    requires Legal(s, steps)
    decreases |steps|
  {
    if steps == [] then s else Run(Do(s, steps[0]), steps[1..])
  }

  lemma {:induction false} RunKeeps(s: State, steps: seq<Step>)
    requires Inv(s) && Legal(s, steps)
    ensures Inv(Run(s, steps)) && s.orphans <= Run(s, steps).orphans && Run(s, steps).boards == s.boards
    decreases |steps|
  {
    if steps != [] {
      StepKeeps(s, steps[0]);
      RunKeeps(Do(s, steps[0]), steps[1..]);
    }
  }

  /** Under every interleaving, a board whose connection factory never threw has an owner exactly when a session
      for it is opening, live or closing; then there is one such session, and the owner entry is that session's. */
  lemma SingleOwner(boards: seq<Board>, steps: seq<Step>, b: Board)
    requires Legal(Start(boards), steps)
    ensures var s := Run(Start(boards), steps);
            && ((b in s.owners <==> exists x :: s.Active(x, b)) <==> b !in s.orphans)
            && (forall x, y :: s.Active(x, b) && s.Active(y, b) ==> x == y)
            && (forall x :: s.Active(x, b) ==>
                  b in s.owners && s.owners[b] == Owner(s.sessions[x].client, if s.sessions[x].phase == Opening then Connecting else InUse))
  {
    StartOK(boards);
    RunKeeps(Start(boards), steps);
    assert BoardOK(Run(Start(boards), steps), b);
  }

  /** Each session releases exactly once, when it is over. */
  lemma ReleasesOnce(boards: seq<Board>, steps: seq<Step>, x: Session)
    requires Legal(Start(boards), steps)
    ensures var s := Run(Start(boards), steps);
            s.Releases(x) == if x in s.sessions && s.sessions[x].phase == Over then 1 else 0
  {
    StartOK(boards);
    RunKeeps(Start(boards), steps);
    assert SessionOK(Run(Start(boards), steps), x);
  }

  lemma StartOK(boards: seq<Board>)
    ensures Inv(Start(boards))
  {
    forall b ensures BoardOK(Start(boards), b) {}
    forall x ensures SessionOK(Start(boards), x) {}
  }

  /** No stale session clears a newer owner: an owner entry disappears only when the session it belongs to lets go. */
  lemma OnlyHolderClears(s: State, step: Step, b: Board)
    requires Inv(s) && Enabled(s, step) && b in s.owners && b !in Do(s, step).owners
    ensures step.ConnectFails? || step.NotReady? || step.Disconnect? || step.CloseDone?
    ensures s.Active(step.x, b) && !Do(s, step).Active(step.x, b)
    ensures s.owners[b].client == s.sessions[step.x].client
  {
    match step {
      case ConnectFails(x) => ReleaseKeeps(s, x);
      case NotReady(x) => ReleaseKeeps(s, x);
      case Disconnect(x) => ReleaseKeeps(s, x);
      case CloseDone(x) => ReleaseKeeps(s, x);
      case _ =>
    }
    assert BoardOK(s, b);
  }

  /** A connection factory that throws leaves the board owned for good: no later step frees it and every
      later openSession is refused. */
  lemma {:induction false} OrphanForever(s: State, steps: seq<Step>, b: Board, c: Client)
    requires Inv(s) && Legal(s, steps) && b in s.orphans
    ensures var t := Run(s, steps);
            b in t.owners && CheckOpen(t, b, c) == Refused(AlreadyInUse) && forall x :: !t.Active(x, b)
  {
    RunKeeps(s, steps);
    assert BoardOK(Run(s, steps), b) && BoardOK(s, b);
  }

  /** One run that shows it: nobody has the board, and nobody can get it. */
  lemma FactoryThrowLocksBoard()
    ensures var steps := [OpenThrows("a", "c")];
            Legal(Start(["a"]), steps) && CheckOpen(Run(Start(["a"]), steps), "a", "c") == Refused(AlreadyInUse)
  {
    var steps := [OpenThrows("a", "c")];
    assert steps[1..] == [];
    var s := Start(["a"]);
    assert "a" in s.boards by { assert s.boards[0] == "a"; }
    assert Run(Do(s, steps[0]), []) == Do(s, steps[0]);
  }

  /** A session over may be followed by the next one: its board can be opened again. */
  lemma FreeAgain(s: State, x: Session, c: Client)
    requires Inv(s) && x in s.sessions && s.sessions[x].phase != Over && 1 <= |c| <= 128
    ensures CheckOpen(Release(s, x), s.sessions[x].board, c) == Passes
  {
    ReleaseKeeps(s, x);
    assert BoardOK(s, s.sessions[x].board) && s.Active(x, s.sessions[x].board);
  }

  /** The session is over and holds nothing: its board has no owner, and anybody can open it. */
  ghost predicate LetGo(s: State, x: Session) {
    && x in s.sessions && s.sessions[x].phase == Over
    && s.sessions[x].board !in s.owners
    && forall c: Client :: 1 <= |c| <= 128 ==> CheckOpen(s, s.sessions[x].board, c) == Passes
  }

  lemma ReleaseLetsGo(s: State, x: Session)
    requires Inv(s) && x in s.sessions && s.sessions[x].phase != Over
    ensures LetGo(Release(s, x), x)
  {
    ReleaseKeeps(s, x);
    forall c: Client | 1 <= |c| <= 128 ensures CheckOpen(Release(s, x), s.sessions[x].board, c) == Passes { FreeAgain(s, x, c); }
  }

  /** However a session ends, its board is free then: when connect() fails or does not reach the ready state, when a live
      connection is lost, and when an awaited close() settles. */
  lemma EndsFree(s: State, step: Step)
    requires Inv(s) && Enabled(s, step)
    requires step.ConnectFails? || step.NotReady? || step.CloseDone? || (step.Disconnect? && s.sessions[step.x].phase == Live)
    ensures LetGo(Do(s, step), step.x)
  {
    ReleaseLetsGo(s, step.x);
  }

  /** A live session that is closed stays so until its close() settles, whatever happens in between, and its board is free
      when it does. */
  lemma {:induction false} ClosedEndsFree(s: State, x: Session, steps: seq<Step>)
    requires Inv(s) && x in s.sessions && s.sessions[x].phase == Closing && Legal(s, steps) && CloseDone(x) !in steps
    ensures var t := Run(s, steps);
            && Inv(t) && x in t.sessions && t.sessions[x].phase == Closing
            && Enabled(t, CloseDone(x)) && LetGo(Do(t, CloseDone(x)), x)
    decreases |steps|
  {
    if steps == [] {
      EndsFree(s, CloseDone(x));
    } else {
      StepKeeps(s, steps[0]);
      assert CloseDone(x) !in steps[1..];
      ClosedEndsFree(Do(s, steps[0]), x, steps[1..]);
    }
  }

  /** Closing a live session leads there. */
  lemma CloseThenDone(s: State, x: Session)
    requires Inv(s) && x in s.sessions && s.sessions[x].phase == Live
    ensures var t := Do(s, Close(x));
            && Inv(t) && t.sessions[x].phase == Closing && t.owners == s.owners
            && Enabled(t, CloseDone(x)) && LetGo(Do(t, CloseDone(x)), x)
  {
    StepKeeps(s, Close(x));
    EndsFree(Do(s, Close(x)), CloseDone(x));
  }

  /** A board can be opened exactly when it is known, nobody's session for it is opening, live or closing, no factory threw
      for it, and the client id has 1 to 128 characters. */
  lemma OpensExactly(s: State, b: Board, c: Client)
    requires Inv(s)
    ensures CheckOpen(s, b, c) == Passes <==>
              b in s.boards && (forall x :: !s.Active(x, b)) && b !in s.orphans && 1 <= |c| <= 128
    ensures CheckOpen(s, b, c) == Refused(UnknownBoard) <==> b !in s.boards
  {
    assert BoardOK(s, b);
  }

  /** Opening a free board takes it for the client, connecting; and its session becomes live when connect() succeeds. */
  lemma OpenThenReady(s: State, x: Session, b: Board, c: Client)
    requires Inv(s) && x !in s.sessions && CheckOpen(s, b, c) == Passes
    ensures var t := Do(s, Open(x, b, c));
            && t.sessions[x] == Record(b, c, Opening) && b in t.owners && t.owners[b] == Owner(c, Connecting)
            && Do(t, Ready(x)).sessions[x].phase == Live && Do(t, Ready(x)).owners[b] == Owner(c, InUse)
    ensures b in s.boards && forall y :: !s.Active(y, b)
  {
    assert BoardOK(s, b);
  }

  // ----- the imperative form ---------------------------------------------------------------

  function StateName(s: State, b: Board): string {
    if b !in s.owners then "available" else if s.owners[b].state == Connecting then "connecting" else "in-use"
  }

  ghost predicate Distinct(boards: seq<Board>) {
    forall i, j :: 0 <= i < j < |boards| ==> boards[i] != boards[j]
  }

  class WifiControlPlane {
    var s: State

    /** What is left to do once every board id has been seen to be new. */
    constructor (boards: seq<Board>)
      requires Distinct(boards)
      ensures s == Start(boards) && Inv(s)
    {
      s := Start(boards);
      new;
      StartOK(boards);
    }

    /** The constructor's loop: it throws (null here) exactly when a board id comes twice. */
    static method Create(boards: seq<Board>) returns (plane: WifiControlPlane?)
      ensures plane == null <==> exists i, j :: 0 <= i < j < |boards| && boards[i] == boards[j]
      ensures plane != null ==> fresh(plane) && plane.s == Start(boards) && Inv(plane.s)
    {
      var known: seq<Board> := [];
      for n := 0 to |boards|
        invariant known == boards[..n] && Distinct(known)
      {
        if boards[n] in known {
          return null;
        }
        known := known + [boards[n]];
      }
      assert boards[..|boards|] == boards;
      plane := new WifiControlPlane(boards);
    }

    /** statuses: every board once, in order, with the state its session gives it. */
    method Statuses() returns (out: seq<Status>)
      requires Inv(s)
      ensures |out| == |s.boards| && forall i :: 0 <= i < |out| ==> out[i].id == s.boards[i]
      ensures forall i :: 0 <= i < |out| && s.boards[i] !in s.orphans ==>
                && (out[i].state == "available" <==> forall x :: !s.Active(x, s.boards[i]))
                && (out[i].state == "connecting" <==> exists x :: s.Active(x, s.boards[i]) && s.sessions[x].phase == Opening)
                && (out[i].state == "in-use" <==> exists x :: s.Active(x, s.boards[i]) && s.sessions[x].phase != Opening)
    {
      out := [];
      for i := 0 to |s.boards|
        invariant |out| == i && forall j :: 0 <= j < i ==> out[j] == Status(s.boards[j], StateName(s, s.boards[j]))
      {
        out := out + [Status(s.boards[i], StateName(s, s.boards[i]))];
      }
      forall i | 0 <= i < |out| && s.boards[i] !in s.orphans
        ensures out[i].state == "available" <==> forall x :: !s.Active(x, s.boards[i])
        ensures out[i].state == "connecting" <==> exists x :: s.Active(x, s.boards[i]) && s.sessions[x].phase == Opening
        ensures out[i].state == "in-use" <==> exists x :: s.Active(x, s.boards[i]) && s.sessions[x].phase != Opening
      {
        NamesAgree(s, s.boards[i]);
      }
    }

    /** openSession up to the await of connect(). */
    method OpenSession(x: Session, b: Board, c: Client) returns (checked: Checked)
      requires Inv(s) && x !in s.sessions
      modifies this
      ensures Inv(s) && checked == CheckOpen(old(s), b, c) && s == Do(old(s), Open(x, b, c))
    {
      StepKeeps(s, Open(x, b, c));
      if b !in s.boards {
        return Refused(UnknownBoard);
      }
      if b in s.owners {
        return Refused(AlreadyInUse);
      }
      if |c| < 1 || |c| > 128 {
        return Refused(InvalidClient);
      }
      s := s.(owners := s.owners[b := Owner(c, Connecting)]);
      s := s.(sessions := s.sessions[x := Record(b, c, Opening)]);
      checked := Passes;
    }

    /** openSession after connect() settles; `ready` is the state the connection reached, `failed` a rejection. */
    method Connected(x: Session, failed: bool, ready: bool) returns (live: bool)
      requires Inv(s) && x in s.sessions && s.sessions[x].phase == Opening
      modifies this
      ensures Inv(s) && live == (!failed && ready)
      ensures s == Do(old(s), if failed then ConnectFails(x) else if ready then Ready(x) else NotReady(x))
    {
      StepKeeps(s, if failed then ConnectFails(x) else if ready then Ready(x) else NotReady(x));
      if failed || !ready {
        LetGo(x);
        return false;
      }
      var r := s.sessions[x];
      s := s.(owners := s.owners[r.board := Owner(r.client, InUse)]);
      s := s.(sessions := s.sessions[x := r.(phase := Live)]);
      live := true;
    }

    /** The disconnect listener. */
    method Disconnected(x: Session)
      requires Inv(s) && x in s.sessions && s.sessions[x].phase != Opening
      modifies this
      ensures Inv(s) && s == Do(old(s), Disconnect(x))
    {
      StepKeeps(s, Disconnect(x));
      if s.sessions[x].phase != Live {
        return;
      }
      LetGo(x);
    }

    /** close up to the await, and whether there is anything to await. */
    method Close(x: Session) returns (closing: bool)
      requires Inv(s) && x in s.sessions && s.sessions[x].phase != Opening
      modifies this
      ensures Inv(s) && s == Do(old(s), Step.Close(x)) && closing == (old(s).sessions[x].phase == Live)
    {
      StepKeeps(s, Step.Close(x));
      if s.sessions[x].phase != Live {
        return false;
      }
      s := s.(sessions := s.sessions[x := s.sessions[x].(phase := Closing)]);
      closing := true;
    }

    /** The finally block of close. */
    method Closed(x: Session)
      requires Inv(s) && x in s.sessions && s.sessions[x].phase == Closing
      modifies this
      ensures Inv(s) && s == Do(old(s), CloseDone(x))
    {
      StepKeeps(s, CloseDone(x));
      LetGo(x);
    }

    /** releaseOwner, on behalf of a session that is then over. */
    method LetGo(x: Session)
      requires x in s.sessions
      modifies this
      ensures s == Release(old(s), x)
    {
      var r := s.sessions[x];
      if r.board in s.owners && s.owners[r.board].client == r.client {
        s := s.(owners := s.owners - {r.board});
      }
      s := s.(sessions := s.sessions[x := r.(phase := Over)], releases := s.releases[x := s.Releases(x) + 1]);
    }
  }

  lemma NamesAgree(s: State, b: Board)
    requires Inv(s) && b !in s.orphans
    ensures StateName(s, b) == "available" <==> forall x :: !s.Active(x, b)
    ensures StateName(s, b) == "connecting" <==> exists x :: s.Active(x, b) && s.sessions[x].phase == Opening
    ensures StateName(s, b) == "in-use" <==> exists x :: s.Active(x, b) && s.sessions[x].phase != Opening
  {
    assert BoardOK(s, b);
    assert "available"[0] != "connecting"[0] && "available"[0] != "in-use"[0] && "connecting"[0] != "in-use"[0];
  }
}
