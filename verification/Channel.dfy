/** The credit and sequence channel of bridge/src/channel.rs: a sender and a receiver over a network that may drop,
    repeat and reorder frames. */
module Channel {
  import opened Bytes

  const MAX_FRAME_BYTES := 1024
  const MAX_CREDITS := 4
  const U64_MAX := 0xFFFF_FFFF_FFFF_FFFF

  datatype Error = Closed | Invalid | NoCredit | SequenceWrap
  datatype Receipt = Accepted | Duplicate | Gap
  datatype Result<T> = Ok(value: T) | Err(error: Error)

  datatype End = End(active: bool, nextTransmit: nat, nextReceive: nat, credits: nat) {
    predicate Valid() { nextTransmit <= U64_MAX && nextReceive <= U64_MAX && credits <= MAX_CREDITS }
  }

  // ----- the operations ---------------------------------------------------------------

  /** What stops a frame from being sent, in the order of the checks. */
  function SendFault(e: End, bytes: nat): Result<()> {
    if !e.active then Err(Closed)
    else if bytes > MAX_FRAME_BYTES then Err(Invalid)
    else if e.credits == 0 then Err(NoCredit)
    else if e.nextTransmit == U64_MAX then Err(SequenceWrap)
    else Ok(())
  }

  /** What a receiver answers to a frame. */
  function Answer(e: End, bytes: nat, sequence: nat): Result<Receipt> {
    if !e.active then Err(Closed)
    else if bytes > MAX_FRAME_BYTES then Err(Invalid)
    else if sequence < e.nextReceive then Ok(Duplicate)
    else if sequence > e.nextReceive then Ok(Gap)
    else if e.nextReceive == U64_MAX then Err(SequenceWrap)
    else Ok(Accepted)
  }

  function CreditFault(e: End, credits: nat): Result<()> {
    if !e.active then Err(Closed)
    else if credits + e.credits > MAX_CREDITS then Err(Invalid)
    else Ok(())
  }

  function AfterSend(e: End, bytes: nat): End {
    if SendFault(e, bytes).Ok? then e.(nextTransmit := e.nextTransmit + 1, credits := e.credits - 1) else e
  }

  function AfterReceive(e: End, bytes: nat, sequence: nat): End {
    if Answer(e, bytes, sequence) == Ok(Accepted) then e.(nextReceive := e.nextReceive + 1) else e
  }

  function AfterCredits(e: End, credits: nat): End {
    if CreditFault(e, credits).Ok? then e.(credits := e.credits + credits) else e
  }

  class ChannelState {
    const name: seq<Byte>
    var active: bool
    var nextTransmit: nat
    var nextReceive: nat
    var credits: nat

    function State(): End reads this { End(active, nextTransmit, nextReceive, credits) }

    constructor (name: seq<Byte>, credits: nat)
      requires name != [] && |name| <= 32 && credits <= MAX_CREDITS
      ensures State() == End(true, 0, 0, credits) && State().Valid() && this.name == name
    {
      this.name := name;
      active, nextTransmit, nextReceive, this.credits := true, 0, 0, credits;
    }

    /** new: null where the original returns Invalid. */
    static method Create(name: seq<Byte>, credits: nat) returns (channel: ChannelState?)
      ensures channel == null <==> name == [] || |name| > 32 || credits > MAX_CREDITS
      ensures channel != null ==> fresh(channel) && channel.State() == End(true, 0, 0, credits) && channel.name == name
    {
      if name == [] || |name| > 32 || credits > MAX_CREDITS { return null; }
      channel := new ChannelState(name, credits);
    }

    method ReserveSend(bytes: nat) returns (result: Result<nat>)
      requires State().Valid()
      modifies this
      ensures State().Valid() && State() == AfterSend(old(State()), bytes)
      ensures result == if SendFault(old(State()), bytes).Ok? then Ok(old(nextTransmit)) else Err(SendFault(old(State()), bytes).error)
    {
      if !active { return Err(Closed); }
      if bytes > MAX_FRAME_BYTES { return Err(Invalid); }
      if credits == 0 { return Err(NoCredit); }
      if nextTransmit == U64_MAX { return Err(SequenceWrap); }
      result := Ok(nextTransmit);
      nextTransmit := nextTransmit + 1;
      credits := credits - 1;
    }

    method Receive(bytes: nat, sequence: nat) returns (result: Result<Receipt>)
      requires State().Valid() && sequence <= U64_MAX
      modifies this
      ensures State().Valid() && State() == AfterReceive(old(State()), bytes, sequence)
      ensures result == Answer(old(State()), bytes, sequence)
    {
      if !active { return Err(Closed); }
      if bytes > MAX_FRAME_BYTES { return Err(Invalid); }
      if sequence < nextReceive { return Ok(Duplicate); }
      if sequence > nextReceive { return Ok(Gap); }
      if nextReceive == U64_MAX { return Err(SequenceWrap); }
      nextReceive := nextReceive + 1;
      result := Ok(Accepted);
    }

    method AddCredits(more: nat) returns (result: Result<()>)
      requires State().Valid()
      modifies this
      ensures State().Valid() && State() == AfterCredits(old(State()), more)
      ensures result == CreditFault(old(State()), more)
    {
      if !active { return Err(Closed); }
      if more > MAX_CREDITS - credits { return Err(Invalid); }
      credits := credits + more;
      result := Ok(());
    }

    method Close()
      modifies this
      ensures State() == old(State()).(active := false)
    {
      active := false;
    }
  }

  // ----- a sender and a receiver ----------------------------------------------------------

  type Frame = seq<Byte>

  /** `sent` is every frame that got a sequence number, which is its position; the network may deliver any of them, at
      any time and any number of times. `taken` is what the receiver accepted, in its order. */
  datatype System = System(sender: End, receiver: End, sent: seq<Frame>, taken: seq<Frame>, initial: nat, granted: nat)

  datatype Event =
    | Send(frame: Frame)
    | Deliver(sequence: nat)
    | Grant(credits: nat)
    | CloseSender
    | CloseReceiver

  /** A delivery needs a frame that was sent; everything else can always be tried. */
  predicate Enabled(s: System, e: Event) { e.Deliver? ==> e.sequence < |s.sent| }

  function Next(s: System, e: Event): System
    requires Enabled(s, e)
  {
    match e
    case Send(frame) =>
      s.(sender := AfterSend(s.sender, |frame|),
         sent := if SendFault(s.sender, |frame|).Ok? then s.sent + [frame] else s.sent)
    case Deliver(n) =>
      s.(receiver := AfterReceive(s.receiver, |s.sent[n]|, n),
         taken := if Answer(s.receiver, |s.sent[n]|, n) == Ok(Accepted) then s.taken + [s.sent[n]] else s.taken)
    case Grant(n) =>
      s.(sender := AfterCredits(s.sender, n), granted := s.granted + if CreditFault(s.sender, n).Ok? then n else 0)
    case CloseSender => s.(sender := s.sender.(active := false))
    case CloseReceiver => s.(receiver := s.receiver.(active := false))
  }

  function Start(credits: nat): System { System(End(true, 0, 0, credits), End(true, 0, 0, 0), [], [], credits, 0) }

  ghost predicate Inv(s: System) {
    && s.sender.Valid() && s.receiver.Valid()
    && |s.sent| == s.sender.nextTransmit
    && s.receiver.nextReceive <= |s.sent| && s.taken == s.sent[..s.receiver.nextReceive]
    && |s.sent| + s.sender.credits == s.initial + s.granted
    && forall i :: 0 <= i < |s.sent| ==> |s.sent[i]| <= MAX_FRAME_BYTES
  }

  lemma StepKeeps(s: System, e: Event)
    requires Inv(s) && Enabled(s, e)
    ensures Inv(Next(s, e)) && s.sent <= Next(s, e).sent && s.taken <= Next(s, e).taken
  {
    if e.Deliver? && Answer(s.receiver, |s.sent[e.sequence]|, e.sequence) == Ok(Accepted) {
      assert s.sent[..e.sequence + 1] == s.sent[..e.sequence] + [s.sent[e.sequence]];
    }
  }

  ghost predicate Run(s: System, events: seq<Event>, t: System)
    decreases |events|
  {
    if events == [] then s == t else Enabled(s, events[0]) && Run(Next(s, events[0]), events[1..], t)
  }

  lemma {:induction false} RunKeeps(s: System, events: seq<Event>, t: System)
    requires Inv(s) && Run(s, events, t)
    ensures Inv(t) && s.taken <= t.taken && t.initial == s.initial
    decreases |events|
  {
    if events != [] {
      StepKeeps(s, events[0]);
      RunKeeps(Next(s, events[0]), events[1..], t);
    }
  }

  /** Whatever the network does, what the receiver has accepted is a prefix of what was sent, each frame once and in
      order; and the sender has spent exactly the credits it was given. */
  lemma InOrderOnce(credits: nat, events: seq<Event>, t: System)
    requires credits <= MAX_CREDITS && Run(Start(credits), events, t)
    ensures t.taken <= t.sent && |t.sent| + t.sender.credits == credits + t.granted
  {
    RunKeeps(Start(credits), events, t);
  }

  /** A receiver never sees its sequence numbers wrap from a frame that was sent: while it is open, its answer depends
      only on where the frame stands against what it has accepted. */
  lemma AnswersBySequence(s: System, n: nat)
    requires Inv(s) && n < |s.sent| && s.receiver.active
    ensures Answer(s.receiver, |s.sent[n]|, n) ==
              Ok(if n < |s.taken| then Duplicate else if n == |s.taken| then Accepted else Gap)
  {}

  /** An open sender takes every frame that is not too long, as long as it has a credit and a number left: and only those. */
  lemma SendsWithCredit(s: System, frame: Frame)
    requires Inv(s)
    ensures s.sender.active && |frame| <= 1024 && s.sender.credits > 0 && |s.sent| < U64_MAX <==> Next(s, Send(frame)).sent == s.sent + [frame]
    ensures !(s.sender.active && |frame| <= 1024 && s.sender.credits > 0 && |s.sent| < U64_MAX) <==> Next(s, Send(frame)) == s
  {}

  /** A grant is taken whole or not at all, so that an open sender never has more than four credits. */
  lemma GrantsWhole(s: System, n: nat)
    requires Inv(s)
    ensures Next(s, Grant(n)).sender.credits == if s.sender.active && s.sender.credits + n <= 4 then s.sender.credits + n else s.sender.credits
  {}

  /** What any frame from anywhere gets for an answer. */
  lemma AnswersExactly(e: End, bytes: nat, sequence: nat)
    ensures Answer(e, bytes, sequence) == Ok(Accepted) <==> e.active && bytes <= 1024 && sequence == e.nextReceive && e.nextReceive != U64_MAX
    ensures Answer(e, bytes, sequence) == Ok(Duplicate) <==> e.active && bytes <= 1024 && sequence < e.nextReceive
    ensures Answer(e, bytes, sequence) == Ok(Gap) <==> e.active && bytes <= 1024 && sequence > e.nextReceive
    ensures Answer(e, bytes, sequence) == Err(Closed) <==> !e.active
  {}

  /** Closing takes effect at once, at one end only. */
  lemma Closes(s: System)
    ensures !Next(s, CloseSender).sender.active && Next(s, CloseSender).receiver == s.receiver
    ensures !Next(s, CloseReceiver).receiver.active && Next(s, CloseReceiver).sender == s.sender
  {}

  /** A closed end neither sends nor accepts, for good. */
  lemma {:induction false} ClosedStays(s: System, events: seq<Event>, t: System)
    requires Inv(s) && Run(s, events, t)
    ensures !s.sender.active ==> !t.sender.active && t.sent == s.sent && t.sender.credits == s.sender.credits
    ensures !s.receiver.active ==> !t.receiver.active && t.taken == s.taken
    decreases |events|
  {
    if events != [] {
      StepKeeps(s, events[0]);
      ClosedStays(Next(s, events[0]), events[1..], t);
    }
  }

  /** The frames yet to come, delivered in order behind any history, complete the transfer. */
  ghost function Rest(s: System): seq<Event>
    requires Inv(s)
    decreases |s.sent| - s.receiver.nextReceive
  {
    if s.receiver.nextReceive == |s.sent| || !s.receiver.active then []
    else
      var e := Deliver(s.receiver.nextReceive);
      StepKeeps(s, e);
      [e] + Rest(Next(s, e))
  }

  lemma {:induction false} CatchesUp(s: System) returns (t: System)
    requires Inv(s) && s.receiver.active
    ensures Run(s, Rest(s), t) && t.taken == s.sent && t.sent == s.sent
    decreases |s.sent| - s.receiver.nextReceive
  {
    if s.receiver.nextReceive == |s.sent| {
      t := s;
    } else {
      var e := Deliver(s.receiver.nextReceive);
      StepKeeps(s, e);
      t := CatchesUp(Next(s, e));
      assert Rest(s)[1..] == Rest(Next(s, e));
    }
  }
}
