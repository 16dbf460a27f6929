/** The framed serial protocol of dashboard/server/expansion.ts. */
module Expansion {
  import opened Bytes

  const MAX_DATA_SIZE := 64   // EXPANSION_MAX_DATA_SIZE

  datatype Result<T> = Ok(value: T) | Throws

  datatype Frame =
    | Heartbeat
    | Status(error: Byte)
    | BaudRate(baud: Word32)
    | Control(command: Byte)
    | Data(data: seq<Byte>)

  function Checksum(bytes: seq<Byte>): Byte {
    if bytes == [] then 0 else XorByte(Checksum(bytes[..|bytes| - 1]), bytes[|bytes| - 1])
  }

  /** The loop of checksum. */
  method ComputeChecksum(bytes: seq<Byte>) returns (result: Byte)
    ensures result == Checksum(bytes)
  {
    result := 0;
    for i := 0 to |bytes|
      invariant result == Checksum(bytes[..i])
    {
      assert bytes[..i + 1][..i] == bytes[..i];
      result := XorByte(result, bytes[i]);
    }
    assert bytes[..|bytes|] == bytes;
  }

  function Encode(body: seq<Byte>): seq<Byte> { body + [Checksum(body)] }

  // ----- the encoders ----------------------------------------------------------

  function EncodeHeartbeat(): seq<Byte> { Encode([1]) }

  function EncodeStatus(error: int): Result<seq<Byte>> {
    if 0 <= error < 256 then Ok(Encode([2, error])) else Throws
  }

  function EncodeBaudRate(baud: int): Result<seq<Byte>> {
    if 0 < baud < 0x1_0000_0000 then Ok(Encode([3] + LE(baud, 4))) else Throws
  }

  function EncodeControl(command: int): Result<seq<Byte>> {
    if 0 <= command < 256 then Ok(Encode([4, command])) else Throws
  }

  function EncodeData(data: seq<Byte>): Result<seq<Byte>> {
    if |data| <= MAX_DATA_SIZE then Ok(Encode([5, |data|] + data)) else Throws
  }

  function EncodeFrame(f: Frame): Result<seq<Byte>> {
    match f
    case Heartbeat => Ok(EncodeHeartbeat())
    case Status(e) => EncodeStatus(e)
    case BaudRate(b) => EncodeBaudRate(b)
    case Control(c) => EncodeControl(c)
    case Data(d) => EncodeData(d)
  }

  // ----- the decoder -----------------------------------------------------------

  /** What bodyLength answers: a length, undefined, or a throw. */
  datatype Length = Known(n: nat) | Undefined | Unknown

  function BodyLength(buffer: seq<Byte>): (r: Length)
    requires buffer != []
    ensures r.Known? ==> 1 <= r.n <= MAX_DATA_SIZE + 2
  {
    match buffer[0]
    case 1 => Known(1)
    case 2 => Known(2)
    case 3 => Known(5)
    case 4 => Known(2)
    case 5 =>
      if |buffer| < 2 then Undefined
      else if buffer[1] > MAX_DATA_SIZE then Unknown
      else Known(buffer[1] + 2)
    case _ => Unknown
  }

  function DecodeBody(body: seq<Byte>): Frame
    requires body != [] && BodyLength(body) == Known(|body|)
  {
    match body[0]
    case 1 => Heartbeat
    case 2 => Status(body[1])
    case 3 => BaudRate(Widths(); Word(body[1..]))
    case 4 => Control(body[1])
    case _ => Data(body[2..])
  }

  /** One round of the decoding loop. */
  datatype Scan = More | Bad | One(frame: Frame, used: nat)

  function ScanFrame(buffer: seq<Byte>): (r: Scan)
    requires buffer != []
    ensures r.One? ==> 2 <= r.used <= |buffer| && r.used <= MAX_DATA_SIZE + 3
    ensures r.More? ==> |buffer| <= MAX_DATA_SIZE + 2
  {
    match BodyLength(buffer)
    case Unknown => Bad
    case Undefined => More
    case Known(n) =>
      if |buffer| < n + 1 then More
      else if buffer[n] != Checksum(buffer[..n]) then Bad
      else One(DecodeBody(buffer[..n]), n + 1)
  }

  /** What a push makes of a buffer: the frames it found, the bytes it keeps, and whether it throws. */
  datatype Outcome = Outcome(frames: seq<Frame>, rest: seq<Byte>, throws: bool)

  function Decode(buffer: seq<Byte>): Outcome {
    if buffer == [] then Outcome([], [], false)
    else match ScanFrame(buffer)
      case More => Outcome([], buffer, false)
      case Bad => Outcome([], buffer, true)
      case One(f, n) => var o := Decode(buffer[n..]); o.(frames := [f] + o.frames)
  }

  /** An outcome with the frames found earlier in front. */
  ghost function Behind(frames: seq<Frame>, o: Outcome): (r: Outcome)
    ensures o.frames == [] ==> r == o.(frames := frames)
  {
    assert frames + [] == frames;
    o.(frames := frames + o.frames)
  }

  lemma BehindFrame(frames: seq<Frame>, f: Frame, o: Outcome)
    ensures Behind(frames, o.(frames := [f] + o.frames)) == Behind(frames + [f], o)
  {
    assert frames + ([f] + o.frames) == frames + [f] + o.frames;
  }

  class ExpansionDecoder {
    var buffer: seq<Byte>

    constructor ()
      ensures buffer == []
    {
      buffer := [];
    }

    method Push(chunk: seq<Byte>) returns (r: Result<seq<Frame>>)
      modifies this
      ensures var o := Decode(old(buffer) + chunk);
              && r == (if o.throws then Throws else Ok(o.frames))
              && buffer == o.rest
    {
      if |chunk| > 0 {
        buffer := buffer + chunk;
      }
      assert buffer == old(buffer) + chunk;
      ghost var o := Decode(buffer);
      assert [] + o.frames == o.frames;
      var frames := [];
      while |buffer| > 0
        invariant o == Behind(frames, Decode(buffer))
        decreases |buffer|
      {
        var expected := BodyLength(buffer);
        if expected.Unknown? {
          assert Decode(buffer) == Outcome([], buffer, true);
          return Throws;
        }
        if expected.Undefined? || |buffer| < expected.n + 1 {
          assert Decode(buffer) == Outcome([], buffer, false);
          break;
        }
        var body := buffer[..expected.n];
        var sum := ComputeChecksum(body);
        if buffer[expected.n] != sum {
          assert Decode(buffer) == Outcome([], buffer, true);
          return Throws;
        }
        BehindFrame(frames, DecodeBody(body), Decode(buffer[expected.n + 1..]));
        frames := frames + [DecodeBody(body)];
        buffer := buffer[expected.n + 1..];
      }
      r := Ok(frames);
    }
  }

  // ----- chunking does not matter ------------------------------------------------

  /** A frame that can be read, or an error that can be seen, does not change when more bytes arrive. */
  lemma ScanStable(buffer: seq<Byte>, more: seq<Byte>)
    requires buffer != [] && !ScanFrame(buffer).More?
    ensures ScanFrame(buffer + more) == ScanFrame(buffer)
  {
    var n := BodyLength(buffer);
    assert BodyLength(buffer + more) == n;
    if n.Known? { assert (buffer + more)[..n.n] == buffer[..n.n]; }
  }

  lemma {:induction false} DecodeAppend(a: seq<Byte>, b: seq<Byte>)
    ensures var o := Decode(a);
            Decode(a + b) == if o.throws then Outcome(o.frames, o.rest + b, true)
                             else var p := Decode(o.rest + b); p.(frames := o.frames + p.frames)
    decreases |a|
  {
    if a == [] {
      assert a + b == b && [] + b == b;
      assert [] + Decode(b).frames == Decode(b).frames;
    } else {
      match ScanFrame(a) {
        case More =>
          assert Decode(a) == Outcome([], a, false);
          assert [] + Decode(a + b).frames == Decode(a + b).frames;
        case Bad => ScanStable(a, b);
        case One(f, n) =>
          ScanStable(a, b);
          assert (a + b)[n..] == a[n..] + b;
          DecodeAppend(a[n..], b);
          PrependFrame(f, Decode(a[n..]).frames, Decode(Decode(a[n..]).rest + b).frames);
      }
    }
  }

  lemma PrependFrame(f: Frame, xs: seq<Frame>, ys: seq<Frame>)
    ensures [f] + (xs + ys) == ([f] + xs) + ys
  {}

  /** All chunks pushed in turn into a decoder that holds `buffer`; Throws if one of the pushes does. */
  ghost function PushAll(buffer: seq<Byte>, chunks: seq<seq<Byte>>): Result<(seq<Frame>, seq<Byte>)>
    decreases |chunks|
  {
    if chunks == [] then Ok(([], buffer))
    else
      var o := Decode(buffer + chunks[0]);
      if o.throws then Throws
      else match PushAll(o.rest, chunks[1..])
        case Throws => Throws
        case Ok(r) => Ok((o.frames + r.0, r.1))
  }

  /** What a decoder keeps between pushes. */
  ghost predicate Residue(buffer: seq<Byte>) { Decode(buffer) == Outcome([], buffer, false) }

  lemma {:induction false} DecodeLeavesResidue(a: seq<Byte>)
    ensures !Decode(a).throws ==> Residue(Decode(a).rest)
    decreases |a|
  {
    if a != [] {
      match ScanFrame(a) {
        case One(f, n) => DecodeLeavesResidue(a[n..]);
        case _ =>
      }
    }
  }

  /** Decoding is independent of chunking: however the stream is cut, some push throws exactly when
      decoding it whole does, and otherwise frames and residue are those of the whole. */
  lemma {:induction false} ChunkingIrrelevant(buffer: seq<Byte>, chunks: seq<seq<Byte>>)
    requires Residue(buffer)
    ensures var o := Decode(buffer + Concat(chunks));
            PushAll(buffer, chunks) == if o.throws then Throws else Ok((o.frames, o.rest))
    decreases |chunks|
  {
    if chunks == [] {
      assert buffer + Concat(chunks) == buffer;
    } else {
      var o := Decode(buffer + chunks[0]);
      assert buffer + Concat(chunks) == (buffer + chunks[0]) + Concat(chunks[1..]);
      DecodeAppend(buffer + chunks[0], Concat(chunks[1..]));
      if !o.throws {
        DecodeLeavesResidue(buffer + chunks[0]);
        ChunkingIrrelevant(o.rest, chunks[1..]);
      }
    }
  }

  /** The decoder never keeps a whole frame: at most 66 bytes. */
  lemma {:induction false} ResidueBounded(buffer: seq<Byte>)
    ensures !Decode(buffer).throws ==> |Decode(buffer).rest| <= 66
    decreases |buffer|
  {
    if buffer != [] {
      match ScanFrame(buffer) {
        case One(f, n) => ResidueBounded(buffer[n..]);
        case _ =>
      }
    }
  }

  /** A decoder that has thrown throws on every later push. */
  lemma ThrowsForGood(a: seq<Byte>, b: seq<Byte>)
    requires Decode(a).throws
    ensures Decode(Decode(a).rest + b).throws && Decode(Decode(a).rest + b).frames == []
  {
    BadRest(a);
    ScanStable(Decode(a).rest, b);
  }

  lemma {:induction false} BadRest(a: seq<Byte>)
    requires Decode(a).throws
    ensures Decode(a).rest != [] && ScanFrame(Decode(a).rest).Bad?
    decreases |a|
  {
    match ScanFrame(a) {
      case One(f, n) => BadRest(a[n..]);
      case _ =>
    }
  }

  // ----- round trips -----------------------------------------------------------------

  /** An encoded frame reads back, whatever follows it. */
  lemma EncodedScans(f: Frame, more: seq<Byte>)
    requires EncodeFrame(f).Ok?
    ensures var e := EncodeFrame(f).value;
            e + more != [] && ScanFrame(e + more) == One(f, |e|)
  {
    var e := EncodeFrame(f).value;
    var b := e + more;
    var body := e[..|e| - 1];
    assert b[..|e| - 1] == body && b[|e| - 1] == Checksum(body);
    match f {
      case BaudRate(n) =>
        assert body == [3] + LE(n, 4) && body[1..] == LE(n, 4);
        Widths();
        WordLE(n, 4);
      case Data(d) => assert body == [5, |d|] + d && body[2..] == d;
      case _ => assert body[..] == body;
    }
  }

  /** The wire format: what stands between the type byte and the checksum. */
  function Content(f: Frame): seq<Byte> {
    match f
    case Heartbeat => []
    case Status(e) => [e]
    case BaudRate(b) => [b % 0x100, b / 0x100 % 0x100, b / 0x1_0000 % 0x100, b / 0x100_0000]
    case Control(c) => [c]
    case Data(d) => if |d| < 256 then [|d|] + d else d
  }

  function TypeByte(f: Frame): Byte {
    match f case Heartbeat => 1 case Status(_) => 2 case BaudRate(_) => 3 case Control(_) => 4 case Data(_) => 5
  }

  /** Everything but a baud rate of 0 and more than 64 bytes of data can be encoded; the frame is its type byte, its
      content and one byte that brings the exclusive or over all of them to 0. */
  lemma WireFormat(f: Frame)
    ensures EncodeFrame(f).Ok? <==> f != BaudRate(0) && (f.Data? ==> |f.data| <= 64)
    ensures EncodeFrame(f).Ok? ==>
              var e := EncodeFrame(f).value;
              |e| == |Content(f)| + 2 && e[..|e| - 1] == [TypeByte(f)] + Content(f) && Checksum(e) == 0
  {
    if EncodeFrame(f).Ok? {
      var e := EncodeFrame(f).value;
      var body := e[..|e| - 1];
      if f.BaudRate? { FourBytes(f.baud); }
      assert body == [TypeByte(f)] + Content(f);
      XorSelf(Checksum(body));
    }
  }

  lemma FourBytes(b: Word32)
    ensures LE(b, 4) == [b % 0x100, b / 0x100 % 0x100, b / 0x1_0000 % 0x100, b / 0x100_0000]
  {
    assert LE(b, 4) == [b % 256] + LE(b / 256, 3);
    assert LE(b / 256, 3) == [b / 256 % 256] + LE(b / 256 / 256, 2);
    assert LE(b / 256 / 256, 2) == [b / 256 / 256 % 256] + LE(b / 256 / 256 / 256, 1);
    assert LE(b / 256 / 256 / 256, 1) == [b / 256 / 256 / 256 % 256];
  }

  lemma {:induction false} XorSelf(a: nat)
    ensures Xor(a, a) == 0
    decreases a
  {
    if a > 0 { XorSelf(a / 2); }
  }

  /** A buffer is rejected exactly when it starts with an unknown type, announces more than 64 bytes of data, or holds a
      whole frame over which the exclusive or is not 0. */
  lemma BadExact(buffer: seq<Byte>)
    requires buffer != []
    ensures ScanFrame(buffer) == Bad <==>
              || buffer[0] == 0 || buffer[0] > 5
              || (buffer[0] == 5 && |buffer| > 1 && buffer[1] > 64)
              || (BodyLength(buffer).Known? && |buffer| > BodyLength(buffer).n && Checksum(buffer[..BodyLength(buffer).n + 1]) != 0)
  {
    if BodyLength(buffer).Known? && |buffer| > BodyLength(buffer).n {
      var n := BodyLength(buffer).n;
      var whole := buffer[..n + 1];
      assert whole[..n] == buffer[..n];
      XorSelf(buffer[n]);
      if Checksum(whole) == 0 {
        XorSymmetric(Checksum(buffer[..n]), buffer[n]);
        XorCancels(buffer[n], Checksum(buffer[..n]), buffer[n]);
      }
    }
  }

  ghost predicate Encodable(fs: seq<Frame>) { forall f :: f in fs ==> EncodeFrame(f).Ok? }

  function EncodeAll(fs: seq<Frame>): seq<Byte>
    requires forall f :: f in fs ==> EncodeFrame(f).Ok?
  {
    if fs == [] then [] else EncodeFrame(fs[0]).value + EncodeAll(fs[1..])
  }

  /** Every encoded frame sequence decodes to itself with nothing left over. */
  lemma {:induction false} EncodedDecodes(fs: seq<Frame>)
    requires Encodable(fs)
    ensures Decode(EncodeAll(fs)) == Outcome(fs, [], false)
    decreases |fs|
  {
    if fs != [] {
      var e, rest := EncodeFrame(fs[0]).value, EncodeAll(fs[1..]);
      EncodedScans(fs[0], rest);
      assert (e + rest)[|e|..] == rest;
      EncodedDecodes(fs[1..]);
    }
  }

  /** Changing one byte after the type (and, in a data frame, after the length) makes the frame throw. */
  lemma CorruptionThrows(f: Frame, k: nat, v: Byte, more: seq<Byte>)
    requires EncodeFrame(f).Ok? && (if f.Data? then 2 else 1) <= k < |EncodeFrame(f).value|
    requires v != EncodeFrame(f).value[k]
    ensures var bad := EncodeFrame(f).value[k := v] + more;
            bad != [] && ScanFrame(bad) == Bad
  {
    var e := EncodeFrame(f).value;
    EncodedScans(f, more);
    LengthStays(f, k, v, more);
    SumDiffers(e[..|e| - 1], e, k, v, more);
  }

  /** The bytes the length is read from are as they were. */
  lemma LengthStays(f: Frame, k: nat, v: Byte, more: seq<Byte>)
    requires EncodeFrame(f).Ok? && (if f.Data? then 2 else 1) <= k < |EncodeFrame(f).value|
    ensures var e := EncodeFrame(f).value;
            BodyLength(e[k := v] + more) == Known(|e| - 1)
  {}

  /** Whether the changed byte is in the body or is the checksum, the two no longer agree. */
  lemma SumDiffers(body: seq<Byte>, e: seq<Byte>, k: nat, v: Byte, more: seq<Byte>)
    requires e == Encode(body) && k < |e| && v != e[k]
    ensures var bad := e[k := v] + more;
            Checksum(bad[..|body|]) != bad[|body|]
  {
    var bad := e[k := v] + more;
    if k < |body| {
      ChecksumChanges(body, k, v);
      assert bad[..|body|] == body[k := v];
    } else {
      assert bad[..|body|] == body;
    }
  }

  /** The checksum notices any change of a single byte. */
  lemma {:induction false} ChecksumChanges(s: seq<Byte>, k: nat, v: Byte)
    requires k < |s| && v != s[k]
    ensures Checksum(s[k := v]) != Checksum(s)
  {
    var n := |s| - 1;
    var t := s[k := v];
    if k == n {
      assert t[..n] == s[..n];
      if Checksum(t) == Checksum(s) { XorCancels(Checksum(s[..n]), v, s[k]); }
    } else {
      assert t[..n] == s[..n][k := v];
      ChecksumChanges(s[..n], k, v);
      if Checksum(t) == Checksum(s) {
        XorSymmetric(Checksum(t[..n]), s[n]);
        XorSymmetric(Checksum(s[..n]), s[n]);
        XorCancels(s[n], Checksum(t[..n]), Checksum(s[..n]));
      }
    }
  }

  // ----- sendRpc (dashboard/server/wifi-board-connection.ts) ---------------------------

  function Pieces(data: seq<Byte>): seq<seq<Byte>> {
    if |data| <= MAX_DATA_SIZE then (if data == [] then [] else [data])
    else [data[..MAX_DATA_SIZE]] + Pieces(data[MAX_DATA_SIZE..])
  }

  function DataFrames(pieces: seq<seq<Byte>>): (fs: seq<Frame>)
    ensures |fs| == |pieces| && forall i :: 0 <= i < |fs| ==> fs[i] == Data(pieces[i])
  {
    seq(|pieces|, i requires 0 <= i < |pieces| => Data(pieces[i]))
  }

  /** Whether the board answers the exchange of the i-th piece in time and with an OK status. */
  predicate Answered(answers: seq<bool>, i: nat) { i < |answers| && answers[i] }

  /** The chunking loop of sendRpc: the encoded pieces in order, up to the first whose exchange fails, which ends it. */
  method SendRpc(data: seq<Byte>, answers: seq<bool>) returns (sent: seq<seq<Byte>>, ok: bool)
    ensures ok <==> forall i :: 0 <= i < |Pieces(data)| ==> Answered(answers, i)
    ensures if ok then |sent| == |Pieces(data)| else 0 < |sent| <= |Pieces(data)| && !Answered(answers, |sent| - 1)
    ensures forall i :: 0 <= i < |sent| - (if ok then 0 else 1) ==> Answered(answers, i)
    ensures forall i :: 0 <= i < |sent| ==> EncodeData(Pieces(data)[i]) == Ok(sent[i])
  {
    sent := [];
    var offset := 0;
    ghost var done: seq<seq<Byte>> := [];
    assert data[0..] == data;
    while offset < |data|
      invariant 0 <= offset && (offset <= |data| ==> Pieces(data) == done + Pieces(data[offset..])) && (offset > |data| ==> Pieces(data) == done)
      invariant |sent| == |done| && forall i :: 0 <= i < |sent| ==> EncodeData(done[i]) == Ok(sent[i])
      invariant forall i :: 0 <= i < |sent| ==> Answered(answers, i)
      decreases |data| - offset
    {
      var end := if offset + MAX_DATA_SIZE < |data| then offset + MAX_DATA_SIZE else |data|;
      var chunk := data[offset..end];
      ghost var rest := data[offset..];
      assert end < |data| ==> rest[..MAX_DATA_SIZE] == chunk && rest[MAX_DATA_SIZE..] == data[end..];
      assert end == |data| ==> rest == chunk;
      sent := sent + [EncodeData(chunk).value];
      done := done + [chunk];
      if !Answered(answers, |sent| - 1) { return sent, false; }
      offset := offset + MAX_DATA_SIZE;
    }
    ok := true;
  }

  lemma {:induction false} PiecesCover(data: seq<Byte>)
    ensures Concat(Pieces(data)) == data
    ensures forall p :: p in Pieces(data) ==> 0 < |p| <= MAX_DATA_SIZE
    decreases |data|
  {
    if |data| > MAX_DATA_SIZE {
      PiecesCover(data[MAX_DATA_SIZE..]);
      assert Pieces(data)[1..] == Pieces(data[MAX_DATA_SIZE..]);
      assert data == data[..MAX_DATA_SIZE] + data[MAX_DATA_SIZE..];
    } else if data != [] {
      assert [data][1..] == [];
    }
  }

  /** The payloads of data frames, joined. */
  function Payload(fs: seq<Frame>): seq<Byte> {
    if fs == [] then [] else (if fs[0].Data? then fs[0].data else []) + Payload(fs[1..])
  }

  lemma {:induction false} PayloadOfPieces(pieces: seq<seq<Byte>>)
    ensures Payload(DataFrames(pieces)) == Concat(pieces)
  {
    if pieces != [] {
      assert DataFrames(pieces)[1..] == DataFrames(pieces[1..]);
      PayloadOfPieces(pieces[1..]);
    }
  }

  /** End to end: an RPC byte string cut by sendRpc, encoded, cut again anywhere on the way and decoded
      yields payloads that join to the original bytes, with nothing left over. */
  lemma RpcRoundTrip(data: seq<Byte>, chunks: seq<seq<Byte>>)
    requires (PiecesCover(data); Concat(chunks) == EncodeAll(DataFrames(Pieces(data))))
    ensures PushAll([], chunks).Ok? && PushAll([], chunks).value.1 == [] && Payload(PushAll([], chunks).value.0) == data
  {
    PiecesCover(data);
    var fs := DataFrames(Pieces(data));
    EncodedDecodes(fs);
    assert [] + Concat(chunks) == Concat(chunks);
    ChunkingIrrelevant([], chunks);
    PayloadOfPieces(Pieces(data));
  }
}
