/** DfuSe containers: the writer of scripts/bin2dfu.py and the parser of scripts/update.py. The suffix is that of
    appendix B of the USB Device Firmware Upgrade Specification 1.1. */
module DfuSe {
  import opened Bytes

  const DFUSE: seq<Byte> := [68, 102, 117, 83, 101]        // "DfuSe"
  const TARGET: seq<Byte> := [84, 97, 114, 103, 101, 116]  // "Target"
  const UFD: seq<Byte> := [85, 70, 68]                     // "UFD"

  const PREFIX := 11
  const TARGET_HEADER := 274
  const ELEMENT_HEADER := 8
  const SUFFIX := 16

  datatype Element = Element(address: Word32, payload: seq<Byte>)
  datatype Target = Target(alternate: Byte, named: Word32, name: seq<Byte>, elements: seq<Element>)

  /** `device` is the device release, product id and vendor id of the suffix. */
  datatype Container = Container(device: seq<Byte>, targets: seq<Target>)

  datatype Extent = Extent(address: Word32, size: nat)

  datatype Error =
    | Truncated | InvalidPrefix | InvalidSuffix | TruncatedTarget | InvalidTarget | TargetTooLong
    | TruncatedElement | InvalidPayload | TargetSizeMismatch | InvalidSize | BelowBase
    | OutOfRange | NotAscii

  datatype Result<T> = Ok(value: T) | Err(error: Error)

  // ----- the layout --------------------------------------------------------------------

  function ElementBytes(e: Element): seq<Byte> { LE(e.address, 4) + (LE(|e.payload|, 4) + e.payload) }

  function ElementsBytes(es: seq<Element>): seq<Byte> {
    if es == [] then [] else ElementBytes(es[0]) + ElementsBytes(es[1..])
  }

  function HeaderBytes(alternate: Byte, named: Word32, name: seq<Byte>, size: nat, count: nat): seq<Byte> {
    Concat([TARGET, [alternate], LE(named, 4), name, LE(size, 4), LE(count, 4)])
  }

  function TargetBytes(t: Target): seq<Byte> {
    HeaderBytes(t.alternate, t.named, t.name, |ElementsBytes(t.elements)|, |t.elements|) + ElementsBytes(t.elements)
  }

  function TargetsBytes(ts: seq<Target>): seq<Byte> {
    if ts == [] then [] else TargetBytes(ts[0]) + TargetsBytes(ts[1..])
  }

  /** Everything but the checksum. */
  function Unsigned(device: seq<Byte>, count: nat, body: seq<Byte>): seq<Byte> {
    DFUSE + ([1] + (LE(PREFIX + |body|, 4) + (LE(count, 1) + (body + (device + (LE(0x011A, 2) + (UFD + [SUFFIX])))))))
  }

  function Checksum(crc: seq<Byte> -> Word32, data: seq<Byte>): Word32 { 0xFFFF_FFFF - crc(data) }

  function Signed(data: seq<Byte>, crc: seq<Byte> -> Word32): seq<Byte> { data + LE(Checksum(crc, data), 4) }

  function Layout(c: Container, crc: seq<Byte> -> Word32): seq<Byte> {
    Signed(Unsigned(c.device, |c.targets|, TargetsBytes(c.targets)), crc)
  }

  predicate ElementOK(e: Element) { 0 < |e.payload| < 0x1_0000_0000 }

  ghost predicate ElementsOK(es: seq<Element>) { forall i :: 0 <= i < |es| ==> ElementOK(es[i]) }

  ghost predicate TargetOK(t: Target) {
    |t.name| == 255 && |t.elements| < 0x1_0000_0000 && |ElementsBytes(t.elements)| < 0x1_0000_0000 && ElementsOK(t.elements)
  }

  ghost predicate TargetsOK(ts: seq<Target>) { forall i :: 0 <= i < |ts| ==> TargetOK(ts[i]) }

  function AllElements(ts: seq<Target>): seq<Element> {
    if ts == [] then [] else ts[0].elements + AllElements(ts[1..])
  }

  /** The containers that have a layout: every count fits its field, no payload is empty, and there is an element. */
  ghost predicate ContainerOK(c: Container) {
    && |c.device| == 6 && |c.targets| < 256 && TargetsOK(c.targets) && AllElements(c.targets) != []
    && PREFIX + |TargetsBytes(c.targets)| < 0x1_0000_0000
  }

  function Extents(es: seq<Element>): (r: seq<Extent>)
    ensures |r| == |es|
    ensures forall i :: 0 <= i < |es| ==> r[i] == Extent(es[i].address, |es[i].payload|)
  {
    if es == [] then [] else [Extent(es[0].address, |es[0].payload|)] + Extents(es[1..])
  }

  // ----- reading ----------------------------------------------------------------------------

  function Word4(data: seq<Byte>, offset: nat): Word32
    requires offset + 4 <= |data|
  {
    Widths();
    Word(data[offset..offset + 4])
  }

  function ReadElement(data: seq<Byte>, offset: nat, limit: nat): (r: Result<(Element, nat)>)
    requires limit <= |data|
    ensures r.Ok? ==> offset < r.value.1 <= limit
  {
    if offset + ELEMENT_HEADER > limit then Err(TruncatedElement)
    else
      var size, start := Word4(data, offset + 4), offset + ELEMENT_HEADER;
      if size == 0 || start + size > limit then Err(InvalidPayload)
      else Ok((Element(Word4(data, offset), data[start..start + size]), start + size))
  }

  function ReadElements(data: seq<Byte>, offset: nat, limit: nat, count: nat, acc: seq<Element>): (r: Result<(seq<Element>, nat)>)
    requires offset <= limit <= |data|
    ensures r.Ok? ==> acc <= r.value.0 && |r.value.0| == |acc| + count && offset <= r.value.1 <= limit
    decreases count
  {
    if count == 0 then Ok((acc, offset))
    else match ReadElement(data, offset, limit)
      case Err(e) => Err(e)
      case Ok((element, next)) => ReadElements(data, next, limit, count - 1, acc + [element])
  }

  /** The elements fill the place the header gives them. */
  function ReadTargetBody(data: seq<Byte>, start: nat, end: nat, count: nat): (r: Result<seq<Element>>)
    requires start <= end <= |data|
    ensures r.Ok? ==> |r.value| == count
  {
    match ReadElements(data, start, end, count, [])
    case Err(e) => Err(e)
    case Ok((es, next)) => if next != end then Err(TargetSizeMismatch) else Ok(es)
  }

  function ReadTarget(data: seq<Byte>, offset: nat, limit: nat): (r: Result<(Target, nat)>)
    requires limit <= |data|
    ensures r.Ok? ==> offset < r.value.1 <= limit
  {
    if offset + TARGET_HEADER > limit then Err(TruncatedTarget)
    else if data[offset..offset + 6] != TARGET then Err(InvalidTarget)
    else
      var start := offset + TARGET_HEADER;
      var end := start + Word4(data, offset + 266);
      if end > limit then Err(TargetTooLong)
      else match ReadTargetBody(data, start, end, Word4(data, offset + 270))
        case Err(e) => Err(e)
        case Ok(es) => Ok((Target(data[offset + 6], Word4(data, offset + 7), data[offset + 11..offset + 266], es), end))
  }

  function ReadTargets(data: seq<Byte>, offset: nat, limit: nat, count: nat, acc: seq<Target>): (r: Result<(seq<Target>, nat)>)
    requires offset <= limit <= |data|
    ensures r.Ok? ==> acc <= r.value.0 && |r.value.0| == |acc| + count && offset <= r.value.1 <= limit
    decreases count
  {
    if count == 0 then Ok((acc, offset))
    else match ReadTarget(data, offset, limit)
      case Err(e) => Err(e)
      case Ok((t, next)) => ReadTargets(data, next, limit, count - 1, acc + [t])
  }

  predicate PrefixOK(data: seq<Byte>, end: nat)
    requires PREFIX <= |data|
  {
    data[..5] == DFUSE && data[5] == 1 && Word4(data, 6) == end
  }

  predicate SuffixOK(data: seq<Byte>, end: nat, crc: seq<Byte> -> Word32)
    requires |data| == end + SUFFIX
  {
    && Word(data[end + 6..end + 8]) == 0x011A && data[end + 8..end + 11] == UFD && data[end + 11] == SUFFIX
    && Word4(data, end + 12) == Checksum(crc, data[..end + 12])
  }

  /** The targets fill the place between prefix and suffix, and hold an element. */
  function ReadBody(data: seq<Byte>, end: nat): Result<seq<Target>>
    requires PREFIX <= end <= |data|
  {
    match ReadTargets(data, PREFIX, end, data[10], [])
    case Err(e) => Err(e)
    case Ok((ts, offset)) => if offset != end || AllElements(ts) == [] then Err(InvalidSize) else Ok(ts)
  }

  /** What the parser reads, names and payloads included. */
  function Parse(data: seq<Byte>, crc: seq<Byte> -> Word32): Result<Container> {
    if |data| < PREFIX + TARGET_HEADER + SUFFIX then Err(Truncated)
    else
      var end := |data| - SUFFIX;
      if !PrefixOK(data, end) then Err(InvalidPrefix)
      else if !SuffixOK(data, end, crc) then Err(InvalidSuffix)
      else match ReadBody(data, end)
        case Err(e) => Err(e)
        case Ok(ts) => Ok(Container(data[end..end + 6], ts))
  }

  /** What it returns. */
  function Elements(data: seq<Byte>, crc: seq<Byte> -> Word32): Result<seq<Extent>> {
    match Parse(data, crc)
    case Err(e) => Err(e)
    case Ok(c) => Ok(Extents(AllElements(c.targets)))
  }

  lemma Just<T>(r: Result<T>, x: T)
    requires r.Ok? && r.value == x
    ensures r == Ok(x)
  {}

  lemma Whole<T>(r: Result<(T, nat)>, x: T, end: nat)
    requires r.Ok? && r.value.0 == x && r.value.1 == end
    ensures r == Ok((x, end))
  {}

  // ----- what is accepted: elements ------------------------------------------------------------

  ghost predicate GivesElement(data: seq<Byte>, offset: nat, limit: nat, e: Element)
    requires limit <= |data|
  {
    ReadElement(data, offset, limit).Ok? && ReadElement(data, offset, limit).value.0 == e
  }

  ghost predicate ElementLaid(data: seq<Byte>, offset: nat, limit: nat, e: Element) {
    ElementOK(e) && offset + |ElementBytes(e)| <= limit && At(data, offset, ElementBytes(e))
  }

  lemma ElementExact(data: seq<Byte>, offset: nat, limit: nat, e: Element)
    requires limit <= |data|
    ensures GivesElement(data, offset, limit, e) <==> ElementLaid(data, offset, limit, e)
    ensures GivesElement(data, offset, limit, e) ==> ReadElement(data, offset, limit).value.1 == offset + |ElementBytes(e)|
  {
    if ElementOK(e) && offset + ELEMENT_HEADER <= limit {
      ElementFields(data, offset, e);
    }
  }

  lemma ElementFields(data: seq<Byte>, offset: nat, e: Element)
    requires |e.payload| < 0x1_0000_0000 && offset + ELEMENT_HEADER <= |data|
    ensures |ElementBytes(e)| == ELEMENT_HEADER + |e.payload|
    ensures At(data, offset, ElementBytes(e)) <==>
              Word4(data, offset) == e.address && Word4(data, offset + 4) == |e.payload| && At(data, offset + ELEMENT_HEADER, e.payload)
  {
    Widths();
    var size := LE(|e.payload|, 4);
    AtParts(data, offset, ElementBytes(e), LE(e.address, 4), size + e.payload);
    AtParts(data, offset + 4, size + e.payload, size, e.payload);
    AtWord(data, offset, e.address, 4);
    AtWord(data, offset + 4, |e.payload|, 4);
  }

  ghost predicate GivesElements(data: seq<Byte>, offset: nat, limit: nat, acc: seq<Element>, es: seq<Element>)
    requires offset <= limit <= |data|
  {
    var r := ReadElements(data, offset, limit, |es|, acc);
    r.Ok? && r.value.0 == acc + es
  }

  ghost predicate ElementsLaid(data: seq<Byte>, offset: nat, limit: nat, es: seq<Element>) {
    ElementsOK(es) && offset + |ElementsBytes(es)| <= limit && At(data, offset, ElementsBytes(es))
  }

  lemma {:induction false} ElementsExact(data: seq<Byte>, offset: nat, limit: nat, acc: seq<Element>, es: seq<Element>)
    requires offset <= limit <= |data|
    ensures GivesElements(data, offset, limit, acc, es) <==> ElementsLaid(data, offset, limit, es)
    ensures GivesElements(data, offset, limit, acc, es) ==>
              ReadElements(data, offset, limit, |es|, acc).value.1 == offset + |ElementsBytes(es)|
    decreases |es|
  {
    if es != [] {
      FirstElement(data, offset, limit, acc, es);
      ElementExact(data, offset, limit, es[0]);
      if GivesElement(data, offset, limit, es[0]) {
        var next := ReadElement(data, offset, limit).value.1;
        ElementsExact(data, next, limit, acc + [es[0]], es[1..]);
        ElementsSplit(data, offset, limit, es, next);
      } else {
        ElementsHead(data, offset, limit, es);
        assert !ElementsLaid(data, offset, limit, es);
      }
    }
  }

  lemma ElementsSplit(data: seq<Byte>, offset: nat, limit: nat, es: seq<Element>, next: nat)
    requires es != [] && ElementLaid(data, offset, limit, es[0]) && next == offset + |ElementBytes(es[0])|
    ensures ElementsLaid(data, offset, limit, es) <==> ElementsLaid(data, next, limit, es[1..])
    ensures offset + |ElementsBytes(es)| == next + |ElementsBytes(es[1..])|
  {
    ElementsOKSplit(es);
    AtRest(data, offset, ElementsBytes(es), ElementBytes(es[0]), ElementsBytes(es[1..]), next);
  }

  lemma FirstElement(data: seq<Byte>, offset: nat, limit: nat, acc: seq<Element>, es: seq<Element>)
    requires offset <= limit <= |data| && es != []
    ensures GivesElements(data, offset, limit, acc, es) <==>
              && GivesElement(data, offset, limit, es[0])
              && GivesElements(data, ReadElement(data, offset, limit).value.1, limit, acc + [es[0]], es[1..])
    ensures GivesElements(data, offset, limit, acc, es) ==>
              ReadElements(data, offset, limit, |es|, acc).value.1
                == ReadElements(data, ReadElement(data, offset, limit).value.1, limit, |es[1..]|, acc + [es[0]]).value.1
  {
    assert acc + es == acc + [es[0]] + es[1..];
    if GivesElements(data, offset, limit, acc, es) {
      var e := ReadElement(data, offset, limit).value.0;
      assert (acc + [e])[|acc|] == (acc + es)[|acc|];
    }
  }

  lemma ElementsHead(data: seq<Byte>, offset: nat, limit: nat, es: seq<Element>)
    requires es != []
    ensures |ElementsBytes(es)| == |ElementBytes(es[0])| + |ElementsBytes(es[1..])|
    ensures ElementsOK(es) <==> ElementOK(es[0]) && ElementsOK(es[1..])
    ensures At(data, offset, ElementsBytes(es)) <==> BothAt(data, offset, ElementBytes(es[0]), ElementsBytes(es[1..]))
  {
    AtParts(data, offset, ElementsBytes(es), ElementBytes(es[0]), ElementsBytes(es[1..]));
    ElementsOKSplit(es);
  }

  lemma ElementsOKSplit(es: seq<Element>)
    requires es != []
    ensures ElementsOK(es) <==> ElementOK(es[0]) && ElementsOK(es[1..])
  {
    assert es == [es[0]] + es[1..];
  }

  // ----- targets ----------------------------------------------------------------------------------

  ghost predicate GivesTarget(data: seq<Byte>, offset: nat, limit: nat, t: Target)
    requires limit <= |data|
  {
    ReadTarget(data, offset, limit).Ok? && ReadTarget(data, offset, limit).value.0 == t
  }

  ghost predicate TargetLaid(data: seq<Byte>, offset: nat, limit: nat, t: Target) {
    TargetOK(t) && offset + |TargetBytes(t)| <= limit && At(data, offset, TargetBytes(t))
  }

  ghost predicate SixAt(data: seq<Byte>, offset: nat, a: seq<Byte>, b: seq<Byte>, c: seq<Byte>, d: seq<Byte>, e: seq<Byte>, f: seq<Byte>) {
    && At(data, offset, a) && At(data, offset + |a|, b) && At(data, offset + |a| + |b|, c) && At(data, offset + |a| + |b| + |c|, d)
    && BothAt(data, offset + |a| + |b| + |c| + |d|, e, f)
  }

  lemma ThreeParts(data: seq<Byte>, offset: nat, a: seq<Byte>, b: seq<Byte>, c: seq<Byte>, second: nat, third: nat)
    requires second == offset + |a| && third == second + |b|
    ensures At(data, offset, a + (b + c)) <==> At(data, offset, a) && At(data, second, b) && At(data, third, c)
  {
    AtBoth(data, offset, a, b + c);
    AtBoth(data, second, b, c);
  }

  lemma SixParts(data: seq<Byte>, offset: nat, a: seq<Byte>, b: seq<Byte>, c: seq<Byte>, d: seq<Byte>, e: seq<Byte>, f: seq<Byte>)
    ensures At(data, offset, a + (b + (c + (d + (e + f))))) <==> SixAt(data, offset, a, b, c, d, e, f)
  {
    var i, j := offset + |a|, offset + |a| + |b|;
    var k, l := j + |c|, j + |c| + |d|;
    ThreeParts(data, offset, a, b, c + (d + (e + f)), i, j);
    ThreeParts(data, j, c, d, e + f, k, l);
    AtBoth(data, l, e, f);
  }

  /** The fields of a target header, read where the parser reads them. */
  ghost predicate HeaderRead(data: seq<Byte>, offset: nat, t: Target, size: nat, count: nat)
    requires offset + TARGET_HEADER <= |data|
  {
    && data[offset..offset + 6] == TARGET && data[offset + 6] == t.alternate && Word4(data, offset + 7) == t.named
    && data[offset + 11..offset + 266] == t.name && Word4(data, offset + 266) == size && Word4(data, offset + 270) == count
  }

  lemma HeaderExact(data: seq<Byte>, offset: nat, t: Target, size: nat, count: nat)
    requires offset + TARGET_HEADER <= |data| && |t.name| == 255 && size < 0x1_0000_0000 && count < 0x1_0000_0000
    ensures At(data, offset, HeaderBytes(t.alternate, t.named, t.name, size, count)) <==> HeaderRead(data, offset, t, size, count)
  {
    ConcatSix(TARGET, [t.alternate], LE(t.named, 4), t.name, LE(size, 4), LE(count, 4));
    SixParts(data, offset, TARGET, [t.alternate], LE(t.named, 4), t.name, LE(size, 4), LE(count, 4));
    AtOne(data, offset + 6, t.alternate);
    AtWord4(data, offset + 7, t.named);
    AtWord4(data, offset + 266, size);
    AtWord4(data, offset + 270, count);
  }

  lemma AtWord4(data: seq<Byte>, offset: nat, n: nat)
    requires n < 0x1_0000_0000
    ensures At(data, offset, LE(n, 4)) <==> offset + 4 <= |data| && Word4(data, offset) == n
  {
    Widths();
    AtWord(data, offset, n, 4);
  }

  lemma HeaderLength(t: Target, size: nat, count: nat)
    requires |t.name| == 255
    ensures |HeaderBytes(t.alternate, t.named, t.name, size, count)| == TARGET_HEADER
  {
    ConcatSix(TARGET, [t.alternate], LE(t.named, 4), t.name, LE(size, 4), LE(count, 4));
  }

  lemma TargetLength(t: Target)
    requires |t.name| == 255
    ensures |TargetBytes(t)| == TARGET_HEADER + |ElementsBytes(t.elements)|
  {
    HeaderLength(t, |ElementsBytes(t.elements)|, |t.elements|);
  }

  /** The header of `t` and then its elements stand at `offset`, before `limit`. */
  ghost predicate TargetPlaced(data: seq<Byte>, offset: nat, limit: nat, t: Target, size: nat)
    requires limit <= |data|
  {
    && size == |ElementsBytes(t.elements)| && offset + TARGET_HEADER + size <= limit
    && HeaderRead(data, offset, t, size, |t.elements|) && data[offset + TARGET_HEADER..offset + TARGET_HEADER + size] == ElementsBytes(t.elements)
  }

  lemma TargetFields(data: seq<Byte>, offset: nat, limit: nat, t: Target, size: nat)
    requires limit <= |data| && TargetOK(t) && size == |ElementsBytes(t.elements)|
    ensures offset + |TargetBytes(t)| <= limit && At(data, offset, TargetBytes(t)) <==> TargetPlaced(data, offset, limit, t, size)
  {
    var body := ElementsBytes(t.elements);
    TargetLength(t);
    if offset + TARGET_HEADER <= |data| {
      var head := HeaderBytes(t.alternate, t.named, t.name, size, |t.elements|);
      HeaderLength(t, size, |t.elements|);
      AtParts(data, offset, TargetBytes(t), head, body);
      HeaderExact(data, offset, t, size, |t.elements|);
      if offset + TARGET_HEADER + size <= limit { AtSlice(data, offset + TARGET_HEADER, offset + TARGET_HEADER + size, body); }
    }
  }

  /** The parser takes a target when its header and then its elements are read. */
  lemma TargetSteps(data: seq<Byte>, offset: nat, limit: nat, t: Target, start: nat, end: nat)
    requires start == offset + TARGET_HEADER && start <= end <= limit <= |data|
    requires HeaderRead(data, offset, t, end - start, |t.elements|)
    requires ReadTargetBody(data, start, end, |t.elements|) == Ok(t.elements)
    ensures ReadTarget(data, offset, limit) == Ok((t, end))
  {}

  /** The header of `t` is read, and then its elements up to `end`. */
  ghost predicate PartsRead(data: seq<Byte>, offset: nat, limit: nat, t: Target, end: nat) {
    var start := offset + TARGET_HEADER;
    && start <= end <= limit <= |data| && end - start < 0x1_0000_0000
    && |t.name| == 255 && |t.elements| < 0x1_0000_0000
    && HeaderRead(data, offset, t, end - start, |t.elements|)
    && ReadTargetBody(data, start, end, |t.elements|) == Ok(t.elements)
  }

  lemma TargetParts(data: seq<Byte>, offset: nat, limit: nat, t: Target)
    requires limit <= |data| && GivesTarget(data, offset, limit, t)
    ensures PartsRead(data, offset, limit, t, ReadTarget(data, offset, limit).value.1)
  {}

  /** The elements are read up to the limit exactly when they are all that stands there. */
  lemma ElementsFill(data: seq<Byte>, start: nat, end: nat, es: seq<Element>)
    requires start <= end <= |data|
    ensures ReadTargetBody(data, start, end, |es|) == Ok(es) <==> ElementsOK(es) && data[start..end] == ElementsBytes(es)
  {
    var bytes, read := ElementsBytes(es), ReadElements(data, start, end, |es|, []);
    AtSlice(data, start, end, bytes);
    ElementsExact(data, start, end, [], es);
    assert [] + es == es;
    assert GivesElements(data, start, end, [], es) <==> read.Ok? && read.value.0 == es;
    if ElementsLaid(data, start, end, es) && end == start + |bytes| { Just(ReadTargetBody(data, start, end, |es|), es); }
  }

  /** A target in its place is read. */
  lemma TargetIsRead(data: seq<Byte>, offset: nat, limit: nat, t: Target, size: nat, end: nat)
    requires limit <= |data| && TargetOK(t) && TargetPlaced(data, offset, limit, t, size) && end == offset + TARGET_HEADER + size
    ensures ReadTarget(data, offset, limit) == Ok((t, end))
  {
    ElementsFill(data, offset + TARGET_HEADER, end, t.elements);
    TargetSteps(data, offset, limit, t, offset + TARGET_HEADER, end);
  }

  /** What is read as a target is in its place. */
  lemma TargetWasPlaced(data: seq<Byte>, offset: nat, limit: nat, t: Target)
    requires limit <= |data| && GivesTarget(data, offset, limit, t)
    ensures TargetOK(t) && TargetPlaced(data, offset, limit, t, |ElementsBytes(t.elements)|)
    ensures ReadTarget(data, offset, limit).value.1 == offset + TARGET_HEADER + |ElementsBytes(t.elements)|
  {
    TargetParts(data, offset, limit, t);
    PartsPlaced(data, offset, limit, t, ReadTarget(data, offset, limit).value.1);
  }

  lemma PartsPlaced(data: seq<Byte>, offset: nat, limit: nat, t: Target, end: nat)
    requires limit <= |data| && PartsRead(data, offset, limit, t, end)
    ensures TargetOK(t) && end == offset + TARGET_HEADER + |ElementsBytes(t.elements)|
    ensures TargetPlaced(data, offset, limit, t, |ElementsBytes(t.elements)|)
  {
    var start := offset + TARGET_HEADER;
    ElementsFill(data, start, end, t.elements);
    assert |data[start..end]| == end - start;
  }

  lemma TargetExact(data: seq<Byte>, offset: nat, limit: nat, t: Target)
    requires limit <= |data|
    ensures GivesTarget(data, offset, limit, t) <==> TargetLaid(data, offset, limit, t)
    ensures GivesTarget(data, offset, limit, t) ==> ReadTarget(data, offset, limit).value.1 == offset + |TargetBytes(t)|
  {
    var size := |ElementsBytes(t.elements)|;
    if GivesTarget(data, offset, limit, t) {
      TargetWasPlaced(data, offset, limit, t);
      TargetFields(data, offset, limit, t, size);
      TargetLength(t);
    } else if TargetOK(t) {
      if TargetPlaced(data, offset, limit, t, size) { TargetIsRead(data, offset, limit, t, size, offset + TARGET_HEADER + size); }
      TargetFields(data, offset, limit, t, size);
    }
  }

  ghost predicate GivesTargets(data: seq<Byte>, offset: nat, limit: nat, acc: seq<Target>, ts: seq<Target>)
    requires offset <= limit <= |data|
  {
    var r := ReadTargets(data, offset, limit, |ts|, acc);
    r.Ok? && r.value.0 == acc + ts
  }

  ghost predicate TargetsLaid(data: seq<Byte>, offset: nat, limit: nat, ts: seq<Target>) {
    TargetsOK(ts) && offset + |TargetsBytes(ts)| <= limit && At(data, offset, TargetsBytes(ts))
  }

  lemma {:induction false} TargetsExact(data: seq<Byte>, offset: nat, limit: nat, acc: seq<Target>, ts: seq<Target>)
    requires offset <= limit <= |data|
    ensures GivesTargets(data, offset, limit, acc, ts) <==> TargetsLaid(data, offset, limit, ts)
    ensures GivesTargets(data, offset, limit, acc, ts) ==>
              ReadTargets(data, offset, limit, |ts|, acc).value.1 == offset + |TargetsBytes(ts)|
    decreases |ts|
  {
    if ts != [] {
      FirstTarget(data, offset, limit, acc, ts);
      TargetExact(data, offset, limit, ts[0]);
      if GivesTarget(data, offset, limit, ts[0]) {
        var next := ReadTarget(data, offset, limit).value.1;
        TargetsExact(data, next, limit, acc + [ts[0]], ts[1..]);
        TargetsSplit(data, offset, limit, ts, next);
      } else {
        TargetsHead(data, offset, limit, ts);
        assert !TargetsLaid(data, offset, limit, ts);
      }
    }
  }

  lemma TargetsSplit(data: seq<Byte>, offset: nat, limit: nat, ts: seq<Target>, next: nat)
    requires ts != [] && TargetLaid(data, offset, limit, ts[0]) && next == offset + |TargetBytes(ts[0])|
    ensures TargetsLaid(data, offset, limit, ts) <==> TargetsLaid(data, next, limit, ts[1..])
    ensures offset + |TargetsBytes(ts)| == next + |TargetsBytes(ts[1..])|
  {
    TargetsOKSplit(ts);
    AtRest(data, offset, TargetsBytes(ts), TargetBytes(ts[0]), TargetsBytes(ts[1..]), next);
  }

  lemma FirstTarget(data: seq<Byte>, offset: nat, limit: nat, acc: seq<Target>, ts: seq<Target>)
    requires offset <= limit <= |data| && ts != []
    ensures GivesTargets(data, offset, limit, acc, ts) <==>
              && GivesTarget(data, offset, limit, ts[0])
              && GivesTargets(data, ReadTarget(data, offset, limit).value.1, limit, acc + [ts[0]], ts[1..])
    ensures GivesTargets(data, offset, limit, acc, ts) ==>
              ReadTargets(data, offset, limit, |ts|, acc).value.1
                == ReadTargets(data, ReadTarget(data, offset, limit).value.1, limit, |ts[1..]|, acc + [ts[0]]).value.1
  {
    assert acc + ts == acc + [ts[0]] + ts[1..];
    if GivesTargets(data, offset, limit, acc, ts) {
      var t := ReadTarget(data, offset, limit).value.0;
      assert (acc + [t])[|acc|] == (acc + ts)[|acc|];
    }
  }

  lemma TargetsHead(data: seq<Byte>, offset: nat, limit: nat, ts: seq<Target>)
    requires ts != []
    ensures |TargetsBytes(ts)| == |TargetBytes(ts[0])| + |TargetsBytes(ts[1..])|
    ensures TargetsOK(ts) <==> TargetOK(ts[0]) && TargetsOK(ts[1..])
    ensures At(data, offset, TargetsBytes(ts)) <==> BothAt(data, offset, TargetBytes(ts[0]), TargetsBytes(ts[1..]))
  {
    AtParts(data, offset, TargetsBytes(ts), TargetBytes(ts[0]), TargetsBytes(ts[1..]));
    TargetsOKSplit(ts);
  }

  lemma TargetsOKSplit(ts: seq<Target>)
    requires ts != []
    ensures TargetsOK(ts) <==> TargetOK(ts[0]) && TargetsOK(ts[1..])
  {
    assert ts == [ts[0]] + ts[1..];
  }

  // ----- containers --------------------------------------------------------------------------------

  lemma SignedExact(data: seq<Byte>, u: seq<Byte>, crc: seq<Byte> -> Word32)
    ensures data == Signed(u, crc) <==>
              |data| == |u| + 4 && data[..|u|] == u && Word4(data, |u|) == Checksum(crc, data[..|u|])
  {
    if |data| == |u| + 4 {
      Widths();
      AtWord(data, |u|, Checksum(crc, u), 4);
      assert data == data[..|u|] + data[|u|..|u| + 4];
      assert data == Signed(u, crc) ==> data[..|u|] == u && data[|u|..|u| + 4] == LE(Checksum(crc, u), 4);
    }
  }

  /** The fields around the targets, read where the parser reads them. */
  ghost predicate FrameRead(u: seq<Byte>, device: seq<Byte>, count: nat, body: seq<Byte>)
    requires |u| == PREFIX + |body| + 12
  {
    var end := PREFIX + |body|;
    && u[..5] == DFUSE && u[5] == 1 && Word4(u, 6) == end && u[10] == count
    && u[11..end] == body && u[end..end + 6] == device
    && Word(u[end + 6..end + 8]) == 0x011A && u[end + 8..end + 11] == UFD && u[end + 11] == SUFFIX
  }

  lemma UnsignedExact(u: seq<Byte>, device: seq<Byte>, count: nat, body: seq<Byte>)
    requires |device| == 6 && count < 256 && PREFIX + |body| < 0x1_0000_0000
    requires |u| == PREFIX + |body| + 12
    ensures u == Unsigned(device, count, body) <==> FrameRead(u, device, count, body)
  {
    var end := PREFIX + |body|;
    var tail := LE(0x011A, 2) + (UFD + [SUFFIX]);
    var rest := body + (device + tail);
    UnsignedLength(device, count, body);
    WholeAt(u, Unsigned(device, count, body));
    FrontExact(u, count, end, rest);
    AtBoth(u, 11, body, device + tail);
    AtBoth(u, end, device, tail);
    TailExact(u, end + 6);
  }

  lemma UnsignedLength(device: seq<Byte>, count: nat, body: seq<Byte>)
    requires |device| == 6
    ensures |Unsigned(device, count, body)| == PREFIX + |body| + 12
  {}

  lemma WholeAt(u: seq<Byte>, v: seq<Byte>)
    requires |u| == |v|
    ensures u == v <==> At(u, 0, v)
  {
    assert u[0..|u|] == u;
  }

  lemma FrontExact(u: seq<Byte>, count: nat, size: nat, rest: seq<Byte>)
    requires |u| >= PREFIX && count < 256 && size < 0x1_0000_0000
    ensures At(u, 0, DFUSE + ([1] + (LE(size, 4) + (LE(count, 1) + rest)))) <==>
              && u[..5] == DFUSE && u[5] == 1 && Word4(u, 6) == size && u[10] == count && At(u, 11, rest)
  {
    AtBoth(u, 0, DFUSE, [1] + (LE(size, 4) + (LE(count, 1) + rest)));
    AtBoth(u, 5, [1], LE(size, 4) + (LE(count, 1) + rest));
    AtBoth(u, 6, LE(size, 4), LE(count, 1) + rest);
    AtBoth(u, 10, LE(count, 1), rest);
    Widths();
    AtOne(u, 5, 1);
    AtWord(u, 6, size, 4);
    assert LE(count, 1) == [count];
    AtOne(u, 10, count);
    assert u[0..5] == u[..5];
  }

  lemma TailExact(u: seq<Byte>, offset: nat)
    requires |u| == offset + 6
    ensures At(u, offset, LE(0x011A, 2) + (UFD + [SUFFIX])) <==>
              && Word(u[offset..offset + 2]) == 0x011A && u[offset + 2..offset + 5] == UFD && u[offset + 5] == SUFFIX
  {
    Widths();
    AtBoth(u, offset, LE(0x011A, 2), UFD + [SUFFIX]);
    AtBoth(u, offset + 2, UFD, [SUFFIX]);
    AtWord(u, offset, 0x011A, 2);
    AtOne(u, offset + 5, SUFFIX);
  }

  /** The parser and the layout are inverse to each other: bytes are accepted, and read as `c`, exactly when `c` is a
      container that fits its fields and the bytes are its layout. So every byte that is accepted is accounted for. */
  lemma ParseExact(data: seq<Byte>, crc: seq<Byte> -> Word32, c: Container)
    ensures Parse(data, crc) == Ok(c) <==> ContainerOK(c) && data == Layout(c, crc)
  {
    if Parse(data, crc) == Ok(c) { ParsedIsLayout(data, crc, c); }
    if ContainerOK(c) && data == Layout(c, crc) { LayoutIsParsed(data, crc, c); }
  }

  /** The checks of the parser before the targets. */
  ghost predicate FrameOK(data: seq<Byte>, crc: seq<Byte> -> Word32)
    requires |data| >= PREFIX + SUFFIX
  {
    PrefixOK(data, |data| - SUFFIX) && SuffixOK(data, |data| - SUFFIX, crc)
  }

  lemma FrameExact(data: seq<Byte>, crc: seq<Byte> -> Word32, device: seq<Byte>, count: nat, body: seq<Byte>)
    requires |device| == 6 && count < 256 && |data| == PREFIX + |body| + SUFFIX
    ensures PREFIX + |body| < 0x1_0000_0000 && data == Signed(Unsigned(device, count, body), crc) <==>
              && FrameOK(data, crc) && data[10] == count && data[PREFIX..|data| - SUFFIX] == body
              && data[|data| - SUFFIX..|data| - SUFFIX + 6] == device
  {
    var end := |data| - SUFFIX;
    var u := data[..end + 12];
    SameFrame(data, u, device, count, body);
    if PREFIX + |body| < 0x1_0000_0000 {
      UnsignedExact(u, device, count, body);
      UnsignedLength(device, count, body);
      SignedExact(data, Unsigned(device, count, body), crc);
    }
  }

  /** The fields are the same with the checksum behind them. */
  lemma SameFrame(data: seq<Byte>, u: seq<Byte>, device: seq<Byte>, count: nat, body: seq<Byte>)
    requires |data| == PREFIX + |body| + SUFFIX && u == data[..|data| - 4]
    ensures var end := |data| - SUFFIX;
            FrameRead(u, device, count, body) <==>
              && PrefixOK(data, end) && data[10] == count && data[PREFIX..end] == body && data[end..end + 6] == device
              && Word(data[end + 6..end + 8]) == 0x011A && data[end + 8..end + 11] == UFD && data[end + 11] == SUFFIX
  {
    var end := |data| - SUFFIX;
    assert u[..5] == data[..5] && u[6..10] == data[6..10] && u[11..end] == data[11..end] && u[end..end + 6] == data[end..end + 6];
    assert u[end + 6..end + 8] == data[end + 6..end + 8] && u[end + 8..end + 11] == data[end + 8..end + 11];
  }

  lemma ParsedParts(data: seq<Byte>, crc: seq<Byte> -> Word32, c: Container, end: nat)
    requires |data| == end + SUFFIX >= PREFIX + TARGET_HEADER + SUFFIX
    ensures Parse(data, crc) == Ok(c) <==>
              FrameOK(data, crc) && c.device == data[end..end + 6] && ReadBody(data, end) == Ok(c.targets)
  {}

  lemma BodyExact(data: seq<Byte>, end: nat, ts: seq<Target>)
    requires PREFIX <= end <= |data|
    ensures ReadBody(data, end) == Ok(ts) <==>
              |ts| == data[10] && TargetsOK(ts) && AllElements(ts) != [] && data[PREFIX..end] == TargetsBytes(ts)
  {
    TargetsFill(data, PREFIX, end, ts);
  }

  /** The targets are read up to the limit exactly when they are all that stands there. */
  lemma TargetsFill(data: seq<Byte>, start: nat, end: nat, ts: seq<Target>)
    requires start <= end <= |data|
    ensures ReadTargets(data, start, end, |ts|, []) == Ok((ts, end)) <==> TargetsOK(ts) && data[start..end] == TargetsBytes(ts)
  {
    var bytes, read := TargetsBytes(ts), ReadTargets(data, start, end, |ts|, []);
    AtSlice(data, start, end, bytes);
    TargetsExact(data, start, end, [], ts);
    assert [] + ts == ts;
    assert GivesTargets(data, start, end, [], ts) <==> read.Ok? && read.value.0 == ts;
    if TargetsLaid(data, start, end, ts) && end == start + |bytes| { Whole(read, ts, end); }
  }

  lemma FrameEnd(data: seq<Byte>, crc: seq<Byte> -> Word32)
    requires |data| >= PREFIX + SUFFIX && FrameOK(data, crc)
    ensures |data| - SUFFIX < 0x1_0000_0000
  {}

  lemma ParsedIsLayout(data: seq<Byte>, crc: seq<Byte> -> Word32, c: Container)
    requires Parse(data, crc) == Ok(c)
    ensures ContainerOK(c) && data == Layout(c, crc)
  {
    ParsedParts(data, crc, c, |data| - SUFFIX);
    FramedIsLayout(data, crc, c, |data| - SUFFIX);
  }

  lemma FramedIsLayout(data: seq<Byte>, crc: seq<Byte> -> Word32, c: Container, end: nat)
    requires |data| == end + SUFFIX >= PREFIX + SUFFIX
    requires FrameOK(data, crc) && c.device == data[end..end + 6] && ReadBody(data, end) == Ok(c.targets)
    ensures ContainerOK(c) && data == Layout(c, crc)
  {
    FrameEnd(data, crc);
    BodyExact(data, end, c.targets);
    var body := TargetsBytes(c.targets);
    assert data[PREFIX..end] == body;
    FrameExact(data, crc, c.device, |c.targets|, body);
  }

  lemma LayoutIsParsed(data: seq<Byte>, crc: seq<Byte> -> Word32, c: Container)
    requires ContainerOK(c) && data == Layout(c, crc)
    ensures Parse(data, crc) == Ok(c)
  {
    var body := TargetsBytes(c.targets);
    var end := PREFIX + |body|;
    LayoutIsFramed(data, crc, c, end);
    BodyIsRead(data, end, c.targets, body);
    ParsedParts(data, crc, c, end);
  }

  lemma LayoutIsFramed(data: seq<Byte>, crc: seq<Byte> -> Word32, c: Container, end: nat)
    requires ContainerOK(c) && data == Layout(c, crc) && end == PREFIX + |TargetsBytes(c.targets)|
    ensures |data| == end + SUFFIX >= PREFIX + TARGET_HEADER + SUFFIX && data[10] == |c.targets|
    ensures FrameOK(data, crc) && c.device == data[end..end + 6] && data[PREFIX..end] == TargetsBytes(c.targets)
  {
    SomeTarget(c.targets);
    SignedIsFramed(data, crc, c.device, |c.targets|, TargetsBytes(c.targets), end);
  }

  lemma SignedIsFramed(data: seq<Byte>, crc: seq<Byte> -> Word32, device: seq<Byte>, count: nat, body: seq<Byte>, end: nat)
    requires |device| == 6 && count < 256 && end == PREFIX + |body| < 0x1_0000_0000
    requires data == Signed(Unsigned(device, count, body), crc)
    ensures |data| == end + SUFFIX && data[10] == count
    ensures FrameOK(data, crc) && device == data[end..end + 6] && data[PREFIX..end] == body
  {
    UnsignedLength(device, count, body);
    FrameExact(data, crc, device, count, body);
  }

  lemma BodyIsRead(data: seq<Byte>, end: nat, ts: seq<Target>, body: seq<Byte>)
    requires PREFIX <= end <= |data| && data[PREFIX..end] == body && body == TargetsBytes(ts)
    requires TargetsOK(ts) && AllElements(ts) != [] && |ts| == data[10]
    ensures ReadBody(data, end) == Ok(ts)
  {
    BodyExact(data, end, ts);
  }

  lemma SomeTarget(ts: seq<Target>)
    requires TargetsOK(ts) && AllElements(ts) != []
    ensures |TargetsBytes(ts)| >= TARGET_HEADER
  {
    assert ts != [];
    TargetLength(ts[0]);
  }

  /** The length of everything accepted: prefix, target headers, element headers, payloads and suffix. */
  lemma Accounted(data: seq<Byte>, crc: seq<Byte> -> Word32, c: Container)
    requires Parse(data, crc) == Ok(c)
    ensures |data| == PREFIX + |c.targets| * TARGET_HEADER + |AllElements(c.targets)| * ELEMENT_HEADER
                      + Payload(AllElements(c.targets)) + SUFFIX
  {
    ParseExact(data, crc, c);
    UnsignedLength(c.device, |c.targets|, TargetsBytes(c.targets));
    TargetsLength(c.targets);
  }

  function Payload(es: seq<Element>): nat { if es == [] then 0 else |es[0].payload| + Payload(es[1..]) }

  lemma {:induction false} PayloadSum(es: seq<Element>, fs: seq<Element>)
    ensures Payload(es + fs) == Payload(es) + Payload(fs)
  {
    if es == [] {
      assert es + fs == fs;
    } else {
      assert (es + fs)[1..] == es[1..] + fs;
      PayloadSum(es[1..], fs);
    }
  }

  lemma {:induction false} ElementsLength(es: seq<Element>)
    ensures |ElementsBytes(es)| == |es| * ELEMENT_HEADER + Payload(es)
  {
    if es != [] { ElementsLength(es[1..]); }
  }

  lemma {:induction false} TargetsLength(ts: seq<Target>)
    requires TargetsOK(ts)
    ensures |TargetsBytes(ts)| == |ts| * TARGET_HEADER + |AllElements(ts)| * ELEMENT_HEADER + Payload(AllElements(ts))
  {
    if ts != [] {
      TargetsLength(ts[1..]);
      ElementsLength(ts[0].elements);
      TargetLength(ts[0]);
      PayloadSum(ts[0].elements, AllElements(ts[1..]));
    }
  }

  // ----- the writer -------------------------------------------------------------------------------------

  predicate Ascii(text: string) { forall i :: 0 <= i < |text| ==> text[i] as int < 128 }

  /** The 255s field: cut to 255 bytes, or filled with zeros. */
  function NameField(text: string): (name: seq<Byte>)
    requires Ascii(text)
    ensures |name| == 255
    ensures forall i :: 0 <= i < 255 && i < |text| ==> name[i] as char == text[i]
    ensures forall i :: |text| <= i < 255 ==> name[i] == 0
  {
    seq(255, i requires 0 <= i => if i < |text| then text[i] as int else 0)
  }

  function PackElement(address: Word32, image: seq<Byte>): seq<Byte> { LE(address, 4) + LE(|image|, 4) + image }

  function PackTarget(name: seq<Byte>, element: seq<Byte>): seq<Byte> {
    TARGET + [0] + LE(1, 4) + name + LE(|element|, 4) + LE(1, 4) + element
  }

  function PackPrefix(target: seq<Byte>): seq<Byte> { DFUSE + [1] + LE(|target| + PREFIX, 4) + [1] + target }

  function PackSuffix(body: seq<Byte>, pid: nat, vid: nat): seq<Byte> {
    body + LE(0xFFFF, 2) + LE(pid, 2) + LE(vid, 2) + LE(0x011A, 2) + UFD + [SUFFIX]
  }

  /** Main.convert: a value that does not fit its field is refused. */
  function Convert(address: int, image: seq<Byte>, text: string, pid: int, vid: int, crc: seq<Byte> -> Word32): Result<seq<Byte>> {
    if !(0 <= address < 0x1_0000_0000) || |image| >= 0x1_0000_0000 then Err(OutOfRange)
    else
      var element := PackElement(address, image);
      if !Ascii(text) then Err(NotAscii)
      else if |element| >= 0x1_0000_0000 then Err(OutOfRange)
      else
        var target := PackTarget(NameField(text), element);
        if |target| + PREFIX >= 0x1_0000_0000 then Err(OutOfRange)
        else if !(0 <= pid < 0x1_0000) || !(0 <= vid < 0x1_0000) then Err(OutOfRange)
        else
          var data := PackSuffix(PackPrefix(target), pid, vid);
          Ok(data + LE(0xFFFF_FFFF - crc(data), 4))
  }

  /** What it is asked to write: one target with one element. */
  function Request(address: Word32, image: seq<Byte>, name: seq<Byte>, pid: nat, vid: nat): Container {
    Container(LE(0xFFFF, 2) + LE(pid, 2) + LE(vid, 2), [Target(0, 1, name, [Element(address, image)])])
  }

  predicate Writable(address: int, image: seq<Byte>, text: string, pid: int, vid: int) {
    && 0 <= address < 0x1_0000_0000 && 0 <= pid < 0x1_0000 && 0 <= vid < 0x1_0000 && Ascii(text)
    && PREFIX + TARGET_HEADER + ELEMENT_HEADER + |image| < 0x1_0000_0000
  }

  lemma ConvertIsLayout(address: int, image: seq<Byte>, text: string, pid: int, vid: int, crc: seq<Byte> -> Word32)
    ensures Convert(address, image, text, pid, vid, crc).Ok? <==> Writable(address, image, text, pid, vid)
    ensures Writable(address, image, text, pid, vid) ==>
              Convert(address, image, text, pid, vid, crc).value == Layout(Request(address, image, NameField(text), pid, vid), crc)
  {
    if Writable(address, image, text, pid, vid) {
      var element := PackElement(address, image);
      OneElement(address, image);
      OneTarget(address, image, NameField(text));
      Frame(PackTarget(NameField(text), element), pid, vid);
    }
  }

  lemma OneElement(address: Word32, image: seq<Byte>)
    ensures ElementsBytes([Element(address, image)]) == PackElement(address, image)
  {
    var es := [Element(address, image)];
    assert es[1..] == [];
    Regroup3(LE(address, 4), LE(|image|, 4), image);
  }

  lemma OneTarget(address: Word32, image: seq<Byte>, name: seq<Byte>)
    ensures TargetsBytes([Target(0, 1, name, [Element(address, image)])]) == PackTarget(name, PackElement(address, image))
  {
    var t := Target(0, 1, name, [Element(address, image)]);
    assert [t][1..] == [];
    assert TargetsBytes([t]) == TargetBytes(t) + [];
    OneElement(address, image);
    OneHeader(name, |PackElement(address, image)|);
  }

  lemma OneHeader(name: seq<Byte>, size: nat)
    ensures HeaderBytes(0, 1, name, size, 1) == TARGET + [0] + LE(1, 4) + name + LE(size, 4) + LE(1, 4)
  {
    ConcatSix(TARGET, [0], LE(1, 4), name, LE(size, 4), LE(1, 4));
    Regroup6(TARGET, [0], LE(1, 4), name, LE(size, 4), LE(1, 4));
  }

  lemma Frame(target: seq<Byte>, pid: nat, vid: nat)
    ensures PackSuffix(PackPrefix(target), pid, vid) == Unsigned(LE(0xFFFF, 2) + LE(pid, 2) + LE(vid, 2), 1, target)
  {
    assert LE(1, 1) == [1];
    RegroupFrame(DFUSE, [1], LE(|target| + PREFIX, 4), [1], target, LE(0xFFFF, 2), LE(pid, 2), LE(vid, 2), LE(0x011A, 2), UFD, [SUFFIX]);
  }

  lemma Regroup3(a: seq<Byte>, b: seq<Byte>, c: seq<Byte>)
    ensures a + b + c == a + (b + c)
  {}

  lemma Regroup6(a: seq<Byte>, b: seq<Byte>, c: seq<Byte>, d: seq<Byte>, e: seq<Byte>, f: seq<Byte>)
    ensures a + b + c + d + e + f == a + (b + (c + (d + (e + f))))
  {
    Regroup3(a, b, c);
    Regroup3(a + b + c, d, e);
    Regroup3(a + b + c, d + e, f);
    Regroup3(d, e, f);
    Regroup3(a, b + c, d + (e + f));
    Regroup3(b, c, d + (e + f));
  }

  lemma RegroupFrame(a: seq<Byte>, b: seq<Byte>, c: seq<Byte>, d: seq<Byte>, e: seq<Byte>, f: seq<Byte>,
                     g: seq<Byte>, h: seq<Byte>, i: seq<Byte>, j: seq<Byte>, k: seq<Byte>)
    ensures a + b + c + d + e + f + g + h + i + j + k == a + (b + (c + (d + (e + ((f + g + h) + (i + (j + k)))))))
  {
    Regroup6(a, b, c, d, e, (f + g + h) + (i + (j + k)));
    var head := a + b + c + d + e;
    Regroup3(head, f, g);
    Regroup3(head, f + g, h);
    Regroup3(head + (f + g + h), i, j);
    Regroup3(head + (f + g + h), i + j, k);
    Regroup3(i, j, k);
    Regroup3(head, f + g + h, i + (j + k));
  }

  /** The stored checksum is the bitwise complement of the CRC. */
  lemma ChecksumComplements(crc: seq<Byte> -> Word32, data: seq<Byte>)
    ensures Xor(crc(data), 0xFFFF_FFFF) == Checksum(crc, data)
  {
    assert Pow2(32) == 0x1_0000_0000 by { assert Pow2(8) == 256; assert Pow2(16) == 65536; assert Pow2(24) == 0x100_0000; }
    XorComplement(crc(data), 32);
  }

  /** Where everything stands in what is written: prefix, target header, element header, image, and the suffix with its
      fields in the order of the specification. */
  ghost predicate Written(x: seq<Byte>, address: int, image: seq<Byte>, name: seq<Byte>, pid: int, vid: int, crc: seq<Byte> -> Word32) {
    var end := 293 + |image|;
    && |x| == end + 16
    && x[..5] == DFUSE && x[5] == 1 && Word4(x, 6) == end && x[10] == 1
    && x[11..17] == TARGET && x[17] == 0 && Word4(x, 18) == 1 && x[22..277] == name && Word4(x, 277) == |image| + 8 && Word4(x, 281) == 1
    && Word4(x, 285) == address && Word4(x, 289) == |image| && x[293..end] == image
    && Word(x[end..end + 2]) == 0xFFFF && Word(x[end + 2..end + 4]) == pid && Word(x[end + 4..end + 6]) == vid
    && Word(x[end + 6..end + 8]) == 0x011A && x[end + 8..end + 11] == UFD && x[end + 11] == 16
    && Word4(x, end + 12) == Xor(crc(x[..end + 12]), 0xFFFF_FFFF)
  }

  lemma ConvertWrites(address: int, image: seq<Byte>, text: string, pid: int, vid: int, crc: seq<Byte> -> Word32)
    requires Writable(address, image, text, pid, vid)
    ensures var written := Convert(address, image, text, pid, vid, crc);
            written.Ok? && Written(written.value, address, image, NameField(text), pid, vid, crc)
  {
    var name := NameField(text);
    var c := Request(address, image, name, pid, vid);
    var x := Layout(c, crc);
    ConvertIsLayout(address, image, text, pid, vid, crc);
    WrittenFrame(x, address, image, name, pid, vid, crc);
    WrittenTarget(x, address, image, name);
    WrittenDevice(x, 293 + |image|, pid, vid);
    ChecksumComplements(crc, x[..|x| - 4]);
  }

  lemma WrittenFrame(x: seq<Byte>, address: Word32, image: seq<Byte>, name: seq<Byte>, pid: nat, vid: nat, crc: seq<Byte> -> Word32)
    requires x == Layout(Request(address, image, name, pid, vid), crc) && |name| == 255 && |image| + 293 < 0x1_0000_0000
    ensures |x| == 309 + |image| && FrameOK(x, crc) && x[10] == 1
    ensures x[11..293 + |image|] == PackTarget(name, PackElement(address, image))
    ensures x[293 + |image|..299 + |image|] == LE(0xFFFF, 2) + LE(pid, 2) + LE(vid, 2)
  {
    var c := Request(address, image, name, pid, vid);
    OneTarget(address, image, name);
    var body := TargetsBytes(c.targets);
    assert |body| == 282 + |image|;
    UnsignedLength(c.device, 1, body);
    FrameExact(x, crc, c.device, 1, body);
  }

  lemma WrittenTarget(x: seq<Byte>, address: Word32, image: seq<Byte>, name: seq<Byte>)
    requires |x| >= 293 + |image| && x[11..293 + |image|] == PackTarget(name, PackElement(address, image))
    requires |name| == 255 && |image| + 8 < 0x1_0000_0000
    ensures HeaderRead(x, 11, Target(0, 1, name, [Element(address, image)]), |image| + 8, 1)
    ensures Word4(x, 285) == address && Word4(x, 289) == |image| && x[293..293 + |image|] == image
  {
    var e := Element(address, image);
    var t := Target(0, 1, name, [e]);
    var element := PackElement(address, image);
    OneHeader(name, |element|);
    HeaderLength(t, |element|, 1);
    AtSlice(x, 11, 293 + |image|, PackTarget(name, element));
    AtParts(x, 11, PackTarget(name, element), HeaderBytes(0, 1, name, |element|, 1), element);
    HeaderExact(x, 11, t, |element|, 1);
    Regroup3(LE(address, 4), LE(|image|, 4), image);
    ElementFields(x, 285, e);
  }

  lemma WrittenDevice(x: seq<Byte>, end: nat, pid: nat, vid: nat)
    requires |x| >= end + 6 && pid < 0x1_0000 && vid < 0x1_0000
    requires x[end..end + 6] == LE(0xFFFF, 2) + LE(pid, 2) + LE(vid, 2)
    ensures Word(x[end..end + 2]) == 0xFFFF && Word(x[end + 2..end + 4]) == pid && Word(x[end + 4..end + 6]) == vid
  {
    Widths();
    AtSlice(x, end, end + 6, LE(0xFFFF, 2) + LE(pid, 2) + LE(vid, 2));
    AtBoth(x, end, LE(0xFFFF, 2) + LE(pid, 2), LE(vid, 2));
    AtBoth(x, end, LE(0xFFFF, 2), LE(pid, 2));
    AtWord(x, end, 0xFFFF, 2);
    AtWord(x, end + 2, pid, 2);
    AtWord(x, end + 4, vid, 2);
  }

  /** What is written from a non-empty image parses to exactly its one address and length. */
  lemma WriterRoundTrip(address: int, image: seq<Byte>, text: string, pid: int, vid: int, crc: seq<Byte> -> Word32)
    requires Writable(address, image, text, pid, vid) && image != []
    ensures var written := Convert(address, image, text, pid, vid, crc);
            && written.Ok?
            && Parse(written.value, crc) == Ok(Request(address, image, NameField(text), pid, vid))
            && Elements(written.value, crc) == Ok([Extent(address, |image|)])
  {
    ConvertIsLayout(address, image, text, pid, vid, crc);
    var c := Request(address, image, NameField(text), pid, vid);
    var t := c.targets[0];
    OneElement(address, image);
    OneTarget(address, image, t.name);
    assert AllElements(c.targets) == t.elements by { assert c.targets[1..] == []; }
    assert ContainerOK(c);
    ParseExact(Layout(c, crc), crc, c);
    assert Extents(t.elements) == [Extent(address, |image|)];
  }

  /** An empty image is written too, but what is written does not parse: the writer's output is accepted exactly when
      the image is not empty. */
  lemma WriterAccepted(address: int, image: seq<Byte>, text: string, pid: int, vid: int, crc: seq<Byte> -> Word32)
    requires Writable(address, image, text, pid, vid)
    ensures var written := Convert(address, image, text, pid, vid, crc);
            written.Ok? && (Parse(written.value, crc).Ok? <==> image != [])
  {
    if image != [] {
      WriterRoundTrip(address, image, text, pid, vid, crc);
    } else {
      ConvertIsLayout(address, image, text, pid, vid, crc);
      EmptyRefused(Request(address, image, NameField(text), pid, vid), crc);
    }
  }

  lemma EmptyRefused(c: Container, crc: seq<Byte> -> Word32)
    requires |c.device| == 6 && |c.targets| == 1 && |c.targets[0].elements| == 1 && c.targets[0].elements[0].payload == []
    requires |c.targets[0].name| == 255
    ensures Parse(Layout(c, crc), crc).Err?
  {
    var data := Layout(c, crc);
    var t := c.targets[0];
    var e := t.elements[0];
    assert c.targets == [t] && t.elements == [e] && [t][1..] == [] && [e][1..] == [];
    assert TargetsBytes(c.targets) == TargetBytes(t) + [] && ElementsBytes(t.elements) == ElementBytes(e) + [];
    EmptyPlaced(data, c, crc, t, e);
    if Parse(data, crc).Ok? {
      var got := Parse(data, crc).value;
      ParsedParts(data, crc, got, |data| - SUFFIX);
      BodyExact(data, |data| - SUFFIX, got.targets);
      EmptyStops(data, |data| - SUFFIX);
    }
  }

  /** The counts and the size that the parser meets on its way to the empty payload. */
  lemma EmptyPlaced(data: seq<Byte>, c: Container, crc: seq<Byte> -> Word32, t: Target, e: Element)
    requires data == Layout(c, crc) && |c.device| == 6 && |t.name| == 255 && e.payload == [] && |t.elements| == 1 && |c.targets| == 1
    requires TargetsBytes(c.targets) == TargetBytes(t) && ElementsBytes(t.elements) == ElementBytes(e)
    ensures |data| == PREFIX + TARGET_HEADER + ELEMENT_HEADER + SUFFIX && data[10] == 1
    ensures Word4(data, 281) == 1 && Word4(data, 289) == 0
  {
    TargetLength(t);
    UnsignedLength(c.device, 1, TargetBytes(t));
    FrameExact(data, crc, c.device, 1, TargetBytes(t));
    EmptyTarget(data, t, e);
  }

  lemma EmptyTarget(data: seq<Byte>, t: Target, e: Element)
    requires |data| >= PREFIX + TARGET_HEADER + ELEMENT_HEADER && At(data, PREFIX, TargetBytes(t))
    requires |t.name| == 255 && e.payload == [] && |t.elements| == 1 && ElementsBytes(t.elements) == ElementBytes(e)
    ensures Word4(data, 281) == 1 && Word4(data, 289) == 0
  {
    ElementFields(data, 285, e);
    HeaderLength(t, ELEMENT_HEADER, 1);
    AtParts(data, PREFIX, TargetBytes(t), HeaderBytes(t.alternate, t.named, t.name, ELEMENT_HEADER, 1), ElementBytes(e));
    HeaderExact(data, PREFIX, t, ELEMENT_HEADER, 1);
  }

  lemma EmptyStops(data: seq<Byte>, end: nat)
    requires end == PREFIX + TARGET_HEADER + ELEMENT_HEADER && |data| == end + SUFFIX
    requires data[10] == 1 && Word4(data, 281) == 1 && Word4(data, 289) == 0
    ensures ReadBody(data, end).Err?
  {
    assert forall limit | 285 <= limit <= end :: ReadElement(data, 285, limit).Err?;
    assert forall limit | 285 <= limit <= end :: ReadElements(data, 285, limit, 1, []).Err?;
    assert ReadTarget(data, PREFIX, end).Err?;
    assert ReadTargets(data, PREFIX, end, 1, []).Err?;
  }

  // ----- the loops of the parser -------------------------------------------------------------------------

  /** parse_dfuse_elements */
  method ParseElements(data: seq<Byte>, crc: seq<Byte> -> Word32) returns (result: Result<seq<Extent>>)
    ensures result == Elements(data, crc)
  {
    if |data| < PREFIX + TARGET_HEADER + SUFFIX { return Err(Truncated); }
    var end := |data| - SUFFIX;
    if !PrefixOK(data, end) { return Err(InvalidPrefix); }
    if !SuffixOK(data, end, crc) { return Err(InvalidSuffix); }
    var body := ParseBody(data, end);
    return body;
  }

  /** Its check of what the targets leave. */
  method ParseBody(data: seq<Byte>, end: nat) returns (result: Result<seq<Extent>>)
    requires PREFIX <= end <= |data|
    ensures ReadBody(data, end).Err? ==> result == Err(ReadBody(data, end).error)
    ensures ReadBody(data, end).Ok? ==> result == Ok(Extents(AllElements(ReadBody(data, end).value)))
  {
    var body := ParseTargets(data, PREFIX, end, data[10]);
    if body.Err? { return Err(body.error); }
    if body.value.1 != end || body.value.0 == [] { return Err(InvalidSize); }
    result := Ok(body.value.0);
  }

  /** Its loop over the targets. */
  method ParseTargets(data: seq<Byte>, start: nat, limit: nat, count: nat) returns (result: Result<(seq<Extent>, nat)>)
    requires start <= limit <= |data|
    ensures ReadTargets(data, start, limit, count, []).Err? ==> result == Err(ReadTargets(data, start, limit, count, []).error)
    ensures ReadTargets(data, start, limit, count, []).Ok? ==>
              var (ts, next) := ReadTargets(data, start, limit, count, []).value; result == Ok((Extents(AllElements(ts)), next))
  {
    var elements: seq<Extent> := [];
    var offset := start;
    ghost var ts: seq<Target> := [];
    for i := 0 to count
      invariant start <= offset <= limit && elements == Extents(AllElements(ts))
      invariant ReadTargets(data, start, limit, count, []) == ReadTargets(data, offset, limit, count - i, ts)
    {
      ghost var read := ReadTarget(data, offset, limit);
      var one := ParseTarget(data, offset, limit);
      if one.Err? { return Err(one.error); }
      OneMore(ts, read.value.0);
      ts := ts + [read.value.0];
      elements := elements + one.value.0;
      offset := one.value.1;
    }
    result := Ok((elements, offset));
  }

  lemma OneMore(ts: seq<Target>, t: Target)
    ensures Extents(AllElements(ts + [t])) == Extents(AllElements(ts)) + Extents(t.elements)
  {
    AllElementsAppend(ts, t);
    ExtentsAppend(AllElements(ts), t.elements);
  }

  /** One turn of it. */
  method ParseTarget(data: seq<Byte>, offset: nat, limit: nat) returns (result: Result<(seq<Extent>, nat)>)
    requires limit <= |data|
    ensures ReadTarget(data, offset, limit).Err? ==> result == Err(ReadTarget(data, offset, limit).error)
    ensures ReadTarget(data, offset, limit).Ok? ==>
              var (t, next) := ReadTarget(data, offset, limit).value; result == Ok((Extents(t.elements), next))
  {
    if offset + TARGET_HEADER > limit { return Err(TruncatedTarget); }
    if data[offset..offset + 6] != TARGET { return Err(InvalidTarget); }
    var start := offset + TARGET_HEADER;
    var end := start + Word4(data, offset + 266);
    if end > limit { return Err(TargetTooLong); }
    var body := ParseTargetElements(data, start, end, Word4(data, offset + 270));
    if body.Err? { return Err(body.error); }
    if body.value.1 != end { return Err(TargetSizeMismatch); }
    result := Ok((body.value.0, end));
  }

  /** The loop over the elements of a target. */
  method ParseTargetElements(data: seq<Byte>, start: nat, limit: nat, count: nat) returns (result: Result<(seq<Extent>, nat)>)
    requires start <= limit <= |data|
    ensures ReadElements(data, start, limit, count, []).Err? ==> result == Err(ReadElements(data, start, limit, count, []).error)
    ensures ReadElements(data, start, limit, count, []).Ok? ==>
              var (es, next) := ReadElements(data, start, limit, count, []).value; result == Ok((Extents(es), next))
  {
    var elements: seq<Extent> := [];
    var offset := start;
    ghost var es: seq<Element> := [];
    for i := 0 to count
      invariant start <= offset <= limit && elements == Extents(es)
      invariant ReadElements(data, start, limit, count, []) == ReadElements(data, offset, limit, count - i, es)
    {
      ghost var read := ReadElement(data, offset, limit);
      if offset + ELEMENT_HEADER > limit { return Err(TruncatedElement); }
      var address, size := Word4(data, offset), Word4(data, offset + 4);
      offset := offset + ELEMENT_HEADER;
      if size == 0 || offset + size > limit { return Err(InvalidPayload); }
      ExtentsAppend(es, [read.value.0]);
      assert Extents([read.value.0]) == [Extent(address, size)];
      es := es + [read.value.0];
      elements := elements + [Extent(address, size)];
      offset := offset + size;
    }
    result := Ok((elements, offset));
  }

  lemma {:induction false} ExtentsAppend(es: seq<Element>, fs: seq<Element>)
    ensures Extents(es + fs) == Extents(es) + Extents(fs)
  {
    if es == [] {
      assert es + fs == fs;
    } else {
      assert (es + fs)[1..] == es[1..] + fs;
      ExtentsAppend(es[1..], fs);
    }
  }

  lemma {:induction false} AllElementsAppend(ts: seq<Target>, t: Target)
    ensures AllElements(ts + [t]) == AllElements(ts) + t.elements
  {
    if ts == [] {
      assert (ts + [t])[1..] == [];
    } else {
      assert (ts + [t])[1..] == ts[1..] + [t];
      AllElementsAppend(ts[1..], t);
    }
  }

  /** dfuse_flash_extent: how far above the image base the last payload ends. */
  method FlashExtent(data: seq<Byte>, base: int, crc: seq<Byte> -> Word32) returns (result: Result<int>)
    ensures Elements(data, crc).Err? ==> result == Err(Elements(data, crc).error)
    ensures Elements(data, crc).Ok? ==>
              var es := Elements(data, crc).value;
              && (result.Ok? <==> forall i :: 0 <= i < |es| ==> es[i].address >= base)
              && (result.Err? ==> result.error == BelowBase)
              && (result.Ok? ==>
                    && (forall i :: 0 <= i < |es| ==> base <= es[i].address && es[i].address + es[i].size <= base + result.value)
                    && (exists i :: 0 <= i < |es| && es[i].address + es[i].size == base + result.value))
  {
    var parsed := ParseElements(data, crc);
    if parsed.Err? { return Err(parsed.error); }
    var es := parsed.value;
    if exists i :: 0 <= i < |es| && es[i].address < base { return Err(BelowBase); }
    SomeElement(data, crc);
    var most := LastEnd(es);
    result := Ok(most - base);
  }

  /** max over the ends of the payloads. */
  method LastEnd(es: seq<Extent>) returns (most: int)
    requires es != []
    ensures forall i :: 0 <= i < |es| ==> es[i].address + es[i].size <= most
    ensures exists i :: 0 <= i < |es| && es[i].address + es[i].size == most
  {
    most := es[0].address + es[0].size;
    ghost var at := 0;
    for i := 1 to |es|
      invariant 0 <= at < |es| && most == es[at].address + es[at].size
      invariant forall j :: 0 <= j < i ==> es[j].address + es[j].size <= most
    {
      if es[i].address + es[i].size > most {
        most := es[i].address + es[i].size;
        at := i;
      }
    }
  }

  lemma SomeElement(data: seq<Byte>, crc: seq<Byte> -> Word32)
    requires Elements(data, crc).Ok?
    ensures Elements(data, crc).value != []
  {
    ParseExact(data, crc, Parse(data, crc).value);
  }
}
