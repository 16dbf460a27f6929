/** The command registry of scripts/marauder_registry.py: its checks, its serializer and its parser. */
module Registry {
  import opened Bytes

  type Text = seq<Byte>     // a string, as its UTF-8 bytes

  const MAGIC: seq<Byte> := [80, 77, 82, 49]            // "PMR1"
  const ARGUMENT: seq<Byte> := [123, 97, 114, 103, 125] // "{arg}"

  datatype Capability = Observe | Control | Active | Admin

  datatype Command = Command(id: Text, title: Text, command: Text, capability: Capability,
                             argumentRequired: bool, producesCapture: bool)

  datatype Error =
    | EmptyRegistry | InvalidField | FieldTooLong | DuplicateId | ArgumentMismatch
    | TooManyCommands | CompressedTooLong
    | InvalidHeader | LengthMismatch | DecompressionFailed | InvalidMagic
    | TruncatedMetadata | InvalidMetadata | TruncatedLength | TruncatedString | InvalidUtf8 | NotTerminated | TrailingBytes

  datatype Result<T> = Ok(value: T) | Err(error: Error)

  // ----- text --------------------------------------------------------------------------

  predicate Tail(b: Byte) { 0x80 <= b < 0xC0 }

  /** The length of the UTF-8 sequence that `s` begins with, 0 if it begins with none. */
  function Utf8Head(s: seq<Byte>): (n: nat)
    ensures n <= |s|
  {
    if s == [] then 0
    else if s[0] < 0x80 then 1
    else if |s| >= 2 && 0xC2 <= s[0] < 0xE0 && Tail(s[1]) then 2
    else if |s| >= 3 && 0xE0 <= s[0] < 0xF0 && Tail(s[1]) && Tail(s[2])
         && (s[0] == 0xE0 ==> s[1] >= 0xA0) && (s[0] == 0xED ==> s[1] < 0xA0) then 3
    else if |s| >= 4 && 0xF0 <= s[0] < 0xF5 && Tail(s[1]) && Tail(s[2]) && Tail(s[3])
         && (s[0] == 0xF0 ==> s[1] >= 0x90) && (s[0] == 0xF4 ==> s[1] < 0x90) then 4
    else 0
  }

  /** The bytes are the UTF-8 form of a string (section 4 of RFC 3629). */
  predicate IsUtf8(s: seq<Byte>) {
    s == [] || (Utf8Head(s) > 0 && IsUtf8(s[Utf8Head(s)..]))
  }

  /** A Unicode scalar value: no surrogate. */
  type Scalar = c: int | 0 <= c < 0x11_0000 && !(0xD800 <= c < 0xE000)

  /** Its UTF-8 form (section 3 of RFC 3629). */
  function Utf8(c: Scalar): (s: seq<Byte>)
    ensures 1 <= |s| <= 4
  {
    if c < 0x80 then [c]
    else if c < 0x800 then [0xC0 + c / 64, 0x80 + c % 64]
    else if c < 0x1_0000 then [0xE0 + c / 4096, 0x80 + c / 64 % 64, 0x80 + c % 64]
    else [0xF0 + c / 0x4_0000, 0x80 + c / 4096 % 64, 0x80 + c / 64 % 64, 0x80 + c % 64]
  }

  function Utf8All(cs: seq<Scalar>): seq<Byte> { if cs == [] then [] else Utf8(cs[0]) + Utf8All(cs[1..]) }

  lemma ScalarHead(c: Scalar, rest: seq<Byte>)
    ensures Utf8Head(Utf8(c) + rest) == |Utf8(c)|
  {}

  lemma HeadScalar(s: seq<Byte>) returns (c: Scalar)
    requires Utf8Head(s) > 0
    ensures s[..Utf8Head(s)] == Utf8(c)
  {
    var n := Utf8Head(s);
    if n == 1 {
      c := s[0];
    } else if n == 2 {
      c := TwoBytes(s[0], s[1]);
    } else if n == 3 {
      c := ThreeBytes(s[0], s[1], s[2]);
    } else {
      c := FourBytes(s[0], s[1], s[2], s[3]);
    }
  }

  lemma TwoBytes(a: int, b: int) returns (c: Scalar)
    requires 0xC2 <= a < 0xE0 && 0x80 <= b < 0xC0
    ensures Utf8(c) == [a, b]
  {
    c := (a - 0xC0) * 64 + (b - 0x80);
  }

  lemma ThreeBytes(a: int, b: int, d: int) returns (c: Scalar)
    requires 0xE0 <= a < 0xF0 && 0x80 <= b < 0xC0 && 0x80 <= d < 0xC0
    requires (a == 0xE0 ==> b >= 0xA0) && (a == 0xED ==> b < 0xA0)
    ensures Utf8(c) == [a, b, d]
  {
    var high := (a - 0xE0) * 64 + (b - 0x80);
    c := high * 64 + (d - 0x80);
    Digits(high, d - 0x80);
    assert c / 4096 == high / 64 == a - 0xE0;
  }

  lemma FourBytes(a: int, b: int, d: int, e: int) returns (c: Scalar)
    requires 0xF0 <= a < 0xF5 && 0x80 <= b < 0xC0 && 0x80 <= d < 0xC0 && 0x80 <= e < 0xC0
    requires (a == 0xF0 ==> b >= 0x90) && (a == 0xF4 ==> b < 0x90)
    ensures Utf8(c) == [a, b, d, e]
  {
    var top := (a - 0xF0) * 64 + (b - 0x80);
    var high := top * 64 + (d - 0x80);
    c := high * 64 + (e - 0x80);
    Digits(top, d - 0x80);
    Digits(high, e - 0x80);
    assert c / 4096 == high / 64 == top;
    assert c / 0x4_0000 == top / 64 == a - 0xF0;
  }

  lemma Digits(high: nat, low: nat)
    requires low < 64
    ensures (high * 64 + low) / 64 == high && (high * 64 + low) % 64 == low
  {}

  /** The bytes are accepted as text exactly when they are the UTF-8 form of a string of scalar values. */
  lemma Utf8Exact(s: seq<Byte>)
    ensures IsUtf8(s) <==> exists cs :: Utf8All(cs) == s
  {
    if IsUtf8(s) { var cs := Decoded(s); }
    forall cs | Utf8All(cs) == s ensures IsUtf8(s) { EncodedIsUtf8(cs); }
  }

  lemma {:induction false} Decoded(s: seq<Byte>) returns (cs: seq<Scalar>)
    requires IsUtf8(s)
    ensures Utf8All(cs) == s
    decreases |s|
  {
    if s == [] {
      cs := [];
    } else {
      var c := HeadScalar(s);
      var rest := Decoded(s[Utf8Head(s)..]);
      cs := [c] + rest;
      assert cs[1..] == rest;
      assert s == s[..Utf8Head(s)] + s[Utf8Head(s)..];
    }
  }

  lemma {:induction false} EncodedIsUtf8(cs: seq<Scalar>)
    ensures IsUtf8(Utf8All(cs))
    decreases |cs|
  {
    if cs != [] {
      ScalarHead(cs[0], Utf8All(cs[1..]));
      EncodedIsUtf8(cs[1..]);
      assert Utf8All(cs)[|Utf8(cs[0])|..] == Utf8All(cs[1..]);
    }
  }

  predicate HasArgument(text: Text) { exists i :: 0 <= i < |text| && At(text, i, ARGUMENT) }

  /** It is that: the characters {arg} stand somewhere in the text. */
  lemma HasArgumentExact(text: Text)
    ensures HasArgument(text) <==> exists a, b :: text == a + [123, 97, 114, 103, 125] + b
  {
    if HasArgument(text) {
      var i :| 0 <= i < |text| && At(text, i, ARGUMENT);
      assert text == text[..i] + text[i..i + 5] + text[i + 5..];
    }
    if a, b :| text == a + [123, 97, 114, 103, 125] + b {
      assert text[|a|..|a| + 5] == ARGUMENT;
      assert At(text, |a|, ARGUMENT);
    }
  }

  // ----- validate_commands ----------------------------------------------------------------

  /** A field that can be stored: not empty, no NUL, at most 255 bytes. */
  predicate FieldOK(v: Text) { v != [] && 0 !in v && |v| <= 255 }

  predicate CommandOK(c: Command) {
    && FieldOK(c.id) && FieldOK(c.title) && FieldOK(c.command)
    && IsUtf8(c.id) && IsUtf8(c.title) && IsUtf8(c.command)
    && (HasArgument(c.command) <==> c.argumentRequired)
  }

  /** What the checks are for: some commands, each one storable, with ids that are not used twice. */
  ghost predicate Valid(cs: seq<Command>) {
    && cs != []
    && (forall i :: 0 <= i < |cs| ==> CommandOK(cs[i]))
    && (forall i, j :: 0 <= i < j < |cs| ==> cs[i].id != cs[j].id)
  }

  /** Every string of the list is one: what a `str` gives for free. */
  ghost predicate Strings(cs: seq<Command>) {
    forall i :: 0 <= i < |cs| ==> IsUtf8(cs[i].id) && IsUtf8(cs[i].title) && IsUtf8(cs[i].command)
  }

  function FieldFault(v: Text): Result<()> {
    if v == [] || 0 in v then Err(InvalidField) else if |v| > 255 then Err(FieldTooLong) else Ok(())
  }

  function CommandFault(c: Command, seen: set<Text>): Result<()> {
    if FieldFault(c.id).Err? then FieldFault(c.id)
    else if FieldFault(c.title).Err? then FieldFault(c.title)
    else if FieldFault(c.command).Err? then FieldFault(c.command)
    else if c.id in seen then Err(DuplicateId)
    else if HasArgument(c.command) != c.argumentRequired then Err(ArgumentMismatch)
    else Ok(())
  }

  /** The first fault in the list. */
  function Fault(cs: seq<Command>, seen: set<Text>): Result<()> {
    if cs == [] then Ok(())
    else if CommandFault(cs[0], seen).Err? then CommandFault(cs[0], seen)
    else Fault(cs[1..], seen + {cs[0].id})
  }

  function Checked(cs: seq<Command>): Result<()> { if cs == [] then Err(EmptyRegistry) else Fault(cs, {}) }

  lemma {:induction false} FaultExact(cs: seq<Command>, seen: set<Text>)
    requires Strings(cs)
    ensures Fault(cs, seen).Ok? <==>
              && (forall i :: 0 <= i < |cs| ==> CommandOK(cs[i]) && cs[i].id !in seen)
              && (forall i, j :: 0 <= i < j < |cs| ==> cs[i].id != cs[j].id)
  {
    if cs != [] {
      var rest := cs[1..];
      assert forall i :: 0 <= i < |rest| ==> rest[i] == cs[i + 1];
      FaultExact(rest, seen + {cs[0].id});
      if Fault(cs, seen).Ok? {
        forall i | 0 <= i < |cs| ensures CommandOK(cs[i]) && cs[i].id !in seen {
          if i > 0 { assert cs[i] == rest[i - 1]; }
        }
        forall i, j | 0 <= i < j < |cs| ensures cs[i].id != cs[j].id {
          assert cs[j] == rest[j - 1];
          if i > 0 { assert cs[i] == rest[i - 1]; }
        }
      }
    }
  }

  /** The checks let through exactly the valid lists. */
  lemma ChecksAreValid(cs: seq<Command>)
    requires Strings(cs)
    ensures Checked(cs).Ok? <==> Valid(cs)
  {
    FaultExact(cs, {});
  }

  /** validate_commands */
  method ValidateCommands(cs: seq<Command>) returns (result: Result<()>)
    ensures result == Checked(cs)
    ensures Strings(cs) ==> (result.Ok? <==> Valid(cs))
  {
    if Strings(cs) { ChecksAreValid(cs); }
    if cs == [] { return Err(EmptyRegistry); }
    var seen: set<Text> := {};
    for i := 0 to |cs|
      invariant Fault(cs, {}) == Fault(cs[i..], seen)
    {
      var c := cs[i];
      assert cs[i..][0] == c && cs[i..][1..] == cs[i + 1..];
      var fields := [c.id, c.title, c.command];
      for f := 0 to 3
        invariant f >= 1 ==> FieldFault(c.id).Ok?
        invariant f >= 2 ==> FieldFault(c.title).Ok?
        invariant f >= 3 ==> FieldFault(c.command).Ok?
      {
        if fields[f] == [] || 0 in fields[f] { return Err(InvalidField); }
        if |fields[f]| > 255 { return Err(FieldTooLong); }
      }
      if c.id in seen { return Err(DuplicateId); }
      seen := seen + {c.id};
      if HasArgument(c.command) != c.argumentRequired { return Err(ArgumentMismatch); }
    }
    result := Ok(());
  }

  // ----- serialize_registry -----------------------------------------------------------------

  function CapabilityCode(c: Capability): Byte {
    match c case Observe => 0 case Control => 1 case Active => 2 case Admin => 3
  }

  function Flags(c: Command): Byte {
    (if c.argumentRequired then 1 else 0) + (if c.producesCapture then 2 else 0)
  }

  function Field(v: Text): seq<Byte>
    requires |v| <= 255
  {
    [|v|] + v + [0]
  }

  function Fields(vs: seq<Text>): seq<Byte>
    requires forall i :: 0 <= i < |vs| ==> |vs[i]| <= 255
  {
    if vs == [] then [] else Field(vs[0]) + Fields(vs[1..])
  }

  predicate Short(c: Command) { |c.id| <= 255 && |c.title| <= 255 && |c.command| <= 255 }

  function Entry(c: Command): seq<Byte>
    requires Short(c)
  {
    [CapabilityCode(c.capability), Flags(c)] + Fields([c.id, c.title, c.command])
  }

  function Entries(cs: seq<Command>): seq<Byte>
    requires forall i :: 0 <= i < |cs| ==> Short(cs[i])
  {
    if cs == [] then [] else Entry(cs[0]) + Entries(cs[1..])
  }

  /** The layout of a registry. */
  function Layout(cs: seq<Command>): seq<Byte>
    requires forall i :: 0 <= i < |cs| ==> Short(cs[i])
  {
    MAGIC + LE(|cs|, 2) + Entries(cs)
  }

  lemma {:induction false} EntriesAppend(cs: seq<Command>, c: Command)
    requires (forall i :: 0 <= i < |cs| ==> Short(cs[i])) && Short(c)
    ensures Entries(cs + [c]) == Entries(cs) + Entry(c)
  {
    if cs == [] {
      assert (cs + [c])[1..] == [];
    } else {
      assert (cs + [c])[1..] == cs[1..] + [c];
      EntriesAppend(cs[1..], c);
    }
  }

  lemma ThreeFields(c: Command)
    requires Short(c)
    ensures Fields([c.id, c.title, c.command]) == Field(c.id) + Field(c.title) + Field(c.command)
  {
    var rest := [c.title, c.command];
    assert [c.id, c.title, c.command][1..] == rest && rest[1..] == [c.command] && [c.command][1..] == [];
    assert Fields([c.command]) == Field(c.command);
    assert Fields([c.title, c.command]) == Field(c.title) + Fields([c.command]);
  }

  /** The two bytes in front of the strings: the capability by its rank, and a bit for each flag. */
  lemma Metadata(c: Command)
    requires Short(c)
    ensures |Entry(c)| >= 2 && Entry(c)[0] < 4 && [Observe, Control, Active, Admin][Entry(c)[0]] == c.capability
    ensures Entry(c)[1] < 4 && (Entry(c)[1] % 2 == 1 <==> c.argumentRequired) && (Entry(c)[1] / 2 == 1 <==> c.producesCapture)
  {}

  /** A registry of one command, byte by byte. */
  lemma SampleBytes(c: Command)
    requires c == Command([97], [98, 99], [100], Active, false, true)
    ensures Short(c) && Layout([c]) == [80, 77, 82, 49, 1, 0, 2, 2, 1, 97, 0, 2, 98, 99, 0, 1, 100, 0]
  {
    SampleEntry(c);
    assert [c][1..] == [];
    assert Entries([c]) == Entry(c) + [];
    assert LE(1, 2) == [1, 0];
    assert MAGIC + [1, 0] == [80, 77, 82, 49, 1, 0];
  }

  lemma SampleEntry(c: Command)
    requires c == Command([97], [98, 99], [100], Active, false, true)
    ensures Short(c) && Entry(c) == [2, 2, 1, 97, 0, 2, 98, 99, 0, 1, 100, 0]
  {
    ThreeFields(c);
    assert Field(c.id) == [1, 97, 0];
    assert Field(c.title) == [2, 98, 99, 0];
    assert Field(c.command) == [1, 100, 0];
  }

  /** serialize_registry */
  method SerializeRegistry(cs: seq<Command>) returns (result: Result<seq<Byte>>)
    requires Strings(cs)
    ensures result.Ok? <==> Valid(cs) && |cs| <= 65535
    ensures result.Ok? ==> (forall i :: 0 <= i < |cs| ==> Short(cs[i])) && result.value == Layout(cs)
    ensures result.Err? ==> result.error == if Checked(cs).Err? then Checked(cs).error else TooManyCommands
  {
    var checked := ValidateCommands(cs);
    if checked.Err? { return Err(checked.error); }
    if |cs| > 65535 { return Err(TooManyCommands); }
    assert forall i :: 0 <= i < |cs| ==> CommandOK(cs[i]) && Short(cs[i]);
    var body := SerializeEntries(MAGIC + LE(|cs|, 2), cs);
    result := Ok(body);
  }

  /** Its loop over the commands. */
  method SerializeEntries(start: seq<Byte>, cs: seq<Command>) returns (output: seq<Byte>)
    requires forall i :: 0 <= i < |cs| ==> Short(cs[i])
    ensures output == start + Entries(cs)
  {
    output := start;
    for i := 0 to |cs|
      invariant output == start + Entries(cs[..i])
    {
      EntriesAppend(cs[..i], cs[i]);
      assert cs[..i] + [cs[i]] == cs[..i + 1];
      output := AppendEntry(output, cs[i]);
    }
    assert cs[..|cs|] == cs;
  }

  /** One turn of its loop. */
  method AppendEntry(start: seq<Byte>, c: Command) returns (output: seq<Byte>)
    requires Short(c)
    ensures output == start + Entry(c)
  {
    output := start + [CapabilityCode(c.capability), Flags(c)];
    var fields := [c.id, c.title, c.command];
    ghost var head := output;
    ThreeFields(c);
    for f := 0 to 3
      invariant output == head + (if f == 0 then [] else if f == 1 then Field(c.id)
                                  else if f == 2 then Field(c.id) + Field(c.title)
                                  else Field(c.id) + Field(c.title) + Field(c.command))
    {
      ghost var before := output;
      output := output + [|fields[f]|];
      output := output + fields[f];
      output := output + [0];
      assert output == before + Field(fields[f]);
    }
  }

  // ----- the parser of decode_registry ---------------------------------------------------------

  function ParseField(raw: seq<Byte>, offset: nat): (r: Result<(Text, nat)>)
    ensures r.Ok? ==> offset < r.value.1 <= |raw|
  {
    if offset >= |raw| then Err(TruncatedLength)
    else
      var length, start := raw[offset], offset + 1;
      if length == 0 || start + length >= |raw| then Err(TruncatedString)
      else if !IsUtf8(raw[start..start + length]) then Err(InvalidUtf8)
      else if raw[start + length] != 0 then Err(NotTerminated)
      else Ok((raw[start..start + length], start + length + 1))
  }

  /** `k` more fields after those already read. */
  function ParseFields(raw: seq<Byte>, offset: nat, k: nat, vs: seq<Text>): (r: Result<(seq<Text>, nat)>)
    ensures r.Ok? ==> vs <= r.value.0 && |r.value.0| == |vs| + k && offset <= r.value.1
    ensures r.Ok? && offset <= |raw| ==> r.value.1 <= |raw|
    decreases k
  {
    if k == 0 then Ok((vs, offset))
    else match ParseField(raw, offset)
      case Err(e) => Err(e)
      case Ok((v, next)) => ParseFields(raw, next, k - 1, vs + [v])
  }

  function CapabilityOf(code: Byte): Capability
    requires code < 4
  {
    if code == 0 then Observe else if code == 1 then Control else if code == 2 then Active else Admin
  }

  function ParseEntry(raw: seq<Byte>, offset: nat): (r: Result<(Command, nat)>)
    ensures r.Ok? ==> offset <= r.value.1 <= |raw|
  {
    if offset + 2 > |raw| then Err(TruncatedMetadata)
    else
      var capability, flags := raw[offset], raw[offset + 1];
      if capability >= 4 || flags >= 4 then Err(InvalidMetadata)
      else match ParseFields(raw, offset + 2, 3, [])
        case Err(e) => Err(e)
        case Ok((vs, next)) =>
          Ok((Command(vs[0], vs[1], vs[2], CapabilityOf(capability), flags % 2 == 1, flags / 2 == 1), next))
  }

  function ParseEntries(raw: seq<Byte>, offset: nat, count: nat, cs: seq<Command>): (r: Result<(seq<Command>, nat)>)
    ensures r.Ok? ==> cs <= r.value.0 && |r.value.0| == |cs| + count
    decreases count
  {
    if count == 0 then Ok((cs, offset))
    else match ParseEntry(raw, offset)
      case Err(e) => Err(e)
      case Ok((c, next)) => ParseEntries(raw, next, count - 1, cs + [c])
  }

  function Parse(raw: seq<Byte>): Result<seq<Command>> {
    if |raw| < 6 || raw[..4] != MAGIC then Err(InvalidMagic)
    else match ParseEntries(raw, 6, Word(raw[4..6]), [])
      case Err(e) => Err(e)
      case Ok((cs, offset)) =>
        if offset != |raw| then Err(TrailingBytes)
        else if Checked(cs).Err? then Err(Checked(cs).error)
        else Ok(cs)
  }

  // ----- what the parser accepts ------------------------------------------------------------------

  /** A field the parser can give. */
  predicate Readable(v: Text) { v != [] && |v| <= 255 && IsUtf8(v) }

  ghost predicate AllReadable(vs: seq<Text>) { forall i :: 0 <= i < |vs| ==> Readable(vs[i]) }

  predicate Storable(c: Command) { Readable(c.id) && Readable(c.title) && Readable(c.command) }

  ghost predicate AllStorable(cs: seq<Command>) { forall i :: 0 <= i < |cs| ==> Storable(cs[i]) }

  ghost predicate GivesField(raw: seq<Byte>, offset: nat, v: Text) {
    ParseField(raw, offset).Ok? && ParseField(raw, offset).value.0 == v
  }

  lemma FieldExact(raw: seq<Byte>, offset: nat, v: Text)
    ensures GivesField(raw, offset, v) <==> Readable(v) && At(raw, offset, Field(v))
    ensures GivesField(raw, offset, v) ==> ParseField(raw, offset).value.1 == offset + |Field(v)|
  {
    if |v| > 255 { return; }
    AtBoth(raw, offset, [|v|] + v, [0]);
    AtBoth(raw, offset, [|v|], v);
    AtOne(raw, offset, |v|);
    AtOne(raw, offset + 1 + |v|, 0);
  }

  ghost predicate GivesFields(raw: seq<Byte>, offset: nat, acc: seq<Text>, vs: seq<Text>) {
    ParseFields(raw, offset, |vs|, acc).Ok? && ParseFields(raw, offset, |vs|, acc).value.0 == acc + vs
  }

  lemma {:induction false} FieldsExact(raw: seq<Byte>, offset: nat, acc: seq<Text>, vs: seq<Text>)
    requires offset <= |raw|
    ensures GivesFields(raw, offset, acc, vs) <==> AllReadable(vs) && At(raw, offset, Fields(vs))
    ensures GivesFields(raw, offset, acc, vs) ==> ParseFields(raw, offset, |vs|, acc).value.1 == offset + |Fields(vs)|
    decreases |vs|
  {
    if vs != [] {
      FirstField(raw, offset, acc, vs);
      FieldExact(raw, offset, vs[0]);
      FieldsSplit(raw, offset, vs);
      if GivesField(raw, offset, vs[0]) {
        FieldsExact(raw, offset + |Field(vs[0])|, acc + [vs[0]], vs[1..]);
      }
    }
  }

  lemma FieldsSplit(raw: seq<Byte>, offset: nat, vs: seq<Text>)
    requires vs != []
    ensures AllReadable(vs) <==> Readable(vs[0]) && AllReadable(vs[1..])
    ensures AllReadable(vs) ==> (At(raw, offset, Fields(vs)) <==> At(raw, offset, Field(vs[0])) && At(raw, offset + |Field(vs[0])|, Fields(vs[1..])))
  {
    assert vs == [vs[0]] + vs[1..];
    if AllReadable(vs) { FieldsHead(raw, offset, vs); }
  }

  lemma FieldsHead(raw: seq<Byte>, offset: nat, vs: seq<Text>)
    requires vs != [] && forall i :: 0 <= i < |vs| ==> |vs[i]| <= 255
    ensures At(raw, offset, Fields(vs)) <==> BothAt(raw, offset, Field(vs[0]), Fields(vs[1..]))
  {
    AtParts(raw, offset, Fields(vs), Field(vs[0]), Fields(vs[1..]));
  }

  lemma FirstField(raw: seq<Byte>, offset: nat, acc: seq<Text>, vs: seq<Text>)
    requires vs != []
    ensures GivesFields(raw, offset, acc, vs) <==>
              GivesField(raw, offset, vs[0]) && GivesFields(raw, ParseField(raw, offset).value.1, acc + [vs[0]], vs[1..])
  {
    assert acc + vs == acc + [vs[0]] + vs[1..];
    if GivesFields(raw, offset, acc, vs) {
      var v := ParseField(raw, offset).value.0;
      assert acc + [v] <= acc + vs;
      assert (acc + [v])[|acc|] == (acc + vs)[|acc|];
    }
  }

  ghost predicate GivesEntry(raw: seq<Byte>, offset: nat, c: Command) {
    ParseEntry(raw, offset).Ok? && ParseEntry(raw, offset).value.0 == c
  }

  ghost predicate EntryLaid(raw: seq<Byte>, offset: nat, c: Command) { Storable(c) && At(raw, offset, Entry(c)) }

  ghost predicate Laid(raw: seq<Byte>, offset: nat, cs: seq<Command>) { AllStorable(cs) && At(raw, offset, Entries(cs)) }

  lemma EntryExact(raw: seq<Byte>, offset: nat, c: Command)
    ensures GivesEntry(raw, offset, c) <==> EntryLaid(raw, offset, c)
    ensures GivesEntry(raw, offset, c) ==> ParseEntry(raw, offset).value.1 == offset + |Entry(c)|
  {
    if offset + 2 <= |raw| {
      var vs := [c.id, c.title, c.command];
      var head := [CapabilityCode(c.capability), Flags(c)];
      FieldsExact(raw, offset + 2, [], vs);
      assert [] + vs == vs;
      assert AllReadable(vs) <==> Storable(c) by {
        assert vs[0] == c.id && vs[1] == c.title && vs[2] == c.command;
      }
      HeadExact(raw, offset, c);
      if Storable(c) { AtBoth(raw, offset, head, Fields(vs)); }
      EntryParts(raw, offset, c);
    }
  }

  /** The two bytes before the fields. */
  lemma HeadExact(raw: seq<Byte>, offset: nat, c: Command)
    requires offset + 2 <= |raw|
    ensures At(raw, offset, [CapabilityCode(c.capability), Flags(c)]) <==>
              && raw[offset] < 4 && raw[offset + 1] < 4 && CapabilityOf(raw[offset]) == c.capability
              && (raw[offset + 1] % 2 == 1) == c.argumentRequired && (raw[offset + 1] / 2 == 1) == c.producesCapture
  {
    assert raw[offset..offset + 2] == [raw[offset], raw[offset + 1]];
  }

  lemma EntryParts(raw: seq<Byte>, offset: nat, c: Command)
    requires offset + 2 <= |raw|
    ensures GivesEntry(raw, offset, c) <==>
              && At(raw, offset, [CapabilityCode(c.capability), Flags(c)])
              && GivesFields(raw, offset + 2, [], [c.id, c.title, c.command])
    ensures GivesEntry(raw, offset, c) ==> ParseEntry(raw, offset).value.1 == ParseFields(raw, offset + 2, 3, []).value.1
  {
    HeadExact(raw, offset, c);
    var vs := [c.id, c.title, c.command];
    assert [] + vs == vs;
    var r := ParseFields(raw, offset + 2, 3, []);
    if r.Ok? {
      var got := r.value.0;
      assert got == [got[0], got[1], got[2]];
    }
  }

  ghost predicate GivesEntries(raw: seq<Byte>, offset: nat, acc: seq<Command>, cs: seq<Command>) {
    ParseEntries(raw, offset, |cs|, acc).Ok? && ParseEntries(raw, offset, |cs|, acc).value.0 == acc + cs
  }

  lemma {:induction false} EntriesExact(raw: seq<Byte>, offset: nat, acc: seq<Command>, cs: seq<Command>)
    requires offset <= |raw|
    ensures GivesEntries(raw, offset, acc, cs) <==> Laid(raw, offset, cs)
    ensures GivesEntries(raw, offset, acc, cs) ==> ParseEntries(raw, offset, |cs|, acc).value.1 == offset + |Entries(cs)|
    decreases |cs|
  {
    if cs != [] {
      FirstEntry(raw, offset, acc, cs);
      EntryExact(raw, offset, cs[0]);
      StorableSplit(cs);
      if GivesEntry(raw, offset, cs[0]) {
        var next := ParseEntry(raw, offset).value.1;
        EntriesExact(raw, next, acc + [cs[0]], cs[1..]);
        EntriesSplit(raw, offset, cs, next);
      } else {
        if AllStorable(cs) { EntriesHead(raw, offset, cs); }
        assert !Laid(raw, offset, cs);
      }
    }
  }

  lemma EntriesSplit(raw: seq<Byte>, offset: nat, cs: seq<Command>, next: nat)
    requires cs != [] && EntryLaid(raw, offset, cs[0]) && next == offset + |Entry(cs[0])|
    ensures Laid(raw, offset, cs) <==> Laid(raw, next, cs[1..])
    ensures AllStorable(cs) ==> offset + |Entries(cs)| == next + |Entries(cs[1..])|
  {
    StorableSplit(cs);
    if AllStorable(cs) { EntriesHead(raw, offset, cs); }
  }

  lemma StorableSplit(cs: seq<Command>)
    requires cs != []
    ensures AllStorable(cs) <==> Storable(cs[0]) && AllStorable(cs[1..])
  {
    assert cs == [cs[0]] + cs[1..];
  }

  lemma EntriesHead(raw: seq<Byte>, offset: nat, cs: seq<Command>)
    requires cs != [] && forall i :: 0 <= i < |cs| ==> Short(cs[i])
    ensures |Entries(cs)| == |Entry(cs[0])| + |Entries(cs[1..])|
    ensures At(raw, offset, Entries(cs)) <==> BothAt(raw, offset, Entry(cs[0]), Entries(cs[1..]))
  {
    AtParts(raw, offset, Entries(cs), Entry(cs[0]), Entries(cs[1..]));
  }

  lemma FirstEntry(raw: seq<Byte>, offset: nat, acc: seq<Command>, cs: seq<Command>)
    requires cs != []
    ensures GivesEntries(raw, offset, acc, cs) <==>
              GivesEntry(raw, offset, cs[0]) && GivesEntries(raw, ParseEntry(raw, offset).value.1, acc + [cs[0]], cs[1..])
    ensures GivesEntries(raw, offset, acc, cs) ==>
              ParseEntries(raw, offset, |cs|, acc).value.1
                == ParseEntries(raw, ParseEntry(raw, offset).value.1, |cs[1..]|, acc + [cs[0]]).value.1
  {
    assert acc + cs == acc + [cs[0]] + cs[1..];
    if GivesEntries(raw, offset, acc, cs) {
      var c := ParseEntry(raw, offset).value.0;
      assert acc + [c] <= acc + cs;
      assert (acc + [c])[|acc|] == (acc + cs)[|acc|];
    }
  }

  /** The parser and the serializer are inverse to each other: a byte string is accepted, and read as `cs`, exactly
      when `cs` is a valid list of at most 65535 commands and the bytes are its serialization. */
  lemma ParseExact(raw: seq<Byte>, cs: seq<Command>)
    ensures Parse(raw) == Ok(cs) <==> Valid(cs) && |cs| <= 65535 && raw == Layout(cs)
  {
    if Parse(raw) == Ok(cs) {
      AcceptedIsLayout(raw, cs);
    }
    if Valid(cs) && |cs| <= 65535 && raw == Layout(cs) {
      LayoutIsAccepted(cs);
    }
  }

  lemma AcceptedIsLayout(raw: seq<Byte>, cs: seq<Command>)
    requires Parse(raw) == Ok(cs)
    ensures Valid(cs) && |cs| <= 65535 && raw == Layout(cs)
  {
    ParsedParts(raw, cs);
    ParsedBody(raw, cs);
    ChecksAreValid(cs);
    CountExact(raw, |cs|);
    assert raw == raw[..4] + raw[4..6] + raw[6..];
  }

  lemma ParsedBody(raw: seq<Byte>, cs: seq<Command>)
    requires |raw| >= 6 && GivesEntries(raw, 6, [], cs) && ParseEntries(raw, 6, |cs|, []).value.1 == |raw|
    ensures Strings(cs) && (forall i :: 0 <= i < |cs| ==> Short(cs[i])) && raw[6..] == Entries(cs)
  {
    EntriesExact(raw, 6, [], cs);
    assert AllStorable(cs) && At(raw, 6, Entries(cs));
    assert raw[6..|raw|] == raw[6..];
  }

  lemma ParsedParts(raw: seq<Byte>, cs: seq<Command>)
    requires Parse(raw) == Ok(cs)
    ensures |raw| >= 6 && raw[..4] == MAGIC && Word(raw[4..6]) == |cs| && Checked(cs).Ok?
    ensures GivesEntries(raw, 6, [], cs) && ParseEntries(raw, 6, |cs|, []).value.1 == |raw|
  {
    assert [] + cs == cs;
  }

  lemma CountExact(raw: seq<Byte>, n: nat)
    requires |raw| >= 6
    ensures Word(raw[4..6]) == n <==> n <= 65535 && raw[4..6] == LE(n, 2)
  {
    Widths();
    if n <= 65535 {
      WordLE(n, 2);
      if Word(raw[4..6]) == n { WordInjective(raw[4..6], LE(n, 2)); }
    }
  }

  lemma LayoutIsAccepted(cs: seq<Command>)
    requires Valid(cs) && |cs| <= 65535
    ensures Parse(Layout(cs)) == Ok(cs)
  {
    LayoutBody(cs);
    CountExact(Layout(cs), |cs|);
    ChecksAreValid(cs);
    assert [] + cs == cs;
  }

  lemma LayoutBody(cs: seq<Command>)
    requires Valid(cs)
    ensures AllStorable(cs)
    ensures var raw := Layout(cs);
            && |raw| >= 6 && raw[..4] == MAGIC && raw[4..6] == LE(|cs|, 2)
            && GivesEntries(raw, 6, [], cs) && ParseEntries(raw, 6, |cs|, []).value.1 == |raw|
  {
    LayoutParts(LE(|cs|, 2), Entries(cs));
    assert AllStorable(cs);
    assert Laid(Layout(cs), 6, cs);
    EntriesExact(Layout(cs), 6, [], cs);
  }

  lemma LayoutParts(count: seq<Byte>, body: seq<Byte>)
    requires |count| == 2
    ensures var raw := MAGIC + count + body; |raw| == 6 + |body| && raw[..4] == MAGIC && raw[4..6] == count && At(raw, 6, body)
  {}

  /** No two valid lists share a serialization. */
  lemma LayoutInjective(cs: seq<Command>, ds: seq<Command>)
    requires Valid(cs) && Valid(ds) && |cs| <= 65535 && |ds| <= 65535 && Layout(cs) == Layout(ds)
    ensures cs == ds
  {
    ParseExact(Layout(cs), cs);
    ParseExact(Layout(ds), ds);
  }

  /** decode_registry from the raw bytes on. */
  method ParseRegistry(raw: seq<Byte>) returns (result: Result<seq<Command>>)
    ensures result == Parse(raw)
  {
    if |raw| < 6 || raw[..4] != MAGIC { return Err(InvalidMagic); }
    var entries := ReadEntries(raw, 6, Word(raw[4..6]));
    if entries.Err? { return Err(entries.error); }
    var (commands, offset) := entries.value;
    if offset != |raw| { return Err(TrailingBytes); }
    var checked := ValidateCommands(commands);
    if checked.Err? { return Err(checked.error); }
    result := Ok(commands);
  }

  /** Its loop over the commands. */
  method ReadEntries(raw: seq<Byte>, start: nat, count: nat) returns (result: Result<(seq<Command>, nat)>)
    ensures result == ParseEntries(raw, start, count, [])
  {
    var commands: seq<Command> := [];
    var offset := start;
    for i := 0 to count
      invariant ParseEntries(raw, start, count, []) == ParseEntries(raw, offset, count - i, commands)
    {
      var entry := ReadEntry(raw, offset);
      if entry.Err? { return Err(entry.error); }
      commands := commands + [entry.value.0];
      offset := entry.value.1;
    }
    result := Ok((commands, offset));
  }

  /** One turn of that loop. */
  method ReadEntry(raw: seq<Byte>, offset: nat) returns (result: Result<(Command, nat)>)
    ensures result == ParseEntry(raw, offset)
  {
    if offset + 2 > |raw| { return Err(TruncatedMetadata); }
    var capability, flags := raw[offset], raw[offset + 1];
    if capability >= 4 || flags >= 4 { return Err(InvalidMetadata); }
    var values := ReadFields(raw, offset + 2);
    if values.Err? { return Err(values.error); }
    var (vs, next) := values.value;
    result := Ok((Command(vs[0], vs[1], vs[2], CapabilityOf(capability), flags % 2 == 1, flags / 2 == 1), next));
  }

  /** One turn of the loop below. */
  method ReadField(raw: seq<Byte>, offset: nat) returns (result: Result<(Text, nat)>)
    ensures result == ParseField(raw, offset)
  {
    if offset >= |raw| { return Err(TruncatedLength); }
    var length := raw[offset];
    var text := offset + 1;
    if length == 0 || text + length >= |raw| { return Err(TruncatedString); }
    if !IsUtf8(raw[text..text + length]) { return Err(InvalidUtf8); }
    if raw[text + length] != 0 { return Err(NotTerminated); }
    result := Ok((raw[text..text + length], text + length + 1));
  }

  /** Its loop over the three strings of a command. */
  method ReadFields(raw: seq<Byte>, start: nat) returns (result: Result<(seq<Text>, nat)>)
    ensures result == ParseFields(raw, start, 3, [])
  {
    var values: seq<Text> := [];
    var offset: nat := start;
    for f := 0 to 3
      invariant ParseFields(raw, start, 3, []) == ParseFields(raw, offset, 3 - f, values)
    {
      var field := ReadField(raw, offset);
      if field.Err? { return Err(field.error); }
      values := values + [field.value.0];
      offset := field.value.1;
    }
    result := Ok((values, offset));
  }

  // ----- with compression ---------------------------------------------------------------------------

  datatype Option = None | Some(bytes: seq<Byte>)

  /** encode_registry after its serialization, with the compressor as a parameter. */
  function Encode(raw: seq<Byte>, compress: seq<Byte> -> seq<Byte>): Result<seq<Byte>> {
    var packed := compress(raw);
    if |packed| > 65535 then Err(CompressedTooLong) else Ok([1, 0] + LE(|packed|, 2) + packed)
  }

  /** decode_registry, with the decompressor as a parameter. */
  function Decode(encoded: seq<Byte>, decompress: seq<Byte> -> Option): Result<seq<Command>> {
    if |encoded| < 4 || encoded[0] != 1 || encoded[1] != 0 then Err(InvalidHeader)
    else if |encoded| != Word(encoded[2..4]) + 4 then Err(LengthMismatch)
    else match decompress(encoded[4..])
      case None => Err(DecompressionFailed)
      case Some(raw) => Parse(raw)
  }

  /** In front of the compressed bytes stand a one, a zero and their number. */
  lemma EncodedHeader(raw: seq<Byte>, compress: seq<Byte> -> seq<Byte>)
    ensures var e, n := Encode(raw, compress), |compress(raw)|;
            e.Ok? ==> e.value == [1, 0, n % 256, n / 256] + compress(raw)
  {
    var n := |compress(raw)|;
    if n <= 65535 {
      assert LE(n, 2) == [n % 256] + LE(n / 256, 1);
      assert LE(n / 256, 1) == [n / 256];
    }
  }

  /** Whatever the compressor, as long as the decompressor undoes it here, an encoded registry decodes to its commands. */
  lemma EncodeDecodes(cs: seq<Command>, compress: seq<Byte> -> seq<Byte>, decompress: seq<Byte> -> Option)
    requires Valid(cs) && |cs| <= 65535 && decompress(compress(Layout(cs))) == Some(Layout(cs))
    ensures var e := Encode(Layout(cs), compress); e.Ok? ==> Decode(e.value, decompress) == Ok(cs)
    ensures Encode(Layout(cs), compress).Ok? <==> |compress(Layout(cs))| <= 65535
  {
    var packed := compress(Layout(cs));
    Widths();
    if |packed| <= 65535 {
      WordLE(|packed|, 2);
      var e := [1, 0] + LE(|packed|, 2) + packed;
      assert e[2..4] == LE(|packed|, 2) && e[4..] == packed;
      ParseExact(Layout(cs), cs);
    }
  }
}
