/** The package catalog of bridge/src/packages.rs: records under their keys, and conflict marks that
    each addition keeps right. */
module Catalog {
  import opened Bytes

  type Text = seq<Byte>      // the UTF-8 bytes of a string

  const MAX_RECORDS := 512
  const MAX_TEXT := 256

  datatype Source = DeviceStorage | BundledRelease | ImportedFile | LocalRepository
  datatype Freshness = Unknown | Fresh | Stale | Missing
  datatype State = Installed | Staged | Available | Incompatible | Disabled | Quarantined | Revoked | RollbackCandidate

  datatype Record = Record(
    id: Text, version: Text, signer: Text, digest: Text, source: Source, sourcePath: Text,
    freshness: Freshness, state: State,
    verified: bool, signerRevoked: bool, conflicted: bool, compatible: bool, capabilityMask: nat)

  datatype Key = Key(id: Text, version: Text, source: Source, sourcePath: Text)

  datatype Error = InvalidText | InvalidDigest | InconsistentRevocation | DuplicateSource | CapacityExceeded

  datatype Result<T> = Ok(value: T) | Err(error: Error)

  type Records = map<Key, Record>

  function KeyOf(r: Record): Key { Key(r.id, r.version, r.source, r.sourcePath) }

  predicate TextOK(t: Text) { t != [] && |t| <= MAX_TEXT }

  /** A lower-case hexadecimal digit in ASCII. */
  predicate HexDigit(b: Byte) { 48 <= b <= 57 || 97 <= b <= 102 }

  function Validate(r: Record): Result<()> {
    if !TextOK(r.id) || !TextOK(r.version) || !TextOK(r.signer) || !TextOK(r.sourcePath) then Err(InvalidText)
    else if |r.digest| != 64 || (exists i :: 0 <= i < |r.digest| && !HexDigit(r.digest[i])) then Err(InvalidDigest)
    else if r.signerRevoked != (r.state == Revoked) || (r.signerRevoked && r.verified) then Err(InconsistentRevocation)
    else Ok(())
  }

  /** One id and version, different content. */
  predicate Rivals(a: Record, b: Record) { a.id == b.id && a.version == b.version && a.digest != b.digest }

  /** A record is valid exactly when its texts have 1 to 256 bytes, its digest is 64 lower-case hexadecimal digits, and its
      signer is revoked exactly when its state says so, and then it is not verified. */
  lemma ValidatesExactly(r: Record)
    ensures Validate(r).Ok? <==>
              && 1 <= |r.id| <= 256 && 1 <= |r.version| <= 256 && 1 <= |r.signer| <= 256 && 1 <= |r.sourcePath| <= 256
              && |r.digest| == 64 && (forall b :: b in r.digest ==> '0' as int <= b <= '9' as int || 'a' as int <= b <= 'f' as int)
              && (r.signerRevoked <==> r.state == Revoked) && (r.state == Revoked ==> !r.verified)
  {
    if exists i :: 0 <= i < |r.digest| && !HexDigit(r.digest[i]) {
      var i :| 0 <= i < |r.digest| && !HexDigit(r.digest[i]);
      assert r.digest[i] in r.digest;
    } else {
      forall b | b in r.digest ensures HexDigit(b) { var i :| 0 <= i < |r.digest| && r.digest[i] == b; }
    }
  }

  // ----- what the operations do to the records ---------------------------------------

  ghost predicate HasRival(m: Records, r: Record) { exists k :: k in m && Rivals(m[k], r) }

  function Marked(current: Record, r: Record): Record {
    if Rivals(current, r) then current.(conflicted := true) else current
  }

  ghost function Added(m: Records, r: Record): Records {
    (map k | k in m :: Marked(m[k], r))[KeyOf(r) := r.(conflicted := HasRival(m, r))]
  }

  /** What keeps `r` out, in the order of the checks. */
  function Admit(m: Records, r: Record): Result<()> {
    if Validate(r).Err? then Validate(r)
    else if KeyOf(r) in m then Err(DuplicateSource)
    else if |m| >= MAX_RECORDS then Err(CapacityExceeded)
    else Ok(())
  }

  ghost function Add(m: Records, r: Record): Records { if Admit(m, r).Ok? then Added(m, r) else m }

  /** The source of a record is gone. */
  function Gone(r: Record): Record {
    r.(freshness := Missing, state := if r.state == Available then Quarantined else r.state)
  }

  ghost function Drop(m: Records, gone: set<Key>): Records {
    map k | k in m :: if k in gone then Gone(m[k]) else m[k]
  }

  ghost function AtPath(m: Records, source: Source, path: Text): set<Key> {
    set k | k in m && m[k].source == source && m[k].sourcePath == path
  }

  ghost function NotAmong(m: Records, source: Source, paths: seq<Text>): set<Key> {
    set k | k in m && m[k].source == source && m[k].sourcePath !in paths
  }

  predicate Installable(r: Record) {
    r.verified && r.compatible && !r.signerRevoked && !r.conflicted && r.freshness == Fresh && r.state == Available
  }

  /** Checked, fit for this device, and by a signer in good standing. */
  predicate Trusted(r: Record) { r.verified && r.compatible && !r.signerRevoked && r.state != Revoked }

  /** At hand, in its present form. */
  predicate Offered(r: Record) { r.freshness == Fresh && r.state == Available }

  // ----- the invariant ------------------------------------------------------------------

  ghost predicate Inv(m: Records) {
    |m| <= MAX_RECORDS && forall k :: RecordOK(m, k)
  }

  /** A record lies under its key, is valid, and is marked exactly when another contradicts it. */
  ghost predicate RecordOK(m: Records, k: Key) {
    k in m ==> KeyOf(m[k]) == k && Validate(m[k]).Ok? && (m[k].conflicted <==> HasRival(m, m[k]))
  }

  lemma AddKeeps(m: Records, r: Record)
    requires Inv(m)
    ensures Inv(Add(m, r))
    ensures Admit(m, r).Ok? ==> Add(m, r).Keys == m.Keys + {KeyOf(r)}
  {
    if Admit(m, r).Ok? {
      AddedFields(m, r);
      forall k ensures RecordOK(Added(m, r), k) {
        if k in Added(m, r) { AddedOK(m, r, k); }
      }
    }
  }

  /** An addition changes nothing but marks. */
  lemma AddedFields(m: Records, r: Record)
    requires KeyOf(r) !in m
    ensures Added(m, r).Keys == m.Keys + {KeyOf(r)} && |Added(m, r)| == |m| + 1
    ensures Added(m, r)[KeyOf(r)] == r.(conflicted := HasRival(m, r))
    ensures forall k :: k in m ==> Added(m, r)[k] == Marked(m[k], r)
  {
    assert Added(m, r).Keys == m.Keys + {KeyOf(r)};
  }

  lemma AddedOK(m: Records, r: Record, k: Key)
    requires Inv(m) && Admit(m, r).Ok? && k in Added(m, r)
    ensures RecordOK(Added(m, r), k)
  {
    AddedFields(m, r);
    if k in m {
      assert RecordOK(m, k);
      AddedOther(m, r, m[k], k);
    } else {
      AddedRivals(m, r, r);
      RivalsAlike(Added(m, r), Added(m, r)[k], r);
    }
  }

  lemma AddedOther(m: Records, r: Record, current: Record, k: Key)
    requires KeyOf(r) !in m && k in m && m[k] == current && KeyOf(current) == k && Validate(current).Ok?
    requires current.conflicted <==> HasRival(m, current)
    ensures RecordOK(Added(m, r), k)
  {
    AddedFields(m, r);
    AddedRivals(m, r, current);
    RivalsAlike(Added(m, r), Marked(current, r), current);
  }

  lemma RivalsAlike(m: Records, a: Record, b: Record)
    requires a.id == b.id && a.version == b.version && a.digest == b.digest
    ensures HasRival(m, a) == HasRival(m, b)
  {
    forall k | k in m ensures Rivals(m[k], a) == Rivals(m[k], b) {}
  }

  lemma AddedRivals(m: Records, r: Record, x: Record)
    requires KeyOf(r) !in m
    ensures HasRival(Added(m, r), x) <==> HasRival(m, x) || Rivals(r, x)
  {
    AddedFields(m, r);
    var n := Added(m, r);
    assert KeyOf(r) in n && Rivals(n[KeyOf(r)], x) == Rivals(r, x);
    forall k | k in m ensures k in n && Rivals(n[k], x) == Rivals(m[k], x) {}
  }

  lemma DropKeeps(m: Records, gone: set<Key>)
    requires Inv(m)
    ensures Inv(Drop(m, gone)) && Drop(m, gone).Keys == m.Keys
  {
    var n := Drop(m, gone);
    assert n.Keys == m.Keys;
    assert |n.Keys| == |m.Keys|;
    forall k ensures RecordOK(n, k) {
      assert RecordOK(m, k);
      if k in n {
        DropRivals(m, gone, n[k]);
        RivalsAlike(m, m[k], n[k]);
      }
    }
  }

  lemma DropRivals(m: Records, gone: set<Key>, x: Record)
    ensures HasRival(Drop(m, gone), x) <==> HasRival(m, x)
  {
    forall k | k in m ensures Rivals(Drop(m, gone)[k], x) == Rivals(m[k], x) {}
  }

  // ----- runs ------------------------------------------------------------------------------

  datatype Operation =
    | Adding(record: Record)
    | MarkingMissing(source: Source, path: Text)
    | Reconciling(source: Source, paths: seq<Text>)

  ghost function Apply(m: Records, op: Operation): Records {
    match op
    case Adding(r) => Add(m, r)
    case MarkingMissing(source, path) => Drop(m, AtPath(m, source, path))
    case Reconciling(source, paths) => Drop(m, NotAmong(m, source, paths))
  }

  ghost function Run(m: Records, ops: seq<Operation>): Records
    decreases |ops|
  {
    if ops == [] then m else Run(Apply(m, ops[0]), ops[1..])
  }

  /** After any sequence of additions and source updates a record is marked exactly when another record has its id
      and version but a different digest. */
  lemma {:induction false} RunKeeps(m: Records, ops: seq<Operation>)
    requires Inv(m)
    ensures Inv(Run(m, ops))
    decreases |ops|
  {
    if ops != [] {
      ApplyKeeps(m, ops[0]);
      RunKeeps(Apply(m, ops[0]), ops[1..]);
    }
  }

  lemma ApplyKeeps(m: Records, op: Operation)
    requires Inv(m)
    ensures Inv(Apply(m, op))
  {
    match op {
      case Adding(r) => AddKeeps(m, r);
      case MarkingMissing(source, path) => DropKeeps(m, AtPath(m, source, path));
      case Reconciling(source, paths) => DropKeeps(m, NotAmong(m, source, paths));
    }
  }

  /** The same, spelled out. */
  lemma ConflictsExact(ops: seq<Operation>, k: Key)
    requires k in Run(map[], ops)
    ensures var m := Run(map[], ops);
            && k == Key(m[k].id, m[k].version, m[k].source, m[k].sourcePath)
            && (m[k].conflicted <==> exists j :: j in m && m[j].id == m[k].id && m[j].version == m[k].version && m[j].digest != m[k].digest)
  {
    var m := Run(map[], ops);
    RunKeeps(map[], ops);
    assert RecordOK(m, k);
    if m[k].conflicted {
      var j :| j in m && Rivals(m[j], m[k]);
    }
    if j :| j in m && m[j].id == m[k].id && m[j].version == m[k].version && m[j].digest != m[k].digest {
      assert Rivals(m[j], m[k]);
    }
  }

  /** A record gets in exactly when it is valid, its id, version, source and path are not those of another, and there are
      fewer than 512; it is refused for the first of these that fails. */
  lemma AdmitsExactly(m: Records, r: Record)
    requires Inv(m)
    ensures Admit(m, r).Ok? <==>
              && Validate(r).Ok? && |m| < 512
              && forall k :: k in m ==> (m[k].id, m[k].version, m[k].source, m[k].sourcePath) != (r.id, r.version, r.source, r.sourcePath)
    ensures Admit(m, r) == Err(CapacityExceeded) ==> |m| == 512
    ensures Admit(m, r) == Err(DuplicateSource) <==>
              Validate(r).Ok? && exists k :: k in m && (m[k].id, m[k].version, m[k].source, m[k].sourcePath) == (r.id, r.version, r.source, r.sourcePath)
  {
    forall k | k in m ensures KeyOf(m[k]) == k { assert RecordOK(m, k); }
    if KeyOf(r) in m { assert KeyOf(m[KeyOf(r)]) == KeyOf(r); }
  }

  /** In a catalog any operations have made from nothing, what can be installed under an id and version has one
      digest, and no record at all contradicts it. */
  lemma InstallableAgree(ops: seq<Operation>, j: Key, k: Key)
    requires var m := Run(map[], ops); j in m && k in m && Installable(m[j])
    ensures var m := Run(map[], ops); m[j].id == m[k].id && m[j].version == m[k].version ==> m[j].digest == m[k].digest
  {
    RunKeeps(map[], ops);
    Unopposed(Run(map[], ops), j, k);
  }

  lemma Unopposed(m: Records, j: Key, k: Key)
    requires Inv(m) && j in m && k in m && !m[j].conflicted
    ensures !Rivals(m[k], m[j])
  {
    assert RecordOK(m, j);
  }

  /** Out of reach of installation for good: no operation changes either field back. */
  ghost predicate Shut(m: Records, k: Key) {
    k in m && m[k].freshness == Missing && m[k].state != Available
  }

  /** What a source update reaches is shut. */
  lemma GoneIsShut(m: Records, gone: set<Key>, k: Key)
    requires k in m && k in gone
    ensures Shut(Drop(m, gone), k)
  {}

  /** Losing its source changes nothing else of a record, and no state but that of an available one, which is quarantined. */
  lemma GoneFields(m: Records, gone: set<Key>, k: Key)
    requires k in m
    ensures var r, t := m[k], Drop(m, gone)[k];
            && t == r.(freshness := t.freshness, state := t.state)
            && (k !in gone ==> t == r)
            && (k in gone && r.state == Available ==> t.state == Quarantined)
            && (k in gone && r.state != Available ==> t.state == r.state)
  {}

  /** Which records a source update reaches: those of that source and that path, or of that source and none of the paths. */
  lemma ReachedExactly(m: Records, source: Source, path: Text, paths: seq<Text>, k: Key)
    requires k in m
    ensures Drop(m, AtPath(m, source, path))[k].freshness == Missing <==>
              m[k].freshness == Missing || (m[k].source == source && m[k].sourcePath == path)
    ensures Drop(m, NotAmong(m, source, paths))[k].freshness == Missing <==>
              m[k].freshness == Missing || (m[k].source == source && forall p :: p in paths ==> p != m[k].sourcePath)
  {}

  /** Nothing from a source that went missing can be installed any more, whatever comes later. */
  lemma {:induction false} GoneStaysGone(m: Records, ops: seq<Operation>, k: Key)
    requires Shut(m, k)
    ensures Shut(Run(m, ops), k) && !Installable(Run(m, ops)[k])
    decreases |ops|
  {
    if ops != [] {
      StaysShut(m, ops[0], k);
      GoneStaysGone(Apply(m, ops[0]), ops[1..], k);
    }
  }

  lemma StaysShut(m: Records, op: Operation, k: Key)
    requires Shut(m, k)
    ensures Shut(Apply(m, op), k)
  {
    if op.Adding? && Admit(m, op.record).Ok? { AddedFields(m, op.record); }
  }

  // ----- order of additions ---------------------------------------------------------------------

  /** A record without its mark. */
  function Bare(r: Record): Record { r.(conflicted := false) }

  /** The marks follow from the rest. */
  lemma MarksDetermined(m: Records, n: Records)
    requires Inv(m) && Inv(n) && m.Keys == n.Keys
    requires forall k :: k in m ==> Bare(m[k]) == Bare(n[k])
    ensures m == n
  {
    forall k | k in m ensures m[k] == n[k] {
      assert RecordOK(m, k) && RecordOK(n, k) && Bare(m[k]) == Bare(n[k]);
      SameRivals(m, n, m[k]);
      RivalsAlike(n, m[k], n[k]);
    }
  }

  lemma SameRivals(m: Records, n: Records, x: Record)
    requires m.Keys == n.Keys && forall k :: k in m ==> Bare(m[k]) == Bare(n[k])
    ensures HasRival(m, x) == HasRival(n, x)
  {
    forall k | k in m ensures k in n && Rivals(m[k], x) == Rivals(n[k], x) {
      assert Bare(m[k]) == Bare(n[k]);
    }
  }

  /** Additions one after the other, the first refusal ending them. */
  ghost function AddAll(m: Records, rs: seq<Record>): Result<Records>
    decreases |rs|
  {
    if rs == [] then Ok(m)
    else if Admit(m, rs[0]).Err? then Err(Admit(m, rs[0]).error)
    else AddAll(Added(m, rs[0]), rs[1..])
  }

  ghost predicate DistinctKeys(rs: seq<Record>) {
    forall i, j :: 0 <= i < j < |rs| ==> KeyOf(rs[i]) != KeyOf(rs[j])
  }

  /** New to the catalog, valid, and few enough. */
  ghost predicate Fits(m: Records, rs: seq<Record>) {
    && DistinctKeys(rs)
    && |m| + |rs| <= MAX_RECORDS
    && forall i :: 0 <= i < |rs| ==> Validate(rs[i]).Ok? && KeyOf(rs[i]) !in m
  }

  /** `n` holds the records of `m` and of `rs` under their keys, and no more, marks aside. */
  ghost predicate Holds(n: Records, m: Records, rs: seq<Record>) {
    && (forall k :: Kept(n, m, k))
    && (forall i :: Placed(n, rs, i))
    && (forall k :: k in n && k !in m ==> Listed(rs, k))
  }

  ghost predicate Kept(n: Records, m: Records, k: Key) { k in m ==> k in n && Bare(n[k]) == Bare(m[k]) }

  ghost predicate Placed(n: Records, rs: seq<Record>, i: int) {
    0 <= i < |rs| ==> KeyOf(rs[i]) in n && Bare(n[KeyOf(rs[i])]) == Bare(rs[i])
  }

  ghost predicate Listed(rs: seq<Record>, k: Key) { exists i :: 0 <= i < |rs| && KeyOf(rs[i]) == k }

  /** Exactly the lists that fit are taken. */
  lemma {:induction false} AddAllExact(m: Records, rs: seq<Record>)
    requires Inv(m)
    ensures AddAll(m, rs).Ok? <==> Fits(m, rs)
    ensures AddAll(m, rs).Ok? ==> Inv(AddAll(m, rs).value) && Holds(AddAll(m, rs).value, m, rs)
    decreases |rs|
  {
    if rs != [] {
      if Fits(m, rs) { FirstFits(m, rs); }
      if Admit(m, rs[0]).Ok? {
        AddKeeps(m, rs[0]);
        AddedFields(m, rs[0]);
        var n := Added(m, rs[0]);
        AddAllExact(n, rs[1..]);
        FitsStep(m, rs, n);
        if AddAll(n, rs[1..]).Ok? { HoldsStep(AddAll(n, rs[1..]).value, m, rs, n); }
      }
    }
  }

  lemma FirstFits(m: Records, rs: seq<Record>)
    requires rs != [] && Fits(m, rs)
    ensures Admit(m, rs[0]).Ok?
  {}

  lemma FitsStep(m: Records, rs: seq<Record>, n: Records)
    requires rs != [] && n.Keys == m.Keys + {KeyOf(rs[0])} && |n| == |m| + 1 && Admit(m, rs[0]).Ok?
    ensures Fits(m, rs) <==> Fits(n, rs[1..])
  {
    var rest := rs[1..];
    if Fits(m, rs) {
      forall i | 0 <= i < |rest| ensures Validate(rest[i]).Ok? && KeyOf(rest[i]) !in n { assert rest[i] == rs[i + 1]; }
      forall i, j | 0 <= i < j < |rest| ensures KeyOf(rest[i]) != KeyOf(rest[j]) {
        assert rest[i] == rs[i + 1] && rest[j] == rs[j + 1];
      }
    }
    if Fits(n, rest) {
      forall i | 0 <= i < |rs| ensures Validate(rs[i]).Ok? && KeyOf(rs[i]) !in m {
        if i > 0 { assert rs[i] == rest[i - 1]; }
      }
      forall i, j | 0 <= i < j < |rs| ensures KeyOf(rs[i]) != KeyOf(rs[j]) {
        assert rs[j] == rest[j - 1];
        if i > 0 { assert rs[i] == rest[i - 1]; }
      }
    }
  }

  lemma HoldsStep(end: Records, m: Records, rs: seq<Record>, n: Records)
    requires rs != [] && KeyOf(rs[0]) !in m && n == Added(m, rs[0]) && Holds(end, n, rs[1..])
    ensures Holds(end, m, rs)
  {
    var r, rest := rs[0], rs[1..];
    AddedFields(m, r);
    forall k ensures Kept(end, m, k) { assert Kept(end, n, k); }
    forall i ensures Placed(end, rs, i) {
      if i == 0 { assert Kept(end, n, KeyOf(r)); } else { assert Placed(end, rest, i - 1); }
    }
    forall k | k in end && k !in m ensures Listed(rs, k) {
      if k in n {
        assert rs[0] == r && KeyOf(r) == k;
      } else {
        assert Listed(rest, k);
        var i :| 0 <= i < |rest| && KeyOf(rest[i]) == k;
        assert rs[i + 1] == rest[i];
      }
    }
  }

  /** Two lists of additions that hold the same records, in whatever order, give the same catalog. */
  lemma OrderIrrelevant(m: Records, rs: seq<Record>, ts: seq<Record>)
    requires Inv(m) && Fits(m, rs) && multiset(rs) == multiset(ts)
    ensures AddAll(m, rs).Ok? && AddAll(m, ts) == AddAll(m, rs)
  {
    SameFits(m, rs, ts);
    AddAllExact(m, rs);
    AddAllExact(m, ts);
    var a, b := AddAll(m, rs).value, AddAll(m, ts).value;
    SameHeld(a, b, m, rs, ts);
    SameHeld(b, a, m, ts, rs);
    MarksDetermined(a, b);
  }

  /** A key of one result is in the other, with the same record marks aside. */
  lemma SameHeld(a: Records, b: Records, m: Records, rs: seq<Record>, ts: seq<Record>)
    requires Holds(a, m, rs) && Holds(b, m, ts) && multiset(rs) == multiset(ts)
    ensures forall k :: k in a ==> k in b && Bare(a[k]) == Bare(b[k])
  {
    forall k | k in a ensures k in b && Bare(a[k]) == Bare(b[k]) {
      if k in m {
        assert Kept(a, m, k) && Kept(b, m, k);
      } else {
        assert Listed(rs, k);
        var i :| 0 <= i < |rs| && KeyOf(rs[i]) == k;
        var j := FoundIn(ts, rs, i);
        assert Placed(a, rs, i) && Placed(b, ts, j);
      }
    }
  }

  lemma FoundIn(ts: seq<Record>, rs: seq<Record>, i: nat) returns (j: nat)
    requires multiset(rs) == multiset(ts) && i < |rs|
    ensures j < |ts| && ts[j] == rs[i]
  {
    assert rs[i] in multiset(rs);
    assert rs[i] in ts;
    j :| j < |ts| && ts[j] == rs[i];
  }

  lemma SameFits(m: Records, rs: seq<Record>, ts: seq<Record>)
    requires Fits(m, rs) && multiset(rs) == multiset(ts)
    ensures Fits(m, ts)
  {
    assert |rs| == |multiset(rs)| == |multiset(ts)| == |ts|;
    forall i | 0 <= i < |ts| ensures Validate(ts[i]).Ok? && KeyOf(ts[i]) !in m {
      var j := FoundIn(rs, ts, i);
    }
    forall i, j | 0 <= i < j < |ts| ensures KeyOf(ts[i]) != KeyOf(ts[j]) {
      var a := FoundIn(rs, ts, i);
      var b := FoundIn(rs, ts, j);
      OnceCounted(rs, a);
      assert multiset(rs)[ts[i]] == multiset(ts)[ts[i]] == 1;
      TwiceCounted(ts, i, j);
    }
  }

  lemma TwiceCounted(ts: seq<Record>, i: nat, j: nat)
    requires i < j < |ts|
    ensures ts[i] == ts[j] ==> multiset(ts)[ts[i]] >= 2
  {
    assert ts == ts[..j] + ts[j..];
    assert ts[j] == ts[j..][0];
    assert ts[j] in ts[j..];
    assert ts[i] == ts[..j][i];
    assert ts[i] in ts[..j];
  }

  lemma OnceCounted(rs: seq<Record>, a: nat)
    requires DistinctKeys(rs) && a < |rs|
    ensures multiset(rs)[rs[a]] == 1
  {
    var x := rs[a];
    assert rs == rs[..a] + [x] + rs[a + 1..];
    assert x !in rs[..a] && x !in rs[a + 1..];
  }

  // ----- saving and loading -------------------------------------------------------------------------

  /** The list lays out the records of the catalog, each once. */
  ghost predicate ListsAll(rs: seq<Record>, m: Records) {
    && DistinctKeys(rs)
    && (forall i :: 0 <= i < |rs| ==> KeyOf(rs[i]) in m && m[KeyOf(rs[i])] == rs[i])
    && (forall k :: k in m ==> Listed(rs, k))
  }

  /** What is saved from a catalog, in whatever order, loads as that catalog. */
  lemma SaveThenLoad(m: Records, rs: seq<Record>)
    requires Inv(m) && ListsAll(rs, m)
    ensures AddAll(map[], rs) == Ok(m)
  {
    ListLength(m, rs);
    forall i | 0 <= i < |rs| ensures Validate(rs[i]).Ok? { assert RecordOK(m, KeyOf(rs[i])); }
    AddAllExact(map[], rs);
    var n := AddAll(map[], rs).value;
    forall k | k in m ensures k in n && Bare(m[k]) == Bare(n[k]) {
      assert Listed(rs, k);
      var i :| 0 <= i < |rs| && KeyOf(rs[i]) == k;
      assert Placed(n, rs, i);
    }
    forall k | k in n ensures k in m { assert Listed(rs, k); }
    MarksDetermined(m, n);
  }

  lemma ListedMore(rs: seq<Record>, r: Record, k: Key)
    requires Listed(rs, k) || KeyOf(r) == k
    ensures Listed(rs + [r], k)
  {
    if KeyOf(r) == k {
      assert (rs + [r])[|rs|] == r;
    } else {
      var i :| 0 <= i < |rs| && KeyOf(rs[i]) == k;
      assert (rs + [r])[i] == rs[i];
    }
  }

  lemma ListLength(m: Records, rs: seq<Record>)
    requires ListsAll(rs, m)
    ensures |rs| == |m|
  {
    var keys := seq(|rs|, i requires 0 <= i < |rs| => KeyOf(rs[i]));
    DistinctCount(keys);
    assert m.Keys == set k | k in keys by {
      forall k | k in m ensures k in keys {
        assert Listed(rs, k);
        var i :| 0 <= i < |rs| && KeyOf(rs[i]) == k;
        assert keys[i] == k;
      }
    }
  }

  lemma {:induction false} DistinctCount(keys: seq<Key>)
    requires forall i, j :: 0 <= i < j < |keys| ==> keys[i] != keys[j]
    ensures |set k | k in keys| == |keys|
  {
    if keys != [] {
      var rest := keys[1..];
      DistinctCount(rest);
      assert (set k | k in keys) == {keys[0]} + set k | k in rest;
    }
  }

  /** Whatever a file says of conflicts is ignored: lists that differ only there load alike, errors included. */
  lemma {:induction false} LoadIgnoresMarks(m: Records, rs: seq<Record>, ts: seq<Record>)
    requires |rs| == |ts| && forall i :: 0 <= i < |rs| ==> Bare(rs[i]) == Bare(ts[i])
    ensures AddAll(m, rs) == AddAll(m, ts)
    decreases |rs|
  {
    if rs != [] {
      AdmitIgnoresMark(m, rs[0], ts[0]);
      LoadIgnoresMarks(Added(m, rs[0]), rs[1..], ts[1..]);
    }
  }

  lemma AdmitIgnoresMark(m: Records, r: Record, t: Record)
    requires Bare(r) == Bare(t)
    ensures Admit(m, r) == Admit(m, t) && Added(m, r) == Added(m, t)
  {
    SameFields(r, t, HasRival(m, r));
    RivalsAlike(m, r, t);
    MarkedAlike(m, r, t);
  }

  lemma SameFields(r: Record, t: Record, mark: bool)
    requires Bare(r) == Bare(t)
    ensures r.(conflicted := mark) == t.(conflicted := mark)
    ensures KeyOf(r) == KeyOf(t) && r.digest == t.digest && Validate(r) == Validate(t)
  {
    assert r.(conflicted := mark) == Bare(r).(conflicted := mark);
    assert t.(conflicted := mark) == Bare(t).(conflicted := mark);
    assert Validate(r) == Validate(Bare(r)) && Validate(t) == Validate(Bare(t));
  }

  lemma MarkedAlike(m: Records, r: Record, t: Record)
    requires r.id == t.id && r.version == t.version && r.digest == t.digest
    ensures (map k | k in m :: Marked(m[k], r)) == (map k | k in m :: Marked(m[k], t))
  {
    forall k | k in m ensures Marked(m[k], r) == Marked(m[k], t) {}
  }

  // ----- the class ------------------------------------------------------------------------------------

  class PackageCatalog {
    var records: Records

    /** The default, empty catalog. */
    constructor ()
      ensures records == map[] && Inv(records)
    {
      records := map[];
    }

    /** add: an error leaves the catalog as it is. */
    method AddRecord(record: Record) returns (result: Result<()>)
      requires Inv(records)
      modifies this
      ensures Inv(records)
      ensures result == Admit(old(records), record)
      ensures records == Add(old(records), record)
    {
      AddKeeps(records, record);
      result := Validate(record);
      if result.Err? { return; }
      if KeyOf(record) in records { return Err(DuplicateSource); }
      if |records| >= MAX_RECORDS { return Err(CapacityExceeded); }
      Enter(record);
    }

    /** The rest of add once nothing stands in its way. */
    method Enter(record: Record)
      requires KeyOf(record) !in records
      modifies this
      ensures records == Added(old(records), record)
    {
      ghost var before := records;
      var conflicting := ConflictingKeys(record);
      MarkAll(conflicting);
      MarkedFields(before, records, conflicting, record);
      var agree := AllAgree(record);
      records := records[KeyOf(record) := record.(conflicted := !agree)];
      assert records == Added(before, record);
    }

    /** The keys of the records that the new one contradicts, each once. */
    method ConflictingKeys(record: Record) returns (keys: seq<Key>)
      ensures forall k :: k in keys <==> k in records && Rivals(records[k], record)
    {
      keys := [];
      var left := records.Keys;
      while left != {}
        invariant left <= records.Keys
        invariant forall k :: k in keys <==> k in records && k !in left && Rivals(records[k], record)
      {
        var k :| k in left;
        if Rivals(records[k], record) { keys := keys + [k]; }
        left := left - {k};
      }
    }

    method MarkAll(keys: seq<Key>)
      modifies this
      ensures records.Keys == old(records).Keys
      ensures forall k :: k in records ==>
                records[k] == if k in keys then old(records)[k].(conflicted := true) else old(records)[k]
    {
      for i := 0 to |keys|
        invariant records.Keys == old(records).Keys
        invariant forall k :: k in records ==>
                    records[k] == if k in keys[..i] then old(records)[k].(conflicted := true) else old(records)[k]
      {
        assert keys[..i + 1] == keys[..i] + [keys[i]];
        if keys[i] in records {
          records := records[keys[i] := records[keys[i]].(conflicted := true)];
        }
      }
      assert keys[..|keys|] == keys;
    }

    /** Whether every record of the same id and version has the same digest. */
    method AllAgree(record: Record) returns (agree: bool)
      ensures agree <==> !HasRival(records, record)
    {
      agree := true;
      var left := records.Keys;
      while left != {} && agree
        invariant left <= records.Keys
        invariant agree ==> forall k :: k in records && k !in left ==> !Rivals(records[k], record)
        invariant !agree ==> HasRival(records, record)
      {
        var k :| k in left;
        if records[k].id == record.id && records[k].version == record.version {
          agree := records[k].digest == record.digest;
        }
        left := left - {k};
      }
    }

    /** installable: the records that may be installed. */
    method ListInstallable() returns (keys: seq<Key>)
      requires Inv(records)
      ensures forall k :: k in keys <==> k in records && Installable(records[k])
      ensures forall k :: k in keys ==> Trusted(records[k]) && Offered(records[k])
      ensures forall k :: k in records && Trusted(records[k]) && Offered(records[k]) && !HasRival(records, records[k]) ==> k in keys
      ensures forall j, k :: j in keys && k in records && records[j].id == records[k].id && records[j].version == records[k].version
                ==> records[j].digest == records[k].digest
    {
      keys := [];
      var left := records.Keys;
      while left != {}
        invariant left <= records.Keys
        invariant forall k :: k in keys <==> k in records && k !in left && Installable(records[k])
      {
        var k :| k in left;
        if Installable(records[k]) { keys := keys + [k]; }
        left := left - {k};
      }
      forall k | k in records ensures records[k].conflicted <==> HasRival(records, records[k]) { assert RecordOK(records, k); }
      forall j, k | j in keys && k in records && records[j].id == records[k].id && records[j].version == records[k].version
        ensures records[j].digest == records[k].digest
      {
        Unopposed(records, j, k);
      }
    }

    /** mark_source_missing */
    method MarkSourceMissing(source: Source, path: Text) returns (changed: bool)
      requires Inv(records)
      modifies this
      ensures Inv(records)
      ensures records == Drop(old(records), AtPath(old(records), source, path))
      ensures changed <==> AtPath(old(records), source, path) != {}
    {
      ghost var was, gone := records, AtPath(records, source, path);
      changed := false;
      var left := records.Keys;
      assert gone - left == {} && Drop(was, {}) == was;
      while left != {}
        invariant left <= was.Keys
        invariant records == Drop(was, gone - left)
        invariant changed <==> gone - left != {}
      {
        var k :| k in left;
        Progress(was, gone, left, k);
        if records[k].source == source && records[k].sourcePath == path {
          records := records[k := Gone(records[k])];
          changed := true;
        }
        left := left - {k};
      }
      assert gone - left == gone;
      DropKeeps(was, gone);
    }

    /** reconcile_source_paths: how many records of the source have a path that is not available. */
    method ReconcileSourcePaths(source: Source, paths: seq<Text>) returns (changed: nat)
      requires Inv(records)
      modifies this
      ensures Inv(records)
      ensures records == Drop(old(records), NotAmong(old(records), source, paths))
      ensures changed == |NotAmong(old(records), source, paths)|
    {
      ghost var was, gone := records, NotAmong(records, source, paths);
      changed := 0;
      var left := records.Keys;
      assert gone - left == {} && Drop(was, {}) == was;
      while left != {}
        invariant left <= was.Keys
        invariant records == Drop(was, gone - left)
        invariant changed == |gone - left|
      {
        var k :| k in left;
        Progress(was, gone, left, k);
        if records[k].source == source && records[k].sourcePath !in paths {
          records := records[k := Gone(records[k])];
          changed := changed + 1;
        }
        left := left - {k};
      }
      assert gone - left == gone;
      DropKeeps(was, gone);
    }

    /** cached_json up to the text: the records, each once. */
    method Save() returns (rs: seq<Record>)
      requires Inv(records)
      ensures ListsAll(rs, records)
      ensures AddAll(map[], rs) == Ok(records)
    {
      rs := [];
      var left := records.Keys;
      while left != {}
        invariant left <= records.Keys
        invariant forall i :: 0 <= i < |rs| ==> KeyOf(rs[i]) in records && KeyOf(rs[i]) !in left && records[KeyOf(rs[i])] == rs[i]
        invariant DistinctKeys(rs)
        invariant forall k :: k in records && k !in left ==> Listed(rs, k)
      {
        var k :| k in left;
        assert RecordOK(records, k);
        ghost var before := rs;
        rs := rs + [records[k]];
        left := left - {k};
        forall q | q in records && q !in left ensures Listed(rs, q) { ListedMore(before, records[k], q); }
      }
      SaveThenLoad(records, rs);
    }

    /** from_cached_json from the list on: the first record that cannot be added fails the load. */
    static method Load(rs: seq<Record>) returns (catalog: PackageCatalog, result: Result<()>)
      ensures fresh(catalog) && Inv(catalog.records)
      ensures result.Ok? <==> AddAll(map[], rs).Ok?
      ensures result.Ok? ==> catalog.records == AddAll(map[], rs).value
      ensures result.Err? ==> result.error == AddAll(map[], rs).error
    {
      catalog := new PackageCatalog();
      for i := 0 to |rs|
        invariant fresh(catalog) && Inv(catalog.records)
        invariant AddAll(map[], rs) == AddAll(catalog.records, rs[i..])
      {
        assert rs[i..][0] == rs[i] && rs[i..][1..] == rs[i + 1..];
        result := catalog.AddRecord(rs[i]);
        if result.Err? { return; }
      }
      result := Ok(());
    }
  }

  /** One more record looked at: it has not been touched yet, and is if its source is gone. */
  lemma Progress(m: Records, gone: set<Key>, left: set<Key>, k: Key)
    requires k in left && k in m
    ensures k in Drop(m, gone - left) && Drop(m, gone - left)[k] == m[k]
    ensures k in gone ==> Drop(m, gone - (left - {k})) == Drop(m, gone - left)[k := Gone(m[k])]
    ensures k in gone ==> |gone - (left - {k})| == |gone - left| + 1 && gone - (left - {k}) != {}
    ensures k !in gone ==> gone - (left - {k}) == gone - left
  {
    if k in gone {
      assert gone - (left - {k}) == (gone - left) + {k};
    } else {
      assert gone - (left - {k}) == gone - left;
    }
  }

  /** Marking the keys found is what an addition does to the records already there. */
  lemma MarkedFields(before: Records, after: Records, keys: seq<Key>, record: Record)
    requires after.Keys == before.Keys
    requires forall k :: k in keys <==> k in before && Rivals(before[k], record)
    requires forall k :: k in after ==> after[k] == if k in keys then before[k].(conflicted := true) else before[k]
    ensures forall k :: k in before ==> after[k] == Marked(before[k], record)
    ensures HasRival(after, record) <==> HasRival(before, record)
  {
    forall k | k in before ensures Rivals(after[k], record) == Rivals(before[k], record) {}
    if HasRival(before, record) {
      var k :| k in before && Rivals(before[k], record);
      assert Rivals(after[k], record);
    }
  }
}
