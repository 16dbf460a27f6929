/** Bytes, little-endian words and exclusive or, shared by the codecs. */
module Bytes {

  type Byte = b: int | 0 <= b < 256
  type Word32 = n: int | 0 <= n < 0x1_0000_0000

  /** Bitwise exclusive or. */
  function Xor(a: nat, b: nat): (c: nat)
    decreases a + b
  {
    if a == 0 && b == 0 then 0
    else (a % 2 + b % 2) % 2 + 2 * Xor(a / 2, b / 2)
  }

  lemma {:induction false} XorBound(a: nat, b: nat, k: nat)
    requires a < Pow2(k) && b < Pow2(k)
    ensures Xor(a, b) < Pow2(k)
    decreases k
  {
    if k > 0 && (a != 0 || b != 0) {
      XorBound(a / 2, b / 2, k - 1);
    }
  }

  ghost function Pow2(k: nat): nat { if k == 0 then 1 else 2 * Pow2(k - 1) }

  function XorByte(a: Byte, b: Byte): Byte {
    assert Pow2(8) == 256 by { assert Pow2(4) == 16; }
    XorBound(a, b, 8);
    Xor(a, b)
  }

  /** Equal results from an equal left side mean an equal right side. */
  lemma {:induction false} XorCancels(a: nat, b: nat, c: nat)
    requires Xor(a, b) == Xor(a, c)
    ensures b == c
    decreases a + b + c
  {
    if a + b + c > 0 {
      XorStep(a, b);
      XorStep(a, c);
      XorCancels(a / 2, b / 2, c / 2);
    }
  }

  lemma XorStep(a: nat, b: nat)
    ensures Xor(a, b) % 2 == (a % 2 + b % 2) % 2 && Xor(a, b) / 2 == Xor(a / 2, b / 2)
  {}

  lemma {:induction false} XorSymmetric(a: nat, b: nat)
    ensures Xor(a, b) == Xor(b, a)
    decreases a + b
  {
    if a != 0 || b != 0 { XorSymmetric(a / 2, b / 2); }
  }

  ghost function Pow256(k: nat): nat { if k == 0 then 1 else 256 * Pow256(k - 1) }

  /** `n` in `k` bytes, lowest first; higher bytes are dropped. */
  function LE(n: nat, k: nat): (s: seq<Byte>)
    ensures |s| == k
    decreases k
  {
    if k == 0 then [] else [n % 256] + LE(n / 256, k - 1)
  }

  /** Byte `i` is the digit of weight 256 to the power of `i`. */
  lemma {:induction false} LEDigit(n: nat, k: nat, i: nat)
    requires i < k
    ensures Pow256(i) > 0 && LE(n, k)[i] == n / Pow256(i) % 256
    decreases k
  {
    if i > 0 {
      LEDigit(n / 256, k - 1, i - 1);
      DivideTwice(n, Pow256(i - 1));
    }
  }

  lemma DivideTwice(n: nat, d: nat)
    requires d > 0
    ensures n / 256 / d == n / (256 * d)
  {
    var q, r := n / 256, n % 256;
    assert q == d * (q / d) + q % d;
    assert n == 256 * d * (q / d) + (256 * (q % d) + r);
    Quotient(n, 256 * d, q / d, 256 * (q % d) + r);
  }

  lemma Quotient(n: nat, d: nat, q: nat, r: nat)
    requires d > 0 && n == d * q + r && r < d
    ensures n / d == q
  {
    var p, t := n / d, n % d;
    assert n == d * p + t;
    assert p < q ==> d * (p + 1) <= d * q;
    assert q < p ==> d * (q + 1) <= d * p;
  }

  /** Exclusive or with all ones is the complement. */
  lemma {:induction false} XorComplement(a: nat, k: nat)
    requires a < Pow2(k)
    ensures Xor(a, Pow2(k) - 1) == Pow2(k) - 1 - a
    decreases k
  {
    if k > 0 {
      var ones := Pow2(k) - 1;
      assert ones % 2 == 1 && ones / 2 == Pow2(k - 1) - 1;
      XorComplement(a / 2, k - 1);
      XorStep(a, ones);
      assert Xor(a, ones) == 2 * (Xor(a, ones) / 2) + Xor(a, ones) % 2;
    }
  }

  /** The number a little-endian byte string stands for. */
  function Word(s: seq<Byte>): (n: nat)
    ensures n < Pow256(|s|)
  {
    if s == [] then 0 else s[0] + 256 * Word(s[1..])
  }

  lemma {:induction false} WordLE(n: nat, k: nat)
    requires n < Pow256(k)
    ensures Word(LE(n, k)) == n
    decreases k
  {
    if k > 0 {
      WordLE(n / 256, k - 1);
      assert LE(n, k)[1..] == LE(n / 256, k - 1);
    }
  }

  lemma Widths()
    ensures Pow256(2) == 0x1_0000 && Pow256(4) == 0x1_0000_0000
  {
    assert Pow256(3) == 256 * Pow256(2);
  }

  /** Two byte strings of one length that stand for one number are equal. */
  lemma {:induction false} WordInjective(s: seq<Byte>, t: seq<Byte>)
    requires |s| == |t| && Word(s) == Word(t)
    ensures s == t
  {
    if s != [] {
      WordInjective(s[1..], t[1..]);
      assert s == [s[0]] + s[1..] && t == [t[0]] + t[1..];
    }
  }

  function Concat(parts: seq<seq<Byte>>): seq<Byte> {
    if parts == [] then [] else parts[0] + Concat(parts[1..])
  }

  lemma ConcatSix(a: seq<Byte>, b: seq<Byte>, c: seq<Byte>, d: seq<Byte>, e: seq<Byte>, f: seq<Byte>)
    ensures Concat([a, b, c, d, e, f]) == a + (b + (c + (d + (e + f))))
  {
    assert [a, b, c, d, e, f][1..] == [b, c, d, e, f] && [b, c, d, e, f][1..] == [c, d, e, f];
    assert [c, d, e, f][1..] == [d, e, f] && [d, e, f][1..] == [e, f] && [e, f][1..] == [f] && [f][1..] == [];
    assert Concat([f]) == f;
    assert Concat([e, f]) == e + f;
    assert Concat([d, e, f]) == d + (e + f);
    assert Concat([c, d, e, f]) == c + (d + (e + f));
    assert Concat([b, c, d, e, f]) == b + (c + (d + (e + f)));
  }

  lemma {:induction false} ConcatAppend(parts: seq<seq<Byte>>, last: seq<Byte>)
    ensures Concat(parts + [last]) == Concat(parts) + last
  {
    if parts == [] {
      assert parts + [last] == [last] && [last][1..] == [];
    } else {
      assert (parts + [last])[1..] == parts[1..] + [last];
      ConcatAppend(parts[1..], last);
    }
  }

  // ----- places in a byte string -----------------------------------------------

  /** `part` stands in `raw` from `offset` on. */
  predicate At(raw: seq<Byte>, offset: nat, part: seq<Byte>) {
    offset + |part| <= |raw| && raw[offset..offset + |part|] == part
  }

  lemma AtBoth(raw: seq<Byte>, offset: nat, a: seq<Byte>, b: seq<Byte>)
    ensures At(raw, offset, a + b) <==> At(raw, offset, a) && At(raw, offset + |a|, b)
  {
    if offset + |a| + |b| <= |raw| {
      assert raw[offset..offset + |a| + |b|] == raw[offset..offset + |a|] + raw[offset + |a|..offset + |a| + |b|];
      assert a == (a + b)[..|a|] && b == (a + b)[|a|..];
    }
  }

  predicate BothAt(raw: seq<Byte>, offset: nat, a: seq<Byte>, b: seq<Byte>) {
    At(raw, offset, a) && At(raw, offset + |a|, b)
  }

  lemma AtParts(raw: seq<Byte>, offset: nat, whole: seq<Byte>, a: seq<Byte>, b: seq<Byte>)
    requires whole == a + b
    ensures |whole| == |a| + |b|
    ensures At(raw, offset, whole) <==> BothAt(raw, offset, a, b)
  {
    AtBoth(raw, offset, a, b);
  }

  lemma AtRest(raw: seq<Byte>, offset: nat, whole: seq<Byte>, a: seq<Byte>, b: seq<Byte>, next: nat)
    requires whole == a + b && At(raw, offset, a) && next == offset + |a|
    ensures At(raw, offset, whole) <==> At(raw, next, b)
    ensures offset + |whole| == next + |b|
  {
    AtBoth(raw, offset, a, b);
  }

  lemma AtSlice(raw: seq<Byte>, from: nat, to: nat, part: seq<Byte>)
    requires from <= to <= |raw|
    ensures raw[from..to] == part <==> At(raw, from, part) && to == from + |part|
  {}

  lemma AtOne(raw: seq<Byte>, offset: nat, b: Byte)
    ensures At(raw, offset, [b]) <==> offset < |raw| && raw[offset] == b
  {
    if offset < |raw| { assert raw[offset..offset + 1] == [raw[offset]]; }
  }

  /** A little-endian word is in its place. */
  lemma AtWord(raw: seq<Byte>, offset: nat, n: nat, k: nat)
    requires n < Pow256(k)
    ensures At(raw, offset, LE(n, k)) <==> offset + k <= |raw| && Word(raw[offset..offset + k]) == n
  {
    WordLE(n, k);
    if offset + k <= |raw| && Word(raw[offset..offset + k]) == n {
      WordInjective(raw[offset..offset + k], LE(n, k));
    }
  }
}
