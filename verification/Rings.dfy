/** FreeRTOS lists by value: the items in order from the end marker, and where pxIndex stands. */
module Rings {

  const MAX_DELAY := 0xFFFF_FFFF   // portMAX_DELAY
  type Tick = n: int | 0 <= n <= MAX_DELAY

  datatype Option<T> = None | Some(value: T)

  /** The unsigned difference of two tick counts. */
  function Elapsed(now: Tick, since: Tick): (n: Tick)
    ensures since + n == now || since + n == now + MAX_DELAY + 1
  {
    (now - since) % 0x1_0000_0000
  }

  /** `at` is 0 when pxIndex is the end marker and k when it is the k-th item. */
  datatype Ring<T> = Ring(items: seq<T>, at: nat) {
    ghost predicate Valid() {
      at <= |items| && NoDup(items)
    }
  }

  function InsertAt<T>(s: seq<T>, k: nat, x: T): seq<T>
    requires k <= |s|
  {
    s[..k] + [x] + s[k..]
  }

  function RemoveAt<T>(s: seq<T>, k: nat): seq<T>
    requires k < |s|
  {
    s[..k] + s[k + 1..]
  }

  /** A new item goes in at position `k`; pxIndex stays on the item it is on. */
  function Insert<T>(r: Ring<T>, k: nat, x: T): Ring<T>
    requires k <= |r.items|
  {
    Ring(InsertAt(r.items, k, x), if r.at > k then r.at + 1 else r.at)
  }

  /** vListInsertEnd puts the new item just before pxIndex. */
  function InsertEnd<T>(r: Ring<T>, x: T): Ring<T>
    requires r.at <= |r.items|
  {
    Insert(r, if r.at == 0 then |r.items| else r.at - 1, x)
  }

  /** uxListRemove: pxIndex steps back if it is on the removed item. */
  function Remove<T>(r: Ring<T>, k: nat): Ring<T>
    requires k < |r.items|
  {
    Ring(RemoveAt(r.items, k), if r.at > k then r.at - 1 else r.at)
  }

  /** listGET_OWNER_OF_NEXT_ENTRY moves pxIndex on, past the end marker. */
  function Next<T>(r: Ring<T>): Ring<T>
    requires r.items != [] && r.at <= |r.items|
  {
    r.(at := if r.at < |r.items| then r.at + 1 else 1)
  }

  /** The items in the order in which Next will reach them. */
  ghost function Upcoming<T>(r: Ring<T>): seq<T>
    requires r.at <= |r.items|
  {
    r.items[r.at..] + r.items[..r.at]
  }

  /** Where vListInsert puts the value `v`: in front of the first larger value. */
  function Position(vs: seq<int>, v: int): (k: nat)
    ensures k <= |vs|
    ensures forall i :: 0 <= i < k ==> vs[i] <= v
    ensures k < |vs| ==> vs[k] > v
  {
    if vs == [] || vs[0] > v then 0 else Position(vs[1..], v) + 1
  }

  ghost predicate Sorted(vs: seq<int>) {
    forall i, j :: 0 <= i < j < |vs| ==> vs[i] <= vs[j]
  }

  /** Sorted insertion stays sorted. */
  lemma SortedInsert(vs: seq<int>, v: int)
    requires Sorted(vs)
    ensures Sorted(InsertAt(vs, Position(vs, v), v))
  {}

  /** The insertion point is the only one that keeps the list sorted and comes after all equal
      values: every item up to it is at most `v`, every item from it on is larger. */
  lemma PositionUnique(vs: seq<int>, v: int, k: nat)
    requires Sorted(vs) && k <= |vs|
    ensures k == Position(vs, v) <==>
            Sorted(InsertAt(vs, k, v)) && forall i :: 0 <= i < |vs| && vs[i] == v ==> i < k
  {
    var p := Position(vs, v);
    var t := InsertAt(vs, k, v);
    SortedInsert(vs, v);
    assert p < k ==> t[p] == vs[p] && t[k] == v;
    assert k < p ==> t[k] == v && t[k + 1] == vs[k];
  }

  /** portMAX_DELAY goes last, whatever the list holds. */
  lemma {:induction false} PositionOfMax(vs: seq<int>)
    requires forall v :: v in vs ==> v <= MAX_DELAY
    ensures Position(vs, MAX_DELAY) == |vs|
  {
    if vs != [] {
      assert vs[0] in vs && forall v :: v in vs[1..] ==> v in vs;
      PositionOfMax(vs[1..]);
    }
  }

  /** One step of Next serves the first upcoming item and sends it to the back. */
  lemma NextRotates<T>(r: Ring<T>)
    requires r.Valid() && r.items != []
    ensures Next(r).Valid() && Next(r).items[Next(r).at - 1] == Upcoming(r)[0]
    ensures Upcoming(Next(r)) == Upcoming(r)[1..] + [Upcoming(r)[0]]
  {
    if r.at == |r.items| {
      assert r.items == [r.items[0]] + r.items[1..];
    }
  }

  ghost function Advance<T>(r: Ring<T>, n: nat): Ring<T>
    requires r.items != [] && r.at <= |r.items|
    decreases n
  {
    if n == 0 then r else Advance(Next(r), n - 1)
  }

  /** Equal shares: within one round every item is reached, each at its place in Upcoming. */
  lemma {:induction false} RoundRobin<T>(r: Ring<T>, n: nat)
    requires r.Valid() && n < |r.items|
    ensures var s := Advance(r, n + 1);
            s.items == r.items && s.at > 0 && s.at <= |s.items| && s.items[s.at - 1] == Upcoming(r)[n]
    decreases n
  {
    NextRotates(r);
    if n > 0 {
      RoundRobin(Next(r), n - 1);
    } else {
      assert Advance(r, 1) == Advance(Next(r), 0);
    }
  }

  /** The promise that a new item is reached after every other one holds exactly when pxIndex
      stands at the end marker; otherwise the item pxIndex is on comes after the new one. */
  lemma InsertEndIsLast<T>(r: Ring<T>, x: T)
    requires r.Valid() && x !in r.items
    ensures InsertEnd(r, x).Valid()
    ensures Upcoming(InsertEnd(r, x)) ==
            if r.at == 0 then Upcoming(r) + [x] else InsertAt(Upcoming(r), |r.items| - 1, x)
    ensures Upcoming(InsertEnd(r, x))[|r.items|] == x <==> r.at == 0
  {
    var n, q := |r.items|, InsertEnd(r, x);
    InsertValid(r, if r.at == 0 then n else r.at - 1, x);
    if r.at == 0 {
      assert Upcoming(q) == r.items + [x];
      assert Upcoming(r) == r.items;
    } else {
      assert q.items[q.at..] == r.items[r.at..];
      assert q.items[..q.at] == r.items[..r.at - 1] + [x] + [r.items[r.at - 1]];
      assert Upcoming(r)[..n - 1] == r.items[r.at..] + r.items[..r.at - 1];
      assert Upcoming(r)[n - 1..] == [r.items[r.at - 1]];
      assert Upcoming(q) == Upcoming(r)[..n - 1] + [x] + Upcoming(r)[n - 1..];
      assert Upcoming(q)[n] == r.items[r.at - 1];
    }
  }

  /** Two items, the first just served: a third one inserted now is served before that one comes round again. */
  lemma NotServedLast()
    ensures var r := Next(InsertEnd(InsertEnd(Ring([], 0), 1), 2));
            && r == Ring([1, 2], 1) && r.Valid() && Upcoming(InsertEnd(r, 3)) == [2, 3, 1]
  {
    assert InsertEnd(Ring([], 0), 1) == Ring([1], 0);
    assert InsertEnd(Ring([1], 0), 2) == Ring([1, 2], 0);
    assert InsertEnd(Ring([1, 2], 1), 3) == Ring([3, 1, 2], 2);
  }

  lemma InsertValid<T>(r: Ring<T>, k: nat, x: T)
    requires r.Valid() && x !in r.items && k <= |r.items|
    ensures Insert(r, k, x).Valid()
  {}

  lemma RemoveValid<T>(r: Ring<T>, k: nat)
    requires r.Valid() && k < |r.items|
    ensures Remove(r, k).Valid() && r.items[k] !in Remove(r, k).items
    ensures forall x :: x in Remove(r, k).items ==> x in r.items
  {}

  /** Removal undoes insertion, at any position. */
  lemma RemoveUndoesInsert<T>(r: Ring<T>, k: nat, x: T)
    requires r.Valid() && x !in r.items && k <= |r.items|
    ensures Remove(Insert(r, k, x), k) == r
  {
    var s := InsertAt(r.items, k, x);
    assert s[..k] == r.items[..k] && s[k + 1..] == r.items[k..];
  }

  // ----- plain queues --------------------------------------------------------

  ghost predicate NoDup<T>(q: seq<T>) {
    forall i, j :: 0 <= i < j < |q| ==> q[i] != q[j]
  }

  /** The place of `x`, the first if there are several. */
  function IndexOf<T(==)>(q: seq<T>, x: T): (k: nat)
    requires x in q
    ensures k < |q| && q[k] == x
  {
    if q[0] == x then 0 else IndexOf(q[1..], x) + 1
  }

  /** `q` with `x` taken out. */
  function Without<T(==,!new)>(q: seq<T>, x: T): (r: seq<T>)
    ensures forall y :: y in r <==> y in q && y != x
  {
    if q == [] then [] else if q[0] == x then Without(q[1..], x) else [q[0]] + Without(q[1..], x)
  }

  lemma {:induction false} WithoutSame<T(!new)>(q: seq<T>, x: T)
    ensures x !in q ==> Without(q, x) == q
  {
    if q != [] { WithoutSame(q[1..], x); }
  }

  lemma {:induction false} WithoutNoDup<T(!new)>(q: seq<T>, x: T)
    requires NoDup(q)
    ensures NoDup(Without(q, x))
    ensures q != [] && x == q[0] ==> Without(q, x) == q[1..]
  {
    if q != [] {
      WithoutNoDup(q[1..], x);
      WithoutSame(q[1..], x);
      if q[0] != x {
        var r := Without(q[1..], x);
        forall i, j | 0 <= i < j < |r| + 1 ensures ([q[0]] + r)[i] != ([q[0]] + r)[j] {
          assert r[j - 1] in q[1..];
        }
      }
    }
  }

  /** What remains keeps its order: `m` says where each item came from. */
  lemma {:induction false} WithoutOrder<T(!new)>(q: seq<T>, x: T) returns (m: seq<nat>)
    ensures |m| == |Without(q, x)|
    ensures forall i :: 0 <= i < |m| ==> m[i] < |q| && q[m[i]] == Without(q, x)[i]
    ensures forall i, j :: 0 <= i < j < |m| ==> m[i] < m[j]
  {
    if q == [] {
      m := [];
    } else {
      var r := WithoutOrder(q[1..], x);
      m := seq(|r|, i requires 0 <= i < |r| => r[i] + 1);
      if q[0] != x {
        m := [0] + m;
      }
    }
  }

  lemma InsertMembers<T>(q: seq<T>, k: nat, x: T)
    requires k <= |q|
    ensures forall y :: y in InsertAt(q, k, x) <==> y in q || y == x
  {
    assert q == q[..k] + q[k..];
  }

  lemma InsertNoDup<T>(q: seq<T>, k: nat, x: T)
    requires k <= |q| && NoDup(q) && x !in q
    ensures NoDup(InsertAt(q, k, x))
  {}

  /** Taking an item out leaves the turns of all others as they were: nobody is skipped, even when the item just served
      is the one that goes. */
  lemma RemoveKeepsTurns<T(!new)>(r: Ring<T>, k: nat)
    requires r.Valid() && k < |r.items|
    ensures Upcoming(Remove(r, k)) == Without(Upcoming(r), r.items[k])
  {
    var x := r.items[k];
    var a, b := r.items[r.at..], r.items[..r.at];
    WithoutBoth(a, b, x);
    RemoveHalves(r, k);
    if k < r.at {
      WithoutOnly(b, k, x);
      assert x !in a;
      WithoutSame(a, x);
    } else {
      WithoutOnly(a, k - r.at, x);
      assert x !in b;
      WithoutSame(b, x);
    }
  }

  lemma RemoveHalves<T(!new)>(r: Ring<T>, k: nat)
    requires r.at <= |r.items| && k < |r.items|
    ensures Upcoming(Remove(r, k)) == if k < r.at then r.items[r.at..] + RemoveAt(r.items[..r.at], k) else RemoveAt(r.items[r.at..], k - r.at) + r.items[..r.at]
  {
    var s := Remove(r, k);
    if k < r.at {
      assert s.items[s.at..] == r.items[r.at..] && s.items[..s.at] == RemoveAt(r.items[..r.at], k);
    } else {
      assert s.items[s.at..] == RemoveAt(r.items[r.at..], k - r.at) && s.items[..s.at] == r.items[..r.at];
    }
  }

  lemma {:induction false} WithoutBoth<T(!new)>(a: seq<T>, b: seq<T>, x: T)
    ensures Without(a + b, x) == Without(a, x) + Without(b, x)
  {
    if a == [] {
      assert a + b == b;
    } else {
      assert (a + b)[1..] == a[1..] + b;
      WithoutBoth(a[1..], b, x);
    }
  }

  lemma {:induction false} WithoutOnly<T(!new)>(q: seq<T>, k: nat, x: T)
    requires NoDup(q) && k < |q| && q[k] == x
    ensures Without(q, x) == RemoveAt(q, k)
  {
    if k == 0 {
      assert x !in q[1..];
      WithoutSame(q[1..], x);
    } else {
      WithoutOnly(q[1..], k - 1, x);
      assert RemoveAt(q, k) == [q[0]] + RemoveAt(q[1..], k - 1);
    }
  }
}
