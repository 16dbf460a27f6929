/** The heap as a row of adjacent blocks, described apart from the pointers that link them.
    Heap.dfy ties the pointer code to the functions defined here. */
module HeapBlocks {

  const HEADER := 8          // xHeapStructSize: a pointer and a size_t, rounded to the port's alignment
  const ALIGNMENT := 8       // portBYTE_ALIGNMENT
  const MIN_BLOCK := 16      // heapMINIMUM_BLOCK_SIZE
  const SIZE_MAX := 0xFFFF_FFFF
  const TOP_BIT := 0x8000_0000

  predicate Aligned(n: int) { n % 8 == 0 }

  type Word = n: int | 0 <= n <= SIZE_MAX

  datatype Block = Block(addr: int, size: int, live: bool) {
    function End(): int { addr + size }
  }

  /** `bs` covers [lo, hi) without gap or overlap, in address order. */
  ghost predicate Tiles(bs: seq<Block>, lo: int, hi: int) {
    if bs == [] then lo == hi
    else
      && bs[0].addr == lo
      && bs[0].size >= MIN_BLOCK
      && Aligned(bs[0].size)
      && Tiles(bs[1..], bs[0].End(), hi)
  }

  /** No two neighbours are both free. */
  ghost predicate Coalesced(bs: seq<Block>) {
    |bs| > 1 ==> (bs[0].live || bs[1].live) && Coalesced(bs[1..])
  }

  ghost function FreeBytes(bs: seq<Block>): (n: int) {
    if bs == [] then 0 else (if bs[0].live then 0 else bs[0].size) + FreeBytes(bs[1..])
  }

  ghost function Live(bs: seq<Block>): set<Block> {
    set b | b in bs && b.live
  }

  /** The free list: address and size of every free block, lowest address first. */
  ghost function FreeList(bs: seq<Block>): seq<(int, int)> {
    if bs == [] then [] else (if bs[0].live then [] else [(bs[0].addr, bs[0].size)]) + FreeList(bs[1..])
  }

  /** Some free block holds `want` bytes. */
  ghost predicate Fits(bs: seq<Block>, want: int) {
    exists b :: b in bs && !b.live && want <= b.size
  }

  /** The block length pvPortMalloc asks for: header added, rounded up to the
      alignment, with 0 standing for a request that is empty or overflows. */
  function BlockSizeFor(wanted: Word): Word {
    if wanted == 0 then 0
    else if wanted > SIZE_MAX - HEADER then 0
    else
      var w := wanted + HEADER;
      if Aligned(w) then w
      else
        var extra := ALIGNMENT - w % 8;
        if w > SIZE_MAX - extra then 0 else w + extra
  }

  /** What first fit does to a fitting free block: split it when the rest is big enough, else hand it over whole. */
  ghost function Carve(f: Block, want: int): seq<Block> {
    if f.size - want > MIN_BLOCK
    then [Block(f.addr, want, true), Block(f.addr + want, f.size - want, false)]
    else [Block(f.addr, f.size, true)]
  }

  /** First fit. */
  ghost function Take(bs: seq<Block>, want: int): seq<Block> {
    if bs == [] then []
    else if !bs[0].live && want <= bs[0].size then Carve(bs[0], want) + bs[1..]
    else [bs[0]] + Take(bs[1..], want)
  }

  /** The block that first fit picks. */
  ghost function Chosen(bs: seq<Block>, want: int): (f: Block)
    requires Fits(bs, want)
    ensures f in bs && !f.live && want <= f.size
  {
    if !bs[0].live && want <= bs[0].size then bs[0] else Chosen(bs[1..], want)
  }

  /** The live block that comes out of Chosen. */
  ghost function Granted(bs: seq<Block>, want: int): Block
    requires Fits(bs, want)
  {
    Carve(Chosen(bs, want), want)[0]
  }

  /** Put `b` in front of `bs`, merging two free neighbours into one. */
  ghost function Cons(b: Block, bs: seq<Block>): seq<Block> {
    if bs != [] && !b.live && !bs[0].live
    then [Block(b.addr, b.size + bs[0].size, false)] + bs[1..]
    else [b] + bs
  }

  /** Free the block at `addr`. */
  ghost function Release(bs: seq<Block>, addr: int): seq<Block> {
    if bs == [] then []
    else if bs[0].addr == addr then Cons(bs[0].(live := false), bs[1..])
    else Cons(bs[0], Release(bs[1..], addr))
  }

  // ----- tilings -------------------------------------------------------

  lemma {:induction false} TilesJoin(a: seq<Block>, b: seq<Block>, lo: int, mid: int, hi: int)
    requires Tiles(a, lo, mid) && Tiles(b, mid, hi)
    ensures Tiles(a + b, lo, hi)
  {
    if a == [] {
      assert a + b == b;
    } else {
      TilesJoin(a[1..], b, a[0].End(), mid, hi);
      assert (a + b)[1..] == a[1..] + b;
    }
  }

  /** Every block of a tiling lies inside it. */
  lemma {:induction false} TilesBounds(bs: seq<Block>, lo: int, hi: int)
    requires Tiles(bs, lo, hi)
    ensures lo <= hi
    ensures forall b :: b in bs ==> lo <= b.addr && b.End() <= hi && b.size >= MIN_BLOCK && Aligned(b.size)
    ensures bs != [] ==> forall b :: b in bs[1..] ==> bs[0].End() <= b.addr
  {
    if bs != [] {
      TilesBounds(bs[1..], bs[0].End(), hi);
      forall b | b in bs
        ensures lo <= b.addr && b.End() <= hi && b.size >= MIN_BLOCK && Aligned(b.size)
      {
        if b != bs[0] { assert b in bs[1..]; }
      }
    }
  }

  /** Two different blocks of a tiling do not overlap, payload and header included. */
  lemma {:induction false} BlocksDisjoint(bs: seq<Block>, lo: int, hi: int, b: Block, c: Block)
    requires Tiles(bs, lo, hi) && b in bs && c in bs && b != c
    ensures b.End() <= c.addr || c.End() <= b.addr
  {
    TilesBounds(bs, lo, hi);
    if b == bs[0] {
      assert c in bs[1..];
    } else if c == bs[0] {
      assert b in bs[1..];
    } else {
      BlocksDisjoint(bs[1..], bs[0].End(), hi, b, c);
    }
  }

  /** If every block starts aligned when the first does. */
  lemma {:induction false} BlocksAligned(bs: seq<Block>, lo: int, hi: int)
    requires Tiles(bs, lo, hi) && Aligned(lo)
    ensures forall b :: b in bs ==> Aligned(b.addr)
  {
    if bs != [] {
      BlocksAligned(bs[1..], bs[0].End(), hi);
      assert forall b :: b in bs ==> b == bs[0] || b in bs[1..];
    }
  }

  lemma {:induction false} CoalescedJoin(a: seq<Block>, b: seq<Block>)
    requires Coalesced(a) && Coalesced(b)
    requires a != [] && b != [] ==> a[|a| - 1].live || b[0].live
    ensures Coalesced(a + b)
  {
    if a == [] {
      assert a + b == b;
    } else {
      assert (a + b)[1..] == a[1..] + b;
      CoalescedJoin(a[1..], b);
    }
  }

  lemma {:induction false} FreeBytesJoin(a: seq<Block>, b: seq<Block>)
    ensures FreeBytes(a + b) == FreeBytes(a) + FreeBytes(b)
  {
    if a == [] {
      assert a + b == b;
    } else {
      assert (a + b)[1..] == a[1..] + b;
      FreeBytesJoin(a[1..], b);
    }
  }

  /** The free-byte count bounds every free block, so it never stands in the way of a request that some block could serve. */
  lemma {:induction false} FreeBytesBound(bs: seq<Block>, lo: int, hi: int)
    requires Tiles(bs, lo, hi)
    ensures 0 <= FreeBytes(bs) <= hi - lo
    ensures forall b :: b in bs && !b.live ==> b.size <= FreeBytes(bs)
  {
    if bs != [] {
      FreeBytesBound(bs[1..], bs[0].End(), hi);
    }
  }

  // ----- the canonical form --------------------------------------------

  /** The free list is strictly address-ordered, and no two of its blocks touch. */
  lemma {:induction false} FreeListOrdered(bs: seq<Block>, lo: int, hi: int)
    requires Tiles(bs, lo, hi) && Coalesced(bs)
    ensures forall i, j :: 0 <= i < j < |FreeList(bs)| ==> FreeList(bs)[i].0 + FreeList(bs)[i].1 < FreeList(bs)[j].0
    ensures forall i :: 0 <= i < |FreeList(bs)| ==> lo <= FreeList(bs)[i].0
    ensures bs != [] && bs[0].live ==> forall i :: 0 <= i < |FreeList(bs)| ==> lo < FreeList(bs)[i].0
    decreases |bs|
  {
    if bs != [] {
      var rest := bs[1..];
      FreeListOrdered(rest, bs[0].End(), hi);
      if !bs[0].live {
        assert rest != [] ==> rest[0] == bs[1] && rest[0].live;
        assert FreeList(bs) == [(bs[0].addr, bs[0].size)] + FreeList(rest);
      }
    }
  }

  /** It links exactly the unallocated blocks, and the free count is the sum of their sizes. */
  lemma {:induction false} FreeListExact(bs: seq<Block>)
    ensures forall a, n :: (a, n) in FreeList(bs) <==> Block(a, n, false) in bs
    ensures FreeBytes(bs) == SizeSum(FreeList(bs))
  {
    if bs != [] {
      FreeListExact(bs[1..]);
      assert bs == [bs[0]] + bs[1..];
      if bs[0].live {
        assert FreeList(bs) == FreeList(bs[1..]);
      } else {
        assert FreeList(bs)[1..] == FreeList(bs[1..]);
      }
    }
  }

  ghost function SizeSum(free: seq<(int, int)>): int { if free == [] then 0 else free[0].1 + SizeSum(free[1..]) }

  /** A coalesced tiling is determined by its live blocks. */
  lemma {:induction false} Canonical(a: seq<Block>, b: seq<Block>, lo: int, hi: int)
    requires Tiles(a, lo, hi) && Tiles(b, lo, hi) && Coalesced(a) && Coalesced(b)
    requires Live(a) == Live(b)
    ensures a == b
    decreases |a| + |b|
  {
    TilesBounds(a, lo, hi);
    TilesBounds(b, lo, hi);
    if a != [] && b != [] {
      HeadsAgree(a, b, lo, hi);
      HeadsAgree(b, a, lo, hi);
      TailLive(a, lo, hi);
      TailLive(b, lo, hi);
      Canonical(a[1..], b[1..], a[0].End(), hi);
    }
  }

  lemma TailLive(bs: seq<Block>, lo: int, hi: int)
    requires Tiles(bs, lo, hi) && bs != []
    ensures Live(bs[1..]) == Live(bs) - {bs[0]}
  {
    TilesBounds(bs, lo, hi);
    assert bs == [bs[0]] + bs[1..];
  }

  /** The first block of one tiling is no longer than that of the other, and live only if that is. */
  lemma HeadsAgree(a: seq<Block>, b: seq<Block>, lo: int, hi: int)
    requires Tiles(a, lo, hi) && Tiles(b, lo, hi) && Coalesced(a)
    requires Live(a) == Live(b) && a != [] && b != []
    ensures a[0].live ==> b[0] == a[0]
    ensures !a[0].live ==> !b[0].live && a[0].size >= b[0].size
  {
    TilesBounds(a, lo, hi);
    TilesBounds(b, lo, hi);
    assert a[0].live ==> a[0] in Live(b);
    assert b[0].live ==> b[0] in Live(a);
    assert |a| > 1 && a[1].live ==> a[1] in Live(b);
  }

  // ----- allocation ----------------------------------------------------

  /** Allocation keeps the heap tiled and coalesced and charges exactly the granted bytes. */
  lemma {:induction false} TakeKeeps(bs: seq<Block>, lo: int, hi: int, want: int)
    requires Tiles(bs, lo, hi) && Coalesced(bs)
    requires want >= MIN_BLOCK && Aligned(want) && Fits(bs, want)
    ensures Tiles(Take(bs, want), lo, hi) && Coalesced(Take(bs, want))
    ensures Take(bs, want) != [] && (Take(bs, want)[0].live || !bs[0].live)
    ensures FreeBytes(Take(bs, want)) == FreeBytes(bs) - Granted(bs, want).size
  {
    var f := bs[0];
    if !f.live && want <= f.size {
      TilesBounds(bs, lo, hi);
      CarveKeeps(f, want);
      TilesJoin(Carve(f, want), bs[1..], lo, f.End(), hi);
      CoalescedJoin(Carve(f, want), bs[1..]);
      FreeBytesJoin(Carve(f, want), bs[1..]);
    } else {
      assert Fits(bs[1..], want);
      TakeKeeps(bs[1..], f.End(), hi, want);
      var t := Take(bs[1..], want);
      assert ([f] + t)[1..] == t;
    }
  }

  /** The block handed out is the lowest one that fits, long enough with at most
      MIN_BLOCK to spare, and joins the live blocks as a new one. */
  lemma {:induction false} TakeGrants(bs: seq<Block>, lo: int, hi: int, want: int)
    requires Tiles(bs, lo, hi) && Fits(bs, want)
    ensures Granted(bs, want).live && want <= Granted(bs, want).size <= want + MIN_BLOCK
    ensures Granted(bs, want).addr == Chosen(bs, want).addr
    ensures Granted(bs, want).size == want <==> Chosen(bs, want).size == want || Chosen(bs, want).size > want + MIN_BLOCK
    ensures Live(Take(bs, want)) == Live(bs) + {Granted(bs, want)}
    ensures forall l :: l in Live(bs) ==> l.addr != Granted(bs, want).addr
    ensures forall b :: b in bs && !b.live && want <= b.size ==> Granted(bs, want).addr <= b.addr
    ensures lo <= Granted(bs, want).addr
  {
    TilesBounds(bs, lo, hi);
    var f := bs[0];
    assert bs == [f] + bs[1..];
    LiveJoin([f], bs[1..]);
    if !f.live && want <= f.size {
      LiveJoin(Carve(f, want), bs[1..]);
      assert Carve(f, want)[0] in Carve(f, want);
    } else {
      assert Fits(bs[1..], want);
      TakeGrants(bs[1..], f.End(), hi, want);
      LiveJoin([f], Take(bs[1..], want));
    }
  }

  lemma LiveJoin(a: seq<Block>, b: seq<Block>)
    ensures Live(a + b) == Live(a) + Live(b)
  {}

  lemma CarveKeeps(f: Block, want: int)
    requires f.size >= want >= MIN_BLOCK && Aligned(want) && Aligned(f.size) && !f.live
    ensures Tiles(Carve(f, want), f.addr, f.End()) && Coalesced(Carve(f, want))
    ensures FreeBytes(Carve(f, want)) == f.size - Carve(f, want)[0].size
    ensures Live(Carve(f, want)) == {Carve(f, want)[0]}
  {
    var s := Carve(f, want);
    if f.size - want > MIN_BLOCK {
      assert s[1..] == [Block(f.addr + want, f.size - want, false)];
      assert s[1..][1..] == [];
      assert FreeBytes(s[1..]) == f.size - want;
    } else {
      assert s[1..] == [];
    }
    assert s[0] in s;
  }

  // ----- release -------------------------------------------------------

  /** Cons keeps a tiling tiled and coalesced and loses no bytes. */
  lemma ConsKeeps(b: Block, bs: seq<Block>, hi: int)
    requires Tiles(bs, b.End(), hi) && Coalesced(bs) && b.size >= MIN_BLOCK && Aligned(b.size)
    ensures Tiles(Cons(b, bs), b.addr, hi) && Coalesced(Cons(b, bs))
    ensures FreeBytes(Cons(b, bs)) == FreeBytes([b]) + FreeBytes(bs)
    ensures Live(Cons(b, bs)) == Live([b]) + Live(bs)
  {
    if bs != [] && !b.live && !bs[0].live {
      var m := Block(b.addr, b.size + bs[0].size, false);
      assert ([m] + bs[1..])[1..] == bs[1..];
      assert bs == [bs[0]] + bs[1..];
      LiveJoin([bs[0]], bs[1..]);
      LiveJoin([m], bs[1..]);
      assert Live([m]) == {} == Live([bs[0]]);
    } else {
      assert ([b] + bs)[1..] == bs;
      LiveJoin([b], bs);
    }
  }

  /** Freeing keeps the heap tiled and coalesced, removes exactly that block from
      the live ones and gives exactly its bytes back. */
  lemma {:induction false} ReleaseKeeps(bs: seq<Block>, lo: int, hi: int, x: Block)
    requires Tiles(bs, lo, hi) && Coalesced(bs) && x in Live(bs)
    ensures Tiles(Release(bs, x.addr), lo, hi) && Coalesced(Release(bs, x.addr))
    ensures Live(Release(bs, x.addr)) == Live(bs) - {x}
    ensures FreeBytes(Release(bs, x.addr)) == FreeBytes(bs) + x.size
  {
    TilesBounds(bs, lo, hi);
    TailLive(bs, lo, hi);
    if bs[0].addr == x.addr {
      assert bs[0] == x;
      ConsKeeps(x.(live := false), bs[1..], hi);
      assert Live([x.(live := false)]) == {};
    } else {
      assert x in bs[1..];
      ReleaseKeeps(bs[1..], bs[0].End(), hi, x);
      ConsKeeps(bs[0], Release(bs[1..], x.addr), hi);
      assert Live([bs[0]]) == if bs[0].live then {bs[0]} else {};
    }
  }

  // ----- whole runs ----------------------------------------------------

  /** Give back the blocks at `addrs`, in that order. */
  ghost function ReleaseAll(bs: seq<Block>, addrs: seq<int>): seq<Block>
    decreases |addrs|
  {
    if addrs == [] then bs else ReleaseAll(Release(bs, addrs[0]), addrs[1..])
  }

  ghost function At(bs: seq<Block>, addrs: seq<int>): set<Block> {
    set b | b in Live(bs) && b.addr in addrs
  }

  /** `addrs` names live blocks, each once. */
  ghost predicate Names(bs: seq<Block>, addrs: seq<int>) {
    && (forall i, j :: 0 <= i < j < |addrs| ==> addrs[i] != addrs[j])
    && (forall a :: a in addrs ==> exists b :: b in Live(bs) && b.addr == a)
  }

  lemma {:induction false} ReleaseAllKeeps(bs: seq<Block>, lo: int, hi: int, addrs: seq<int>)
    requires Tiles(bs, lo, hi) && Coalesced(bs) && Names(bs, addrs)
    ensures Tiles(ReleaseAll(bs, addrs), lo, hi) && Coalesced(ReleaseAll(bs, addrs))
    ensures Live(ReleaseAll(bs, addrs)) == Live(bs) - At(bs, addrs)
    decreases |addrs|
  {
    if addrs != [] {
      assert addrs[0] in addrs;
      var x :| x in Live(bs) && x.addr == addrs[0];
      ReleaseKeeps(bs, lo, hi, x);
      var next := Release(bs, addrs[0]);
      forall a | a in addrs[1..] ensures exists b :: b in Live(next) && b.addr == a {
        assert a in addrs && a != addrs[0];
        var b :| b in Live(bs) && b.addr == a;
        assert b in Live(next);
      }
      ReleaseAllKeeps(next, lo, hi, addrs[1..]);
      forall b | b in Live(bs) && b.addr == x.addr ensures b == x {
        if b != x { BlocksDisjoint(bs, lo, hi, b, x); TilesBounds(bs, lo, hi); }
      }
      assert addrs == [addrs[0]] + addrs[1..];
      assert At(bs, addrs) == At(next, addrs[1..]) + {x};
    }
  }

  /** Freeing a set of live blocks gives the same heap whatever the order. */
  lemma ReleaseOrderIrrelevant(bs: seq<Block>, lo: int, hi: int, xs: seq<int>, ys: seq<int>)
    requires Tiles(bs, lo, hi) && Coalesced(bs) && Names(bs, xs) && Names(bs, ys)
    requires forall a :: a in xs <==> a in ys
    ensures ReleaseAll(bs, xs) == ReleaseAll(bs, ys)
  {
    ReleaseAllKeeps(bs, lo, hi, xs);
    ReleaseAllKeeps(bs, lo, hi, ys);
    assert At(bs, xs) == At(bs, ys);
    Canonical(ReleaseAll(bs, xs), ReleaseAll(bs, ys), lo, hi);
  }

  /** Freeing every live block leaves the single block the heap started with. */
  lemma ReleaseEverything(bs: seq<Block>, lo: int, hi: int, xs: seq<int>)
    requires Tiles(bs, lo, hi) && Coalesced(bs) && Names(bs, xs)
    requires hi - lo >= MIN_BLOCK && Aligned(hi - lo)
    requires forall b :: b in Live(bs) ==> b.addr in xs
    ensures ReleaseAll(bs, xs) == [Block(lo, hi - lo, false)]
  {
    ReleaseAllKeeps(bs, lo, hi, xs);
    var all := [Block(lo, hi - lo, false)];
    assert all[1..] == [];
    assert At(bs, xs) == Live(bs);
    assert Live(all) == {} == Live(ReleaseAll(bs, xs));
    Canonical(ReleaseAll(bs, xs), all, lo, hi);
  }

  /** Allocating and giving back at once restores every block, hence the free list. */
  lemma TakeThenRelease(bs: seq<Block>, lo: int, hi: int, want: int)
    requires Tiles(bs, lo, hi) && Coalesced(bs)
    requires want >= MIN_BLOCK && Aligned(want) && Fits(bs, want)
    ensures Release(Take(bs, want), Granted(bs, want).addr) == bs
  {
    var g := Granted(bs, want);
    TakeKeeps(bs, lo, hi, want);
    TakeGrants(bs, lo, hi, want);
    ReleaseKeeps(Take(bs, want), lo, hi, g);
    assert g !in Live(bs);
    assert Live(Release(Take(bs, want), g.addr)) == Live(bs);
    Canonical(Release(Take(bs, want), g.addr), bs, lo, hi);
  }

  /** One call on an initialised heap: a request, or giving back a payload's block. */
  datatype Call = Request(wanted: Word) | GiveBack(addr: int)

  ghost function After(bs: seq<Block>, call: Call): seq<Block> {
    match call
    case Request(n) =>
      var w := BlockSizeFor(n);
      if w > 0 && Fits(bs, w) then Take(bs, w) else bs
    case GiveBack(a) =>
      if exists b :: b in Live(bs) && b.addr == a then Release(bs, a) else bs
  }

  ghost function Run(bs: seq<Block>, calls: seq<Call>): seq<Block>
    decreases |calls|
  {
    if calls == [] then bs else Run(After(bs, calls[0]), calls[1..])
  }

  /** Every run keeps the heap tiled and coalesced. */
  lemma {:induction false} RunKeeps(bs: seq<Block>, lo: int, hi: int, calls: seq<Call>)
    requires Tiles(bs, lo, hi) && Coalesced(bs)
    ensures Tiles(Run(bs, calls), lo, hi) && Coalesced(Run(bs, calls))
    decreases |calls|
  {
    if calls != [] {
      match calls[0] {
        case Request(n) =>
          BlockSizeRounds(n);
          if BlockSizeFor(n) > 0 && Fits(bs, BlockSizeFor(n)) { TakeKeeps(bs, lo, hi, BlockSizeFor(n)); }
        case GiveBack(a) =>
          if b :| b in Live(bs) && b.addr == a { ReleaseKeeps(bs, lo, hi, b); }
      }
      RunKeeps(After(bs, calls[0]), lo, hi, calls[1..]);
    }
  }

  /** History does not matter: two runs that end with the same live blocks end with the same free list. */
  lemma RunsAgree(bs: seq<Block>, lo: int, hi: int, calls: seq<Call>, calls': seq<Call>)
    requires Tiles(bs, lo, hi) && Coalesced(bs)
    requires Live(Run(bs, calls)) == Live(Run(bs, calls'))
    ensures FreeList(Run(bs, calls)) == FreeList(Run(bs, calls'))
  {
    RunKeeps(bs, lo, hi, calls);
    RunKeeps(bs, lo, hi, calls');
    Canonical(Run(bs, calls), Run(bs, calls'), lo, hi);
  }

  /** The rounding rule: the least aligned size with room for the header and the payload, or 0 when a 32-bit size cannot hold it. */
  lemma BlockSizeRounds(wanted: Word)
    ensures var w := BlockSizeFor(wanted);
            && Aligned(w)
            && (w > 0 ==> wanted > 0 && wanted + HEADER <= w < wanted + HEADER + ALIGNMENT && w >= MIN_BLOCK)
            && (w == 0 <==> wanted == 0 || wanted + HEADER > SIZE_MAX - ALIGNMENT + 1)
  {}
}
