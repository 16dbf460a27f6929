/** How a row of blocks is stored: a header per block, the free ones linked in address order. */
module HeapLinks {
  import opened HeapBlocks

  const NULL := 0

  /** BlockLink_t, with the top bit of xBlockSize split off as `live`. */
  datatype Cell = Cell(next: int, size: int, live: bool)
  type Memory = map<int, Cell>

  /** Address of the first free block, or `tail` when there is none. */
  ghost function FirstFree(bs: seq<Block>, tail: int): int {
    if bs == [] then tail else if bs[0].live then FirstFree(bs[1..], tail) else bs[0].addr
  }

  /** Every block of `bs` has its header in `mem`; each free one points at the
      next free one, the last at `tail`. */
  ghost predicate Chain(mem: Memory, bs: seq<Block>, tail: int) {
    bs != [] ==>
      && bs[0].addr in mem
      && mem[bs[0].addr] == (if bs[0].live then Cell(NULL, bs[0].size, true)
                             else Cell(FirstFree(bs[1..], tail), bs[0].size, false))
      && Chain(mem, bs[1..], tail)
  }

  /** A heap between `lo` and `tail`: list head at `head`, end marker at `tail`. */
  ghost predicate Laid(mem: Memory, bs: seq<Block>, head: int, lo: int, tail: int) {
    && Tiles(bs, lo, tail) && Coalesced(bs) && !(lo <= head <= tail)
    && head in mem && mem[head] == Cell(FirstFree(bs, tail), 0, false)
    && tail in mem && mem[tail] == Cell(NULL, 0, false)
    && Chain(mem, bs, tail)
  }

  /** The chain does not depend on memory outside its own headers. */
  lemma {:induction false} ChainFrame(mem: Memory, mem': Memory, bs: seq<Block>, tail: int)
    requires Chain(mem, bs, tail)
    requires forall b :: b in bs && b.addr in mem ==> b.addr in mem' && mem'[b.addr] == mem[b.addr]
    ensures Chain(mem', bs, tail)
  {
    if bs != [] {
      assert bs[0] in bs;
      ChainFrame(mem, mem', bs[1..], tail);
    }
  }

  lemma ChainCons(mem: Memory, f: Block, t: seq<Block>, tail: int)
    requires Chain(mem, t, tail) && f.addr in mem
    requires mem[f.addr] == if f.live then Cell(NULL, f.size, true) else Cell(FirstFree(t, tail), f.size, false)
    ensures Chain(mem, [f] + t, tail)
    ensures FirstFree([f] + t, tail) == if f.live then FirstFree(t, tail) else f.addr
  {
    assert ([f] + t)[1..] == t;
  }

  /** The row from its first free block on. */
  ghost function FromFree(bs: seq<Block>): (r: seq<Block>)
    ensures |r| <= |bs| && (r != [] ==> !r[0].live) && forall b :: b in r ==> b in bs
  {
    if bs == [] || !bs[0].live then bs else FromFree(bs[1..])
  }

  lemma {:induction false} FromFreeKeeps(mem: Memory, bs: seq<Block>, lo: int, tail: int) returns (lo': int)
    requires Tiles(bs, lo, tail) && Chain(mem, bs, tail)
    ensures lo <= lo' && Tiles(FromFree(bs), lo', tail) && Chain(mem, FromFree(bs), tail)
    ensures FirstFree(FromFree(bs), tail) == FirstFree(bs, tail)
    ensures FirstFree(bs, tail) == if FromFree(bs) == [] then tail else FromFree(bs)[0].addr
  {
    if bs == [] || !bs[0].live {
      lo' := lo;
    } else {
      lo' := FromFreeKeeps(mem, bs[1..], bs[0].End(), tail);
    }
  }

  lemma {:induction false} FromFreeList(bs: seq<Block>)
    ensures FreeList(FromFree(bs)) == FreeList(bs)
  {
    if bs != [] && bs[0].live {
      FromFreeList(bs[1..]);
    }
  }

  /** A walk over the free list has reached `block`, with the blocks `rest` from there on still to come. */
  ghost predicate Cursor(mem: Memory, rest: seq<Block>, block: int, lo: int, tail: int) {
    && 0 < lo && Tiles(rest, lo, tail) && Chain(mem, rest, tail) && tail in mem && mem[tail].next == NULL
    && block in mem
    && if rest == [] then block == tail
       else !rest[0].live && block == rest[0].addr && block < tail && mem[block].next != NULL
  }

  lemma CursorAt(mem: Memory, bs: seq<Block>, lo: int, tail: int) returns (rest: seq<Block>, lo': int)
    requires 0 < lo && Tiles(bs, lo, tail) && Chain(mem, bs, tail) && tail in mem && mem[tail].next == NULL
    ensures Cursor(mem, rest, FirstFree(bs, tail), lo', tail) && FreeList(rest) == FreeList(bs) && |rest| <= |bs|
  {
    rest := FromFree(bs);
    lo' := FromFreeKeeps(mem, bs, lo, tail);
    FromFreeList(bs);
    if rest != [] {
      TilesBounds(rest, lo', tail);
      FirstFreeBounds(rest[1..], rest[0].End(), tail);
    }
  }

  lemma CursorNext(mem: Memory, rest: seq<Block>, block: int, lo: int, tail: int) returns (rest': seq<Block>, lo': int)
    requires Cursor(mem, rest, block, lo, tail) && rest != []
    ensures Cursor(mem, rest', mem[block].next, lo', tail) && |rest'| < |rest|
    ensures FreeList(rest) == [(block, mem[block].size)] + FreeList(rest')
    ensures 0 < mem[block].size <= tail
  {
    TilesBounds(rest, lo, tail);
    rest', lo' := CursorAt(mem, rest[1..], rest[0].End(), tail);
  }

  // ----- allocation ----------------------------------------------------

  /** Address of the last free block before the one first fit takes, or `head`. */
  ghost function Previous(bs: seq<Block>, want: int, head: int): int {
    if bs == [] || (!bs[0].live && want <= bs[0].size) then head
    else Previous(bs[1..], want, if bs[0].live then head else bs[0].addr)
  }

  /** Live blocks in front do not matter to first fit. */
  lemma {:induction false} FromFreeFits(bs: seq<Block>, want: int, head: int)
    ensures Fits(FromFree(bs), want) <==> Fits(bs, want)
    ensures Fits(bs, want) ==> Chosen(FromFree(bs), want) == Chosen(bs, want)
    ensures Previous(FromFree(bs), want, head) == Previous(bs, want, head)
  {
    if bs != [] && bs[0].live {
      FromFreeFits(bs[1..], want, head);
      FitsTail(bs, want);
    }
  }

  lemma FitsTail(bs: seq<Block>, want: int)
    requires bs != []
    ensures Fits(bs, want) <==> (!bs[0].live && want <= bs[0].size) || Fits(bs[1..], want)
  {
    assert forall b :: b in bs <==> b == bs[0] || b in bs[1..];
  }

  /** The memory after first fit took the free block `f`, whose predecessor in the list is at `previous`. */
  ghost function Occupied(mem: Memory, previous: int, f: Block, want: int): Memory
    requires previous in mem && f.addr in mem
  {
    var after := mem[f.addr].next;
    if f.size - want > MIN_BLOCK
    then mem[f.addr + want := Cell(after, f.size - want, false)]
            [f.addr := Cell(NULL, want, true)]
            [previous := mem[previous].(next := f.addr + want)]
    else mem[previous := mem[previous].(next := after)][f.addr := Cell(NULL, f.size, true)]
  }

  /** Whatever the pointers do to take a block is Take, and touches the list head only to redirect it. */
  ghost predicate Takes(mem: Memory, bs: seq<Block>, want: int, head: int, tail: int)
    requires head in mem && tail in mem && Fits(bs, want)
  {
    var p, f := Previous(bs, want, head), Chosen(bs, want);
    && p in mem && f.addr in mem && mem[p].next == f.addr && mem[f.addr].size == f.size
    && var mem' := Occupied(mem, p, f, want);
       && mem'[head] == mem[head].(next := FirstFree(Take(bs, want), tail)) && mem'[tail] == mem[tail]
       && Chain(mem', Take(bs, want), tail)
  }

  lemma TakesLater(mem: Memory, f: Block, t: seq<Block>, want: int, head: int, tail: int)
    requires (f.live || want > f.size) && Fits(t, want) && head in mem && tail in mem && f.addr in mem
    requires mem[f.addr] == if f.live then Cell(NULL, f.size, true) else Cell(FirstFree(t, tail), f.size, false)
    requires mem[head].next == if f.live then FirstFree(t, tail) else f.addr
    requires var p, g := Previous(t, want, if f.live then head else f.addr), Chosen(t, want);
             && p in mem && (f.live ==> p != f.addr) && (!f.live ==> p != head)
             && g.addr != f.addr && g.addr + want != f.addr && g.addr != head
             && (want < g.size ==> g.addr + want != head) && f.addr != head && f.addr != tail
    requires Takes(mem, t, want, if f.live then head else f.addr, tail)
    ensures Fits([f] + t, want) && Takes(mem, [f] + t, want, head, tail)
  {
    var bs := [f] + t;
    assert bs[1..] == t;
    FitsTail(bs, want);
    var h := if f.live then head else f.addr;
    ChainCons(Occupied(mem, Previous(t, want, h), Chosen(t, want), want), f, Take(t, want), tail);
  }

  /** Taking the first block that fits, as the pointers do it, is Take. */
  lemma {:induction false} OccupiedLinks(mem: Memory, bs: seq<Block>, want: int, head: int, lo: int, tail: int)
    requires Tiles(bs, lo, tail) && !(lo <= head <= tail) && want >= MIN_BLOCK && Fits(bs, want)
    requires head in mem && mem[head].next == FirstFree(bs, tail) && Chain(mem, bs, tail)
    requires tail in mem
    ensures var p, f := Previous(bs, want, head), Chosen(bs, want);
            lo <= f.addr < f.End() <= tail && (p == head || lo <= p < f.addr)
    ensures Takes(mem, bs, want, head, tail)
  {
    var f := bs[0];
    TilesBounds(bs, lo, tail);
    assert bs == [f] + bs[1..];
    if !f.live && want <= f.size {
      OccupiedFirst(mem, f, bs[1..], want, head, lo, tail);
    } else {
      FitsTail(bs, want);
      OccupiedLinks(mem, bs[1..], want, if f.live then head else f.addr, f.End(), tail);
      TakesLater(mem, f, bs[1..], want, head, tail);
    }
  }

  lemma OccupiedFirst(mem: Memory, f: Block, c: seq<Block>, want: int, head: int, lo: int, tail: int)
    requires Tiles([f] + c, lo, tail) && !(lo <= head <= tail) && !f.live && MIN_BLOCK <= want <= f.size
    requires head in mem && f.addr in mem && mem[f.addr] == Cell(FirstFree(c, tail), f.size, false)
    requires Chain(mem, c, tail) && tail in mem
    ensures var mem' := Occupied(mem, head, f, want);
            && mem'[head] == mem[head].(next := FirstFree(Carve(f, want) + c, tail)) && mem'[tail] == mem[tail]
            && Chain(mem', Carve(f, want) + c, tail)
  {
    TilesBounds([f] + c, lo, tail);
    assert ([f] + c)[1..] == c;
    var mem' := Occupied(mem, head, f, want);
    ChainFrame(mem, mem', c, tail);
    var carved := Carve(f, want);
    if f.size - want > MIN_BLOCK {
      assert (carved + c)[1..] == [carved[1]] + c && ([carved[1]] + c)[1..] == c;
    } else {
      assert (carved + c)[1..] == c;
    }
  }

  // ----- release -------------------------------------------------------

  /** Address of the last free block below `addr`, or `head`. */
  ghost function PreviousFree(bs: seq<Block>, addr: int, head: int): int {
    if bs == [] then head
    else if bs[0].live then PreviousFree(bs[1..], addr, head)
    else if addr <= bs[0].addr then head
    else PreviousFree(bs[1..], addr, bs[0].addr)
  }

  lemma {:induction false} FromFreePrevious(bs: seq<Block>, addr: int, head: int)
    ensures PreviousFree(FromFree(bs), addr, head) == PreviousFree(bs, addr, head)
  {
    if bs != [] && bs[0].live {
      FromFreePrevious(bs[1..], addr, head);
    }
  }

  lemma {:induction false} PreviousFreeAbove(bs: seq<Block>, addr: int, head: int)
    requires forall b :: b in bs ==> addr <= b.addr
    ensures PreviousFree(bs, addr, head) == head
  {
    if bs != [] {
      PreviousFreeAbove(bs[1..], addr, head);
    }
  }

  /** The memory after the block at `addr` was put back behind the free block (or list head) at `it`. */
  ghost function Inserted(mem: Memory, it: int, addr: int, tail: int): Memory
    requires it in mem && addr in mem
  {
    var next := mem[it].next;
    var joins := it + mem[it].size == addr;
    var at := if joins then it else addr;
    var size := mem[addr].size + if joins then mem[it].size else 0;
    var cell := if at + size == next && next != tail && next in mem
                then Cell(mem[next].next, size + mem[next].size, false)
                else Cell(next, size, false);
    if joins then mem[it := cell] else mem[at := cell][it := mem[it].(next := at)]
  }

  lemma {:induction false} FirstFreeCell(mem: Memory, bs: seq<Block>, tail: int)
    requires Chain(mem, bs, tail) && FirstFree(bs, tail) != tail
    ensures FirstFree(bs, tail) in mem
  {
    if bs[0].live { FirstFreeCell(mem, bs[1..], tail); }
  }

  lemma {:induction false} FirstFreeBounds(bs: seq<Block>, lo: int, tail: int)
    requires Tiles(bs, lo, tail)
    ensures lo <= FirstFree(bs, tail) <= tail
    ensures FirstFree(bs, tail) == lo <==> bs == [] || !bs[0].live
  {
    if bs != [] { FirstFreeBounds(bs[1..], bs[0].End(), tail); }
  }

  /** The cell of a block put in front of `c`, and what it does to the chain there. */
  lemma ConsLinks(mem: Memory, mem': Memory, b: Block, c: seq<Block>, tail: int)
    requires Tiles([b] + c, b.addr, tail) && !b.live && Chain(mem, c, tail)
    requires forall d :: d in c ==> d.addr in mem ==> d.addr in mem' && mem'[d.addr] == mem[d.addr]
    requires b.addr in mem' && FirstFree(c, tail) != tail ==> FirstFree(c, tail) in mem
    requires b.addr in mem' && mem'[b.addr] ==
             if b.End() == FirstFree(c, tail) && FirstFree(c, tail) != tail
             then Cell(mem[FirstFree(c, tail)].next, b.size + mem[FirstFree(c, tail)].size, false)
             else Cell(FirstFree(c, tail), b.size, false)
    ensures Chain(mem', Cons(b, c), tail) && FirstFree(Cons(b, c), tail) == b.addr
  {
    assert ([b] + c)[1..] == c;
    FirstFreeBounds(c, b.End(), tail);
    ChainFrame(mem, mem', c, tail);
    if c != [] && !c[0].live {
      TilesBounds(c, b.End(), tail);
      assert Cons(b, c)[1..] == c[1..];
    } else {
      assert Cons(b, c)[1..] == c;
    }
  }

  lemma InsertedFirst(mem: Memory, x: Block, c: seq<Block>, head: int, tail: int)
    requires Tiles([x] + c, x.addr, tail) && x.addr < tail && !(x.addr <= head <= tail) && x.live
    requires head in mem && mem[head].next == FirstFree(c, tail) && Chain(mem, c, tail)
    requires tail in mem && head + mem[head].size != x.addr
    ensures PreviousFree([x] + c, x.addr, head) == head
    ensures mem[head].next != tail ==> mem[head].next in mem
    ensures var mem' := Inserted(mem[x.addr := Cell(NULL, x.size, false)], head, x.addr, tail);
            && mem'[head] == mem[head].(next := x.addr) && mem'[tail] == mem[tail]
            && Chain(mem', Cons(x.(live := false), c), tail) && FirstFree(Cons(x.(live := false), c), tail) == x.addr
  {
    var mem1 := mem[x.addr := Cell(NULL, x.size, false)];
    assert ([x] + c)[1..] == c;
    TilesBounds([x] + c, x.addr, tail);
    PreviousFreeAbove(c, x.addr, head);
    if mem[head].next != tail { FirstFreeCell(mem, c, tail); }
    FirstFreeBounds(c, x.End(), tail);
    assert ([x.(live := false)] + c)[1..] == c;
    ConsLinks(mem, Inserted(mem1, head, x.addr, tail), x.(live := false), c, tail);
  }

  lemma InsertedSecond(mem: Memory, f: Block, x: Block, c: seq<Block>, tail: int)
    requires Tiles([f, x] + c, f.addr, tail) && f.End() == x.addr != f.addr && x.live && !f.live
    requires f.addr in mem && mem[f.addr] == Cell(FirstFree(c, tail), f.size, false) && Chain(mem, c, tail)
    requires tail in mem
    ensures PreviousFree([x] + c, x.addr, f.addr) == f.addr
    ensures mem[f.addr].next != tail ==> mem[f.addr].next in mem
    ensures var mem' := Inserted(mem[x.addr := Cell(NULL, x.size, false)], f.addr, x.addr, tail);
            var m := Block(f.addr, f.size + x.size, false);
            && mem' == mem[x.addr := Cell(NULL, x.size, false)][f.addr := mem'[f.addr]] && mem'[tail] == mem[tail]
            && Chain(mem', Cons(m, c), tail) && FirstFree(Cons(m, c), tail) == f.addr
  {
    var mem1 := mem[x.addr := Cell(NULL, x.size, false)];
    var m := Block(f.addr, f.size + x.size, false);
    assert ([f, x] + c)[1..] == [x] + c && ([x] + c)[1..] == c && ([m] + c)[1..] == c;
    TilesBounds([x] + c, x.addr, tail);
    PreviousFreeAbove(c, x.addr, f.addr);
    if mem[f.addr].next != tail { FirstFreeCell(mem, c, tail); }
    FirstFreeBounds(c, x.End(), tail);
    ConsLinks(mem, Inserted(mem1, f.addr, x.addr, tail), m, c, tail);
  }

  lemma ReleaseLater(bs: seq<Block>, x: Block)
    requires |bs| > 1 && Coalesced(bs) && bs[0].addr != x.addr && (bs[0].live || bs[1].addr != x.addr)
    ensures Release(bs, x.addr) == [bs[0]] + Release(bs[1..], x.addr)
  {}

  /** Whatever the pointers do to put `x` back is Release, and touches the list head only to redirect it. */
  ghost predicate PutsBack(mem: Memory, bs: seq<Block>, x: Block, head: int, tail: int)
    requires head in mem && tail in mem
  {
    var it, mem1 := PreviousFree(bs, x.addr, head), mem[x.addr := Cell(NULL, x.size, false)];
    && it in mem && (mem[it].next != tail ==> mem[it].next in mem)
    && var mem' := Inserted(mem1, it, x.addr, tail);
       && mem'[head] == mem[head].(next := FirstFree(Release(bs, x.addr), tail))
       && mem'[tail] == mem[tail]
       && Chain(mem', Release(bs, x.addr), tail)
  }

  lemma PutsBackSecond(mem: Memory, f: Block, x: Block, c: seq<Block>, head: int, tail: int)
    requires Tiles([f, x] + c, f.addr, tail) && f.End() == x.addr != f.addr && x.live && !f.live
    requires f.addr in mem && mem[f.addr] == Cell(FirstFree(c, tail), f.size, false) && Chain(mem, c, tail)
    requires head in mem && tail in mem && !(f.addr <= head <= x.addr) && mem[head].next == f.addr
    ensures PutsBack(mem, [f, x] + c, x, head, tail)
  {
    InsertedSecond(mem, f, x, c, tail);
    ReleaseSecond(f, x, c);
    assert ([f, x] + c)[1..] == [x] + c;
  }

  lemma ReleaseSecond(f: Block, x: Block, c: seq<Block>)
    requires f.addr != x.addr && x.live && !f.live
    ensures Release([f, x] + c, x.addr) == Cons(Block(f.addr, f.size + x.size, false), c)
  {
    assert ([f, x] + c)[1..] == [x] + c && ([x] + c)[1..] == c;
    var r := Cons(x.(live := false), c);
    assert Release([x] + c, x.addr) == r;
    assert r[1..] == (if c != [] && !c[0].live then c[1..] else c);
  }

  lemma PutsBackLater(mem: Memory, f: Block, t: seq<Block>, x: Block, head: int, tail: int)
    requires t != [] && Coalesced([f] + t) && f.addr < x.addr && (f.live || t[0].addr != x.addr)
    requires head in mem && tail in mem && head != f.addr && head != x.addr && f.addr != tail
    requires f.addr in mem && mem[f.addr] == if f.live then Cell(NULL, f.size, true) else Cell(FirstFree(t, tail), f.size, false)
    requires mem[head].next == if f.live then FirstFree(t, tail) else f.addr
    requires var it := PreviousFree(t, x.addr, if f.live then head else f.addr);
             it in mem && it != x.addr && (f.live ==> it != f.addr) && (!f.live ==> it != head)
    requires PutsBack(mem, t, x, if f.live then head else f.addr, tail)
    ensures PutsBack(mem, [f] + t, x, head, tail)
  {
    var bs := [f] + t;
    assert bs[1..] == t;
    var h := if f.live then head else f.addr;
    var mem1 := mem[x.addr := Cell(NULL, x.size, false)];
    var mem' := Inserted(mem1, PreviousFree(t, x.addr, h), x.addr, tail);
    ReleaseLater(bs, x);
    ChainCons(mem', f, Release(t, x.addr), tail);
  }

  /** Putting a block back, as the pointers do it, is Release. */
  lemma {:induction false} InsertedLinks(mem: Memory, bs: seq<Block>, x: Block, head: int, lo: int, tail: int)
    requires Tiles(bs, lo, tail) && Coalesced(bs) && !(lo <= head <= tail) && x in bs && x.live
    requires head in mem && mem[head].next == FirstFree(bs, tail) && Chain(mem, bs, tail)
    requires tail in mem && head + mem[head].size != x.addr
    ensures lo <= x.addr < tail && x.addr in mem && mem[x.addr] == Cell(NULL, x.size, true)
    ensures PreviousFree(bs, x.addr, head) == head || lo <= PreviousFree(bs, x.addr, head) < x.addr
    ensures PutsBack(mem, bs, x, head, tail)
  {
    var f := bs[0];
    TilesBounds(bs, lo, tail);
    if f == x {
      assert bs == [x] + bs[1..];
      InsertedFirst(mem, x, bs[1..], head, tail);
    } else if !f.live && bs[1] == x {
      var c := bs[1..][1..];
      assert bs == [f, x] + c && bs[1..] == [x] + c;
      InsertedSecond(mem, f, x, c, tail);
      PutsBackSecond(mem, f, x, c, head, tail);
    } else {
      var h, t := if f.live then head else f.addr, bs[1..];
      TilesBounds(t, f.End(), tail);
      InsertedLinks(mem, t, x, h, f.End(), tail);
      assert bs == [f] + t;
      PutsBackLater(mem, f, t, x, head, tail);
    }
  }
}
