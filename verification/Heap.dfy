/** The allocator of furi/core/memmgr_heap.c: pointer walks over block headers, proved
    against the rows of blocks of HeapBlocks. */
module Heap {
  import opened HeapBlocks
  import opened HeapLinks

  function Wrap(n: int): int { n % 0x1_0000_0000 }

  ghost function MinOf(s: seq<int>): int
    requires s != []
  {
    if |s| == 1 then s[0]
    else
      var m := MinOf(s[..|s| - 1]);
      if s[|s| - 1] < m then s[|s| - 1] else m
  }

  lemma MinOfNext(s: seq<int>, x: int)
    requires s != []
    ensures MinOf(s) <= s[|s| - 1]
    ensures MinOf(s + [x]) == if x < MinOf(s) then x else MinOf(s)
  {
    assert (s + [x])[..|s|] == s;
  }

  /** MinOf is what its name says. */
  lemma {:induction false} MinOfIsMinimum(s: seq<int>)
    requires s != []
    ensures MinOf(s) in s && forall x :: x in s ==> MinOf(s) <= x
  {
    if |s| > 1 {
      MinOfIsMinimum(s[..|s| - 1]);
      assert s == s[..|s| - 1] + [s[|s| - 1]];
    }
  }

  /** Clearing the low bits of an address, and rounding one up. */
  function AlignDown(a: int): (r: int)
    ensures Aligned(r) && r <= a < r + ALIGNMENT
  {
    a - a % 8
  }

  function AlignUp(a: int): (r: int)
    ensures Aligned(r) && a <= r < a + ALIGNMENT
  {
    AlignDown(a + ALIGNMENT - 1)
  }

  datatype FreeStats = FreeStats(largest: int, smallest: int, count: int)

  /** HeapStats_t: what the list shows, and the counters. */
  datatype HeapStats = HeapStats(free: FreeStats, available: int, allocations: int, frees: int, minimum: int)

  /** What vPortGetHeapStats promises about a free list: its length and its extreme sizes, 0 and
      portMAX_DELAY standing for the extremes of an empty list. */
  ghost predicate Summarises(stats: FreeStats, free: seq<(int, int)>) {
    && stats.count == |free|
    && (free == [] ==> stats.largest == 0 && stats.smallest == SIZE_MAX)
    && (forall e :: e in free ==> stats.smallest <= e.1 <= stats.largest)
    && (free != [] ==> (exists e :: e in free && e.1 == stats.largest) && exists e :: e in free && e.1 == stats.smallest)
  }

  lemma SummariseNext(stats: FreeStats, free: seq<(int, int)>, e: (int, int))
    requires Summarises(stats, free) && 0 < e.1 <= SIZE_MAX
    ensures Summarises(FreeStats(if e.1 > stats.largest then e.1 else stats.largest,
                                 if e.1 < stats.smallest then e.1 else stats.smallest, stats.count + 1), free + [e])
  {
    assert e in free + [e];
    assert forall x :: x in free + [e] <==> x in free || x == e;
  }

  lemma Shift(seen: seq<(int, int)>, e: (int, int), rest: seq<(int, int)>)
    ensures seen + [e] + rest == seen + ([e] + rest)
  {}

  class Heap {
    const ucHeap: int      // linker symbol __heap_start__
    const total: int       // configTOTAL_HEAP_SIZE
    const xStart: int      // address of the list head, which lives outside the heap
    ghost const first: int // the aligned region in between: its first block and its end marker
    ghost const last: int

    var mem: Memory
    var pxEnd: int
    var freeBytes: int           // xFreeBytesRemaining
    var minimumEverFree: int     // xMinimumEverFreeBytesRemaining
    var allocations: int         // xNumberOfSuccessfulAllocations
    var frees: int               // xNumberOfSuccessfulFrees

    ghost var blocks: seq<Block>  // the blocks of the heap, lowest first
    ghost var mallocs: nat        // successful allocations and frees, before wrapping
    ghost var releases: nat
    ghost var trace: seq<int>     // the free byte counts since start or since the low-water mark was last reset

    /** What the linker script provides: a region inside the address space, too small
        to reach the ownership bit, with room for one block and the end marker. */
    ghost predicate Region() {
      && 0 < ucHeap && ucHeap + total <= SIZE_MAX + 1 && total < TOP_BIT
      && first == AlignUp(ucHeap) && last == AlignDown(ucHeap + total - HEADER)
      && first + MIN_BLOCK <= last
      && 0 < xStart && !(first <= xStart <= last)
    }

    /** The low-water mark is the minimum of the free byte counts so far. */
    ghost predicate Booked()
      reads this`freeBytes, this`minimumEverFree, this`trace
    {
      trace != [] && trace[|trace| - 1] == freeBytes && minimumEverFree == MinOf(trace)
    }

    ghost predicate Counted()
      reads this
    {
      freeBytes == FreeBytes(blocks) && mallocs - releases == |Live(blocks)| && Booked()
    }

    ghost predicate Valid()
      reads this
    {
      && Region()
      && allocations == Wrap(mallocs) && frees == Wrap(releases)
      && if pxEnd == NULL then xStart in mem && mem[xStart].next == NULL && blocks == [] && mallocs == releases == 0
         else
           && pxEnd == last
           && Laid(mem, blocks, xStart, first, pxEnd) && Counted()
    }

    /** The single free block of a heap nobody has used. */
    ghost function Fresh(): seq<Block> {
      [Block(first, last - first, false)]
    }

    /** The blocks an allocation will find. */
    ghost function Found(): seq<Block>
      reads this
    {
      if pxEnd == NULL then Fresh() else blocks
    }

    constructor (ucHeap: int, total: int, xStart: int)
      requires 0 < ucHeap && ucHeap + total <= SIZE_MAX + 1 && total < TOP_BIT
      requires total >= MIN_BLOCK + HEADER + 2 * ALIGNMENT
      requires 0 < xStart && !(ucHeap <= xStart < ucHeap + total)
      ensures Valid() && Found() == Fresh() && pxEnd == NULL
    {
      this.ucHeap, this.total, this.xStart := ucHeap, total, xStart;
      first, last := AlignUp(ucHeap), AlignDown(ucHeap + total - HEADER);
      mem, pxEnd := map[xStart := Cell(NULL, 0, false)], NULL;
      freeBytes, minimumEverFree, allocations, frees := 0, 0, 0, 0;
      mallocs, releases := 0, 0;
      blocks, trace := [], [];
    }

    /** prvHeapInit */
    method Init()
      requires Valid() && pxEnd == NULL
      modifies this
      ensures Valid() && pxEnd != NULL && blocks == Fresh() && freeBytes == last - first
      ensures ucHeap <= first < ucHeap + 8 && last + HEADER <= ucHeap + total < last + HEADER + 8
      ensures mallocs == old(mallocs) && releases == old(releases) && trace == [last - first]
    {
      var start := ucHeap;
      if !Aligned(start) {
        start := start + ALIGNMENT - 1;
        start := AlignDown(start);
      }
      var end := ucHeap + total - HEADER;
      end := AlignDown(end);
      pxEnd := end;
      mem := mem[xStart := Cell(start, 0, false)];
      mem := mem[pxEnd := Cell(NULL, 0, false)];
      mem := mem[start := Cell(pxEnd, end - start, false)];
      minimumEverFree, freeBytes := end - start, end - start;

      blocks, trace := Fresh(), [freeBytes];
      assert blocks[1..] == [];
      assert Aligned(last - first);
      assert Live(blocks) == {};
      assert Tiles(blocks, first, last);
      assert Chain(mem, blocks, pxEnd);
    }

    /** The first-fit search of pvPortMalloc. */
    method FindFit(wanted: int) returns (previous: int, block: int)
      requires Valid() && pxEnd != NULL && wanted > 0
      ensures Fits(blocks, wanted) ==> block == Chosen(blocks, wanted).addr && previous == Previous(blocks, wanted, xStart)
      ensures block == pxEnd <==> !Fits(blocks, wanted)
    {
      ghost var rest := FromFree(blocks);
      ghost var lo := FromFreeKeeps(mem, blocks, first, pxEnd);
      FromFreeFits(blocks, wanted, xStart);
      previous, block := xStart, mem[xStart].next;
      while mem[block].size < wanted && mem[block].next != NULL
        invariant 0 < lo && Tiles(rest, lo, pxEnd) && Chain(mem, rest, pxEnd)
        invariant rest != [] ==> !rest[0].live
        invariant block == if rest == [] then pxEnd else rest[0].addr
        invariant Fits(rest, wanted) <==> Fits(blocks, wanted)
        invariant Fits(rest, wanted) ==> Chosen(rest, wanted) == Chosen(blocks, wanted)
        invariant Previous(rest, wanted, previous) == Previous(blocks, wanted, xStart)
        decreases |rest|
      {
        previous, block := block, mem[block].next;
        FitsTail(rest, wanted);
        FromFreeFits(rest[1..], wanted, previous);
        lo := FromFreeKeeps(mem, rest[1..], rest[0].End(), pxEnd);
        rest := FromFree(rest[1..]);
      }
      if rest != [] {
        ghost var lo' := FromFreeKeeps(mem, rest[1..], rest[0].End(), pxEnd);
        TilesBounds(rest, lo, pxEnd);
      }
    }

    /** pvPortMalloc; NULL stands for the failed check at its end. */
    method Malloc(wantedSize: Word) returns (pv: int)
      requires Valid()
      modifies this
      ensures Valid() && pxEnd != NULL
      ensures var w, before := BlockSizeFor(wantedSize), old(Found());
              && (pv != NULL <==> w > 0 && Fits(before, w))
              && (pv == NULL ==> blocks == before)
              && (pv != NULL ==>
                    && blocks == Take(before, w)
                    && pv == Granted(before, w).addr + HEADER && pv % 8 == 0
                    && Granted(before, w).size - HEADER >= wantedSize)
      ensures mallocs == old(mallocs) + (if pv == NULL then 0 else 1) && releases == old(releases)
      ensures trace == (if old(pxEnd) == NULL then [last - first] else old(trace)) + (if pv == NULL then [] else [freeBytes])
    {
      var wanted: int := BlockSizeFor(wantedSize);
      BlockSizeRounds(wantedSize);
      if pxEnd == NULL {
        Init();
      }
      if wanted > 0 && Fits(blocks, wanted) {
        TakeGrants(blocks, first, pxEnd, wanted);
      }
      pv := Allocate(wanted);
    }

    /** The part of pvPortMalloc that runs with the scheduler suspended. */
    method Allocate(wanted: int) returns (pv: int)
      requires Valid() && pxEnd != NULL && wanted >= 0 && Aligned(wanted) && (wanted > 0 ==> wanted >= MIN_BLOCK)
      modifies this
      ensures Valid() && pxEnd == old(pxEnd)
      ensures pv != NULL <==> wanted > 0 && Fits(old(blocks), wanted)
      ensures pv == NULL ==> blocks == old(blocks) && mallocs == old(mallocs)
      ensures pv != NULL ==> blocks == Take(old(blocks), wanted) && mallocs == old(mallocs) + 1
      ensures pv != NULL ==> pv == Granted(old(blocks), wanted).addr + HEADER && Aligned(pv)
      ensures releases == old(releases) && trace == old(trace) + (if pv == NULL then [] else [freeBytes])
    {
      pv := NULL;
      FreeBytesBound(blocks, first, pxEnd);
      if wanted < TOP_BIT && wanted > 0 && wanted <= freeBytes {
        var previous, block := FindFit(wanted);
        if block != pxEnd {
          pv := Payload(previous, wanted);
          Occupy(previous, block, wanted);
        }
      }
    }

    method Payload(previous: int, wanted: int) returns (pv: int)
      requires Laid(mem, blocks, xStart, first, pxEnd) && Aligned(first) && 0 < first
      requires wanted >= MIN_BLOCK && Fits(blocks, wanted) && previous == Previous(blocks, wanted, xStart)
      ensures pv == Granted(blocks, wanted).addr + HEADER && Aligned(pv) && pv > 0
    {
      OccupiedLinks(mem, blocks, wanted, xStart, first, pxEnd);
      BlocksAligned(blocks, first, pxEnd);
      pv := mem[previous].next + HEADER;
    }

    /** The part of pvPortMalloc that takes the block it found. */
    method Occupy(previous: int, block: int, wanted: int)
      requires Valid() && pxEnd != NULL && wanted >= MIN_BLOCK && Aligned(wanted)
      requires Fits(blocks, wanted)
      requires block == Chosen(blocks, wanted).addr && previous == Previous(blocks, wanted, xStart)
      modifies this
      ensures Valid() && pxEnd == old(pxEnd)
      ensures blocks == Take(old(blocks), wanted)
      ensures mallocs == old(mallocs) + 1 && releases == old(releases) && trace == old(trace) + [freeBytes]
    {
      var size := Unlink(previous, block, wanted);
      Charge(size);
    }

    method Charge(size: int)
      requires Booked() && allocations == Wrap(mallocs)
      modifies this`freeBytes, this`minimumEverFree, this`trace, this`allocations, this`mallocs
      ensures Booked() && freeBytes == old(freeBytes) - size && trace == old(trace) + [freeBytes]
      ensures allocations == Wrap(mallocs) && mallocs == old(mallocs) + 1
    {
      freeBytes := freeBytes - size;
      if freeBytes < minimumEverFree {
        minimumEverFree := freeBytes;
      }
      allocations := Wrap(allocations + 1);
      MinOfNext(trace, freeBytes);
      trace, mallocs := trace + [freeBytes], mallocs + 1;
    }

    method Credit(size: int)
      requires Booked() && size > 0 && frees == Wrap(releases)
      modifies this`freeBytes, this`trace, this`frees, this`releases
      ensures Booked() && freeBytes == old(freeBytes) + size && trace == old(trace) + [freeBytes]
      ensures frees == Wrap(releases) && releases == old(releases) + 1
    {
      freeBytes := freeBytes + size;
      frees := Wrap(frees + 1);
      MinOfNext(trace, freeBytes);
      trace, releases := trace + [freeBytes], releases + 1;
    }

    /** Cut, and what it means for the blocks. */
    method Unlink(previous: int, block: int, wanted: int) returns (size: int)
      requires Laid(mem, blocks, xStart, first, pxEnd) && wanted >= MIN_BLOCK && Aligned(wanted) && Fits(blocks, wanted)
      requires block == Chosen(blocks, wanted).addr && previous == Previous(blocks, wanted, xStart)
      modifies this`mem, this`blocks
      ensures Laid(mem, blocks, xStart, first, pxEnd) && blocks == Take(old(blocks), wanted)
      ensures FreeBytes(blocks) == FreeBytes(old(blocks)) - size && |Live(blocks)| == |Live(old(blocks))| + 1
    {
      OccupiedLinks(mem, blocks, wanted, xStart, first, pxEnd);
      TakeKeeps(blocks, first, pxEnd, wanted);
      TakeGrants(blocks, first, pxEnd, wanted);
      size := Cut(previous, block, wanted);
      blocks := Take(blocks, wanted);
    }

    /** The header updates of pvPortMalloc; returns the size of the block taken. */
    method Cut(previous: int, block: int, wanted: int) returns (size: int)
      requires previous in mem && block in mem && previous != block && previous != block + wanted && 0 < wanted
      modifies this`mem
      ensures mem == Occupied(old(mem), previous, Block(block, old(mem)[block].size, false), wanted)
      ensures size == Carve(Block(block, old(mem)[block].size, false), wanted)[0].size
    {
      mem := mem[previous := mem[previous].(next := mem[block].next)];
      if mem[block].size - wanted > MIN_BLOCK {
        var rest := block + wanted;
        mem := mem[rest := Cell(mem[previous].next, mem[block].size - wanted, false)];
        mem := mem[block := mem[block].(size := wanted)];
        mem := mem[previous := mem[previous].(next := rest)];
      }
      size := mem[block].size;
      mem := mem[block := mem[block].(live := true, next := NULL)];
    }

    /** `pv` is the payload of a live block. */
    ghost predicate Owned(pv: int)
      reads this
    {
      exists b :: b in Live(blocks) && b.addr == pv - HEADER
    }

    /** vPortFree */
    method Free(pv: int)
      requires Valid() && (pv == NULL || Owned(pv))
      modifies this
      ensures Valid() && pxEnd == old(pxEnd)
      ensures blocks == if pv == NULL then old(blocks) else Release(old(blocks), pv - HEADER)
      ensures releases == old(releases) + (if pv == NULL then 0 else 1) && mallocs == old(mallocs)
      ensures trace == old(trace) + (if pv == NULL then [] else [freeBytes])
    {
      if pv != NULL {
        var link := pv - HEADER;
        var size := GiveBack(link);
        Credit(size);
      }
    }

    /** The pointer work of vPortFree; returns the size of the block. */
    method GiveBack(link: int) returns (size: int)
      requires Laid(mem, blocks, xStart, first, pxEnd) && 0 < first && Owned(link + HEADER)
      modifies this`mem, this`blocks
      ensures Laid(mem, blocks, xStart, first, pxEnd) && blocks == Release(old(blocks), link)
      ensures size > 0 && FreeBytes(blocks) == FreeBytes(old(blocks)) + size && |Live(blocks)| == |Live(old(blocks))| - 1
    {
      ghost var x :| x in Live(blocks) && x.addr == link;
      ReleaseKeeps(blocks, first, pxEnd, x);
      TilesBounds(blocks, first, pxEnd);
      InsertedLinks(mem, blocks, x, xStart, first, pxEnd);
      mem := mem[link := mem[link].(live := false)];
      size := mem[link].size;
      InsertIntoFreeList(link, x, old(mem));
    }

    /** prvInsertBlockIntoFreeList */
    method InsertIntoFreeList(block: int, ghost x: Block, ghost mem0: Memory)
      requires 0 < first
      requires x in Live(blocks) && x.addr == block && Laid(mem0, blocks, xStart, first, pxEnd)
      requires mem == mem0[block := Cell(NULL, x.size, false)]
      modifies this`mem, this`blocks
      ensures Laid(mem, blocks, xStart, first, pxEnd) && blocks == Release(old(blocks), block)
    {
      TilesBounds(blocks, first, pxEnd);
      InsertedLinks(mem0, blocks, x, xStart, first, pxEnd);
      ReleaseKeeps(blocks, first, pxEnd, x);
      var it := FindGap(block, x, mem0);
      Merge(it, block);
      blocks := Release(blocks, block);
    }

    /** The second half of prvInsertBlockIntoFreeList. */
    method Merge(it: int, block: int)
      requires it in mem && block in mem && it != block && mem[it].next in mem && mem[it].next != it && mem[it].next != block
      requires !mem[it].live && !mem[block].live
      modifies this`mem
      ensures mem == Inserted(old(mem), it, block, pxEnd)
    {
      var at := block;
      if it + mem[it].size == block {
        mem := mem[it := mem[it].(size := mem[it].size + mem[block].size)];
        at := it;
      }
      if at + mem[at].size == mem[it].next {
        if mem[it].next != pxEnd {
          mem := mem[at := mem[at].(size := mem[at].size + mem[mem[it].next].size)];
          mem := mem[at := mem[at].(next := mem[mem[it].next].next)];
        } else {
          mem := mem[at := mem[at].(next := pxEnd)];
        }
      } else {
        mem := mem[at := mem[at].(next := mem[it].next)];
      }
      if it != at {
        mem := mem[it := mem[it].(next := at)];
      }
    }

    /** The search loop of prvInsertBlockIntoFreeList: the last free block, or the list head, below `block`. */
    method FindGap(block: int, ghost x: Block, ghost mem0: Memory) returns (it: int)
      requires 0 < first
      requires x in Live(blocks) && x.addr == block && Laid(mem0, blocks, xStart, first, pxEnd)
      requires mem == mem0[block := Cell(NULL, x.size, false)]
      ensures it == PreviousFree(blocks, block, xStart) && it in mem && it != block
      ensures !mem[it].live && block < mem[it].next && mem[it].next in mem && mem[it].next != it
    {
      TilesBounds(blocks, first, pxEnd);
      ghost var rest := FromFree(blocks);
      ghost var lo := FromFreeKeeps(mem0, blocks, first, pxEnd);
      FromFreePrevious(blocks, block, xStart);
      it := xStart;
      while mem[it].next < block
        invariant first <= lo && Tiles(rest, lo, pxEnd) && Chain(mem0, rest, pxEnd)
        invariant rest != [] ==> !rest[0].live
        invariant forall b :: b in rest ==> b in blocks
        invariant it in mem && it != block && !mem[it].live && mem[it].next == (if rest == [] then pxEnd else rest[0].addr)
        invariant it == xStart || it < lo
        invariant PreviousFree(rest, block, it) == PreviousFree(blocks, block, xStart)
        decreases |rest|
      {
        it := mem[it].next;
        FromFreePrevious(rest[1..], block, it);
        lo := FromFreeKeeps(mem0, rest[1..], rest[0].End(), pxEnd);
        rest := FromFree(rest[1..]);
      }
      if rest != [] {
        BlocksDisjoint(blocks, first, pxEnd, rest[0], x);
      }
    }

    /** xPortResetHeapMinimumEverFreeHeapSize */
    method ResetMinimum()
      requires Valid() && pxEnd != NULL
      modifies this`minimumEverFree, this`trace
      ensures Valid() && minimumEverFree == freeBytes && trace == [freeBytes]
    {
      minimumEverFree := freeBytes;
      trace := [freeBytes];
    }

    /** memmgr_heap_printf_free_blocks: the pointer walk visits exactly the free list. */
    method ListFreeBlocks() returns (out: seq<(int, int)>)
      requires Valid() && pxEnd != NULL
      ensures out == FreeList(blocks)
    {
      out := [];
      var block := mem[xStart].next;
      ghost var rest, lo := CursorAt(mem, blocks, first, pxEnd);
      while mem[block].next != NULL
        invariant Cursor(mem, rest, block, lo, pxEnd)
        invariant out + FreeList(rest) == FreeList(blocks)
        decreases |rest|
      {
        rest, lo := CursorNext(mem, rest, block, lo, pxEnd);
        out := out + [(block, mem[block].size)];
        block := mem[block].next;
      }
    }

    /** vPortGetHeapStats */
    method Stats() returns (stats: HeapStats)
      requires Valid()
      ensures Summarises(stats.free, FreeList(blocks))
      ensures stats.available == freeBytes && stats.minimum == minimumEverFree
      ensures pxEnd != NULL ==> stats.available == SizeSum(FreeList(blocks)) && stats.minimum == MinOf(trace)
      ensures 0 <= stats.allocations < 0x1_0000_0000 && (mallocs - stats.allocations) % 0x1_0000_0000 == 0
      ensures 0 <= stats.frees < 0x1_0000_0000 && (releases - stats.frees) % 0x1_0000_0000 == 0
    {
      var free := FreeStats(0, SIZE_MAX, 0);
      if pxEnd != NULL {
        FirstFreeBounds(blocks, first, pxEnd);
      }
      if mem[xStart].next != NULL {
        free := WalkFree();
      }
      FreeListExact(blocks);
      stats := HeapStats(free, freeBytes, allocations, frees, minimumEverFree);
    }

    /** Its loop, once the heap is initialised. */
    method WalkFree() returns (stats: FreeStats)
      requires Valid() && pxEnd != NULL
      ensures Summarises(stats, FreeList(blocks))
    {
      var count, largest, smallest := 0, 0, SIZE_MAX;
      var block := mem[xStart].next;
      ghost var seen: seq<(int, int)> := [];
      ghost var rest, lo := CursorAt(mem, blocks, first, pxEnd);
      while block != pxEnd
        invariant Cursor(mem, rest, block, lo, pxEnd)
        invariant seen + FreeList(rest) == FreeList(blocks)
        invariant Summarises(FreeStats(largest, smallest, count), seen)
        decreases |rest|
      {
        rest, lo := CursorNext(mem, rest, block, lo, pxEnd);
        ghost var e := (block, mem[block].size);
        SummariseNext(FreeStats(largest, smallest, count), seen, e);
        Shift(seen, e, FreeList(rest));
        seen := seen + [e];
        count := count + 1;
        if mem[block].size > largest {
          largest := mem[block].size;
        }
        if mem[block].size < smallest {
          smallest := mem[block].size;
        }
        block := mem[block].next;
      }
      assert seen + FreeList([]) == seen;
      stats := FreeStats(largest, smallest, count);
    }

    /** The application may leave anything, a stale header included, anywhere in a payload
        it owns: the allocator never looks there. */
    method WritePayload(ghost b: Block, at: int, value: Cell)
      requires Valid() && b in Live(blocks) && b.addr + HEADER <= at && at + HEADER <= b.End()
      modifies this`mem
      ensures Valid() && mem == old(mem)[at := value]
    {
      TilesBounds(blocks, first, pxEnd);
      forall c | c in blocks ensures c.addr != at {
        if c != b { BlocksDisjoint(blocks, first, pxEnd, b, c); }
      }
      ChainFrame(mem, mem[at := value], blocks, pxEnd);
      mem := mem[at := value];
    }
  }
}
