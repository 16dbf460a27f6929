/** The doubly linked rings of lib/FreeRTOS-Kernel/list.c, proved against Rings. */
module FreeRtosList {
  import opened Rings

  class ListItem {
    var value: Tick              // xItemValue
    var next: ListItem?
    var previous: ListItem?
    var container: List?         // pxContainer

    /** A new item, after vListInitialiseItem. */
    constructor (value: Tick)
      ensures this.value == value && container == null
    {
      this.value := value;
      next, previous, container := null, null, null;
    }
  }

  class List {
    const end: ListItem          // xListEnd, the end marker
    var count: nat               // uxNumberOfItems
    var index: ListItem          // pxIndex
    ghost var ring: Ring<ListItem>
    ghost var values: seq<Tick>  // the item values, in order

    /** The node at position `j` of the ring; past either end that is the end marker. */
    ghost function At(j: int): ListItem
      reads this
    {
      if 0 <= j < |ring.items| then ring.items[j] else end
    }

    ghost predicate Linked(j: int)
      reads this, end, ring.items
    {
      At(j).next == At(j + 1) && At(j + 1).previous == At(j)
    }

    ghost predicate Valid()
      reads this, end, ring.items
    {
      && ring.Valid() && end !in ring.items
      && end.value == MAX_DELAY
      && count == |ring.items| == |values|
      && index == At(ring.at - 1)
      && (forall j :: -1 <= j < |ring.items| ==> Linked(j))
      && (forall j :: 0 <= j < |ring.items| ==> ring.items[j].container == this && ring.items[j].value == values[j])
    }

    /** vListInitialise */
    constructor ()
      ensures Valid() && ring == Ring([], 0) && values == [] && fresh(end)
    {
      var e := new ListItem(MAX_DELAY);
      end, index, count := e, e, 0;
      ring, values := Ring([], 0), [];
      new;
      e.next, e.previous := e, e;
    }

    /** vListInsertEnd */
    method InsertEnd(item: ListItem)
      requires Valid() && item != end && item !in ring.items
      modifies this, end, ring.items, item
      ensures Valid() && ring == Rings.InsertEnd(old(ring), item) && item.value == old(item.value)
      ensures values == InsertAt(old(values), if old(ring).at == 0 then old(count) else old(ring).at - 1, item.value)
    {
      ghost var k := if ring.at == 0 then |ring.items| else ring.at - 1;
      assert Linked(k - 1);
      assert At(k) == index;
      InsertEndLinks(item, index);
      forall j | -1 <= j < |ring.items| && j != k - 1 ensures Linked(j) { assert old(Linked(j)); }
      Adopt(item, k);
    }

    method InsertEndLinks(item: ListItem, i: ListItem)
      requires i.previous != null && item != i && item != i.previous
      modifies item`next, item`previous, i`previous, i.previous`next
      ensures item.next == i && item.previous == old(i.previous) && i.previous == item && old(i.previous).next == item
    {
      item.next := i;
      item.previous := i.previous;
      i.previous.next := item;
      i.previous := item;
    }

    /** The bookkeeping at the end of both insertions. */
    method Adopt(item: ListItem, ghost k: nat)
      requires k <= |ring.items| && item != end && item !in ring.items
      requires ring.Valid() && end !in ring.items && end.value == MAX_DELAY && count == |ring.items| == |values|
      requires index == At(ring.at - 1)
      requires forall j :: -1 <= j < |ring.items| && j != k - 1 ==> Linked(j)
      requires forall j :: 0 <= j < |ring.items| ==> ring.items[j].container == this && ring.items[j].value == values[j]
      requires At(k - 1).next == item && item.previous == At(k - 1) && item.next == At(k) && At(k).previous == item
      modifies this`count, this`ring, this`values, item`container
      ensures Valid() && ring == Rings.Insert(old(ring), k, item) && values == InsertAt(old(values), k, item.value)
    {
      item.container := this;
      count := count + 1;
      forall j | -1 <= j < |ring.items| && j != k - 1 ensures Linked(j) { assert old(Linked(j)); }
      Note(item, k);
    }

    ghost method Note(item: ListItem, k: nat)
      requires k <= |ring.items| && item != end && item !in ring.items && item.container == this
      requires ring.Valid() && end !in ring.items && end.value == MAX_DELAY && count == |ring.items| + 1 && |values| == |ring.items|
      requires index == At(ring.at - 1)
      requires forall j :: -1 <= j < |ring.items| && j != k - 1 ==> Linked(j)
      requires forall j :: 0 <= j < |ring.items| ==> ring.items[j].container == this && ring.items[j].value == values[j]
      requires At(k - 1).next == item && item.previous == At(k - 1) && item.next == At(k) && At(k).previous == item
      modifies this`ring, this`values
      ensures Valid() && ring == Rings.Insert(old(ring), k, item) && values == InsertAt(old(values), k, item.value)
    {
      InsertValid(ring, k, item);
      ring, values := Rings.Insert(ring, k, item), InsertAt(values, k, item.value);
      forall j | -1 <= j < |ring.items| ensures Linked(j) {
        if j < k - 1 { assert old(Linked(j)); } else if j > k { assert old(Linked(j - 1)); }
      }
    }

    /** vListInsert */
    method Insert(item: ListItem)
      requires Valid() && item != end && item !in ring.items
      modifies this, end, ring.items, item
      ensures Valid() && item.value == old(item.value)
      ensures ring == Rings.Insert(old(ring), Position(old(values), item.value), item)
      ensures values == InsertAt(old(values), Position(old(values), item.value), item.value)
    {
      ghost var k: int := Position(values, item.value);
      var it := FindPlace(item.value);
      InsertLinks(item, it);
      forall j | -1 <= j < |ring.items| && j != k - 1 ensures Linked(j) { assert old(Linked(j)); }
      Adopt(item, k);
    }

    /** The search of vListInsert: the node to insert after. */
    method FindPlace(value: Tick) returns (it: ListItem)
      requires Valid()
      ensures it == At(Position(values, value) - 1) && it.next == At(Position(values, value))
      ensures it.next.previous == it
    {
      ghost var k: int := 0;
      if value == MAX_DELAY {
        k := |values|;
        assert Linked(k - 1);
        it := end.previous;
        PositionOfMax(values);
      } else {
        it := end;
        assert Linked(-1);
        while it.next.value <= value
          invariant k <= |values| && it == At(k - 1) && Linked(k - 1)
          invariant forall i :: 0 <= i < k ==> values[i] <= value
          decreases |values| - k
        {
          it := it.next;
          k := k + 1;
          assert Linked(k - 1);
        }
        PositionIs(values, value, k);
      }
    }

    method InsertLinks(item: ListItem, it: ListItem)
      requires it.next != null && item != it && item != it.next
      modifies item`next, item`previous, it`next, it.next`previous
      ensures item.next == old(it.next) && item.previous == it && it.next == item && old(it.next).previous == item
    {
      item.next := it.next;
      item.next.previous := item;
      item.previous := it;
      it.next := item;
    }

    /** uxListRemove, on the list the item records as its container. */
    method Remove(item: ListItem, ghost k: nat) returns (left: nat)
      requires Valid() && item.container == this && k < |ring.items| && ring.items[k] == item
      modifies this, end, ring.items
      ensures Valid() && ring == Rings.Remove(old(ring), k) && values == RemoveAt(old(values), k)
      ensures item.container == null && left == |ring.items|
    {
      assert Linked(k - 1) && Linked(k);
      RemoveLinks(item);
      forall j | -1 <= j < |ring.items| && j != k - 1 && j != k ensures Linked(j) { assert old(Linked(j)); }
      Disown(item, k);
      left := count;
    }

    method RemoveLinks(item: ListItem)
      requires item.next != null && item.previous != null && item.next != item && item.previous != item
      modifies item.next`previous, item.previous`next
      ensures item.next.previous == item.previous && item.previous.next == item.next
    {
      item.next.previous := item.previous;
      item.previous.next := item.next;
    }

    /** The bookkeeping at the end of removal. */
    method Disown(item: ListItem, ghost k: nat)
      requires Cut(k) && item == ring.items[k]
      modifies this`count, this`index, this`ring, this`values, item`container
      ensures Valid() && ring == Rings.Remove(old(ring), k) && values == RemoveAt(old(values), k)
      ensures item.container == null
    {
      if index == item {
        index := item.previous;
      }
      assert index == if ring.at == k + 1 then At(k - 1) else At(ring.at - 1);
      item.container := null;
      count := count - 1;
      forall j | -1 <= j < |ring.items| && j != k - 1 && j != k ensures Linked(j) { assert old(Linked(j)); }
      Forget(k);
    }

    /** The ring but for the links around its k-th item, which lead past it. */
    ghost predicate Cut(k: nat)
      reads this, end, ring.items
    {
      && ring.Valid() && end !in ring.items && end.value == MAX_DELAY
      && k < |ring.items| == count == |values| && index == At(ring.at - 1)
      && (forall j :: -1 <= j < |ring.items| && j != k - 1 && j != k ==> Linked(j))
      && (forall j :: 0 <= j < |ring.items| ==> ring.items[j].container == this && ring.items[j].value == values[j])
      && ring.items[k].previous == At(k - 1) && At(k - 1).next == At(k + 1) && At(k + 1).previous == At(k - 1)
    }

    ghost method Forget(k: nat)
      requires ring.Valid() && end !in ring.items && end.value == MAX_DELAY
      requires k < |ring.items| == count + 1 == |values|
      requires index == if ring.at == k + 1 then At(k - 1) else At(ring.at - 1)
      requires forall j :: -1 <= j < |ring.items| && j != k - 1 && j != k ==> Linked(j)
      requires forall j :: 0 <= j < |ring.items| && j != k ==> ring.items[j].container == this && ring.items[j].value == values[j]
      requires At(k - 1).next == At(k + 1) && At(k + 1).previous == At(k - 1)
      modifies this`ring, this`values
      ensures Valid() && ring == Rings.Remove(old(ring), k) && values == RemoveAt(old(values), k)
    {
      RemoveValid(ring, k);
      ring, values := Rings.Remove(ring, k), RemoveAt(values, k);
      forall j | -1 <= j < |ring.items| ensures Linked(j) {
        if j < k - 1 { assert old(Linked(j)); } else if j > k - 1 { assert old(Linked(j + 1)); }
      }
    }

    /** listGET_OWNER_OF_NEXT_ENTRY, giving the item rather than its owner. */
    method NextEntry() returns (item: ListItem)
      requires Valid() && count > 0
      modifies this`index, this`ring
      ensures Valid() && ring == Next(old(ring)) && item == ring.items[ring.at - 1]
    {
      assert Linked(ring.at - 1) && Linked(-1);
      index := index.next;
      if index == end {
        index := index.next;
      }
      ring := Next(ring);
      forall j | -1 <= j < |ring.items| ensures Linked(j) { assert old(Linked(j)); }
      item := index;
    }
  }

  lemma PositionIs(vs: seq<int>, v: int, k: nat)
    requires k <= |vs| && (forall i :: 0 <= i < k ==> vs[i] <= v) && (k < |vs| ==> vs[k] > v)
    ensures Position(vs, v) == k
  {}
}
