/**
The fixed-capacity binary heap of adt/heap.c, in place on an array, refining the
sifts of HeapOrder. An element of the source's word array (a priority word and the
payload words behind it) is one array cell here.
 */
module ArrayHeap {
  import opened HeapOrder

  /** What Insert does to the live part of the array. */
  ghost function Inserted<T>(max: bool, s: seq<Item<T>>, x: Item<T>): seq<Item<T>> {
    SiftUp(max, s + [x], |s|)
  }

  lemma InsertedIsHeap<T>(max: bool, s: seq<Item<T>>, x: Item<T>)
    requires IsHeap(max, s)
    ensures IsHeap(max, Inserted(max, s, x))
    ensures multiset(Inserted(max, s, x)) == multiset(s) + multiset{x}
  {
    var t := s + [x];
    forall j | 0 < j < |t| && j != |s| ensures OrderedAt(max, t, j) {
      assert OrderedAt(max, s, j);
    }
    SiftUpHeapifies(max, t, |s|);
  }

  /** What Pop does to the live part: the last element moves to the root and sinks. */
  ghost function Popped<T>(max: bool, s: seq<Item<T>>): seq<Item<T>>
    requires |s| > 0
  {
    if |s| == 1 then [] else SiftDown(max, s[..|s| - 1][0 := s[|s| - 1]], 0)
  }

  lemma PoppedIsHeap<T>(max: bool, s: seq<Item<T>>)
    requires |s| > 0 && IsHeap(max, s)
    ensures IsHeap(max, Popped(max, s))
    ensures multiset(Popped(max, s)) + multiset{s[0]} == multiset(s)
  {
    if |s| > 1 {
      var n := |s| - 1;
      var t := s[..n][0 := s[n]];
      forall j | 0 < j < |t| && Parent(j) != 0 ensures OrderedAt(max, t, j) {
        assert OrderedAt(max, s, j);
      }
      SiftDownHeapifies(max, t, 0);
      assert s == [s[0]] + s[1..n] + [s[n]];
      assert t == [s[n]] + s[1..n];
    } else {
      assert s == [s[0]];
    }
  }

  class PriorityQueue<T> {
    const max: bool
    const items: array<Item<T>>
    var size: nat

    ghost predicate Valid()
      reads this, items
    {
      size <= items.Length && IsHeap(max, items[..size])
    }

    ghost function Contents(): multiset<Item<T>>
      requires size <= items.Length
      reads this, items
    {
      multiset(items[..size])
    }

    constructor (capacity: nat, max: bool, blank: T)
      requires capacity > 0
      ensures Valid() && fresh(items) && Contents() == multiset{}
      ensures items.Length == capacity && this.max == max && size == 0
    {
      this.max := max;
      items := new Item<T>[capacity](_ => Item(0, blank));
      size := 0;
    }

    method SwapElements(a: nat, b: nat)
      requires a < size <= items.Length && b < size
      modifies items
      ensures items[..size] == Swap(old(items[..size]), a, b)
    {
      var tmp := items[a];
      items[a] := items[b];
      items[b] := tmp;
    }

    method GetMinOrMaxIndex(a: nat, b: nat) returns (k: nat)
      requires size <= items.Length
      ensures k == Pick(max, items[..size], a, b)
    {
      if a >= size || b >= size {
        k := if a < b then a else b;
      } else {
        var isSmall := items[a].priority < items[b].priority;
        k := if max != isSmall then a else b;
      }
    }

    method Heapify(i: nat)
      requires size <= items.Length && (i < size || size == 0)
      modifies items
      ensures items[..size] == if size == 0 then [] else SiftDown(max, old(items[..size]), i)
      decreases if i < size then size - i else 0
    {
      ghost var s := items[..size];
      var inner := GetMinOrMaxIndex(i, 2 * i + 1);
      var best := GetMinOrMaxIndex(2 * i + 2, inner);
      if size > 0 {
        BestInBounds(max, s, i);
      }
      if i != best {
        SwapElements(i, best);
        Heapify(best);
      }
    }

    /** HeapAdtInsert; `ok` is false where the source panics because the queue is full. */
    method Insert(data: T, priority: nat) returns (ok: bool)
      requires Valid()
      modifies this, items
      ensures Valid()
      ensures ok <==> old(size) < items.Length
      ensures ok ==> size == old(size) + 1 && Contents() == old(Contents()) + multiset{Item(priority, data)}
      ensures !ok ==> size == old(size) && Contents() == old(Contents())
    {
      ok := size < items.Length;
      if ok {
        ghost var s := items[..size];
        InsertedIsHeap(max, s, Item(priority, data));
        items[size] := Item(priority, data);
        size := size + 1;
        assert items[..size] == s + [Item(priority, data)];
        Climb(size - 1);
      }
    }

    /** The loop of HeapAdtInsert. */
    method Climb(start: nat)
      requires start < size <= items.Length
      modifies items
      ensures items[..size] == SiftUp(max, old(items[..size]), start)
    {
      var i := start;
      while i > 0 && Climbs(max, items[(i - 1) / 2], items[i])
        invariant 0 <= i < size
        invariant SiftUp(max, items[..size], i) == SiftUp(max, old(items[..size]), start)
      {
        SwapElements((i - 1) / 2, i);
        i := (i - 1) / 2;
      }
    }

    lemma TopIsExtreme()
      requires Valid() && size > 0
      ensures items[0] in Contents()
      ensures forall x | x in Contents() :: Above(max, items[0], x)
    {
      assert items[0] == items[..size][0];
      forall x | x in Contents() ensures Above(max, items[0], x) {
        var j :| 0 <= j < size && items[..size][j] == x;
        RootIsExtreme(max, items[..size], j);
      }
    }

    method Peek() returns (top: Item<T>)
      requires Valid() && size > 0
      ensures top in Contents() && top == items[0]
      ensures forall x | x in Contents() :: Above(max, top, x)
    {
      top := items[0];
      TopIsExtreme();
    }

    /** HeapAdtPop removes exactly the element Peek returns. */
    method Pop()
      requires Valid() && size > 0
      modifies this, items
      ensures Valid() && size == old(size) - 1
      ensures Contents() + multiset{old(items[0])} == old(Contents())
    {
      ghost var s := items[..size];
      PoppedIsHeap(max, s);
      size := size - 1;
      items[0] := items[size];
      assert size > 0 ==> items[..size] == s[..size][0 := s[size]];
      Heapify(0);
    }
  }
}
