/**
The binary heap of adt/heap.c on sequences: sifting up and down, with ties broken
the way the source breaks them. In a max heap an element climbs past an equal one;
in a min heap a sinking element sinks past an equal left child.
 */
module HeapOrder {

  datatype Item<T> = Item(priority: nat, data: T)

  function Parent(j: nat): nat
    requires j > 0
  {
    (j - 1) / 2
  }

  /** An element may stay above another. */
  predicate Above<T>(max: bool, a: Item<T>, b: Item<T>) {
    if max then a.priority >= b.priority else a.priority <= b.priority
  }

  ghost predicate OrderedAt<T>(max: bool, s: seq<Item<T>>, j: nat)
    requires 0 < j < |s|
  {
    Above(max, s[Parent(j)], s[j])
  }

  ghost predicate IsHeap<T>(max: bool, s: seq<Item<T>>) {
    forall j {:trigger OrderedAt(max, s, j)} | 0 < j < |s| :: OrderedAt(max, s, j)
  }

  function Swap<T>(s: seq<T>, i: nat, j: nat): (r: seq<T>)
    requires i < |s| && j < |s|
    ensures |r| == |s|
  {
    s[i := s[j]][j := s[i]]
  }

  lemma SwapPermutes<T>(s: seq<T>, i: nat, j: nat)
    requires i < |s| && j < |s|
    ensures multiset(Swap(s, i, j)) == multiset(s)
  {
  }

  /** The root is an extreme of the whole heap. */
  lemma {:induction false} RootIsExtreme<T>(max: bool, s: seq<Item<T>>, j: nat)
    requires IsHeap(max, s) && j < |s|
    ensures Above(max, s[0], s[j])
    decreases j
  {
    if j > 0 {
      assert OrderedAt(max, s, j);
      RootIsExtreme(max, s, Parent(j));
    }
  }

  // ---- sifting up ----

  /** The loop condition of HeapAdtInsert. */
  predicate Climbs<T>(max: bool, parent: Item<T>, child: Item<T>) {
    max != (parent.priority > child.priority)
  }

  function SiftUp<T>(max: bool, s: seq<Item<T>>, i: nat): (r: seq<Item<T>>)
    requires i < |s|
    ensures |r| == |s|
    decreases i
  {
    if i > 0 && Climbs(max, s[Parent(i)], s[i]) then SiftUp(max, Swap(s, Parent(i), i), Parent(i)) else s
  }

  /** Only the element at i may be out of order with its parent. */
  ghost predicate Rising<T>(max: bool, s: seq<Item<T>>, i: nat)
    requires i < |s|
  {
    && (forall j {:trigger OrderedAt(max, s, j)} | 0 < j < |s| && j != i :: OrderedAt(max, s, j))
    && (i > 0 ==> forall j | 0 < j < |s| && Parent(j) == i :: Above(max, s[Parent(i)], s[j]))
  }

  lemma RiseOnce<T>(max: bool, s: seq<Item<T>>, i: nat)
    requires 0 < i < |s| && Rising(max, s, i) && Climbs(max, s[Parent(i)], s[i])
    ensures Rising(max, Swap(s, Parent(i), i), Parent(i))
  {
    var p := Parent(i);
    var r := Swap(s, p, i);
    forall j | 0 < j < |r| && j != p ensures OrderedAt(max, r, j) {
      if j != i {
        assert OrderedAt(max, s, j);
      }
    }
    if p > 0 {
      assert OrderedAt(max, s, p);
      forall j | 0 < j < |r| && Parent(j) == p ensures Above(max, r[Parent(p)], r[j]) {
        assert j != i ==> OrderedAt(max, s, j);
      }
    }
  }

  lemma {:induction false} SiftUpHeapifies<T>(max: bool, s: seq<Item<T>>, i: nat)
    requires i < |s| && Rising(max, s, i)
    ensures IsHeap(max, SiftUp(max, s, i)) && multiset(SiftUp(max, s, i)) == multiset(s)
    decreases i
  {
    if i > 0 && Climbs(max, s[Parent(i)], s[i]) {
      RiseOnce(max, s, i);
      SwapPermutes(s, Parent(i), i);
      SiftUpHeapifies(max, Swap(s, Parent(i), i), Parent(i));
    } else {
      forall j | 0 < j < |s| ensures OrderedAt(max, s, j) {
      }
    }
  }

  // ---- sifting down ----

  /** GetMinOrMaxIndex: an index past the end loses, and otherwise a tie goes to the second in a min heap. */
  function Pick<T>(max: bool, s: seq<Item<T>>, a: nat, b: nat): (r: nat)
    ensures r == a || r == b
  {
    if a >= |s| || b >= |s| then (if a < b then a else b)
    else if max != (s[a].priority < s[b].priority) then a else b
  }

  function Best<T>(max: bool, s: seq<Item<T>>, i: nat): nat {
    Pick(max, s, 2 * i + 2, Pick(max, s, i, 2 * i + 1))
  }

  lemma BestInBounds<T>(max: bool, s: seq<Item<T>>, i: nat)
    requires i < |s|
    ensures Best(max, s, i) < |s|
    ensures Best(max, s, i) == i || (i < Best(max, s, i) && Parent(Best(max, s, i)) == i)
    ensures forall j | 0 < j < |s| && Parent(j) == i :: Above(max, s[Best(max, s, i)], s[j])
    ensures Above(max, s[Best(max, s, i)], s[i])
  {
    forall j | 0 < j < |s| && Parent(j) == i ensures j == 2 * i + 1 || j == 2 * i + 2 {
    }
  }

  /** Heapify */
  function SiftDown<T>(max: bool, s: seq<Item<T>>, i: nat): (r: seq<Item<T>>)
    requires i < |s|
    ensures |r| == |s|
    decreases |s| - i
  {
    BestInBounds(max, s, i);
    var b := Best(max, s, i);
    if b == i then s else SiftDown(max, Swap(s, i, b), b)
  }

  /** Only the element at i may be out of order with its children. */
  ghost predicate Sinking<T>(max: bool, s: seq<Item<T>>, i: nat)
    requires i < |s|
  {
    && (forall j {:trigger OrderedAt(max, s, j)} | 0 < j < |s| && Parent(j) != i :: OrderedAt(max, s, j))
    && (i > 0 ==> forall j | 0 < j < |s| && Parent(j) == i :: Above(max, s[Parent(i)], s[j]))
  }

  lemma SinkOnce<T>(max: bool, s: seq<Item<T>>, i: nat)
    requires i < |s| && Sinking(max, s, i) && Best(max, s, i) != i
    ensures Best(max, s, i) < |s| && Sinking(max, Swap(s, i, Best(max, s, i)), Best(max, s, i))
  {
    BestInBounds(max, s, i);
    var b := Best(max, s, i);
    var r := Swap(s, i, b);
    forall j | 0 < j < |r| && Parent(j) != b ensures OrderedAt(max, r, j) {
      if Parent(j) == i {
      } else if j == i {
        assert Above(max, s[Parent(i)], s[b]);
      } else {
        assert OrderedAt(max, s, j);
      }
    }
    forall j | 0 < j < |r| && Parent(j) == b ensures Above(max, r[Parent(b)], r[j]) {
      assert OrderedAt(max, s, j);
    }
  }

  lemma {:induction false} SiftDownHeapifies<T>(max: bool, s: seq<Item<T>>, i: nat)
    requires i < |s| && Sinking(max, s, i)
    ensures IsHeap(max, SiftDown(max, s, i)) && multiset(SiftDown(max, s, i)) == multiset(s)
    decreases |s| - i
  {
    BestInBounds(max, s, i);
    var b := Best(max, s, i);
    if b == i {
      forall j | 0 < j < |s| ensures OrderedAt(max, s, j) {
      }
    } else {
      SinkOnce(max, s, i);
      SwapPermutes(s, i, b);
      SiftDownHeapifies(max, Swap(s, i, b), b);
    }
  }
}
