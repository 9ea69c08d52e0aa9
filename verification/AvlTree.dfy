/**
The balanced search tree of adt/tree.c as a value. The tree is compared with the
plain sequence of its elements, in order. The comparator is a parameter: it may
call two different elements equal, so long as it orders the elements at hand.
 */
module AvlTree {
  import opened Basics

  datatype Tree<T> = Leaf | Node(left: Tree<T>, data: T, right: Tree<T>)

  type Comparator<!T> = (T, T) -> int

  datatype Option<T> = None | Some(value: T)

  function Max(a: int, b: int): int { if a > b then a else b }

  function Height<T>(t: Tree<T>): nat {
    match t
    case Leaf => 0
    case Node(l, _, r) => 1 + Max(Height(l), Height(r))
  }

  function BalanceFactor<T>(t: Tree<T>): int {
    match t
    case Leaf => 0
    case Node(l, _, r) => Height(l) - Height(r)
  }

  function Elements<T>(t: Tree<T>): seq<T> {
    match t
    case Leaf => []
    case Node(l, d, r) => Elements(l) + [d] + Elements(r)
  }

  /** Height-balanced all the way down. */
  predicate Balanced<T>(t: Tree<T>) {
    t.Node? ==> Balanced(t.left) && Balanced(t.right) && -1 <= BalanceFactor(t) <= 1
  }

  // ---- rotations ----

  function RotateLeft<T>(t: Tree<T>): Tree<T>
    requires t.Node? && t.right.Node?
  {
    Node(Node(t.left, t.data, t.right.left), t.right.data, t.right.right)
  }

  function RotateRight<T>(t: Tree<T>): Tree<T>
    requires t.Node? && t.left.Node?
  {
    Node(t.left.left, t.left.data, Node(t.left.right, t.data, t.right))
  }

  /** AvlBalance; its assertion on the balance factor is the precondition. */
  function Rebalance<T>(t: Tree<T>): Tree<T>
    requires -2 <= BalanceFactor(t) <= 2
  {
    if t.Leaf? then t
    else if BalanceFactor(t) == -2 then
      if BalanceFactor(t.right) == 1 then RotateLeft(t.(right := RotateRight(t.right))) else RotateLeft(t)
    else if BalanceFactor(t) == 2 then
      if BalanceFactor(t.left) == -1 then RotateRight(t.(left := RotateLeft(t.left))) else RotateRight(t)
    else t
  }

  lemma {:induction false} RotateKeepsOrder<T>(t: Tree<T>)
    ensures t.Node? && t.right.Node? ==> Elements(RotateLeft(t)) == Elements(t)
    ensures t.Node? && t.left.Node? ==> Elements(RotateRight(t)) == Elements(t)
  {
  }

  lemma {:induction false} RebalanceKeepsOrder<T>(t: Tree<T>)
    requires -2 <= BalanceFactor(t) <= 2
    ensures Elements(Rebalance(t)) == Elements(t)
  {
    RotateKeepsOrder(t);
    if BalanceFactor(t) == -2 && BalanceFactor(t.right) == 1 {
      RotateKeepsOrder(t.right);
      RotateKeepsOrder(t.(right := RotateRight(t.right)));
    } else if BalanceFactor(t) == 2 && BalanceFactor(t.left) == -1 {
      RotateKeepsOrder(t.left);
      RotateKeepsOrder(t.(left := RotateLeft(t.left)));
    }
  }

  lemma {:induction false} RightHeavyRepaired<T>(t: Tree<T>)
    requires t.Node? && Balanced(t.left) && Balanced(t.right) && BalanceFactor(t) == -2
    ensures Balanced(Rebalance(t))
    ensures Height(t) - 1 <= Height(Rebalance(t)) <= Height(t)
  {
    var r := t.right;
    if BalanceFactor(r) == 1 {
      var u := t.(right := RotateRight(r));
      assert Rebalance(t) == Node(Node(t.left, t.data, r.left.left), r.left.data, Node(r.left.right, r.data, r.right));
      assert Balanced(r.left) && Height(t.left) == Height(r.right) == Height(r.left) - 1;
    } else {
      assert Rebalance(t) == Node(Node(t.left, t.data, r.left), r.data, r.right);
    }
  }

  lemma {:induction false} LeftHeavyRepaired<T>(t: Tree<T>)
    requires t.Node? && Balanced(t.left) && Balanced(t.right) && BalanceFactor(t) == 2
    ensures Balanced(Rebalance(t))
    ensures Height(t) - 1 <= Height(Rebalance(t)) <= Height(t)
  {
    var l := t.left;
    if BalanceFactor(l) == -1 {
      assert Rebalance(t) == Node(Node(l.left, l.data, l.right.left), l.right.data, Node(l.right.right, t.data, t.right));
      assert Balanced(l.right) && Height(t.right) == Height(l.left) == Height(l.right) - 1;
    } else {
      assert Rebalance(t) == Node(l.left, l.data, Node(l.right, t.data, t.right));
    }
  }

  /** One level of imbalance between balanced subtrees is repaired; the height drops by at most one. */
  lemma {:induction false} RebalanceRepairs<T>(t: Tree<T>)
    requires t.Node? && Balanced(t.left) && Balanced(t.right) && -2 <= BalanceFactor(t) <= 2
    ensures Balanced(Rebalance(t))
    ensures Height(t) - 1 <= Height(Rebalance(t)) <= Height(t)
    ensures -1 <= BalanceFactor(t) <= 1 ==> Rebalance(t) == t
  {
    if BalanceFactor(t) == -2 {
      RightHeavyRepaired(t);
    } else if BalanceFactor(t) == 2 {
      LeftHeavyRepaired(t);
    }
  }

  // ---- insertion ----

  /** AvlInsert, and TreeInsert for the empty tree: equal elements would go to the right. */
  function Insert<T>(t: Tree<T>, x: T, cmp: Comparator<T>): (r: Tree<T>)
    requires Balanced(t)
    ensures Balanced(r) && Height(t) <= Height(r) <= Height(t) + 1
  {
    match t
    case Leaf => Node(Leaf, x, Leaf)
    case Node(l, d, r) =>
      if cmp(x, d) < 0 then
        Restored(Node(Insert(l, x, cmp), d, r))
      else
        Restored(Node(l, d, Insert(r, x, cmp)))
  }

  // ---- deletion ----

  function Least<T>(t: Tree<T>): T
    requires t.Node?
  {
    if t.left.Leaf? then t.data else Least(t.left)
  }

  /** AvlDelete: an inner element is replaced by its successor, which is then deleted further down. */
  function Delete<T>(t: Tree<T>, x: T, cmp: Comparator<T>): (r: Tree<T>)
    requires Balanced(t)
    ensures Balanced(r) && Height(t) - 1 <= Height(r) <= Height(t)
  {
    if t.Leaf? then t
    else if cmp(x, t.data) < 0 then Shrunk(t, Delete(t.left, x, cmp), t.data, t.right)
    else if cmp(x, t.data) > 0 then Shrunk(t, t.left, t.data, Delete(t.right, x, cmp))
    else if t.left.Leaf? then assert Balanced(t.right); Restored(t.right)
    else if t.right.Leaf? then assert Balanced(t.left); Restored(t.left)
    else
      var y := Least(t.right);
      Shrunk(t, t.left, y, Delete(t.right, y, cmp))
  }

  /** One subtree of t may have become one lower. */
  function Shrunk<T>(t: Tree<T>, l: Tree<T>, d: T, r: Tree<T>): (res: Tree<T>)
    requires t.Node? && Balanced(t) && Balanced(l) && Balanced(r)
    requires Height(t.left) - 1 <= Height(l) <= Height(t.left) && Height(t.right) - 1 <= Height(r) <= Height(t.right)
    requires Height(l) == Height(t.left) || Height(r) == Height(t.right)
    ensures Balanced(res) && Height(t) - 1 <= Height(res) <= Height(t)
  {
    Restored(Node(l, d, r))
  }

  /** AvlBalance on a tree whose subtrees are balanced. */
  function Restored<T>(t: Tree<T>): (r: Tree<T>)
    requires t.Node? ==> Balanced(t.left) && Balanced(t.right) && -2 <= BalanceFactor(t) <= 2
    ensures Balanced(r) && Height(t) - 1 <= Height(r) <= Height(t)
    ensures Balanced(t) ==> r == t
  {
    if t.Leaf? then t
    else
      RebalanceRepairs(t);
      Rebalance(t)
  }

  // ---- order ----

  /** The comparator orders the sequence strictly, whichever way round it is asked. */
  ghost predicate Ordered<T>(s: seq<T>, cmp: Comparator<T>) {
    && (forall i, j {:trigger cmp(s[i], s[j])} {:trigger cmp(s[j], s[i])} | 0 <= i < j < |s| ::
          cmp(s[i], s[j]) < 0 && cmp(s[j], s[i]) > 0)
    && (forall i {:trigger cmp(s[i], s[i])} | 0 <= i < |s| :: cmp(s[i], s[i]) == 0)
  }

  /** x belongs between the first k elements and the rest. */
  ghost predicate Splits<T>(s: seq<T>, x: T, cmp: Comparator<T>, k: nat) {
    && k <= |s|
    && (forall i | 0 <= i < k :: cmp(x, s[i]) > 0)
    && (forall i | k <= i < |s| :: cmp(x, s[i]) < 0)
  }

  /** x matches the element at k and no other. */
  ghost predicate Matches<T>(s: seq<T>, x: T, cmp: Comparator<T>, k: nat) {
    && k < |s|
    && cmp(x, s[k]) == 0
    && (forall i | 0 <= i < k :: cmp(x, s[i]) > 0)
    && (forall i | k < i < |s| :: cmp(x, s[i]) < 0)
  }

  function InsertAt<T>(s: seq<T>, k: nat, x: T): seq<T>
    requires k <= |s|
  {
    s[..k] + [x] + s[k..]
  }

  lemma {:induction false} RestoredKeepsOrder<T>(t: Tree<T>)
    requires t.Node? ==> Balanced(t.left) && Balanced(t.right) && -2 <= BalanceFactor(t) <= 2
    ensures Elements(Restored(t)) == Elements(t)
  {
    if t.Node? {
      RebalanceKeepsOrder(t);
    }
  }

  lemma InsertAtParts<T>(l: seq<T>, d: T, r: seq<T>, k: nat, x: T)
    requires k <= |l| + 1 + |r|
    ensures k <= |l| ==> InsertAt(l, k, x) + [d] + r == InsertAt(l + [d] + r, k, x)
    ensures k > |l| ==> l + [d] + InsertAt(r, k - |l| - 1, x) == InsertAt(l + [d] + r, k, x)
  {
  }

  lemma RemoveAtParts<T>(l: seq<T>, d: T, r: seq<T>, k: nat)
    requires k < |l| + 1 + |r|
    ensures k < |l| ==> RemoveAt(l, k) + [d] + r == RemoveAt(l + [d] + r, k)
    ensures k > |l| ==> l + [d] + RemoveAt(r, k - |l| - 1) == RemoveAt(l + [d] + r, k)
    ensures k == |l| ==> l + r == RemoveAt(l + [d] + r, k)
  {
  }

  lemma FirstMoved<T>(l: seq<T>, r: seq<T>)
    requires |r| > 0
    ensures l + [r[0]] + RemoveAt(r, 0) == l + r
  {
  }

  lemma SplitsLeft<T>(l: seq<T>, d: T, r: seq<T>, x: T, cmp: Comparator<T>, k: nat)
    requires Splits(l + [d] + r, x, cmp, k) && cmp(x, d) < 0
    ensures k <= |l| && Splits(l, x, cmp, k)
  {
    var s := l + [d] + r;
    assert s[|l|] == d;
    assert forall i | 0 <= i < |l| :: l[i] == s[i];
  }

  lemma SplitsRight<T>(l: seq<T>, d: T, r: seq<T>, x: T, cmp: Comparator<T>, k: nat)
    requires Splits(l + [d] + r, x, cmp, k) && cmp(x, d) > 0
    ensures |l| < k && Splits(r, x, cmp, k - |l| - 1)
  {
    var s := l + [d] + r;
    assert s[|l|] == d;
    assert forall i | 0 <= i < |r| :: r[i] == s[|l| + 1 + i];
  }

  /** Insertion puts the new element where it belongs and leaves the others in order. */
  lemma {:induction false} InsertPlaces<T>(t: Tree<T>, x: T, cmp: Comparator<T>, k: nat)
    requires Balanced(t) && Splits(Elements(t), x, cmp, k)
    ensures Elements(Insert(t, x, cmp)) == InsertAt(Elements(t), k, x)
  {
    match t
    case Leaf =>
    case Node(l, d, r) =>
      var el, er := Elements(l), Elements(r);
      assert (el + [d] + er)[|el|] == d;
      InsertAtParts(el, d, er, k, x);
      if cmp(x, d) < 0 {
        SplitsLeft(el, d, er, x, cmp, k);
        InsertPlaces(l, x, cmp, k);
        RestoredKeepsOrder(Node(Insert(l, x, cmp), d, r));
      } else {
        SplitsRight(el, d, er, x, cmp, k);
        InsertPlaces(r, x, cmp, k - |el| - 1);
        RestoredKeepsOrder(Node(l, d, Insert(r, x, cmp)));
      }
  }

  lemma MatchesPart<T>(l: seq<T>, d: T, r: seq<T>, x: T, cmp: Comparator<T>, k: nat)
    requires Matches(l + [d] + r, x, cmp, k)
    ensures cmp(x, d) < 0 ==> k < |l| && Matches(l, x, cmp, k)
    ensures cmp(x, d) > 0 ==> |l| < k && Matches(r, x, cmp, k - |l| - 1)
    ensures cmp(x, d) == 0 ==> k == |l|
  {
    var s := l + [d] + r;
    assert s[|l|] == d;
    assert forall i | 0 <= i < |l| :: l[i] == s[i];
    assert forall i | 0 <= i < |r| :: r[i] == s[|l| + 1 + i];
  }

  lemma OrderedSlice<T>(s: seq<T>, lo: nat, hi: nat, cmp: Comparator<T>)
    requires Ordered(s, cmp) && lo <= hi <= |s|
    ensures Ordered(s[lo..hi], cmp)
  {
  }

  lemma OrderedParts<T>(l: seq<T>, d: T, r: seq<T>, cmp: Comparator<T>)
    requires Ordered(l + [d] + r, cmp)
    ensures Ordered(l, cmp) && Ordered(r, cmp)
  {
    var s := l + [d] + r;
    OrderedSlice(s, 0, |l|, cmp);
    OrderedSlice(s, |l| + 1, |s|, cmp);
    assert s[0..|l|] == l && s[|l| + 1..|s|] == r;
  }

  lemma {:induction false} LeastIsFirst<T>(t: Tree<T>)
    requires t.Node?
    ensures |Elements(t)| > 0 && Least(t) == Elements(t)[0]
  {
    if t.left.Node? {
      LeastIsFirst(t.left);
    }
  }

  lemma {:induction false} DeleteDescends<T>(t: Tree<T>, x: T, cmp: Comparator<T>)
    requires Balanced(t) && t.Node?
    ensures cmp(x, t.data) < 0 ==>
              Elements(Delete(t, x, cmp)) == Elements(Delete(t.left, x, cmp)) + [t.data] + Elements(t.right)
    ensures cmp(x, t.data) > 0 ==>
              Elements(Delete(t, x, cmp)) == Elements(t.left) + [t.data] + Elements(Delete(t.right, x, cmp))
  {
    if cmp(x, t.data) < 0 {
      RestoredKeepsOrder(t.(left := Delete(t.left, x, cmp)));
    } else if cmp(x, t.data) > 0 {
      RestoredKeepsOrder(t.(right := Delete(t.right, x, cmp)));
    }
  }

  lemma {:induction false} DeleteAtRoot<T>(t: Tree<T>, x: T, cmp: Comparator<T>)
    requires Balanced(t) && t.Node? && cmp(x, t.data) == 0
    requires t.right.Node? ==> Elements(Delete(t.right, Least(t.right), cmp)) == RemoveAt(Elements(t.right), 0)
    ensures Elements(Delete(t, x, cmp)) == Elements(t.left) + Elements(t.right)
  {
    if t.left.Leaf? {
      RestoredKeepsOrder(t.right);
    } else if t.right.Leaf? {
      RestoredKeepsOrder(t.left);
    } else {
      var y, er := Least(t.right), Elements(t.right);
      LeastIsFirst(t.right);
      RestoredKeepsOrder(Node(t.left, y, Delete(t.right, y, cmp)));
      FirstMoved(Elements(t.left), er);
    }
  }

  /** Deletion removes exactly the matching element. */
  lemma {:induction false} DeleteRemoves<T>(t: Tree<T>, x: T, cmp: Comparator<T>, k: nat)
    requires Balanced(t) && Ordered(Elements(t), cmp) && Matches(Elements(t), x, cmp, k)
    ensures Elements(Delete(t, x, cmp)) == RemoveAt(Elements(t), k)
    decreases t
  {
    var el, er := Elements(t.left), Elements(t.right);
    MatchesPart(el, t.data, er, x, cmp, k);
    OrderedParts(el, t.data, er, cmp);
    RemoveAtParts(el, t.data, er, k);
    DeleteDescends(t, x, cmp);
    if cmp(x, t.data) < 0 {
      DeleteRemoves(t.left, x, cmp, k);
    } else if cmp(x, t.data) > 0 {
      DeleteRemoves(t.right, x, cmp, k - |el| - 1);
    } else {
      if t.right.Node? {
        LeastIsFirst(t.right);
        DeleteRemoves(t.right, Least(t.right), cmp, 0);
      }
      DeleteAtRoot(t, x, cmp);
    }
  }

  /** Deleting something that matches nothing leaves the tree as it is. */
  lemma {:induction false} DeleteAbsent<T>(t: Tree<T>, x: T, cmp: Comparator<T>, k: nat)
    requires Balanced(t) && Splits(Elements(t), x, cmp, k)
    ensures Delete(t, x, cmp) == t
  {
    if t.Node? {
      var el, er := Elements(t.left), Elements(t.right);
      assert (el + [t.data] + er)[|el|] == t.data;
      if cmp(x, t.data) < 0 {
        SplitsLeft(el, t.data, er, x, cmp, k);
        DeleteAbsent(t.left, x, cmp, k);
      } else {
        SplitsRight(el, t.data, er, x, cmp, k);
        DeleteAbsent(t.right, x, cmp, k - |el| - 1);
      }
    }
  }

  // ---- lookup ----

  /** AvlGet: it looks everywhere, not only where the order points. */
  function Get<T>(t: Tree<T>, x: T, cmp: Comparator<T>): (r: Option<T>)
    ensures r.None? <==> forall e | e in Elements(t) :: cmp(e, x) != 0
    ensures r.Some? ==> r.value in Elements(t) && cmp(r.value, x) == 0
  {
    if t.Leaf? then None
    else if cmp(t.data, x) == 0 then Some(t.data)
    else
      var left := Get(t.left, x, cmp);
      if left.Some? then left else Get(t.right, x, cmp)
  }

  /** AvlContains. */
  predicate Contains<T>(t: Tree<T>, x: T, cmp: Comparator<T>)
    ensures Contains(t, x, cmp) <==> exists e :: e in Elements(t) && cmp(e, x) == 0
  {
    t.Node? && (cmp(t.data, x) == 0 || Contains(t.left, x, cmp) || Contains(t.right, x, cmp))
  }

  /** Keeping order: what insertion and deletion leave is still ordered. */
  lemma InsertedOrdered<T>(s: seq<T>, x: T, cmp: Comparator<T>, k: nat)
    requires Ordered(s, cmp) && Splits(s, x, cmp, k) && cmp(x, x) == 0
    requires forall i | 0 <= i < |s| :: (cmp(x, s[i]) < 0 <==> cmp(s[i], x) > 0) && (cmp(x, s[i]) > 0 <==> cmp(s[i], x) < 0)
    ensures Ordered(InsertAt(s, k, x), cmp)
  {
    var r := InsertAt(s, k, x);
    assert forall i | 0 <= i < |r| :: r[i] == if i < k then s[i] else if i == k then x else s[i - 1];
  }

  lemma RemovedOrdered<T>(s: seq<T>, cmp: Comparator<T>, k: nat)
    requires Ordered(s, cmp) && k < |s|
    ensures Ordered(RemoveAt(s, k), cmp)
  {
    var r := RemoveAt(s, k);
    assert forall i | 0 <= i < |r| :: r[i] == if i < k then s[i] else s[i + 1];
  }

  // ---- whole runs, under a comparator that orders all keys ----

  /** AvlDefaultComparator, on the keys themselves. */
  function CompareKeys(a: int, b: int): int {
    if a == b then 0 else if a < b then -1 else 1
  }

  datatype Op = Put(key: int) | Drop(key: int)

  /** Only absent keys are inserted and only present ones deleted. */
  ghost predicate Legal(ops: seq<Op>, keys: set<int>)
    decreases |ops|
  {
    ops == [] ||
    match ops[0]
    case Put(x) => x !in keys && Legal(ops[1..], keys + {x})
    case Drop(x) => x in keys && Legal(ops[1..], keys - {x})
  }

  ghost function KeysAfter(ops: seq<Op>, keys: set<int>): set<int>
    decreases |ops|
  {
    if ops == [] then keys
    else
      match ops[0]
      case Put(x) => KeysAfter(ops[1..], keys + {x})
      case Drop(x) => KeysAfter(ops[1..], keys - {x})
  }

  /** The tree and its hand-kept size after the operations. */
  function RunOn(t: Tree<int>, size: int, ops: seq<Op>): (r: (Tree<int>, int))
    requires Balanced(t)
    ensures Balanced(r.0)
    decreases |ops|
  {
    if ops == [] then (t, size)
    else
      match ops[0]
      case Put(x) => RunOn(Insert(t, x, CompareKeys), size + 1, ops[1..])
      case Drop(x) => RunOn(Delete(t, x, CompareKeys), size - 1, ops[1..])
  }

  ghost predicate Lists(s: seq<int>, size: int, keys: set<int>) {
    && Ordered(s, CompareKeys)
    && size == |s| == |keys|
    && (forall x :: x in keys <==> x in s)
  }

  /** The tree lists exactly the keys, in order, and its size is their number. */
  ghost predicate Represents(t: Tree<int>, size: int, keys: set<int>) {
    Lists(Elements(t), size, keys)
  }

  lemma {:induction false} KeySplits(s: seq<int>, x: int) returns (k: nat)
    requires Ordered(s, CompareKeys) && x !in s
    ensures Splits(s, x, CompareKeys, k)
  {
    if s == [] || x < s[0] {
      k := 0;
      assert forall i | 0 < i < |s| :: CompareKeys(s[0], s[i]) < 0;
    } else {
      OrderedParts([], s[0], s[1..], CompareKeys);
      assert [] + [s[0]] + s[1..] == s;
      var j := KeySplits(s[1..], x);
      k := j + 1;
      assert forall i | 0 < i < |s| :: s[i] == s[1..][i - 1];
    }
  }

  lemma InInsertAt(s: seq<int>, x: int, k: nat, y: int)
    requires k <= |s|
    ensures y in InsertAt(s, k, x) <==> y in s || y == x
  {
    assert s == s[..k] + s[k..];
  }

  lemma RemovedIsGone(s: seq<int>, k: nat)
    requires Ordered(s, CompareKeys) && k < |s|
    ensures s[k] !in RemoveAt(s, k)
  {
    var r := RemoveAt(s, k);
    forall i | 0 <= i < |r| ensures r[i] != s[k] {
      var j := if i < k then i else i + 1;
      assert r[i] == s[j] && CompareKeys(s[k], s[j]) != 0;
    }
  }

  lemma PutLists(s: seq<int>, size: int, keys: set<int>, x: int, k: nat)
    requires Lists(s, size, keys) && x !in keys && Splits(s, x, CompareKeys, k)
    ensures Lists(InsertAt(s, k, x), size + 1, keys + {x})
  {
    InsertedOrdered(s, x, CompareKeys, k);
    forall y ensures y in keys + {x} <==> y in InsertAt(s, k, x) {
      InInsertAt(s, x, k, y);
    }
  }

  lemma DropLists(s: seq<int>, size: int, keys: set<int>, k: nat)
    requires Lists(s, size, keys) && k < |s|
    ensures Lists(RemoveAt(s, k), size - 1, keys - {s[k]})
  {
    RemovedOrdered(s, CompareKeys, k);
    RemovedIsGone(s, k);
    forall y ensures y in keys - {s[k]} <==> y in RemoveAt(s, k) {
      if y != s[k] {
        InRemoveAt(s, k, y);
      }
    }
    assert s[k] in keys;
  }

  lemma PutRepresents(t: Tree<int>, size: int, keys: set<int>, x: int)
    requires Balanced(t) && Represents(t, size, keys) && x !in keys
    ensures Represents(Insert(t, x, CompareKeys), size + 1, keys + {x})
  {
    var k := KeySplits(Elements(t), x);
    InsertPlaces(t, x, CompareKeys, k);
    PutLists(Elements(t), size, keys, x, k);
  }

  lemma DropRepresents(t: Tree<int>, size: int, keys: set<int>, x: int)
    requires Balanced(t) && Represents(t, size, keys) && x in keys
    ensures Represents(Delete(t, x, CompareKeys), size - 1, keys - {x})
  {
    var s := Elements(t);
    var k :| 0 <= k < |s| && s[k] == x;
    DeleteRemoves(t, x, CompareKeys, k);
    DropLists(s, size, keys, k);
  }

  lemma {:induction false} RunEndsWell(t: Tree<int>, size: int, keys: set<int>, ops: seq<Op>,
                                       end: (Tree<int>, int), left: set<int>)
    requires Balanced(t) && Represents(t, size, keys) && Legal(ops, keys)
    requires end == RunOn(t, size, ops) && left == KeysAfter(ops, keys)
    ensures Balanced(end.0) && Represents(end.0, end.1, left)
    decreases |ops|
  {
    if ops != [] {
      match ops[0]
      case Put(x) =>
        PutRepresents(t, size, keys, x);
        RunEndsWell(Insert(t, x, CompareKeys), size + 1, keys + {x}, ops[1..], end, left);
      case Drop(x) =>
        DropRepresents(t, size, keys, x);
        RunEndsWell(Delete(t, x, CompareKeys), size - 1, keys - {x}, ops[1..], end, left);
    }
  }

  /** Every legal run leaves an ordered, balanced tree of exactly the keys it should hold, counted right. */
  lemma RunRepresents(t: Tree<int>, size: int, keys: set<int>, ops: seq<Op>)
    requires Balanced(t) && Represents(t, size, keys) && Legal(ops, keys)
    ensures var (t', size') := RunOn(t, size, ops); Balanced(t') && Represents(t', size', KeysAfter(ops, keys))
  {
    RunEndsWell(t, size, keys, ops, RunOn(t, size, ops), KeysAfter(ops, keys));
  }

  /** The size kept by TreeDelete stays right exactly when the deleted key was there. */
  lemma DropCountsRight(t: Tree<int>, size: int, keys: set<int>, x: int)
    requires Balanced(t) && Represents(t, size, keys)
    ensures size - 1 == |Elements(Delete(t, x, CompareKeys))| <==> x in keys
  {
    if x in keys {
      DropRepresents(t, size, keys, x);
    } else {
      var k := KeySplits(Elements(t), x);
      DeleteAbsent(t, x, CompareKeys, k);
    }
  }
}
