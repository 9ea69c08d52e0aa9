/**
The balanced tree as linked nodes. Rotations and deletion overwrite links and data
in place; insertion rebuilds the path from the root. Every operation is shown to
compute the corresponding operation on tree values.
 */
module AvlNodes {
  import opened AvlTree

  class TreeNode<T> {
    var left: TreeNode?<T>
    var right: TreeNode?<T>
    var data: T
    ghost var value: Tree<T>
    ghost var repr: set<TreeNode<T>>

    ghost predicate Valid()
      reads this, repr
      ensures Valid() ==> this in repr && value.Node?
      decreases repr
    {
      && this in repr
      && (left != null ==> left in repr && left.repr <= repr && this !in left.repr && left.Valid())
      && (right != null ==> right in repr && right.repr <= repr && this !in right.repr && right.Valid())
      && (left != null && right != null ==> left.repr !! right.repr)
      && repr == {this} + Nodes(left) + Nodes(right)
      && value == Node(ValueOf(left), data, ValueOf(right))
    }

    method SetLeft(l: TreeNode?<T>)
      requires Sound(l) && Sound(right)
      requires this !in Nodes(l) && this !in Nodes(right) && Nodes(l) !! Nodes(right)
      modifies this
      ensures Valid() && left == l && right == old(right) && data == old(data)
      ensures value == Node(old(ValueOf(l)), data, old(ValueOf(right))) && repr == {this} + old(Nodes(l) + Nodes(right))
    {
      left := l;
      value := Node(ValueOf(l), data, ValueOf(right));
      repr := {this} + Nodes(l) + Nodes(right);
    }

    method SetRight(r: TreeNode?<T>)
      requires Sound(left) && Sound(r)
      requires this !in Nodes(left) && this !in Nodes(r) && Nodes(left) !! Nodes(r)
      modifies this
      ensures Valid() && left == old(left) && right == r && data == old(data)
      ensures value == Node(old(ValueOf(left)), data, old(ValueOf(r))) && repr == {this} + old(Nodes(left) + Nodes(r))
    {
      right := r;
      value := Node(ValueOf(left), data, ValueOf(r));
      repr := {this} + Nodes(left) + Nodes(r);
    }

    /** AvlCreateNode */
    constructor (data: T, left: TreeNode?<T>, right: TreeNode?<T>)
      requires Sound(left) && Sound(right) && Nodes(left) !! Nodes(right)
      ensures Valid() && value == Node(ValueOf(left), data, ValueOf(right))
      ensures repr == {this} + Nodes(left) + Nodes(right)
      ensures this.left == left && this.right == right && this.data == data
    {
      this.data, this.left, this.right := data, left, right;
      value := Node(ValueOf(left), data, ValueOf(right));
      repr := {this} + Nodes(left) + Nodes(right);
    }
  }

  ghost function ValueOf<T>(n: TreeNode?<T>): Tree<T>
    reads n
  {
    if n == null then Leaf else n.value
  }

  ghost function Nodes<T>(n: TreeNode?<T>): set<TreeNode<T>>
    reads n
  {
    if n == null then {} else n.repr
  }

  ghost predicate Sound<T>(n: TreeNode?<T>)
    reads n, Nodes(n)
  {
    n != null ==> n.Valid()
  }

  /** AvlGetHeight */
  method GetHeight<T>(n: TreeNode?<T>) returns (h: nat)
    requires Sound(n)
    ensures h == Height(ValueOf(n))
    decreases Nodes(n)
  {
    if n == null {
      return 0;
    }
    var l := GetHeight(n.left);
    var r := GetHeight(n.right);
    return 1 + if l > r then l else r;
  }

  /** AvlGetBalance */
  method GetBalance<T>(n: TreeNode?<T>) returns (bf: int)
    requires Sound(n)
    ensures bf == BalanceFactor(ValueOf(n))
  {
    if n == null {
      return 0;
    }
    var l: int := GetHeight(n.left);
    var r: int := GetHeight(n.right);
    return l - r;
  }

  /** The nodes of a rotated tree, gathered the old way and the new way. */
  lemma Regroup<T>(n: set<T>, root: set<T>, a: set<T>, b: set<T>, c: set<T>)
    ensures n + a + (root + b + c) == root + ((n + (a + b)) + c)
    ensures n + (root + a + b) + c == root + (a + (n + (b + c)))
  {
  }

  method AvlRotateLeft<T>(n: TreeNode<T>) returns (root: TreeNode<T>)
    requires n.Valid() && n.right != null
    modifies n, n.right
    ensures root.Valid() && root.value == RotateLeft(old(n.value)) && root.repr == old(n.repr)
  {
    root := n.right;
    var a, b, c := n.left, root.left, root.right;
    ghost var na, nb, nc := Nodes(a), Nodes(b), Nodes(c);
    assert n !in na && n !in nb && n !in nc && root !in na && root !in nb && root !in nc;
    assert na !! nb && na !! nc && nb !! nc;
    Regroup({n}, {root}, na, nb, nc);
    n.SetRight(b);
    assert root.right == c && Sound(c) && Nodes(c) == nc;
    root.SetLeft(n);
  }

  method AvlRotateRight<T>(n: TreeNode<T>) returns (root: TreeNode<T>)
    requires n.Valid() && n.left != null
    modifies n, n.left
    ensures root.Valid() && root.value == RotateRight(old(n.value)) && root.repr == old(n.repr)
  {
    root := n.left;
    var a, b, c := root.left, root.right, n.right;
    ghost var na, nb, nc := Nodes(a), Nodes(b), Nodes(c);
    assert n !in na && n !in nb && n !in nc && root !in na && root !in nb && root !in nc;
    assert na !! nb && na !! nc && nb !! nc;
    Regroup({n}, {root}, na, nb, nc);
    n.SetLeft(b);
    assert root.left == a && Sound(a) && Nodes(a) == na;
    root.SetRight(n);
  }

  /** The first half of a double rotation. */
  method StraightenRight<T>(n: TreeNode<T>)
    requires n.Valid() && n.value.right.Node? && n.value.right.left.Node?
    modifies n.repr
    ensures n.Valid() && n.repr == old(n.repr) && n.right != null
    ensures n.value == old(n.value).(right := RotateRight(old(n.value).right))
  {
    ghost var nl, nr := Nodes(n.left), n.right.repr;
    var r := AvlRotateRight(n.right);
    assert Sound(n.left) && Nodes(n.left) == nl && r.repr == nr;
    n.SetRight(r);
  }

  method StraightenLeft<T>(n: TreeNode<T>)
    requires n.Valid() && n.value.left.Node? && n.value.left.right.Node?
    modifies n.repr
    ensures n.Valid() && n.repr == old(n.repr) && n.left != null
    ensures n.value == old(n.value).(left := RotateLeft(old(n.value).left))
  {
    ghost var nl, nr := n.left.repr, Nodes(n.right);
    var l := AvlRotateLeft(n.left);
    assert Sound(n.right) && Nodes(n.right) == nr && l.repr == nl;
    n.SetLeft(l);
  }

  /** AvlBalance, whose assertion on the balance factor is met by every caller. */
  method AvlBalance<T>(n: TreeNode<T>) returns (root: TreeNode<T>)
    requires n.Valid() && -2 <= BalanceFactor(n.value) <= 2
    modifies n.repr
    ensures root.Valid() && root.value == Rebalance(old(n.value)) && root.repr == old(n.repr)
  {
    var bf := GetBalance(n);
    if bf == -2 {
      var b := GetBalance(n.right);
      if b == 1 {
        StraightenRight(n);
      }
      root := AvlRotateLeft(n);
    } else if bf == 2 {
      var b := GetBalance(n.left);
      if b == -1 {
        StraightenLeft(n);
      }
      root := AvlRotateRight(n);
    } else {
      root := n;
    }
  }

  /** AvlInsert below a child link: a new leaf, or the rebuilt subtree. */
  method InsertBelow<T>(n: TreeNode?<T>, x: T, cmp: Comparator<T>) returns (r: TreeNode<T>)
    requires Sound(n) && Balanced(ValueOf(n))
    modifies Nodes(n)
    ensures r.Valid() && r.value == Insert(old(ValueOf(n)), x, cmp)
    ensures fresh(r.repr - old(Nodes(n)))
    decreases Nodes(n), 2
  {
    if n == null {
      r := new TreeNode(x, null, null);
    } else {
      r := AvlInsert(n, x, cmp);
    }
  }

  method RebuildLeft<T>(n: TreeNode<T>, x: T, cmp: Comparator<T>) returns (r: TreeNode<T>)
    requires n.Valid() && Balanced(n.value)
    modifies n.repr
    ensures r.Valid() && r.value == old(n.value).(left := Insert(old(n.value).left, x, cmp))
    ensures fresh(r.repr - old(n.repr)) && n !in r.repr
    decreases n.repr, 0
  {
    ghost var nr := Nodes(n.right);
    var right := n.right;
    var left := InsertBelow(n.left, x, cmp);
    assert Sound(right) && Nodes(right) == nr && left.repr !! nr && n !in left.repr;
    r := new TreeNode(n.data, left, right);
  }

  method RebuildRight<T>(n: TreeNode<T>, x: T, cmp: Comparator<T>) returns (r: TreeNode<T>)
    requires n.Valid() && Balanced(n.value)
    modifies n.repr
    ensures r.Valid() && r.value == old(n.value).(right := Insert(old(n.value).right, x, cmp))
    ensures fresh(r.repr - old(n.repr)) && n !in r.repr
    decreases n.repr, 0
  {
    ghost var nl := Nodes(n.left);
    var left := n.left;
    var right := InsertBelow(n.right, x, cmp);
    assert Sound(left) && Nodes(left) == nl && right.repr !! nl && n !in right.repr;
    r := new TreeNode(n.data, left, right);
  }

  /** AvlInsert: every node on the way down is replaced by a new one, and the old one is freed. */
  method AvlInsert<T>(n: TreeNode<T>, x: T, cmp: Comparator<T>) returns (r: TreeNode<T>)
    requires n.Valid() && Balanced(n.value)
    modifies n.repr
    ensures r.Valid() && r.value == Insert(old(n.value), x, cmp)
    ensures fresh(r.repr - old(n.repr)) && n !in r.repr
    decreases n.repr, 1
  {
    var rebuilt: TreeNode<T>;
    if cmp(x, n.data) < 0 {
      rebuilt := RebuildLeft(n, x, cmp);
    } else {
      rebuilt := RebuildRight(n, x, cmp);
    }
    r := AvlBalance(rebuilt);
  }

  method LeastData<T>(n: TreeNode<T>) returns (d: T)
    requires n.Valid()
    ensures d == Least(n.value)
  {
    var node: TreeNode<T> := n;
    while node.left != null
      invariant node.Valid() && Least(node.value) == Least(n.value)
      decreases node.repr
    {
      node := node.left;
    }
    d := node.data;
  }

  // ---- deletion ----

  method DeleteLeft<T>(n: TreeNode<T>, x: T, cmp: Comparator<T>)
    requires n.Valid() && Balanced(n.value)
    modifies n.repr
    ensures n.Valid() && n.value == old(n.value).(left := Delete(old(n.value).left, x, cmp))
    ensures n.repr <= old(n.repr)
    decreases n.repr, 0
  {
    ghost var nl, nr := Nodes(n.left), Nodes(n.right);
    var right := n.right;
    var left := AvlDelete(n.left, x, cmp);
    assert Sound(right) && Nodes(right) == nr && Nodes(left) <= nl && n.right == right;
    n.SetLeft(left);
  }

  method DeleteRight<T>(n: TreeNode<T>, x: T, cmp: Comparator<T>)
    requires n.Valid() && Balanced(n.value)
    modifies n.repr
    ensures n.Valid() && n.value == old(n.value).(right := Delete(old(n.value).right, x, cmp))
    ensures n.repr <= old(n.repr)
    decreases n.repr, 0
  {
    ghost var nl, nr := Nodes(n.left), Nodes(n.right);
    var left := n.left;
    var right := AvlDelete(n.right, x, cmp);
    assert Sound(left) && Nodes(left) == nl && Nodes(right) <= nr && n.left == left;
    n.SetRight(right);
  }

  /** An inner element is overwritten by its successor, which is deleted from the right subtree. */
  method DeleteInner<T>(n: TreeNode<T>, cmp: Comparator<T>)
    requires n.Valid() && Balanced(n.value) && n.value.right.Node?
    modifies n.repr
    ensures n.Valid() && n.repr <= old(n.repr)
    ensures var t := old(n.value); n.value == Node(t.left, Least(t.right), Delete(t.right, Least(t.right), cmp))
    decreases n.repr, 1
  {
    var y := LeastData(n.right);
    ghost var t := n.value;
    n.data := y;
    n.value := t.(data := y);
    assert n.Valid();
    DeleteRight(n, y, cmp);
  }

  /** AvlDelete */
  method AvlDelete<T>(n: TreeNode?<T>, x: T, cmp: Comparator<T>) returns (r: TreeNode?<T>)
    requires Sound(n) && Balanced(ValueOf(n))
    modifies Nodes(n)
    ensures Sound(r) && ValueOf(r) == Delete(old(ValueOf(n)), x, cmp)
    ensures Nodes(r) <= old(Nodes(n))
    decreases Nodes(n), 2
  {
    if n == null {
      return null;
    }
    r := n;
    if cmp(x, n.data) < 0 {
      DeleteLeft(n, x, cmp);
    } else if cmp(x, n.data) > 0 {
      DeleteRight(n, x, cmp);
    } else if n.left == null {
      r := n.right;
    } else if n.right == null {
      r := n.left;
    } else {
      DeleteInner(n, cmp);
    }
    if r != null {
      r := AvlBalance(r);
    }
  }

  // ---- lookup ----

  /** AvlGet */
  method AvlGet<T>(n: TreeNode?<T>, x: T, cmp: Comparator<T>) returns (r: Option<T>)
    requires Sound(n)
    ensures r == Get(ValueOf(n), x, cmp)
    decreases Nodes(n)
  {
    if n == null {
      return None;
    }
    if cmp(n.data, x) == 0 {
      return Some(n.data);
    }
    r := AvlGet(n.left, x, cmp);
    if r.None? {
      r := AvlGet(n.right, x, cmp);
    }
  }

  /** AvlContains */
  method AvlContains<T>(n: TreeNode?<T>, x: T, cmp: Comparator<T>) returns (r: bool)
    requires Sound(n)
    ensures r == Contains(ValueOf(n), x, cmp)
    decreases Nodes(n)
  {
    if n == null {
      return false;
    }
    if cmp(n.data, x) == 0 {
      return true;
    }
    r := AvlContains(n.left, x, cmp);
    if !r {
      r := AvlContains(n.right, x, cmp);
    }
  }

  /** struct tree: the root and an element count that is kept by hand. */
  class SearchTree<T> {
    var root: TreeNode?<T>
    var size: int
    ghost var repr: set<object>

    ghost predicate Valid()
      reads this, repr
    {
      && this in repr && (root != null ==> root in repr) && Nodes(root) <= repr
      && Sound(root) && Balanced(ValueOf(root))
    }

    ghost function Value(): Tree<T>
      reads this, repr
      requires Valid()
    {
      ValueOf(root)
    }

    /** TreeCreate */
    constructor ()
      ensures Valid() && fresh(repr) && Value() == Leaf && size == 0
    {
      root, size := null, 0;
      repr := {this};
    }

    method TreeInsert(x: T, cmp: Comparator<T>)
      requires Valid()
      modifies repr
      ensures Valid() && fresh(repr - old(repr))
      ensures Value() == Insert(old(Value()), x, cmp) && size == old(size) + 1
    {
      var r := InsertBelow(root, x, cmp);
      root, size, repr := r, size + 1, repr + r.repr;
    }

    method TreeDelete(x: T, cmp: Comparator<T>)
      requires Valid()
      modifies repr
      ensures Valid() && repr == old(repr)
      ensures Value() == Delete(old(Value()), x, cmp) && size == old(size) - 1
    {
      root := AvlDelete(root, x, cmp);
      size := size - 1;
    }

    method TreeContains(x: T, cmp: Comparator<T>) returns (r: bool)
      requires Valid()
      ensures r == Contains(Value(), x, cmp)
    {
      r := AvlContains(root, x, cmp);
    }

    method TreeGet(x: T, cmp: Comparator<T>) returns (r: Option<T>)
      requires Valid()
      ensures r == Get(Value(), x, cmp)
    {
      r := AvlGet(root, x, cmp);
    }
  }
}
