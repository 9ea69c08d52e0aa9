/**
The steps of the kernel heap's operations, as facts about memory before and after:
each keeps the invariant, and none touches a block that is in somebody's hands.
 */
module HeapSteps {
  import opened Basics
  import opened HeapBuckets
  import opened HeapLayout
  import opened HeapLists
  import opened HeapTiling

  /** Blocks in use: live allocations and fenceposts. */
  ghost function Taken(s: Shape, loose: set<nat>): set<nat> {
    s.tiles.blocks.Keys - s.free - loose
  }

  /** Block c is where and what it was, and so is every word between its tags. */
  ghost predicate Undisturbed(m: Words, s: Shape, m': Words, s': Shape, c: nat) {
    && |m| == |m'|
    && c in s.tiles.blocks && c in s'.tiles.blocks
    && c + s.tiles.blocks[c].size <= |m|
    && s'.tiles.blocks[c].size == s.tiles.blocks[c].size
    && s'.tiles.blocks[c].home == s.tiles.blocks[c].home
    && (forall w {:trigger m'[w]} | c < w < c + s.tiles.blocks[c].size - 1 :: m'[w] == m[w])
  }

  /** The same blocks are in use, and all of them are undisturbed. */
  ghost predicate Preserves(m: Words, s: Shape, loose: set<nat>, m': Words, s': Shape, loose': set<nat>) {
    && Taken(s', loose') == Taken(s, loose)
    && (forall c {:trigger Undisturbed(m, s, m', s', c)} | c in Taken(s, loose) :: Undisturbed(m, s, m', s', c))
  }

  lemma PreservesTrans(m: Words, s: Shape, l: set<nat>, m1: Words, s1: Shape, l1: set<nat>, m2: Words, s2: Shape, l2: set<nat>)
    requires Preserves(m, s, l, m1, s1, l1) && Preserves(m1, s1, l1, m2, s2, l2)
    ensures Preserves(m, s, l, m2, s2, l2)
  {
    forall c | c in Taken(s, l) ensures Undisturbed(m, s, m2, s2, c) {
      assert Undisturbed(m, s, m1, s1, c);
      assert Undisturbed(m1, s1, m2, s2, c);
      forall w | c < w < c + s.tiles.blocks[c].size - 1 ensures m2[w] == m[w] {
        assert m1[w] == m[w];
      }
    }
  }

  // ---- taking off a list ----

  lemma UnlinkPreserves(m: Words, h: Words, s: Shape, loose: set<nat>, i: nat, k: nat, m': Words, s': Shape)
    requires Inv(m, h, s, loose)
    requires i < NUM_LISTS && k < |s.lists[i]| && Bypassed(m, m', s.lists[i], k)
    requires s' == s.(lists := s.lists[i := RemoveAt(s.lists[i], k)])
    ensures Preserves(m, s, loose, m', s', loose + {s.lists[i][k]})
  {
    var l := s.lists[i];
    assert FiledAt(s, loose, i, l[k]);
    forall c | c in Taken(s, loose) ensures Undisturbed(m, s, m', s', c) {
      assert Tagged(m, c, s.tiles.blocks[c].size, c !in s.free);
      forall w | c < w < c + s.tiles.blocks[c].size - 1 ensures m'[w] == m[w] {
        if k > 0 {
          ExtentsApart(s.tiles, |m|, c, l[k - 1], w - c, 1);
        }
        if k + 1 < |l| {
          ExtentsApart(s.tiles, |m|, c, l[k + 1], w - c, 2);
        }
      }
    }
  }

  lemma PushPreserves(m: Words, h: Words, s: Shape, loose: set<nat>, i: nat, x: nat, m': Words, s': Shape)
    requires Inv(m, h, s, loose)
    requires x in loose && !IsFence(s.tiles, x)
    requires i < NUM_LISTS && Pushed(m, m', s.lists[i], x)
    requires s' == s.(free := s.free + {x}, lists := s.lists[i := [x] + s.lists[i]])
    ensures Preserves(m, s, loose, m', s', loose - {x})
  {
    var l := s.lists[i];
    assert BlockFits(s.tiles, x);
    forall c | c in Taken(s, loose) ensures Undisturbed(m, s, m', s', c) {
      assert Tagged(m, c, s.tiles.blocks[c].size, c !in s.free);
      forall w | c < w < c + s.tiles.blocks[c].size - 1 ensures m'[w] == m[w] {
        ExtentsApart(s.tiles, |m|, c, x, w - c, 0);
        ExtentsApart(s.tiles, |m|, c, x, w - c, 1);
        ExtentsApart(s.tiles, |m|, c, x, w - c, 2);
        if l != [] {
          ExtentsApart(s.tiles, |m|, c, l[0], w - c, 2);
        }
      }
    }
  }

  // ---- rewriting tags ----

  lemma RebuiltUndisturbed(m: Words, h: Words, s: Shape, loose: set<nat>, touched: set<nat>, m': Words, s': Shape, loose': set<nat>, c: nat)
    requires Inv(m, h, s, loose) && Geometry(s'.tiles, |m|)
    requires Rebuilt(m, s, loose, touched, m', s', loose')
    requires c in s.tiles.blocks && c in s'.tiles.blocks && c !in touched
    requires s'.tiles.blocks[c].home == s.tiles.blocks[c].home
    ensures Undisturbed(m, s, m', s', c)
  {
    assert Tagged(m, c, s.tiles.blocks[c].size, c !in s.free);
    forall w | c < w < c + s.tiles.blocks[c].size - 1 ensures m'[w] == m[w] {
      OutsideOther(s'.tiles, |m|, touched, c, w - c);
    }
  }

  lemma RebuildPreserves(m: Words, h: Words, s: Shape, loose: set<nat>, touched: set<nat>, m': Words, s': Shape, loose': set<nat>)
    requires Inv(m, h, s, loose) && Geometry(s'.tiles, |m|)
    requires Rebuilt(m, s, loose, touched, m', s', loose')
    requires Taken(s', loose') == Taken(s, loose)
    requires Taken(s, loose) !! touched
    requires forall c | c in Taken(s, loose) :: c in s'.tiles.blocks && s'.tiles.blocks[c].home == s.tiles.blocks[c].home
    ensures Preserves(m, s, loose, m', s', loose')
  {
    forall c | c in Taken(s, loose) ensures Undisturbed(m, s, m', s', c) {
      RebuiltUndisturbed(m, h, s, loose, touched, m', s', loose', c);
    }
  }

  /** A block in use may be picked up: it was on no list. */
  lemma PickUp(m: Words, h: Words, s: Shape, x: nat)
    requires Inv(m, h, s, {}) && x in s.tiles.blocks && x !in s.free
    ensures Inv(m, h, s, {x})
  {
    forall i, j | 0 <= i < NUM_LISTS && 0 <= j < |s.lists[i]| ensures FiledAt(s, {x}, i, s.lists[i][j]) {
      assert FiledAt(s, {}, i, s.lists[i][j]);
    }
    forall b | b in s.tiles.blocks && b in s.free && b !in {x} ensures Clear(s, {x}, b) {
      assert Clear(s, {}, b);
    }
  }

  /** Where a free block is filed. */
  lemma Locate(m: Words, h: Words, s: Shape, loose: set<nat>, b: nat, i: nat) returns (k: nat)
    requires Inv(m, h, s, loose) && b in s.free && b !in loose && b in s.tiles.blocks
    requires Files(PayloadBytes(s.tiles.blocks[b].size), i)
    ensures i < NUM_LISTS && k < |s.lists[i]| && s.lists[i][k] == b
  {
    assert Listed(s, b);
    var i' :| 0 <= i' < NUM_LISTS && b in s.lists[i'];
    k :| 0 <= k < |s.lists[i']| && s.lists[i'][k] == b;
    assert FiledAt(s, loose, i', b);
    FilesUnique(PayloadBytes(s.tiles.blocks[b].size), i, i');
  }

  // ---- joining ----

  /** Loose block b and its loose right neighbour have become one loose free block. */
  ghost predicate Joined(s: Shape, b: nat, s': Shape)
    requires b in s.tiles.blocks && NextOf(s.tiles, b) in s.tiles.blocks
  {
    && IsJoin(s.tiles, b, s'.tiles)
    && s'.free == s.free - {NextOf(s.tiles, b)} + {b}
    && s'.lists == s.lists
  }

  ghost predicate Merged(m: Words, m': Words, b: nat, n: nat) {
    && |m'| == |m|
    && Tagged(m', b, n, false)
    && (forall w {:trigger m'[w]} | 0 <= w < |m| && (w < b || b + n <= w) :: m'[w] == m[w])
  }

  lemma JoinFenced(s: Shape, limit: nat, b: nat, s': Shape)
    requires Fenced(s) && CanJoin(s.tiles, limit, b) && Joined(s, b, s')
    ensures Fenced(s')
  {
    forall d | d in s'.free ensures !IsFence(s'.tiles, d) {
      assert d != b ==> !IsFence(s.tiles, d);
    }
  }

  lemma JoinRebuilds(m: Words, s: Shape, loose: set<nat>, b: nat, m': Words, s': Shape)
    requires Fenced(s) && loose <= s.tiles.blocks.Keys
    requires CanJoin(s.tiles, |m|, b) && Joined(s, b, s')
    requires b in loose && NextOf(s.tiles, b) in loose
    requires Merged(m, m', b, s.tiles.blocks[b].size + s.tiles.blocks[NextOf(s.tiles, b)].size)
    ensures Rebuilt(m, s, loose, {b}, m', s', loose - {NextOf(s.tiles, b)})
  {
    forall w | 0 <= w < |m| && Outside(s'.tiles, {b}, w) ensures m'[w] == m[w] {
      assert b in {b};
    }
  }

  lemma JoinKeepsInv(m: Words, h: Words, s: Shape, loose: set<nat>, b: nat, m': Words, s': Shape)
    requires Inv(m, h, s, loose) && CanJoin(s.tiles, |m|, b) && Joined(s, b, s')
    requires b in loose && NextOf(s.tiles, b) in loose
    requires Merged(m, m', b, s.tiles.blocks[b].size + s.tiles.blocks[NextOf(s.tiles, b)].size)
    ensures Inv(m', h, s', loose - {NextOf(s.tiles, b)})
    ensures Preserves(m, s, loose, m', s', loose - {NextOf(s.tiles, b)})
  {
    var loose' := loose - {NextOf(s.tiles, b)};
    JoinGeometry(s.tiles, |m|, b, s'.tiles);
    JoinFenced(s, |m|, b, s');
    JoinRebuilds(m, s, loose, b, m', s');
    RebuildKeepsInv(m, h, s, loose, {b}, m', s', loose');
    assert Taken(s', loose') == Taken(s, loose);
    RebuildPreserves(m, h, s, loose, {b}, m', s', loose');
  }

  // ---- cutting ----

  /** Loose free block b keeps its first k words; the rest is taken. */
  ghost predicate Parted(s: Shape, b: nat, k: nat, s': Shape)
    requires b in s.tiles.blocks && k <= s.tiles.blocks[b].size
  {
    && IsCut(s.tiles, b, k, s'.tiles)
    && s'.free == s.free
    && s'.lists == s.lists
  }

  ghost predicate CutWords(m: Words, m': Words, b: nat, k: nat, n: nat) {
    && |m'| == |m| && k <= n
    && Tagged(m', b, k, false) && Tagged(m', b + k, n - k, true)
    && (forall w {:trigger m'[w]} | 0 <= w < |m| && (w < b || b + n <= w) :: m'[w] == m[w])
  }

  lemma CutFenced(s: Shape, limit: nat, b: nat, k: nat, s': Shape)
    requires Fenced(s) && CanCut(s.tiles, limit, b, k) && Parted(s, b, k, s')
    ensures Fenced(s')
  {
    forall d | d in s'.free ensures !IsFence(s'.tiles, d) {
      assert !IsFence(s.tiles, d);
    }
  }

  lemma CutRebuilds(m: Words, s: Shape, loose: set<nat>, b: nat, k: nat, m': Words, s': Shape)
    requires Fenced(s) && loose <= s.tiles.blocks.Keys
    requires CanCut(s.tiles, |m|, b, k) && Parted(s, b, k, s')
    requires b in loose && b in s.free
    requires CutWords(m, m', b, k, s.tiles.blocks[b].size)
    ensures Rebuilt(m, s, loose, {b, b + k}, m', s', loose)
  {
    var touched := {b, b + k};
    forall w | 0 <= w < |m| && Outside(s'.tiles, touched, w) ensures m'[w] == m[w] {
      assert b in touched && b + k in touched;
    }
    assert b + k !in s.free;
  }

  lemma CutKeepsInv(m: Words, h: Words, s: Shape, loose: set<nat>, b: nat, k: nat, m': Words, s': Shape)
    requires Inv(m, h, s, loose) && CanCut(s.tiles, |m|, b, k) && Parted(s, b, k, s')
    requires b in loose && b in s.free
    requires CutWords(m, m', b, k, s.tiles.blocks[b].size)
    ensures Inv(m', h, s', loose)
    ensures Taken(s', loose) == Taken(s, loose) + {b + k}
    ensures forall c | c in Taken(s, loose) :: Undisturbed(m, s, m', s', c)
  {
    CutGeometry(s.tiles, |m|, b, k, s'.tiles);
    CutFenced(s, |m|, b, k, s');
    CutRebuilds(m, s, loose, b, k, m', s');
    RebuildKeepsInv(m, h, s, loose, {b, b + k}, m', s', loose);
    assert b + k !in s.free;
    forall c | c in Taken(s, loose) ensures Undisturbed(m, s, m', s', c) {
      RebuiltUndisturbed(m, h, s, loose, {b, b + k}, m', s', loose, c);
    }
  }

  // ---- handing a whole block out ----

  /** The loose free block b is tagged as taken and leaves the operation's hands. */
  lemma TakeKeepsInv(m: Words, h: Words, s: Shape, loose: set<nat>, b: nat, m': Words, s': Shape)
    requires Inv(m, h, s, loose) && b in loose && b in s.free
    requires s' == s.(free := s.free - {b})
    requires |m'| == |m| && Tagged(m', b, s.tiles.blocks[b].size, true)
    requires forall w {:trigger m'[w]} | 0 <= w < |m| && (w < b || NextOf(s.tiles, b) <= w) :: m'[w] == m[w]
    ensures Inv(m', h, s', loose - {b})
    ensures Taken(s', loose - {b}) == Taken(s, loose) + {b}
    ensures forall c | c in Taken(s, loose) :: Undisturbed(m, s, m', s', c)
  {
    forall w | 0 <= w < |m| && Outside(s'.tiles, {b}, w) ensures m'[w] == m[w] {
      assert b in {b};
    }
    RebuildKeepsInv(m, h, s, loose, {b}, m', s', loose - {b});
    forall c | c in Taken(s, loose) ensures Undisturbed(m, s, m', s', c) {
      RebuiltUndisturbed(m, h, s, loose, {b}, m', s', loose - {b}, c);
    }
  }

  // ---- a new arena ----

  ghost predicate ArenaTagged(m: Words, m': Words, a: Arena) {
    && |m'| == |m|
    && Tagged(m', a.lo, TAGS, true)
    && a.lo + 2 * TAGS + MIN_BLOCK <= a.hi
    && Tagged(m', a.lo + TAGS, a.hi - a.lo - 2 * TAGS, false)
    && Tagged(m', a.hi - TAGS, TAGS, true)
    && (forall w {:trigger m'[w]} | 0 <= w < |m| && (w < a.lo || a.hi <= w) :: m'[w] == m[w])
  }

  ghost function WithArena(s: Shape, a: Arena): Shape
    requires a.lo + 2 * TAGS <= a.hi
  {
    s.(tiles := AddArena(s.tiles, a), free := s.free + {a.lo + TAGS})
  }

  lemma ArenaRebuilds(m: Words, h: Words, s: Shape, a: Arena, m': Words)
    requires Inv(m, h, s, {}) && CanAdd(s.tiles, |m|, a) && ArenaTagged(m, m', a)
    ensures Rebuilt(m, s, {}, {a.lo, a.lo + TAGS, a.hi - TAGS}, m', WithArena(s, a), {a.lo + TAGS})
    ensures Fenced(WithArena(s, a))
    ensures forall d | d in s.tiles.blocks :: d !in {a.lo, a.lo + TAGS, a.hi - TAGS}
  {
    var s', touched := WithArena(s, a), {a.lo, a.lo + TAGS, a.hi - TAGS};
    forall d | d in s.tiles.blocks
      ensures d !in touched
    {
      OldBlocksApart(s.tiles, |m|, a, d);
    }
    forall w | 0 <= w < |m| && Outside(s'.tiles, touched, w) ensures m'[w] == m[w] {
      assert a.lo in touched && a.lo + TAGS in touched && a.hi - TAGS in touched;
    }
    forall d | d in s'.free ensures !IsFence(s'.tiles, d) {
      assert d in s.free ==> !IsFence(s.tiles, d);
    }
  }

  lemma ArenaTaken(s: Shape, a: Arena)
    requires s.free <= s.tiles.blocks.Keys
    requires a.lo + 2 * TAGS + MIN_BLOCK <= a.hi
    requires forall d | d in s.tiles.blocks :: d !in {a.lo, a.lo + TAGS, a.hi - TAGS}
    ensures Taken(WithArena(s, a), {a.lo + TAGS}) == Taken(s, {}) + {a.lo, a.hi - TAGS}
    ensures forall d | d in s.tiles.blocks :: d in WithArena(s, a).tiles.blocks && WithArena(s, a).tiles.blocks[d] == s.tiles.blocks[d]
  {
  }

  /** Memory fresh from the system becomes an arena: two fenceposts and a loose free block. */
  lemma ArenaKeepsInv(m: Words, h: Words, s: Shape, a: Arena, m': Words)
    requires Inv(m, h, s, {}) && CanAdd(s.tiles, |m|, a) && ArenaTagged(m, m', a)
    ensures Inv(m', h, WithArena(s, a), {a.lo + TAGS})
    ensures Taken(WithArena(s, a), {a.lo + TAGS}) == Taken(s, {}) + {a.lo, a.hi - TAGS}
    ensures forall c | c in Taken(s, {}) :: Undisturbed(m, s, m', WithArena(s, a), c)
  {
    var s', touched := WithArena(s, a), {a.lo, a.lo + TAGS, a.hi - TAGS};
    AddArenaGeometry(s.tiles, |m|, a);
    ArenaRebuilds(m, h, s, a, m');
    ArenaTaken(s, a);
    RebuildKeepsInv(m, h, s, {}, touched, m', s', {a.lo + TAGS});
    forall c | c in Taken(s, {}) ensures Undisturbed(m, s, m', s', c) {
      RebuiltUndisturbed(m, h, s, {}, touched, m', s', {a.lo + TAGS}, c);
    }
  }
}
