/**
How the tiling of the arenas changes: two neighbours are joined, a block is cut
in two, an arena is added. Each keeps the arenas exactly tiled. One general lemma
then carries the whole heap invariant across any rewriting of block tags.
 */
module HeapTiling {
  import opened HeapBuckets
  import opened HeapLayout
  import opened HeapLists

  function NextOf(t: Tiling, b: nat): nat
    requires b in t.blocks
  {
    b + t.blocks[b].size
  }

  // ---- joining a block with its right neighbour ----

  ghost predicate CanJoin(t: Tiling, limit: nat, b: nat) {
    && Geometry(t, limit)
    && b in t.blocks && !IsFence(t, b)
    && BlockFits(t, b) && !IsFence(t, NextOf(t, b)) && BlockFits(t, NextOf(t, b))
  }

  ghost function Join(t: Tiling, limit: nat, b: nat): (r: Tiling)
    requires CanJoin(t, limit, b)
  {
    var c := NextOf(t, b);
    var n := NextOf(t, c);
    var k := t.blocks[b].(size := t.blocks[b].size + t.blocks[c].size);
    t.(blocks := (t.blocks - {c})[b := k][n := t.blocks[n].(prev := b)])
  }

  /** t' is t with b grown over its right neighbour. */
  ghost predicate IsJoin(t: Tiling, b: nat, t': Tiling)
    requires b in t.blocks && NextOf(t, b) in t.blocks
  {
    var c := NextOf(t, b);
    && t'.arenas == t.arenas
    && t'.blocks.Keys == t.blocks.Keys - {c}
    && b in t'.blocks
    && t'.blocks[b].size == t.blocks[b].size + t.blocks[c].size
    && (forall d {:trigger t'.blocks[d]} | d in t'.blocks ::
          && (d != b ==> t'.blocks[d].size == t.blocks[d].size)
          && t'.blocks[d].home == t.blocks[d].home
          && t'.blocks[d].prev == if d == NextOf(t, c) then b else t.blocks[d].prev)
  }

  lemma JoinIsJoin(t: Tiling, limit: nat, b: nat)
    requires CanJoin(t, limit, b)
    ensures IsJoin(t, b, Join(t, limit, b))
  {
  }

  lemma JoinFits(t: Tiling, limit: nat, b: nat, t': Tiling, d: nat)
    requires CanJoin(t, limit, b) && IsJoin(t, b, t')
    requires d in t'.blocks
    ensures BlockFits(t', d)
  {
    var c := NextOf(t, b);
    assert BlockFits(t, d);
    if d != b && d + t.blocks[d].size == c {
      ExtentsApart(t, limit, d, b, t.blocks[d].size - 1, t.blocks[b].size - 1);
    }
  }

  lemma JoinPrecedes(t: Tiling, limit: nat, b: nat, t': Tiling, d: nat, e: nat)
    requires CanJoin(t, limit, b) && IsJoin(t, b, t')
    requires d in t'.blocks && e in t'.blocks && d < e
    ensures Precedes(t', d, e)
  {
    assert Precedes(t, d, e);
    if d == b {
      assert e > NextOf(t, b);
      assert Precedes(t, NextOf(t, b), e);
    }
  }

  /** Joining two neighbours keeps the tiling exact. */
  lemma JoinGeometry(t: Tiling, limit: nat, b: nat, t': Tiling)
    requires CanJoin(t, limit, b) && IsJoin(t, b, t')
    ensures Geometry(t', limit)
  {
    forall a | a in t'.arenas ensures ArenaFits(t', a, limit) {
      assert ArenaFits(t, a, limit);
    }
    forall d | d in t'.blocks ensures BlockFits(t', d) {
      JoinFits(t, limit, b, t', d);
    }
    forall d, e | d in t'.blocks && e in t'.blocks && d < e ensures Precedes(t', d, e) {
      JoinPrecedes(t, limit, b, t', d, e);
    }
  }

  // ---- cutting a block in two ----

  ghost predicate CanCut(t: Tiling, limit: nat, b: nat, k: nat) {
    && Geometry(t, limit)
    && b in t.blocks && !IsFence(t, b) && BlockFits(t, b)
    && k % 2 == 0 && MIN_BLOCK <= k && k + MIN_BLOCK <= t.blocks[b].size
  }

  /** Block b keeps its first k words; the rest becomes a block of its own. */
  ghost function Cut(t: Tiling, limit: nat, b: nat, k: nat): (r: Tiling)
    requires CanCut(t, limit, b, k)
  {
    var kb := t.blocks[b];
    var n := NextOf(t, b);
    t.(blocks := t.blocks[b := kb.(size := k)]
                         [b + k := Block(kb.size - k, b, kb.home)]
                         [n := t.blocks[n].(prev := b + k)])
  }

  lemma CutIsNew(t: Tiling, limit: nat, b: nat, k: nat)
    requires CanCut(t, limit, b, k)
    ensures b + k !in t.blocks
  {
    assert b + k in t.blocks ==> Precedes(t, b, b + k);
  }

  /** t' is t with b shrunk to k words and a new block after it. */
  ghost predicate IsCut(t: Tiling, b: nat, k: nat, t': Tiling)
    requires b in t.blocks && k <= t.blocks[b].size
  {
    && t'.arenas == t.arenas
    && t'.blocks.Keys == t.blocks.Keys + {b + k}
    && b + k !in t.blocks
    && t'.blocks[b].size == k
    && t'.blocks[b + k] == Block(t.blocks[b].size - k, b, t.blocks[b].home)
    && (forall d {:trigger t'.blocks[d]} | d in t.blocks ::
          && (d != b ==> t'.blocks[d].size == t.blocks[d].size)
          && t'.blocks[d].home == t.blocks[d].home
          && t'.blocks[d].prev == if d == NextOf(t, b) then b + k else t.blocks[d].prev)
  }

  lemma CutIsCut(t: Tiling, limit: nat, b: nat, k: nat)
    requires CanCut(t, limit, b, k)
    ensures IsCut(t, b, k, Cut(t, limit, b, k))
  {
    CutIsNew(t, limit, b, k);
  }

  lemma CutFits(t: Tiling, limit: nat, b: nat, k: nat, t': Tiling, d: nat)
    requires CanCut(t, limit, b, k) && IsCut(t, b, k, t')
    requires d in t'.blocks
    ensures BlockFits(t', d)
  {
    if d != b + k {
      assert BlockFits(t, d);
      if d != b && d + t.blocks[d].size == NextOf(t, b) {
        ExtentsApart(t, limit, d, b, t.blocks[d].size - 1, t.blocks[b].size - 1);
      }
    }
  }

  lemma CutPrecedes(t: Tiling, limit: nat, b: nat, k: nat, t': Tiling, d: nat, e: nat)
    requires CanCut(t, limit, b, k) && IsCut(t, b, k, t')
    requires d in t'.blocks && e in t'.blocks && d < e
    ensures Precedes(t', d, e)
  {
    if d == b + k {
      assert Precedes(t, b, e);
    } else if e == b + k {
      assert d < b ==> Precedes(t, d, b);
      assert b < d ==> Precedes(t, b, d);
    } else {
      assert Precedes(t, d, e);
    }
  }

  /** Cutting a block keeps the tiling exact. */
  lemma CutGeometry(t: Tiling, limit: nat, b: nat, k: nat, t': Tiling)
    requires CanCut(t, limit, b, k) && IsCut(t, b, k, t')
    ensures Geometry(t', limit)
  {
    forall a | a in t'.arenas ensures ArenaFits(t', a, limit) {
      assert ArenaFits(t, a, limit);
    }
    forall d | d in t'.blocks ensures BlockFits(t', d) {
      CutFits(t, limit, b, k, t', d);
    }
    forall d, e | d in t'.blocks && e in t'.blocks && d < e ensures Precedes(t', d, e) {
      CutPrecedes(t, limit, b, k, t', d, e);
    }
  }

  // ---- a new arena ----

  ghost predicate CanAdd(t: Tiling, limit: nat, a: Arena) {
    && Geometry(t, limit)
    && 2 <= a.lo && a.lo % 2 == 0 && a.hi % 2 == 0
    && a.lo + 2 * TAGS + MIN_BLOCK <= a.hi <= limit
    && PayloadBytes(a.hi - a.lo - 2 * TAGS) <= MAX_FILED
    && (forall c {:trigger Apart(a, c)} | c in t.arenas :: Apart(a, c))
  }

  /** The arena gets a fencepost at each end and one block between them. */
  function AddArena(t: Tiling, a: Arena): (r: Tiling)
    requires a.lo + 2 * TAGS <= a.hi
  {
    Tiling(t.arenas + {a},
           t.blocks[a.lo := Block(TAGS, 0, a)]
                   [a.lo + TAGS := Block(a.hi - a.lo - 2 * TAGS, a.lo, a)]
                   [a.hi - TAGS := Block(TAGS, a.lo + TAGS, a)])
  }

  /** No block of the old tiling touches the new arena. */
  lemma OldBlocksApart(t: Tiling, limit: nat, a: Arena, d: nat)
    requires CanAdd(t, limit, a)
    requires d in t.blocks
    ensures d < NextOf(t, d) <= a.lo || a.hi <= d
    ensures t.blocks[d].home != a
  {
    assert BlockFits(t, d);
    assert Apart(a, t.blocks[d].home);
  }

  lemma AddArenaFits(t: Tiling, limit: nat, a: Arena, d: nat)
    requires CanAdd(t, limit, a)
    requires d in AddArena(t, a).blocks
    ensures BlockFits(AddArena(t, a), d)
  {
    if d in t.blocks {
      assert BlockFits(t, d);
      OldBlocksApart(t, limit, a, d);
      if d + t.blocks[d].size < t.blocks[d].home.hi {
        OldBlocksApart(t, limit, a, NextOf(t, d));
      }
      if t.blocks[d].home.lo < d {
        OldBlocksApart(t, limit, a, t.blocks[d].prev);
      }
    }
  }

  lemma AddArenaPrecedes(t: Tiling, limit: nat, a: Arena, d: nat, e: nat)
    requires CanAdd(t, limit, a)
    requires d in AddArena(t, a).blocks && e in AddArena(t, a).blocks && d < e
    ensures Precedes(AddArena(t, a), d, e)
  {
    if d in t.blocks {
      OldBlocksApart(t, limit, a, d);
    }
    if e in t.blocks {
      assert BlockFits(t, e);
      OldBlocksApart(t, limit, a, e);
    }
    if d in t.blocks && e in t.blocks {
      assert Precedes(t, d, e);
    }
  }

  lemma AddArenaGeometry(t: Tiling, limit: nat, a: Arena)
    requires CanAdd(t, limit, a)
    ensures Geometry(AddArena(t, a), limit)
  {
    var t' := AddArena(t, a);
    forall c | c in t'.arenas ensures ArenaFits(t', c, limit) {
      if c in t.arenas {
        assert ArenaFits(t, c, limit);
        OldBlocksApart(t, limit, a, c.lo);
        OldBlocksApart(t, limit, a, c.hi - TAGS);
      }
    }
    forall c, e | c in t'.arenas && e in t'.arenas && c != e ensures Apart(c, e) {
      assert c == a ==> Apart(a, e);
      assert e == a ==> Apart(a, c);
    }
    forall d | d in t'.blocks ensures BlockFits(t', d) {
      AddArenaFits(t, limit, a, d);
    }
    forall d, e | d in t'.blocks && e in t'.blocks && d < e ensures Precedes(t', d, e) {
      AddArenaPrecedes(t, limit, a, d, e);
    }
  }

  // ---- consequences of the tiling ----

  /** A block between fenceposts can always be filed. */
  lemma BodyCanBeFiled(t: Tiling, limit: nat, b: nat)
    requires Geometry(t, limit) && b in t.blocks && !IsFence(t, b)
    ensures MIN_BLOCK <= t.blocks[b].size && Rung(0) <= PayloadBytes(t.blocks[b].size) <= MAX_FILED
  {
    assert BlockFits(t, b);
    var a := t.blocks[b].home;
    assert ArenaFits(t, a, limit);
    assert Precedes(t, a.lo, b);
    assert b < a.hi - TAGS ==> Precedes(t, b, a.hi - TAGS);
  }

  ghost predicate Covers(t: Tiling, b: nat, w: nat) {
    b in t.blocks && b <= w < NextOf(t, b)
  }

  lemma {:induction false} CoverFrom(t: Tiling, limit: nat, b: nat, w: nat) returns (c: nat)
    requires Geometry(t, limit) && b in t.blocks && b <= w < t.blocks[b].home.hi
    ensures Covers(t, c, w) && t.blocks[c].home == t.blocks[b].home
    decreases w - b
  {
    assert BlockFits(t, b);
    if w < NextOf(t, b) {
      c := b;
    } else {
      c := CoverFrom(t, limit, NextOf(t, b), w);
    }
  }

  predicate Within(a: Arena, w: nat) { a.lo <= w < a.hi }

  /** Every word of an arena lies in exactly one block, and no block reaches outside the arenas. */
  lemma ArenasAreTiled(t: Tiling, limit: nat, w: nat)
    requires Geometry(t, limit)
    ensures forall a | a in t.arenas && Within(a, w) :: exists b :: Covers(t, b, w) && t.blocks[b].home == a
    ensures forall b | Covers(t, b, w) :: t.blocks[b].home in t.arenas && Within(t.blocks[b].home, w)
    ensures forall b, c | Covers(t, b, w) && Covers(t, c, w) :: b == c
  {
    forall a | a in t.arenas && Within(a, w)
      ensures exists b :: Covers(t, b, w) && t.blocks[b].home == a
    {
      assert ArenaFits(t, a, limit);
      var b := CoverFrom(t, limit, a.lo, w);
    }
    forall b | Covers(t, b, w)
      ensures t.blocks[b].home in t.arenas && Within(t.blocks[b].home, w)
    {
      assert BlockFits(t, b);
    }
    forall b, c | Covers(t, b, w) && Covers(t, c, w)
      ensures b == c
    {
      assert b < c ==> Precedes(t, b, c);
      assert c < b ==> Precedes(t, c, b);
    }
  }

  // ---- rewriting tags ----

  ghost predicate Outside(t: Tiling, touched: set<nat>, w: nat)
    requires touched <= t.blocks.Keys
  {
    forall c | c in touched :: w < c || NextOf(t, c) <= w
  }

  /**
  Between (m, s, loose) and (m', s', loose') only the blocks in `touched` were
  resized, created or retagged; other blocks, the lists and all other words stand.
   */
  ghost predicate Rebuilt(m: Words, s: Shape, loose: set<nat>, touched: set<nat>, m': Words, s': Shape, loose': set<nat>) {
    && |m'| == |m|
    && touched <= s'.tiles.blocks.Keys
    && loose' <= s'.tiles.blocks.Keys
    && s'.lists == s.lists
    && s'.free - loose' == s.free - loose
    && (s.free - loose) !! touched
    && (forall c {:trigger c in s'.tiles.blocks} | c in s'.tiles.blocks && c !in touched ::
          && c in s.tiles.blocks
          && s'.tiles.blocks[c].size == s.tiles.blocks[c].size
          && (c in s'.free <==> c in s.free))
    && (forall c {:trigger c in touched} | c in touched :: Tagged(m', c, s'.tiles.blocks[c].size, c !in s'.free))
    && (forall w {:trigger m'[w]} | 0 <= w < |m| && Outside(s'.tiles, touched, w) :: m'[w] == m[w])
  }

  lemma OutsideOther(t: Tiling, limit: nat, touched: set<nat>, c: nat, i: nat)
    requires Geometry(t, limit) && touched <= t.blocks.Keys
    requires c in t.blocks && c !in touched && i < t.blocks[c].size
    ensures Outside(t, touched, c + i)
  {
    forall d | d in touched ensures c + i < d || NextOf(t, d) <= c + i {
      assert d < c ==> Precedes(t, d, c);
      assert c < d ==> Precedes(t, c, d);
    }
  }

  lemma RebuiltTags(m: Words, h: Words, s: Shape, loose: set<nat>, touched: set<nat>, m': Words, s': Shape, loose': set<nat>)
    requires Inv(m, h, s, loose) && Geometry(s'.tiles, |m|)
    requires Rebuilt(m, s, loose, touched, m', s', loose')
    ensures Tags(m', s')
  {
    forall c | c in s'.tiles.blocks ensures Tagged(m', c, s'.tiles.blocks[c].size, c !in s'.free) {
      if c !in touched {
        var n := s.tiles.blocks[c].size;
        assert Tagged(m, c, n, c !in s.free);
        OutsideOther(s'.tiles, |m|, touched, c, 0);
        OutsideOther(s'.tiles, |m|, touched, c, n - 1);
      }
    }
  }

  lemma RebuiltLinks(m: Words, h: Words, s: Shape, loose: set<nat>, touched: set<nat>, m': Words, s': Shape, loose': set<nat>)
    requires Inv(m, h, s, loose) && Geometry(s'.tiles, |m|) && Fenced(s')
    requires Rebuilt(m, s, loose, touched, m', s', loose')
    ensures Links(m', h, s')
  {
    forall i, j | 0 <= i < NUM_LISTS && 0 <= j < |s'.lists[i]| ensures Linked(m', s'.lists[i], j) {
      var y := s.lists[i][j];
      assert FiledAt(s, loose, i, y);
      assert Linked(m, s.lists[i], j);
      assert y in s'.free - loose';
      OutsideOther(s'.tiles, |m|, touched, y, 1);
      OutsideOther(s'.tiles, |m|, touched, y, 2);
    }
  }

  lemma RebuiltFiling(s: Shape, loose: set<nat>, touched: set<nat>, m: Words, m': Words, s': Shape, loose': set<nat>)
    requires Filing(s, loose) && Fenced(s') && Coalesced(s, loose)
    requires Rebuilt(m, s, loose, touched, m', s', loose')
    ensures Filing(s', loose') && Coalesced(s', loose')
  {
    forall i, j | 0 <= i < NUM_LISTS && 0 <= j < |s'.lists[i]| ensures FiledAt(s', loose', i, s'.lists[i][j]) {
      var y := s.lists[i][j];
      assert FiledAt(s, loose, i, y);
      assert y in s'.free - loose';
    }
    forall b | b in s'.free && b !in loose' ensures Listed(s', b) {
      assert b in s.free - loose;
      assert Listed(s, b);
    }
    forall b | b in s'.tiles.blocks && b in s'.free && b !in loose' ensures Clear(s', loose', b) {
      assert b in s.free - loose;
      assert Clear(s, loose, b);
      var n := NextOf(s'.tiles, b);
      assert n in s'.free - loose' <==> n in s.free - loose;
    }
  }

  /** Rewriting the tags of loose or taken blocks keeps the heap invariant. */
  lemma RebuildKeepsInv(m: Words, h: Words, s: Shape, loose: set<nat>, touched: set<nat>, m': Words, s': Shape, loose': set<nat>)
    requires Inv(m, h, s, loose) && Geometry(s'.tiles, |m|) && Fenced(s')
    requires Rebuilt(m, s, loose, touched, m', s', loose')
    ensures Inv(m', h, s', loose')
  {
    RebuiltTags(m, h, s, loose, touched, m', s', loose');
    RebuiltLinks(m, h, s, loose, touched, m', s', loose');
    RebuiltFiling(s, loose, touched, m, m', s', loose');
  }
}
