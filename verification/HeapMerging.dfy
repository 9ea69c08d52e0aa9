/**
What lies next to a block, and what joining it with its free neighbours does.
 */
module HeapMerging {
  import opened HeapBuckets
  import opened HeapLayout
  import opened HeapLists
  import opened HeapTiling
  import opened HeapSteps

  /** SetSizeTags: both tags get the byte size; the flag bits of the first are kept. */
  function Retag(m: Words, b: nat, n: nat): (r: Words)
    requires 1 <= n && b + n <= |m|
    ensures |r| == |m|
  {
    m[b := m[b] % 4 + 4 * n][b + n - 1 := 4 * n]
  }

  lemma RetagTags(m: Words, b: nat, n: nat)
    requires 2 <= n && b + n <= |m|
    ensures Tagged(Retag(m, b, n), b, n, m[b] % 2 == 1)
  {
  }

  /** How many neighbours of x are tagged free. */
  ghost function FreeNeighbours(s: Shape, x: nat): nat
    requires x in s.tiles.blocks
  {
    (if s.tiles.blocks[x].prev in s.free then 1 else 0) + (if NextOf(s.tiles, x) in s.free then 1 else 0)
  }

  /** The front of a list is not the loose block. */
  lemma FrontApart(m: Words, h: Words, s: Shape, loose: set<nat>, i: nat, x: nat)
    requires Inv(m, h, s, loose) && x in loose && !IsFence(s.tiles, x) && i < NUM_LISTS
    ensures x + 2 < |m| && BlockFits(s.tiles, x)
    ensures s.lists[i] != [] ==>
              && 0 < s.lists[i][0] && s.lists[i][0] + 2 < |m|
              && s.lists[i][0] + 2 !in {x, x + 1, x + 2}
  {
    assert BlockFits(s.tiles, x);
    assert Tagged(m, x, s.tiles.blocks[x].size, x !in s.free);
    if s.lists[i] != [] {
      var y := s.lists[i][0];
      assert FiledAt(s, loose, i, y) && BlockFits(s.tiles, y);
      assert ArenaFits(s.tiles, s.tiles.blocks[y].home, |m|);
      assert Linked(m, s.lists[i], 0);
      ExtentsApart(s.tiles, |m|, y, x, 2, 0);
      ExtentsApart(s.tiles, |m|, y, x, 2, 1);
      ExtentsApart(s.tiles, |m|, y, x, 2, 2);
    }
  }

  /** Reading the word before a block finds its left neighbour. */
  lemma NeighboursOf(m: Words, h: Words, s: Shape, loose: set<nat>, x: nat)
    requires Inv(m, h, s, loose) && x in s.tiles.blocks && !IsFence(s.tiles, x)
    ensures BlockFits(s.tiles, x) && 0 < x && x < |m|
    ensures m[x - 1] / 4 <= x && s.tiles.blocks[x].prev == x - m[x - 1] / 4
    ensures NextOf(s.tiles, x) < |m| && s.tiles.blocks[x].prev < |m|
    ensures m[s.tiles.blocks[x].prev] % 2 == 0 <==> s.tiles.blocks[x].prev in s.free
    ensures m[NextOf(s.tiles, x)] % 2 == 0 <==> NextOf(s.tiles, x) in s.free
    ensures s.tiles.blocks[x].prev != x
  {
    assert BlockFits(s.tiles, x);
    var p, n := s.tiles.blocks[x].prev, NextOf(s.tiles, x);
    assert Tagged(m, p, s.tiles.blocks[p].size, p !in s.free);
    assert Tagged(m, n, s.tiles.blocks[n].size, n !in s.free);
    Quarter(m[x - 1], s.tiles.blocks[p].size, 0);
  }

  /** A free block that is not loose has no free neighbour but a loose one. */
  lemma NeighboursOfFree(m: Words, h: Words, s: Shape, loose: set<nat>, b: nat)
    requires Inv(m, h, s, loose) && b in s.free && b !in loose
    ensures b in s.tiles.blocks && !IsFence(s.tiles, b) && BlockFits(s.tiles, b)
    ensures NextOf(s.tiles, b) in s.free ==> NextOf(s.tiles, b) in loose
    ensures s.tiles.blocks[b].prev in s.free ==> s.tiles.blocks[b].prev in loose
  {
    assert BlockFits(s.tiles, b);
    assert Clear(s, loose, b);
    var p := s.tiles.blocks[b].prev;
    assert BlockFits(s.tiles, p);
    assert p in s.free && p !in loose ==> Clear(s, loose, p);
  }

  /** Around a loose block: a free left neighbour can be joined with it, and is itself isolated. */
  lemma LeftOf(m: Words, h: Words, s: Shape, x: nat)
    requires Inv(m, h, s, {x}) && x in s.tiles.blocks && !IsFence(s.tiles, x)
    requires s.tiles.blocks[x].prev in s.free
    ensures var p := s.tiles.blocks[x].prev;
            && p < x && p in s.tiles.blocks && NextOf(s.tiles, p) == x
            && CanJoin(s.tiles, |m|, p)
            && s.tiles.blocks[p].prev !in s.free && s.tiles.blocks[p].prev < p
  {
    NeighboursOf(m, h, s, {x}, x);
    var p := s.tiles.blocks[x].prev;
    NeighboursOfFree(m, h, s, {x}, p);
    assert BlockFits(s.tiles, s.tiles.blocks[p].prev);
  }

  lemma RightOf(m: Words, h: Words, s: Shape, x: nat)
    requires Inv(m, h, s, {x}) && x in s.tiles.blocks && !IsFence(s.tiles, x)
    requires NextOf(s.tiles, x) in s.free
    ensures var n := NextOf(s.tiles, x);
            && x < n && n in s.tiles.blocks && n < NextOf(s.tiles, n)
            && CanJoin(s.tiles, |m|, x)
            && NextOf(s.tiles, n) !in s.free
  {
    NeighboursOf(m, h, s, {x}, x);
    NeighboursOfFree(m, h, s, {x}, NextOf(s.tiles, x));
  }

  ghost function JoinShape(s: Shape, limit: nat, b: nat): Shape
    requires CanJoin(s.tiles, limit, b)
  {
    s.(tiles := Join(s.tiles, limit, b), free := s.free - {NextOf(s.tiles, b)} + {b})
  }

  lemma JoinShapeJoins(s: Shape, limit: nat, b: nat)
    requires CanJoin(s.tiles, limit, b)
    ensures Joined(s, b, JoinShape(s, limit, b))
  {
    JoinIsJoin(s.tiles, limit, b);
  }

  /** Three neighbours can be joined one after the other. */
  lemma JoinTwice(s: Shape, limit: nat, b: nat, s1: Shape)
    requires CanJoin(s.tiles, limit, b) && CanJoin(s.tiles, limit, NextOf(s.tiles, b))
    requires Joined(s, b, s1)
    ensures CanJoin(s1.tiles, limit, b)
    ensures NextOf(s1.tiles, b) == NextOf(s.tiles, NextOf(s.tiles, b))
  {
    JoinGeometry(s.tiles, limit, b, s1.tiles);
    assert BlockFits(s1.tiles, b);
    assert BlockFits(s1.tiles, NextOf(s1.tiles, b));
  }

  /** A merge over a longer stretch hides a merge over a shorter one. */
  lemma MergedThrough(m: Words, b: nat, n: nat, m': Words, n': nat) returns (m1: Words)
    requires MIN_BLOCK <= n <= n' && Merged(m, m', b, n')
    ensures Merged(m, m1, b, n) && Merged(m1, m', b, n')
  {
    m1 := m[b := 4 * n][b + n - 1 := 4 * n];
    Quarter(4 * n, n, 0);
    HalfBit(4 * n, 2 * n, 0);
  }

  /** Three loose neighbours become one with a single rewriting of the tags. */
  lemma TripleJoin(m: Words, h: Words, s: Shape, loose: set<nat>, b: nat, m': Words, s1: Shape, s2: Shape)
    requires Inv(m, h, s, loose)
    requires CanJoin(s.tiles, |m|, b) && Joined(s, b, s1)
    requires CanJoin(s1.tiles, |m|, b) && Joined(s1, b, s2)
    requires b in loose && NextOf(s.tiles, b) in loose && NextOf(s1.tiles, b) in loose
    requires Merged(m, m', b, s2.tiles.blocks[b].size)
    ensures Inv(m', h, s2, loose - {NextOf(s.tiles, b)} - {NextOf(s1.tiles, b)})
    ensures Preserves(m, s, loose, m', s2, loose - {NextOf(s.tiles, b)} - {NextOf(s1.tiles, b)})
  {
    var c := NextOf(s.tiles, b);
    var m1 := MergedThrough(m, b, s1.tiles.blocks[b].size, m', s2.tiles.blocks[b].size);
    JoinKeepsInv(m, h, s, loose, b, m1, s1);
    JoinKeepsInv(m1, h, s1, loose - {c}, b, m', s2);
    PreservesTrans(m, s, loose, m1, s1, loose - {c}, m', s2, loose - {c} - {NextOf(s1.tiles, b)});
  }

  /** After a merge, the merged block has no free neighbour left. */
  ghost predicate ReadyToFile(s: Shape, b: nat) {
    && b in s.tiles.blocks && !IsFence(s.tiles, b)
    && FreeNeighbours(s, b) == 0
  }

  /** The tags of a new arena have their sizes; nothing outside it changed. */
  ghost predicate ArenaSized(m: Words, m': Words, lo: nat, words: nat) {
    && |m'| == |m| && 2 * TAGS + MIN_BLOCK <= words && lo + words <= |m|
    && m'[lo] / 4 == TAGS && m'[lo + TAGS - 1] == 4 * TAGS
    && m'[lo + TAGS] / 4 == words - 2 * TAGS && m'[lo + words - TAGS - 1] == 4 * (words - 2 * TAGS)
    && m'[lo + words - TAGS] / 4 == TAGS && m'[lo + words - 1] == 4 * TAGS
    && (forall w {:trigger m'[w]} | 0 <= w < |m| && (w < lo || lo + words <= w) :: m'[w] == m[w])
  }

  lemma RetaggedThrice(m: Words, lo: nat, words: nat)
    requires 2 * TAGS + MIN_BLOCK <= words && lo + words <= |m|
    ensures ArenaSized(m, Retag(Retag(Retag(m, lo, TAGS), lo + TAGS, words - 2 * TAGS), lo + words - TAGS, TAGS), lo, words)
  {
    Quarter(m[lo] % 4 + 4 * TAGS, TAGS, m[lo] % 4);
    Quarter(m[lo + TAGS] % 4 + 4 * (words - 2 * TAGS), words - 2 * TAGS, m[lo + TAGS] % 4);
    Quarter(m[lo + words - TAGS] % 4 + 4 * TAGS, TAGS, m[lo + words - TAGS] % 4);
  }
}
