/**
Surgery on the free lists: taking a block off its list and pushing one on the
front keep everything else about the heap.
 */
module HeapLists {
  import opened Basics
  import opened HeapBuckets
  import opened HeapLayout

  /** Words of two different blocks are different words. */
  lemma ExtentsApart(t: Tiling, limit: nat, b: nat, c: nat, i: nat, j: nat)
    requires Geometry(t, limit)
    requires b in t.blocks && c in t.blocks && b != c
    requires i < t.blocks[b].size && j < t.blocks[c].size
    ensures b + i != c + j
  {
    if b < c {
      assert Precedes(t, b, c);
    } else {
      assert Precedes(t, c, b);
    }
  }

  /** Tags survive a change that keeps the first and last word of every block. */
  lemma TagsFrame(m: Words, m': Words, s: Shape)
    requires Tags(m, s) && |m'| == |m|
    requires forall b <- s.tiles.blocks :: b + s.tiles.blocks[b].size <= |m| && 1 <= s.tiles.blocks[b].size
                                     && m'[b] == m[b] && m'[b + s.tiles.blocks[b].size - 1] == m[b + s.tiles.blocks[b].size - 1]
    ensures Tags(m', s)
  {
  }

  lemma ListedOnce(s: Shape, loose: set<nat>, i: nat, j: nat, i': nat, j': nat)
    requires Filing(s, loose)
    requires i < NUM_LISTS && j < |s.lists[i]| && i' < NUM_LISTS && j' < |s.lists[i']|
    requires s.lists[i][j] == s.lists[i'][j']
    ensures i == i' && j == j'
  {
    FilesUnique(PayloadBytes(s.tiles.blocks[s.lists[i][j]].size), i, i');
    assert Distinct(s.lists[i]);
  }

  // ---- RemoveBlock ----

  /** Memory after the neighbours of `l[k]` are made to skip it. */
  ghost predicate Bypassed(m: Words, m': Words, l: seq<nat>, k: nat)
    requires k < |l|
  {
    && |m'| == |m|
    && (forall w | 0 <= w < |m| && (k > 0 ==> w != l[k - 1] + 1) && (k + 1 < |l| ==> w != l[k + 1] + 2) ::
          m'[w] == m[w])
    && (k > 0 ==> l[k - 1] + 1 < |m| && m'[l[k - 1] + 1] == NextLink(l, k))
    && (k + 1 < |l| ==> l[k + 1] + 2 < |m| && m'[l[k + 1] + 2] == PrevLink(l, k))
  }

  /** What the links of a listed block say, and that they lead to other blocks. */
  lemma LinksOf(m: Words, h: Words, s: Shape, loose: set<nat>, i: nat, k: nat)
    requires Inv(m, h, s, loose)
    requires i < NUM_LISTS && k < |s.lists[i]|
    ensures Linked(m, s.lists[i], k)
    ensures PrevLink(s.lists[i], k) == 0 <==> k == 0
    ensures NextLink(s.lists[i], k) == 0 <==> k + 1 == |s.lists[i]|
    ensures k > 0 ==> s.lists[i][k - 1] + 2 < |m|
    ensures k + 1 < |s.lists[i]| ==> s.lists[i][k + 1] + 2 < |m|
    ensures 0 < k < |s.lists[i]| - 1 ==> s.lists[i][k - 1] + 1 != s.lists[i][k + 1] + 2
  {
    var l := s.lists[i];
    if k > 0 {
      assert FiledAt(s, loose, i, l[k - 1]) && BlockFits(s.tiles, l[k - 1]);
      assert ArenaFits(s.tiles, s.tiles.blocks[l[k - 1]].home, |m|);
      assert Linked(m, l, k - 1);
    }
    if k + 1 < |l| {
      assert FiledAt(s, loose, i, l[k + 1]) && BlockFits(s.tiles, l[k + 1]);
      assert ArenaFits(s.tiles, s.tiles.blocks[l[k + 1]].home, |m|);
      assert Linked(m, l, k + 1);
      if k > 0 {
        ListedApart(s, loose, i, k - 1, k + 1);
        ExtentsApart(s.tiles, |m|, l[k - 1], l[k + 1], 1, 2);
      }
    }
  }

  lemma ListedApart(s: Shape, loose: set<nat>, i: nat, j: nat, k: nat)
    requires Filing(s, loose) && i < NUM_LISTS && j < k < |s.lists[i]|
    ensures s.lists[i][j] != s.lists[i][k]
  {
    assert Distinct(s.lists[i]);
  }

  lemma BypassKeepsTags(m: Words, h: Words, s: Shape, loose: set<nat>, i: nat, k: nat, m': Words)
    requires Inv(m, h, s, loose)
    requires i < NUM_LISTS && k < |s.lists[i]| && Bypassed(m, m', s.lists[i], k)
    ensures Tags(m', s)
  {
    var l := s.lists[i];
    forall b <- s.tiles.blocks
      ensures b + s.tiles.blocks[b].size <= |m| && 1 <= s.tiles.blocks[b].size
      ensures m'[b] == m[b] && m'[b + s.tiles.blocks[b].size - 1] == m[b + s.tiles.blocks[b].size - 1]
    {
      var n := s.tiles.blocks[b].size;
      assert Tagged(m, b, n, b !in s.free);
      if k > 0 && b != l[k - 1] {
        ExtentsApart(s.tiles, |m|, b, l[k - 1], 0, 1);
        ExtentsApart(s.tiles, |m|, b, l[k - 1], n - 1, 1);
      }
      if k + 1 < |l| && b != l[k + 1] {
        ExtentsApart(s.tiles, |m|, b, l[k + 1], 0, 2);
        ExtentsApart(s.tiles, |m|, b, l[k + 1], n - 1, 2);
      }
    }
    TagsFrame(m, m', s);
  }

  /** Different places on the lists hold different blocks. */
  lemma ListedElsewhere(s: Shape, loose: set<nat>, i: nat, j: nat, i': nat, j': nat)
    requires Filing(s, loose)
    requires i < NUM_LISTS && j < |s.lists[i]| && i' < NUM_LISTS && j' < |s.lists[i']| && (i != i' || j != j')
    ensures s.lists[i][j] != s.lists[i'][j']
  {
    if s.lists[i][j] == s.lists[i'][j'] {
      ListedOnce(s, loose, i, j, i', j');
    }
  }

  lemma BypassKeepsNext(m: Words, h: Words, s: Shape, loose: set<nat>, i: nat, k: nat, m': Words, i': nat, j: nat)
    requires Inv(m, h, s, loose)
    requires i < NUM_LISTS && k < |s.lists[i]| && Bypassed(m, m', s.lists[i], k)
    requires i' < NUM_LISTS && j < |s.lists[i']| && !(i' == i && j == k - 1)
    ensures s.lists[i'][j] + 2 < |m| && m'[s.lists[i'][j] + 1] == m[s.lists[i'][j] + 1]
  {
    var l, y := s.lists[i], s.lists[i'][j];
    assert Linked(m, s.lists[i'], j);
    if k > 0 {
      ListedElsewhere(s, loose, i', j, i, k - 1);
      ExtentsApart(s.tiles, |m|, y, l[k - 1], 1, 1);
    }
    if k + 1 < |l| && y != l[k + 1] {
      ExtentsApart(s.tiles, |m|, y, l[k + 1], 1, 2);
    }
  }

  lemma BypassKeepsPrev(m: Words, h: Words, s: Shape, loose: set<nat>, i: nat, k: nat, m': Words, i': nat, j: nat)
    requires Inv(m, h, s, loose)
    requires i < NUM_LISTS && k < |s.lists[i]| && Bypassed(m, m', s.lists[i], k)
    requires i' < NUM_LISTS && j < |s.lists[i']| && !(i' == i && j == k + 1)
    ensures s.lists[i'][j] + 2 < |m| && m'[s.lists[i'][j] + 2] == m[s.lists[i'][j] + 2]
  {
    var l, y := s.lists[i], s.lists[i'][j];
    assert Linked(m, s.lists[i'], j);
    if k > 0 && y != l[k - 1] {
      ExtentsApart(s.tiles, |m|, y, l[k - 1], 2, 1);
    }
    if k + 1 < |l| {
      ListedElsewhere(s, loose, i', j, i, k + 1);
      ExtentsApart(s.tiles, |m|, y, l[k + 1], 2, 2);
    }
  }

  lemma BypassKeepsOtherLink(m: Words, h: Words, s: Shape, loose: set<nat>, i: nat, k: nat, m': Words, i': nat, j: nat)
    requires Inv(m, h, s, loose)
    requires i < NUM_LISTS && k < |s.lists[i]| && Bypassed(m, m', s.lists[i], k)
    requires i' < NUM_LISTS && j < |s.lists[i']|
    ensures s.lists[i'][j] + 2 < |m|
    ensures !(i' == i && j == k - 1) ==> m'[s.lists[i'][j] + 1] == m[s.lists[i'][j] + 1]
    ensures !(i' == i && j == k + 1) ==> m'[s.lists[i'][j] + 2] == m[s.lists[i'][j] + 2]
  {
    assert Linked(m, s.lists[i'], j);
    if !(i' == i && j == k - 1) {
      BypassKeepsNext(m, h, s, loose, i, k, m', i', j);
    }
    if !(i' == i && j == k + 1) {
      BypassKeepsPrev(m, h, s, loose, i, k, m', i', j);
    }
  }

  lemma RelinkedAt(m: Words, m': Words, l: seq<nat>, k: nat, j: nat)
    requires k < |l| && j < |l| && j != k
    requires Bypassed(m, m', l, k) && Linked(m, l, j)
    requires j != k - 1 ==> m'[l[j] + 1] == m[l[j] + 1]
    requires j != k + 1 ==> m'[l[j] + 2] == m[l[j] + 2]
    ensures Linked(m', RemoveAt(l, k), if j < k then j else j - 1)
  {
    var l', j' := RemoveAt(l, k), if j < k then j else j - 1;
    assert l'[j'] == l[j];
    assert NextLink(l', j') == if j == k - 1 then NextLink(l, k) else NextLink(l, j);
    assert PrevLink(l', j') == if j == k + 1 then PrevLink(l, k) else PrevLink(l, j);
  }

  lemma BypassRelinks(m: Words, h: Words, s: Shape, loose: set<nat>, i: nat, k: nat, m': Words, j: nat)
    requires Inv(m, h, s, loose)
    requires i < NUM_LISTS && k < |s.lists[i]| && Bypassed(m, m', s.lists[i], k)
    requires j < |s.lists[i]| - 1
    ensures Linked(m', RemoveAt(s.lists[i], k), j)
  {
    var j0 := if j < k then j else j + 1;
    BypassKeepsOtherLink(m, h, s, loose, i, k, m', i, j0);
    assert Linked(m, s.lists[i], j0);
    RelinkedAt(m, m', s.lists[i], k, j0);
  }

  lemma BypassKeepsLinks(m: Words, h: Words, s: Shape, loose: set<nat>, i: nat, k: nat, m': Words, h': Words, s': Shape)
    requires Inv(m, h, s, loose)
    requires i < NUM_LISTS && k < |s.lists[i]| && Bypassed(m, m', s.lists[i], k)
    requires h' == if k == 0 then h[i := NextLink(s.lists[i], k)] else h
    requires s' == s.(lists := s.lists[i := RemoveAt(s.lists[i], k)])
    ensures Links(m', h', s')
  {
    forall i', j | 0 <= i' < NUM_LISTS && 0 <= j < |s'.lists[i']|
      ensures Linked(m', s'.lists[i'], j)
    {
      if i' == i {
        BypassRelinks(m, h, s, loose, i, k, m', j);
      } else {
        BypassKeepsOtherLink(m, h, s, loose, i, k, m', i', j);
        assert Linked(m, s.lists[i'], j);
      }
    }
    assert HeadLink(RemoveAt(s.lists[i], k)) == if k == 0 then NextLink(s.lists[i], k) else HeadLink(s.lists[i]);
  }

  /** What is still listed was listed before, and is not the block taken off. */
  lemma StillFiled(s: Shape, loose: set<nat>, i: nat, k: nat, i': nat, j: nat)
    requires Filing(s, loose)
    requires i < NUM_LISTS && k < |s.lists[i]| && i' < NUM_LISTS
    requires j < |if i' == i then RemoveAt(s.lists[i], k) else s.lists[i']|
    ensures var y := (if i' == i then RemoveAt(s.lists[i], k) else s.lists[i'])[j];
            FiledAt(s, loose, i', y) && y != s.lists[i][k]
  {
    var j0 := if i' == i && k <= j then j + 1 else j;
    if s.lists[i'][j0] == s.lists[i][k] {
      ListedOnce(s, loose, i', j0, i, k);
    }
  }

  lemma StillListed(s: Shape, loose: set<nat>, i: nat, k: nat, s': Shape, b: nat)
    requires Filing(s, loose)
    requires i < NUM_LISTS && k < |s.lists[i]| && b in s.free && b !in loose && b != s.lists[i][k]
    requires s' == s.(lists := s.lists[i := RemoveAt(s.lists[i], k)])
    ensures Listed(s', b)
  {
    assert Listed(s, b);
    var i' :| 0 <= i' < NUM_LISTS && b in s.lists[i'];
    var j :| 0 <= j < |s.lists[i']| && s.lists[i'][j] == b;
    if i' == i {
      assert RemoveAt(s.lists[i], k)[if j < k then j else j - 1] == b;
    }
    assert b in s'.lists[i'];
  }

  lemma UnfiledIsLoose(s: Shape, loose: set<nat>, i: nat, k: nat, s': Shape)
    requires Filing(s, loose)
    requires i < NUM_LISTS && k < |s.lists[i]|
    requires s' == s.(lists := s.lists[i := RemoveAt(s.lists[i], k)])
    ensures Filing(s', loose + {s.lists[i][k]})
  {
    var x := s.lists[i][k];
    forall i', j | 0 <= i' < NUM_LISTS && 0 <= j < |s'.lists[i']|
      ensures FiledAt(s', loose + {x}, i', s'.lists[i'][j])
    {
      StillFiled(s, loose, i, k, i', j);
    }
    forall b | b in s'.free && b !in loose + {x} ensures Listed(s', b) {
      StillListed(s, loose, i, k, s', b);
    }
    assert Distinct(s.lists[i]);
  }

  /** Taking a block off its list leaves it loose and keeps the invariant. */
  lemma UnlinkKeepsInv(m: Words, h: Words, s: Shape, loose: set<nat>, i: nat, k: nat, m': Words, h': Words, s': Shape)
    requires Inv(m, h, s, loose)
    requires i < NUM_LISTS && k < |s.lists[i]| && Bypassed(m, m', s.lists[i], k)
    requires h' == if k == 0 then h[i := NextLink(s.lists[i], k)] else h
    requires s' == s.(lists := s.lists[i := RemoveAt(s.lists[i], k)])
    ensures Inv(m', h', s', loose + {s.lists[i][k]})
  {
    BypassKeepsTags(m, h, s, loose, i, k, m');
    UnfiledIsLoose(s, loose, i, k, s');
    BypassKeepsLinks(m, h, s, loose, i, k, m', h', s');
    forall b | b in s'.tiles.blocks && b in s'.free && b !in loose + {s.lists[i][k]}
      ensures Clear(s', loose + {s.lists[i][k]}, b)
    {
      assert Clear(s, loose, b);
    }
  }

  // ---- the push at the end of AddBlock ----

  /** Memory after loose block `x` is linked in front of `l` and marked free. */
  ghost predicate Pushed(m: Words, m': Words, l: seq<nat>, x: nat) {
    && |m'| == |m| && x + 2 < |m|
    && (forall w | 0 <= w < |m| && w != x && w != x + 1 && w != x + 2 && (l != [] ==> w != l[0] + 2) ::
          m'[w] == m[w])
    && m'[x] == m[x] - m[x] % 2
    && m'[x + 1] == HeadLink(l)
    && m'[x + 2] == 0
    && (l != [] ==> l[0] + 2 < |m| && m'[l[0] + 2] == Ptr(x))
  }

  /** The push leaves the first and last word of every other block alone. */
  lemma PushKeepsEnd(m: Words, h: Words, s: Shape, loose: set<nat>, i: nat, x: nat, m': Words, b: nat, at: nat)
    requires Inv(m, h, s, loose)
    requires x in loose && !IsFence(s.tiles, x)
    requires i < NUM_LISTS && Pushed(m, m', s.lists[i], x) && b in s.tiles.blocks && b != x
    requires at == 0 || at == s.tiles.blocks[b].size - 1
    ensures b + at < |m| && m'[b + at] == m[b + at]
  {
    var l := s.lists[i];
    assert BlockFits(s.tiles, x);
    assert Tagged(m, b, s.tiles.blocks[b].size, b !in s.free);
    ExtentsApart(s.tiles, |m|, b, x, at, 0);
    ExtentsApart(s.tiles, |m|, b, x, at, 1);
    ExtentsApart(s.tiles, |m|, b, x, at, 2);
    if l != [] && b != l[0] {
      ExtentsApart(s.tiles, |m|, b, l[0], at, 2);
    }
  }

  lemma PushedTag(m: Words, h: Words, s: Shape, loose: set<nat>, i: nat, x: nat, m': Words)
    requires Inv(m, h, s, loose)
    requires x in loose && !IsFence(s.tiles, x)
    requires i < NUM_LISTS && Pushed(m, m', s.lists[i], x)
    ensures x in s.tiles.blocks && Tagged(m', x, s.tiles.blocks[x].size, false)
  {
    var l, n := s.lists[i], s.tiles.blocks[x].size;
    assert BlockFits(s.tiles, x);
    assert Tagged(m, x, n, x !in s.free);
    FlagBit(m[x], n);
    if l != [] {
      ExtentsApart(s.tiles, |m|, x, l[0], n - 1, 2);
    }
  }

  lemma PushKeepsTags(m: Words, h: Words, s: Shape, loose: set<nat>, i: nat, x: nat, m': Words, s': Shape)
    requires Inv(m, h, s, loose)
    requires x in loose && !IsFence(s.tiles, x)
    requires i < NUM_LISTS && Pushed(m, m', s.lists[i], x)
    requires s' == s.(free := s.free + {x}, lists := s.lists[i := [x] + s.lists[i]])
    ensures Tags(m', s')
  {
    forall b <- s'.tiles.blocks ensures Tagged(m', b, s'.tiles.blocks[b].size, b !in s'.free) {
      if b == x {
        PushedTag(m, h, s, loose, i, x, m');
      } else {
        assert Tagged(m, b, s.tiles.blocks[b].size, b !in s.free);
        PushKeepsEnd(m, h, s, loose, i, x, m', b, 0);
        PushKeepsEnd(m, h, s, loose, i, x, m', b, s.tiles.blocks[b].size - 1);
      }
    }
  }

  /** The push writes no link of a block already listed, but the back link of the old front. */
  lemma PushKeepsOtherLink(m: Words, h: Words, s: Shape, loose: set<nat>, i: nat, x: nat, m': Words, i': nat, j: nat)
    requires Inv(m, h, s, loose)
    requires x in loose && !IsFence(s.tiles, x)
    requires i < NUM_LISTS && Pushed(m, m', s.lists[i], x)
    requires i' < NUM_LISTS && j < |s.lists[i']|
    ensures s.lists[i'][j] + 2 < |m|
    ensures m'[s.lists[i'][j] + 1] == m[s.lists[i'][j] + 1]
    ensures !(i' == i && j == 0) ==> m'[s.lists[i'][j] + 2] == m[s.lists[i'][j] + 2]
  {
    var l, y := s.lists[i], s.lists[i'][j];
    assert BlockFits(s.tiles, x);
    assert Linked(m, s.lists[i'], j);
    ExtentsApart(s.tiles, |m|, y, x, 1, 0);
    ExtentsApart(s.tiles, |m|, y, x, 1, 1);
    ExtentsApart(s.tiles, |m|, y, x, 1, 2);
    ExtentsApart(s.tiles, |m|, y, x, 2, 0);
    ExtentsApart(s.tiles, |m|, y, x, 2, 1);
    ExtentsApart(s.tiles, |m|, y, x, 2, 2);
    if l != [] {
      if y == l[0] {
        ListedOnce(s, loose, i', j, i, 0);
      } else {
        ExtentsApart(s.tiles, |m|, y, l[0], 1, 2);
        ExtentsApart(s.tiles, |m|, y, l[0], 2, 2);
      }
    }
  }

  lemma PushLinksFront(m: Words, m': Words, l: seq<nat>, x: nat)
    requires Pushed(m, m', l, x)
    ensures Linked(m', [x] + l, 0)
  {
    assert NextLink([x] + l, 0) == HeadLink(l);
  }

  lemma PushRelinks(m: Words, m': Words, l: seq<nat>, x: nat, j: nat)
    requires j < |l| && Pushed(m, m', l, x) && Linked(m, l, j)
    requires m'[l[j] + 1] == m[l[j] + 1]
    requires j != 0 ==> m'[l[j] + 2] == m[l[j] + 2]
    ensures Linked(m', [x] + l, j + 1)
  {
    var l' := [x] + l;
    assert l'[j + 1] == l[j];
    assert NextLink(l', j + 1) == NextLink(l, j);
    assert PrevLink(l', j + 1) == if j == 0 then Ptr(x) else PrevLink(l, j);
  }

  lemma PushedLink(m: Words, h: Words, s: Shape, loose: set<nat>, i: nat, x: nat, m': Words, i': nat, j: nat)
    requires Inv(m, h, s, loose)
    requires x in loose && !IsFence(s.tiles, x)
    requires i < NUM_LISTS && Pushed(m, m', s.lists[i], x)
    requires i' < NUM_LISTS && j < |s.lists[i']|
    ensures if i' == i then Linked(m', [x] + s.lists[i], j + 1) else Linked(m', s.lists[i'], j)
  {
    PushKeepsOtherLink(m, h, s, loose, i, x, m', i', j);
    assert Linked(m, s.lists[i'], j);
    if i' == i {
      PushRelinks(m, m', s.lists[i], x, j);
    }
  }

  lemma PushKeepsLinks(m: Words, h: Words, s: Shape, loose: set<nat>, i: nat, x: nat, m': Words, h': Words, s': Shape)
    requires Inv(m, h, s, loose)
    requires x in loose && !IsFence(s.tiles, x)
    requires i < NUM_LISTS && Pushed(m, m', s.lists[i], x)
    requires h' == h[i := Ptr(x)]
    requires s' == s.(free := s.free + {x}, lists := s.lists[i := [x] + s.lists[i]])
    ensures Links(m', h', s')
  {
    forall i', j | 0 <= i' < NUM_LISTS && 0 <= j < |s'.lists[i']|
      ensures Linked(m', s'.lists[i'], j)
    {
      if i' != i {
        PushedLink(m, h, s, loose, i, x, m', i', j);
      } else if j > 0 {
        PushedLink(m, h, s, loose, i, x, m', i, j - 1);
      } else {
        PushLinksFront(m, m', s.lists[i], x);
      }
    }
  }

  lemma PushFiles(s: Shape, limit: nat, loose: set<nat>, i: nat, x: nat, s': Shape)
    requires Geometry(s.tiles, limit) && Filing(s, loose)
    requires x in loose && x in s.tiles.blocks && !IsFence(s.tiles, x)
    requires i < NUM_LISTS && Files(PayloadBytes(s.tiles.blocks[x].size), i)
    requires s' == s.(free := s.free + {x}, lists := s.lists[i := [x] + s.lists[i]])
    ensures Filing(s', loose - {x})
  {
    assert BlockFits(s.tiles, x);
    forall i', j | 0 <= i' < NUM_LISTS && 0 <= j < |s'.lists[i']|
      ensures s'.lists[i'][j] == x || (s'.lists[i'][j] in s.lists[i'] && s'.lists[i'][j] != x)
    {
    }
    forall b | b in s'.free && b !in loose - {x}
      ensures Listed(s', b)
    {
      if b == x {
        assert s'.lists[i][0] == x;
      } else {
        assert Listed(s, b);
        var i' :| 0 <= i' < NUM_LISTS && b in s.lists[i'];
        var j :| 0 <= j < |s.lists[i']| && s.lists[i'][j] == b;
        assert s'.lists[i'][if i' == i then j + 1 else j] == b;
      }
    }
  }

  lemma PushStaysCoalesced(s: Shape, limit: nat, loose: set<nat>, x: nat, s': Shape)
    requires Geometry(s.tiles, limit) && Fenced(s) && Coalesced(s, loose)
    requires x in loose && x in s.tiles.blocks
    requires s.tiles.blocks[x].prev !in s.free && x + s.tiles.blocks[x].size !in s.free
    requires s'.tiles == s.tiles && s'.free == s.free + {x}
    ensures Coalesced(s', loose - {x})
  {
    forall b | b in s'.tiles.blocks && b in s'.free && b !in loose - {x}
      ensures Clear(s', loose - {x}, b)
    {
      assert BlockFits(s.tiles, b);
      assert BlockFits(s.tiles, x);
      if b != x {
        assert Clear(s, loose, b);
        assert !IsFence(s.tiles, b);
      }
    }
  }

  /** A loose block whose neighbours are both in use may be filed. */
  lemma PushKeepsInv(m: Words, h: Words, s: Shape, loose: set<nat>, i: nat, x: nat, m': Words, h': Words, s': Shape)
    requires Inv(m, h, s, loose)
    requires x in loose && !IsFence(s.tiles, x)
    requires BlockFits(s.tiles, x) && s.tiles.blocks[x].prev !in s.free && x + s.tiles.blocks[x].size !in s.free
    requires i < NUM_LISTS && Files(PayloadBytes(s.tiles.blocks[x].size), i)
    requires Pushed(m, m', s.lists[i], x)
    requires h' == h[i := Ptr(x)]
    requires s' == s.(free := s.free + {x}, lists := s.lists[i := [x] + s.lists[i]])
    ensures Inv(m', h', s', loose - {x})
  {
    PushKeepsTags(m, h, s, loose, i, x, m', s');
    PushFiles(s, |m|, loose, i, x, s');
    PushKeepsLinks(m, h, s, loose, i, x, m', h', s');
    PushStaysCoalesced(s, |m|, loose, x, s');
  }
}
