/**
Cutting a multi-page entry in two. The part that keeps its identity is narrowed in
place, the other part is a new entry, and no page notices.
 */
module PageSplit {
  import opened PageEntries

  /** The first k pages of e. */
  function Front(e: Entry, k: nat): Entry
    requires k <= e.pages
  {
    e.(pages := k)
  }

  /** All but the first k pages of e: a physical address moves only if there is one, an offset only for a file. */
  function Back(e: Entry, k: nat): Entry
    requires k <= e.pages
  {
    Entry(e.page + k, e.pages - k, Advance(e.physical, e.physical != 0, k), Advance(e.offset, e.attr.file, k), e.attr)
  }

  lemma CutViews(e: Entry, k: nat, p: nat)
    requires 0 < k < e.pages && Covers(e, p)
    ensures p < e.page + k ==> Covers(Front(e, k), p) && !Covers(Back(e, k), p) && ViewOf(Front(e, k), p) == ViewOf(e, p)
    ensures e.page + k <= p ==> !Covers(Front(e, k), p) && Covers(Back(e, k), p) && ViewOf(Back(e, k), p) == ViewOf(e, p)
  {
  }

  /** Table t' is t with entry id cut after k pages; `keep` says which part keeps the name. */
  ghost predicate IsCut(t: Table, id: nat, k: nat, x: nat, keepsFront: bool, t': Table) {
    && id in t && 0 < k < t[id].pages && x !in t
    && t' == if keepsFront then t[id := Front(t[id], k)][x := Back(t[id], k)]
             else t[id := Back(t[id], k)][x := Front(t[id], k)]
  }

  lemma CutDisjoint(t: Table, id: nat, k: nat, x: nat, keepsFront: bool, t': Table)
    requires Disjoint(t) && IsCut(t, id, k, x, keepsFront, t')
    ensures Disjoint(t')
  {
    forall a, b | a in t' && b in t' && a != b ensures Apart(t', a, b) {
      var a0, b0 := if a == x then id else a, if b == x then id else b;
      assert a0 != b0 ==> Apart(t, a0, b0);
    }
  }

  /** Cutting an entry changes no page: physical address, file offset and attributes all stand. */
  lemma CutKeepsPages(t: Table, id: nat, k: nat, x: nat, keepsFront: bool, t': Table, p: nat)
    requires Disjoint(t) && IsCut(t, id, k, x, keepsFront, t') && Disjoint(t')
    ensures Lookup(t', p) == Lookup(t, p)
  {
    if Covers(t[id], p) {
      CutViews(t[id], k, p);
      LookupIs(t, id, p);
      LookupIs(t', if (p < t[id].page + k) == keepsFront then id else x, p);
    } else {
      forall a | a in t' && Covers(t'[a], p) ensures a in t && t'[a] == t[a] {
        assert a != id && a != x;
      }
      LookupSame(t, t', p);
    }
  }

  // ---- the physical address as GetPhysFromVirt computes it ----

  function PhysOf(e: Entry, p: nat): nat
    requires Covers(e, p)
  {
    if e.page < p then e.physical + PAGE_SIZE * (p - e.page) else e.physical
  }

  /** It is the page's address exactly when the entry is backed, or on the entry's first page. */
  lemma PhysOfAgrees(e: Entry, p: nat)
    requires Covers(e, p)
    ensures PhysOf(e, p) == ViewOf(e, p).physical <==> e.physical != 0 || p == e.page
  {
  }

  /** So a cut changes the answer for a page exactly when the entry is unbacked and the page is in the back part. */
  lemma PhysOfAfterCut(e: Entry, k: nat, p: nat)
    requires 0 < k < e.pages && Covers(e, p)
    ensures p < e.page + k ==> PhysOf(Front(e, k), p) == PhysOf(e, p)
    ensures e.page + k <= p ==> (PhysOf(Back(e, k), p) == PhysOf(e, p) <==> e.physical != 0)
  {
  }

  lemma PhysOfUnbacked()
    ensures var e := Entry(16, 4, 0, 0, Attributes(true, false, false, false, true, false, false, false, false, false, false, false, 1));
            Covers(e, 18) && PhysOf(e, 18) == 8192 && PhysOf(Back(e, 2), 18) == 0
  {
  }
}
