/**
Mapping entries of an address space. An entry maps a run of pages; the page map it
stands for gives, for every single page, its physical address, file offset and
attributes. Entries sit in balanced trees whose comparator calls two entries equal
when they overlap, so on disjoint entries it orders by page.
 */
module PageEntries {
  import opened Basics
  import opened AvlTree

  const PAGE_SIZE: nat := 4096

  /** The flags of an entry; `owned` is the source's `allocated`: the physical page is freed with the entry. */
  datatype Attributes = Attributes(
    read: bool, write: bool, exec: bool, user: bool,
    global: bool, lock: bool, inRam: bool,
    file: bool, fileWritable: bool, relocatable: bool,
    owned: bool, swapfile: bool,
    refs: nat)

  /** struct vas_entry; addresses and offsets are bytes, `page` is the first virtual page. */
  datatype Entry = Entry(page: nat, pages: nat, physical: nat, offset: nat, attr: Attributes)

  /** What one page is mapped to. */
  datatype PageView = PageView(physical: nat, offset: nat, attr: Attributes)

  predicate Covers(e: Entry, p: nat) { e.page <= p < e.page + e.pages }

  function Advance(base: nat, moves: bool, k: nat): nat {
    if moves then base + PAGE_SIZE * k else base
  }

  /** An unbacked entry stays unbacked on every page; only a file-backed page has a file offset. */
  function ViewOf(e: Entry, p: nat): PageView
    requires Covers(e, p)
  {
    var k := p - e.page;
    PageView(Advance(e.physical, e.physical != 0, k), if e.attr.file then Advance(e.offset, true, k) else 0, e.attr)
  }

  /** VirtAvlComparator */
  function CompareEntries(a: Entry, b: Entry): int {
    if a.page >= b.page && a.page < b.page + b.pages then 0
    else if b.page >= a.page && b.page < a.page + a.pages then 0
    else if a.page > b.page then 1
    else if a.page < b.page then -1
    else 0
  }

  /** Entries by name; trees hold the names, as the source's trees hold pointers. */
  type Table = map<nat, Entry>

  function ByEntry(t: Table): Comparator<nat> {
    (a: nat, b: nat) => if a in t && b in t then CompareEntries(t[a], t[b]) else 0
  }

  predicate Before(a: Entry, b: Entry) { a.page + a.pages <= b.page }

  ghost predicate Apart(t: Table, a: nat, b: nat)
    requires a in t && b in t
  {
    Before(t[a], t[b]) || Before(t[b], t[a])
  }

  ghost predicate Disjoint(t: Table) {
    && (forall a {:trigger t[a]} | a in t :: t[a].pages >= 1)
    && (forall a, b {:trigger Apart(t, a, b)} | a in t && b in t && a != b :: Apart(t, a, b))
  }

  /** The comparator on entries that do not overlap is the order of their pages. */
  lemma CompareDisjoint(a: Entry, b: Entry)
    requires a.pages >= 1 && b.pages >= 1
    ensures CompareEntries(a, b) == 0 <==> !Before(a, b) && !Before(b, a)
    ensures CompareEntries(a, b) < 0 <==> Before(a, b)
    ensures CompareEntries(a, b) > 0 <==> Before(b, a)
  {
  }

  // ---- the page map ----

  ghost predicate Mapped(t: Table, p: nat) {
    exists id :: id in t && Covers(t[id], p)
  }

  ghost function Lookup(t: Table, p: nat): Option<PageView> {
    if Mapped(t, p) then
      var id :| id in t && Covers(t[id], p);
      Some(ViewOf(t[id], p))
    else None
  }

  lemma LookupIs(t: Table, id: nat, p: nat)
    requires Disjoint(t) && id in t && Covers(t[id], p)
    ensures Lookup(t, p) == Some(ViewOf(t[id], p))
  {
    assert Mapped(t, p);
    var other :| other in t && Covers(t[other], p) && Lookup(t, p) == Some(ViewOf(t[other], p));
    assert other != id ==> Apart(t, other, id);
  }

  /** Two tables agree on a page that the same unchanged entry, or none, covers in both. */
  lemma LookupSame(t: Table, t': Table, p: nat)
    requires Disjoint(t) && Disjoint(t')
    requires forall id | id in t && Covers(t[id], p) :: id in t' && t'[id] == t[id]
    requires forall id | id in t' && Covers(t'[id], p) :: id in t && t'[id] == t[id]
    ensures Lookup(t', p) == Lookup(t, p)
  {
    if Mapped(t, p) {
      var id :| id in t && Covers(t[id], p);
      LookupIs(t, id, p);
      LookupIs(t', id, p);
    }
  }

  // ---- the index of one tree ----

  /** s lists, in page order, exactly the entries that belong to this tree. */
  ghost predicate Indexed(t: Table, s: seq<nat>, global: bool) {
    Ordered(s, ByEntry(t)) && Lists(t, s, global)
  }

  ghost predicate Lists(t: Table, s: seq<nat>, global: bool) {
    && (forall i {:trigger s[i]} | 0 <= i < |s| :: s[i] in t && t[s[i]].attr.global == global)
    && (forall id {:trigger id in s} | id in t && t[id].attr.global == global :: id in s)
  }

  /** Entry e' is a non-empty part of e, in the same tree. */
  predicate Within(e': Entry, e: Entry) {
    e'.pages >= 1 && e.page <= e'.page && e'.page + e'.pages <= e.page + e.pages && e'.attr.global == e.attr.global
  }

  lemma OrderedTransfer(t: Table, t': Table, s: seq<nat>)
    requires Ordered(s, ByEntry(t)) && Disjoint(t)
    requires forall i {:trigger s[i]} | 0 <= i < |s| :: s[i] in t && s[i] in t' && Within(t'[s[i]], t[s[i]])
    ensures Ordered(s, ByEntry(t'))
  {
    var cmp, cmp' := ByEntry(t), ByEntry(t');
    forall i, j | 0 <= i < j < |s| ensures cmp'(s[i], s[j]) < 0 && cmp'(s[j], s[i]) > 0 {
      assert cmp(s[i], s[j]) < 0;
      CompareDisjoint(t[s[i]], t[s[j]]);
      CompareDisjoint(t'[s[i]], t'[s[j]]);
      CompareDisjoint(t'[s[j]], t'[s[i]]);
    }
    forall i | 0 <= i < |s| ensures cmp'(s[i], s[i]) == 0 {
      CompareDisjoint(t'[s[i]], t'[s[i]]);
    }
  }

  lemma DisjointTransfer(t: Table, t': Table)
    requires Disjoint(t) && t'.Keys <= t.Keys
    requires forall a {:trigger t'[a]} | a in t' :: Within(t'[a], t[a])
    ensures Disjoint(t')
  {
    forall a, b | a in t' && b in t' && a != b ensures Apart(t', a, b) {
      assert Apart(t, a, b);
    }
  }

  /** Narrowing an entry in place, while it sits in its tree, keeps the tree in order. */
  lemma NarrowKeepsIndex(t: Table, s: seq<nat>, global: bool, id: nat, e: Entry)
    requires Disjoint(t) && Indexed(t, s, global) && id in t && Within(e, t[id])
    ensures Disjoint(t[id := e]) && Indexed(t[id := e], s, global)
  {
    var t' := t[id := e];
    DisjointTransfer(t, t');
    OrderedTransfer(t, t', s);
  }

  lemma {:induction false} PlaceOf(t: Table, s: seq<nat>, x: nat) returns (k: nat)
    requires Disjoint(t) && Ordered(s, ByEntry(t)) && x in t && x !in s
    requires forall i | 0 <= i < |s| :: s[i] in t
    ensures Splits(s, x, ByEntry(t), k)
  {
    if s == [] {
      return 0;
    }
    var cmp, y := ByEntry(t), s[0];
    CompareDisjoint(t[x], t[y]);
    if Before(t[x], t[y]) {
      k := 0;
      forall i | 0 <= i < |s| ensures cmp(x, s[i]) < 0 {
        assert i > 0 ==> cmp(y, s[i]) < 0;
        CompareDisjoint(t[y], t[s[i]]);
        CompareDisjoint(t[x], t[s[i]]);
      }
    } else {
      assert Apart(t, x, y);
      assert [] + [y] + s[1..] == s;
      OrderedParts([], y, s[1..], cmp);
      var j := PlaceOf(t, s[1..], x);
      k := j + 1;
      assert forall i | 0 < i < |s| :: s[i] == s[1..][i - 1];
    }
  }

  lemma AddToList(t: Table, s: seq<nat>, global: bool, x: nat, e: Entry, k: nat)
    requires Lists(t, s, global) && x !in t && e.attr.global == global && k <= |s|
    ensures Lists(t[x := e], InsertAt(s, k, x), global)
  {
    var t', r := t[x := e], InsertAt(s, k, x);
    forall i | 0 <= i < |r| ensures r[i] in t' && t'[r[i]].attr.global == global {
      assert r[i] == if i < k then s[i] else if i == k then x else s[i - 1];
    }
    forall id | id in t' && t'[id].attr.global == global ensures id in r {
      if id == x {
        assert r[k] == x;
      } else {
        assert id in s;
        var i :| 0 <= i < |s| && s[i] == id;
        assert r[if i < k then i else i + 1] == id;
      }
    }
  }

  lemma AddInOrder(t: Table, s: seq<nat>, x: nat) returns (k: nat)
    requires Disjoint(t) && Ordered(s, ByEntry(t)) && x in t && x !in s
    requires forall i {:trigger s[i]} | 0 <= i < |s| :: s[i] in t
    ensures Splits(s, x, ByEntry(t), k) && Ordered(InsertAt(s, k, x), ByEntry(t))
  {
    var cmp := ByEntry(t);
    k := PlaceOf(t, s, x);
    forall i | 0 <= i < |s|
      ensures (cmp(x, s[i]) < 0 <==> cmp(s[i], x) > 0) && (cmp(x, s[i]) > 0 <==> cmp(s[i], x) < 0)
    {
      CompareDisjoint(t[x], t[s[i]]);
      CompareDisjoint(t[s[i]], t[x]);
    }
    CompareDisjoint(t[x], t[x]);
    InsertedOrdered(s, x, cmp, k);
  }

  /** A new entry that overlaps nothing has its place in the order. */
  lemma AddToIndex(t: Table, s: seq<nat>, global: bool, x: nat, e: Entry) returns (k: nat)
    requires Disjoint(t) && Indexed(t, s, global) && x !in t && Disjoint(t[x := e]) && e.attr.global == global
    ensures Splits(s, x, ByEntry(t[x := e]), k)
    ensures Indexed(t[x := e], InsertAt(s, k, x), global)
  {
    OrderedTransfer(t, t[x := e], s);
    assert x !in s;
    k := AddInOrder(t[x := e], s, x);
    AddToList(t, s, global, x, e, k);
  }

  lemma AddElsewhere(t: Table, s: seq<nat>, global: bool, x: nat, e: Entry)
    requires Disjoint(t) && Indexed(t, s, global) && x !in t && e.attr.global != global
    ensures Indexed(t[x := e], s, global)
  {
    OrderedTransfer(t, t[x := e], s);
  }

  lemma RemoveFromList(t: Table, s: seq<nat>, global: bool, k: nat)
    requires Lists(t, s, global) && k < |s|
    requires forall i | 0 <= i < |s| && i != k :: s[i] != s[k]
    ensures Lists(t - {s[k]}, RemoveAt(s, k), global)
  {
    var t', r := t - {s[k]}, RemoveAt(s, k);
    forall i | 0 <= i < |r| ensures r[i] in t' && t'[r[i]].attr.global == global {
      assert r[i] == s[if i < k then i else i + 1];
    }
    forall id | id in t' && t'[id].attr.global == global ensures id in r {
      assert id in s;
      var j :| 0 <= j < |s| && s[j] == id;
      assert r[if j < k then j else j - 1] == id;
    }
  }

  lemma OrderedDistinct(s: seq<nat>, cmp: Comparator<nat>, k: nat)
    requires Ordered(s, cmp) && k < |s|
    ensures forall i | 0 <= i < |s| && i != k :: s[i] != s[k]
    ensures Matches(s, s[k], cmp, k)
  {
    forall i | 0 <= i < |s| && i != k ensures s[i] != s[k] {
      assert i < k ==> cmp(s[i], s[k]) < 0;
      assert k < i ==> cmp(s[k], s[i]) < 0;
    }
  }

  lemma RemoveFromIndex(t: Table, s: seq<nat>, global: bool, x: nat) returns (k: nat)
    requires Disjoint(t) && Indexed(t, s, global) && x in t && t[x].attr.global == global
    ensures Matches(s, x, ByEntry(t), k)
    ensures Disjoint(t - {x}) && Indexed(t - {x}, RemoveAt(s, k), global)
  {
    assert x in s;
    k :| 0 <= k < |s| && s[k] == x;
    DisjointTransfer(t, t - {x});
    OrderedDistinct(s, ByEntry(t), k);
    RemoveFromList(t, s, global, k);
    RemovedOrdered(s, ByEntry(t), k);
    OrderedTransfer(t, t - {x}, RemoveAt(s, k));
  }

  lemma RemoveElsewhere(t: Table, s: seq<nat>, global: bool, x: nat)
    requires Disjoint(t) && Indexed(t, s, global) && x in t && t[x].attr.global != global
    ensures Disjoint(t - {x}) && Indexed(t - {x}, s, global)
  {
    DisjointTransfer(t, t - {x});
    OrderedTransfer(t, t - {x}, s);
  }
}
