/**
An address space: mapping entries in two balanced trees, one for this space and one
shared by all. Multi-page entries are split in place when one of their pages is to
differ. The specification is the plain page map given by Lookup.
 */
module AddressSpace {
  import opened Basics
  import opened AvlTree
  import opened PageEntries
  import opened PageSplit
  import opened PageOps

  /** A balanced tree and the order of its elements. */
  ghost predicate InOrder(t: Tree<nat>, s: seq<nat>) {
    Balanced(t) && Elements(t) == s
  }

  /** The trees are balanced and list the table. */
  ghost predicate Sound(t: Table, mappings: Tree<nat>, globals: Tree<nat>, own: seq<nat>, shared: seq<nat>, next: nat) {
    InOrder(mappings, own) && InOrder(globals, shared) && TableOk(t, own, shared, next)
  }

  /** Inserting a new entry in its tree, seen from outside: the trees list the larger table. */
  lemma InsertLists(t: Table, own: seq<nat>, shared: seq<nat>, x: nat, e: Entry, mappings: Tree<nat>, globals: Tree<nat>)
    returns (own': seq<nat>, shared': seq<nat>)
    requires InOrder(mappings, own) && InOrder(globals, shared) && TableOk(t, own, shared, x)
    requires e.attr.refs >= 1 && Disjoint(t[x := e])
    ensures x !in t && TableOk(t[x := e], own', shared', x + 1)
    ensures e.attr.global ==> InOrder(Insert(globals, x, ByEntry(t[x := e])), shared') && own' == own
    ensures !e.attr.global ==> InOrder(Insert(mappings, x, ByEntry(t[x := e])), own') && shared' == shared
  {
    var k := Place(t, own, shared, x, e);
    if e.attr.global {
      InsertPlaces(globals, x, ByEntry(t[x := e]), k);
      own', shared' := own, InsertAt(shared, k, x);
    } else {
      InsertPlaces(mappings, x, ByEntry(t[x := e]), k);
      own', shared' := InsertAt(own, k, x), shared;
    }
  }

  /** TreeDelete of an entry from the tree it is in, seen from outside: the trees list the smaller table. */
  method DeleteEntry(t: Table, mappings: Tree<nat>, globals: Tree<nat>, x: nat,
                     ghost own: seq<nat>, ghost shared: seq<nat>, ghost next: nat)
    returns (t': Table, mappings': Tree<nat>, globals': Tree<nat>, ghost own': seq<nat>, ghost shared': seq<nat>)
    requires Sound(t, mappings, globals, own, shared, next) && x in t
    ensures t' == t - {x} && Sound(t', mappings', globals', own', shared', next)
  {
    t', mappings', globals', own', shared' := t - {x}, mappings, globals, own, shared;
    ghost var k := Displace(t, own, shared, next, x);
    if t[x].attr.global {
      DeleteRemoves(globals, x, ByEntry(t), k);
      globals', shared' := Delete(globals, x, ByEntry(t)), RemoveAt(shared, k);
    } else {
      DeleteRemoves(mappings, x, ByEntry(t), k);
      mappings', own' := Delete(mappings, x, ByEntry(t)), RemoveAt(own, k);
    }
  }

  /** An address space. The trees are held by value; AvlNodes shows that linked nodes compute the same values. */
  class Vas {
    var mappings: Tree<nat>
    var globals: Tree<nat>
    var entries: Table
    var nextName: nat
    ghost var own: seq<nat>
    ghost var shared: seq<nat>

    ghost predicate Valid()
      reads this
    {
      Sound(entries, mappings, globals, own, shared, nextName)
    }

    constructor ()
      ensures Valid() && entries == map[]
    {
      mappings, globals, own, shared := Leaf, Leaf, [], [];
      entries, nextName := map[], 1;
    }

    /** An entry is made and put in its tree: InsertIntoAvl. */
    method Add(e: Entry) returns (x: nat)
      requires Valid() && e.attr.refs >= 1
      requires Disjoint(entries[nextName := e])
      modifies this
      ensures Valid()
      ensures x == old(nextName) && x !in old(entries) && entries == old(entries)[x := e] && nextName == x + 1
    {
      x := nextName;
      ghost var own', shared' := InsertLists(entries, own, shared, x, e, mappings, globals);
      entries, nextName, own, shared := entries[x := e], x + 1, own', shared';
      if e.attr.global {
        globals := Insert(globals, x, ByEntry(entries));
      } else {
        mappings := Insert(mappings, x, ByEntry(entries));
      }
    }

    /** An entry is taken out of its tree and freed: DeleteFromAvl, FreeHeap. */
    method Remove(x: nat)
      requires Valid() && x in entries
      modifies this
      ensures Valid()
      ensures entries == old(entries) - {x} && nextName == old(nextName)
    {
      entries, mappings, globals, own, shared := DeleteEntry(entries, mappings, globals, x, own, shared, nextName);
    }

    /** An entry's fields are overwritten while it sits in its tree. */
    method Overwrite(id: nat, e: Entry)
      requires Valid() && id in entries && Within(e, entries[id]) && e.attr.refs >= 1
      modifies this`entries
      ensures Valid() && entries == old(entries)[id := e]
    {
      NarrowKeepsIndex(entries, own, false, id, e);
      NarrowKeepsIndex(entries, shared, true, id, e);
      entries := entries[id := e];
    }

    /** The entry of one tree that covers the page, or 0. */
    method FindIn(global: bool, page: nat) returns (id: nat)
      requires Valid()
      ensures id == 0 <==> forall x | x in entries && entries[x].attr.global == global :: !Covers(entries[x], page)
      ensures id != 0 ==> id in entries && entries[id].attr.global == global && Covers(entries[id], page)
    {
      var r := Get(if global then globals else mappings, 0, ByEntry(Probe(entries, page)));
      ghost var s := if global then shared else own;
      forall x | x in s ensures ByEntry(Probe(entries, page))(x, 0) == 0 <==> Covers(entries[x], page) {
        ProbeFinds(entries, page, x);
      }
      id := if r.Some? then r.value else 0;
    }

    /** GetVirtEntry: this space's own entries first, then the shared ones; 0 stands for NULL. */
    method GetVirtEntry(page: nat) returns (id: nat)
      requires Valid()
      ensures id == 0 <==> !Mapped(entries, page)
      ensures id != 0 ==> id in entries && Covers(entries[id], page)
    {
      id := FindIn(false, page);
      if id == 0 {
        id := FindIn(true, page);
      }
    }

    method AnyIn(global: bool, page: nat) returns (r: bool)
      requires Valid()
      ensures r <==> exists x :: x in entries && entries[x].attr.global == global && Covers(entries[x], page)
    {
      r := Contains(if global then globals else mappings, 0, ByEntry(Probe(entries, page)));
      ghost var s := if global then shared else own;
      forall x | x in s ensures ByEntry(Probe(entries, page))(x, 0) == 0 <==> Covers(entries[x], page) {
        ProbeFinds(entries, page, x);
      }
      assert forall x | x in entries && entries[x].attr.global == global :: x in s;
    }

    method AnyOver(global: bool, page: nat, pages: nat) returns (r: bool)
      requires Valid()
      ensures r <==> exists p :: page <= p < page + pages && MappedIn(entries, global, p)
    {
      for i := 0 to pages
        invariant forall p | page <= p < page + i :: !MappedIn(entries, global, p)
      {
        var found := AnyIn(global, page + i);
        if found {
          assert MappedIn(entries, global, page + i);
          return true;
        }
      }
      return false;
    }

    /** IsRangeInUse */
    method IsRangeInUse(page: nat, pages: nat) returns (r: bool)
      requires Valid()
      ensures r <==> exists p :: page <= p < page + pages && Mapped(entries, p)
    {
      r := AnyOver(false, page, pages);
      if r {
        ghost var p :| page <= p < page + pages && MappedIn(entries, false, p);
        assert Mapped(entries, p);
      } else {
        r := AnyOver(true, page, pages);
        if r {
          ghost var p :| page <= p < page + pages && MappedIn(entries, true, p);
          assert Mapped(entries, p);
        }
      }
      forall p | page <= p < page + pages && Mapped(entries, p) ensures MappedIn(entries, false, p) || MappedIn(entries, true, p) {
      }
    }

    /** Cuts entry id after k pages: it is narrowed in place, then the other part is added. */
    method CutEntry(id: nat, k: nat, keepsFront: bool)
      requires Valid() && id in entries && 0 < k < entries[id].pages && !SplitStops(entries[id])
      modifies this
      ensures Valid()
      ensures id in entries && entries[id] == if keepsFront then Front(old(entries[id]), k) else Back(old(entries[id]), k)
      ensures Quiet(old(entries), entries)
    {
      ghost var t := entries;
      var e, x := entries[id], nextName;
      var mine := if keepsFront then Front(e, k) else Back(e, k);
      var other := if keepsFront then Back(e, k) else Front(e, k);
      assert forall i | i in t :: t[i].pages >= 1;
      CutIsQuiet(t, id, k, x, keepsFront, t[id := mine][x := other]);
      Overwrite(id, mine);
      var _ := Add(other);
    }

    /** The first half of a split: pages before the target are cut off. */
    method CutBefore(target: nat, id: nat)
      requires Valid() && id in entries && target < entries[id].page + entries[id].pages && !SplitStops(entries[id])
      modifies this
      ensures Valid() && Quiet(old(entries), entries)
      ensures id in entries
      ensures entries[id] == if old(entries[id]).page < target then Back(old(entries[id]), target - old(entries[id]).page) else old(entries[id])
    {
      if entries[id].page < target {
        CutEntry(id, target - entries[id].page, false);
      }
    }

    /** The second half: all but the first `leave` pages are cut off. */
    method CutAfter(leave: nat, id: nat)
      requires Valid() && id in entries && leave >= 1 && !SplitStops(entries[id])
      modifies this
      ensures Valid() && Quiet(old(entries), entries)
      ensures id in entries
      ensures entries[id] == if old(entries[id]).pages > leave then Front(old(entries[id]), leave) else old(entries[id])
    {
      if entries[id].pages > leave {
        CutEntry(id, leave, true);
      }
    }

    /** SplitLargePageEntryIntoMultiple: only a run of pages that owns its memory trips its assertions. */
    method Split(target: nat, id: nat, leave: nat) returns (s: Status, n: nat)
      requires Valid() && id in entries && leave >= 1
      requires target < entries[id].page + entries[id].pages
      modifies this
      ensures s == Ok || s == AssertionFailed
      ensures s == AssertionFailed <==> var e := old(entries[id]); e.pages > 1 && (e.attr.owned || e.attr.swapfile)
      ensures Valid() && Quiet(old(entries), entries)
      ensures s == Ok ==> id in entries && entries[id] == Narrowed(old(entries[id]), target, leave) && n == entries[id].pages
    {
      ghost var t := entries;
      var e := entries[id];
      if e.pages == 1 {
        return Ok, 1;
      }
      if e.attr.owned || e.attr.swapfile {
        return AssertionFailed, 0;
      }
      n := CutBoth(target, id, leave);
      s := Ok;
    }

    /** The two cuts of a split. */
    method CutBoth(target: nat, id: nat, leave: nat) returns (n: nat)
      requires Valid() && id in entries && leave >= 1 && entries[id].pages > 1 && !SplitStops(entries[id])
      requires target < entries[id].page + entries[id].pages
      modifies this
      ensures Valid() && Quiet(old(entries), entries)
      ensures id in entries && entries[id] == Narrowed(old(entries[id]), target, leave) && n == entries[id].pages
    {
      ghost var t, e := entries, entries[id];
      CutBefore(target, id);
      ghost var u, b := entries, entries[id];
      CutAfter(leave, id);
      QuietTrans(t, u, entries);
      NarrowedInTwo(e, target, leave, b);
      n := entries[id].pages;
    }

    /** A split that leaves one page: unless it stops, the page has an entry of its own. */
    method Isolate(page: nat, id: nat) returns (s: Status)
      requires Valid() && id in entries && Covers(entries[id], page)
      modifies this
      ensures s == if SplitStops(old(entries[id])) then AssertionFailed else Ok
      ensures Valid() && Quiet(old(entries), entries)
      ensures s == Ok ==> OwnPage(entries, id, page) && entries[id].attr == old(entries[id]).attr
    {
      NarrowedToOne(entries[id], page);
      var n;
      s, n := Split(page, id, 1);
    }

    /** The end of SetVirtPermissionsEx. */
    method PermitAt(page: nat, id: nat, set': Permissions, clear: Permissions, ghost t: Table)
      requires Valid() && SamePages(t, entries) && OwnPage(entries, id, page)
      modifies this`entries
      ensures Valid() && PermittedOne(t, entries, page, set', clear) && SameStops(old(entries), entries)
      ensures OwnPage(entries, id, page)
    {
      ghost var u := entries;
      OthersStop(u, u[id := u[id].(attr := Permit(u[id].attr, set', clear))], {id});
      PermitOne(t, u, id, page, set', clear);
      Overwrite(id, entries[id].(attr := Permit(entries[id].attr, set', clear)));
      assert entries == u[id := u[id].(attr := Permit(u[id].attr, set', clear))];
    }

    /** SetVirtPermissionsEx: the permissions of exactly one page change. */
    method SetVirtPermissionsEx(page: nat, set': Permissions, clear: Permissions) returns (s: Status)
      requires Valid()
      modifies this
      ensures Valid()
      ensures SameStops(old(entries), entries)
      ensures s == PermitStatus(old(entries), page, set', clear)
      ensures s != Ok ==> SamePages(old(entries), entries)
      ensures s == Ok ==> PermittedOne(old(entries), entries, page, set', clear)
      ensures s == Ok ==>
                && Lookup(old(entries), page).Some? && Lookup(entries, page).Some?
                && PermissionsChanged(Lookup(old(entries), page).value, Lookup(entries, page).value, set', clear)
                && forall q: nat | q != page :: Lookup(entries, q) == Lookup(old(entries), q)
      ensures s == Ok ==> forall x | x in old(entries) && Covers(old(entries)[x], page) :: OwnPage(entries, x, page)
    {
      if set'.other || clear.other {
        return EInval;
      }
      ghost var t := entries;
      var id := GetVirtEntry(page);
      if id == 0 {
        return ENoMem;
      }
      CoverIsUnique(t, id, page);
      if Forbidden(entries[id].attr, set') {
        return EAcces;
      }
      OnlyCover(t, id, page);
      s := Isolate(page, id);
      if s == Ok {
        ghost var u := entries;
        PermitAt(page, id, set', clear, t);
        StopsTrans(t, u, entries);
        PermitLaw(t, entries, page, set', clear);
      }
    }

    /** DereferenceEntry, on the tree and the table. */
    method DereferenceEntry(id: nat)
      requires Valid() && id in entries
      modifies this
      ensures Valid()
      ensures Dereferenced(old(entries), entries, id)
    {
      var refs := entries[id].attr.refs;
      if refs == 1 {
        Remove(id);
      } else {
        Overwrite(id, entries[id].(attr := entries[id].attr.(refs := refs - 1)));
      }
    }

    /** The split is told the first page of the run, not the current one; what was done before makes up for it. */
    method IsolateFrom(base: nat, i: nat, id: nat) returns (s: Status)
      requires Valid() && id in entries && Covers(entries[id], base + i)
      requires forall q | base <= q < base + i :: Isolated(entries, q)
      modifies this
      ensures s == if SplitStops(old(entries[id])) then AssertionFailed else Ok
      ensures Valid() && Quiet(old(entries), entries)
      ensures s == Ok ==> OwnPage(entries, id, base + i)
    {
      StartsAt(entries, base, i, id);
      var n;
      s, n := Split(base, id, 1);
    }

    /** One round of UnmapVirtEx. */
    method UnmapOne(base: nat, i: nat) returns (s: Status)
      requires Valid() && forall q | base <= q < base + i :: Isolated(entries, q)
      modifies this
      ensures Valid()
      ensures s == ENoMem || s == AssertionFailed || s == Ok
      ensures s == ENoMem <==> !Mapped(old(entries), base + i)
      ensures s == ENoMem ==> entries == old(entries)
      ensures s == AssertionFailed <==> StopsAt(old(entries), base + i)
      ensures s == AssertionFailed ==> Quiet(old(entries), entries)
      ensures s != AssertionFailed ==> DroppedPage(old(entries), entries, base + i)
    {
      ghost var t := entries;
      var id := GetVirtEntry(base + i);
      if id == 0 {
        MissingDrops(t, base + i);
        return ENoMem;
      }
      CoverIsUnique(t, id, base + i);
      s := IsolateFrom(base, i, id);
      if s == Ok {
        ghost var u := entries;
        DereferenceEntry(id);
        DereferenceDrops(u, entries, id, base + i);
        QuietDrop(t, u, entries, base + i);
      }
    }

    /**
    UnmapVirtEx: each page of the run in turn loses a reference. It fails with EInval at the first
    page that is not mapped, unless it may skip those, and stops at the first page whose entry cannot
    be split; the pages before it have then been dropped.
     */
    method UnmapVirtEx(page: nat, pages: nat, allowMissing: bool) returns (s: Status, ghost done: nat)
      requires Valid()
      modifies this
      ensures Valid()
      ensures s == Ok || s == EInval || s == AssertionFailed
      ensures SameStops(old(entries), entries)
      ensures done <= pages && DroppedRun(old(entries), entries, page, done)
      ensures s == Ok <==> done == pages
      ensures s == EInval <==> !allowMissing && done < pages && !Mapped(old(entries), page + done)
      ensures s == AssertionFailed <==> done < pages && StopsAt(old(entries), page + done)
      ensures !allowMissing ==> forall p | page <= p < page + done :: Mapped(old(entries), p)
      ensures forall p | page <= p < page + done :: !StopsAt(old(entries), p)
    {
      ghost var t := entries;
      NothingUnmapped(t, page, allowMissing);
      done := 0;
      for i := 0 to pages
        invariant Valid()
        invariant done == i && UnmappedRun(t, entries, page, i, allowMissing)
      {
        ghost var u := entries;
        StillUnmapped(t, u, page, i, allowMissing);
        s := UnmapOne(page, i);
        if s == AssertionFailed {
          SameThenDropped(t, u, entries, page, i);
          return;
        }
        if s == ENoMem && !allowMissing {
          return EInval, i;
        }
        UnmapMore(t, u, entries, page, i, allowMissing);
        done := i + 1;
      }
      s := Ok;
    }

    /** An entry for pages nobody maps. */
    method AddFresh(e: Entry) returns (x: nat)
      requires Valid() && e.pages >= 1 && e.attr.refs >= 1 && RangeFree(entries, e.page, e.pages)
      modifies this
      ensures Valid() && x in entries && entries[x] == e
      ensures EntryAdded(old(entries), entries, e)
      ensures Splittable(old(entries)) && !SplitStops(e) ==> Splittable(entries)
    {
      NewNameIsFree(entries, own, shared, nextName);
      FreshIsDisjoint(entries, nextName, e);
      FreshViews(entries, nextName, e);
      x := Add(e);
    }

    /** AddMapping in round i, for n pages starting at the plan's page i. */
    method AddMapping(p: Plan, i: nat, n: nat)
      requires Valid() && n >= 1 && RangeFree(entries, p.page + i, n) && (LeftWritable(p) ==> n == 1 && !p.f.file)
      modifies this
      ensures Valid()
      ensures EntryAdded(old(entries), entries, FinalEntry(p, i, n))
      ensures Splittable(old(entries)) && !SplitStops(FinalEntry(p, i, n)) ==> Splittable(entries)
    {
      ghost var t := entries;
      var e := PlanEntry(p, i, n);
      var x := AddFresh(e);
      if LeftWritable(p) {
        ClearForUse(e, x, t);
      }
    }

    /** A new locked page is made writable and cleared; the test for taking the permission away again then finds it writable. */
    method ClearForUse(e: Entry, x: nat, ghost t: Table)
      requires Valid() && e.pages == 1 && !e.attr.file && x in entries && entries[x] == e && EntryAdded(t, entries, e)
      modifies this
      ensures Valid() && EntryAdded(t, entries, e.(attr := e.attr.(write := true)))
      ensures Splittable(old(entries)) ==> Splittable(entries)
    {
      ghost var u := entries;
      ClearingAllowed(u, x, e);
      var s := SetVirtPermissionsEx(e.page, WritePermission, NoPermissions);
      ClearedEntry(t, u, entries, e);
      StillWritable(u, entries, x, e.page);
      StopsAreSplittable(u, entries);
      TakeBackWrite(x, e.page);
    }

    /** The test after clearing a page: write permission is taken away again if the entry does not have it. */
    method TakeBackWrite(x: nat, page: nat)
      requires Valid() && OwnPage(entries, x, page)
      modifies this
      ensures Valid()
      ensures old(entries[x]).attr.write ==> entries == old(entries)
      ensures !old(entries[x]).attr.write ==>
                && PermittedOne(old(entries), entries, page, NoPermissions, WritePermission)
                && SameStops(old(entries), entries)
    {
      if !entries[x].attr.write {
        CoverIsUnique(entries, x, page);
        var s := SetVirtPermissionsEx(page, NoPermissions, WritePermission);
      }
    }

    /** The rounds of MapVirtEx: one for a single entry, else one per page. */
    method MapRounds(p: Plan)
      requires Valid() && RangeFree(entries, p.page, p.pages) && (LeftWritable(p) ==> !p.f.file)
      modifies this
      ensures Valid() && PlannedRun(old(entries), entries, p, p.pages)
      ensures Splittable(old(entries)) && (OneEntry(p) ==> !SplitStops(FinalEntry(p, 0, p.pages))) ==> Splittable(entries)
    {
      ghost var t := entries;
      if OneEntry(p) {
        AddMapping(p, 0, p.pages);
        OneEntryRun(t, entries, p);
        return;
      }
      for i := 0 to p.pages
        invariant Valid() && PlannedRun(t, entries, p, i)
        invariant Splittable(t) ==> Splittable(entries)
      {
        ghost var u := entries;
        NextPageFree(t, u, p, i);
        AddMapping(p, i, 1);
        OnePageMore(t, u, entries, p, i);
      }
    }

    /** Where the mapping goes: where it was asked for if those pages are free, else elsewhere, unless it must not. */
    method ChooseRange(page: nat, pages: nat, fixed: bool, spare: nat) returns (ok: bool, target: nat)
      requires Valid()
      ensures ok <==> !(fixed && page != 0 && !RangeFree(entries, page, pages))
      ensures target == if page == 0 || !RangeFree(entries, page, pages) then spare else page
    {
      if page == 0 {
        return true, spare;
      }
      var used := IsRangeInUse(page, pages);
      ok := !(used && fixed);
      target := if used then spare else page;
    }

    /**
    MapVirtEx, for a request at `page` or anywhere (0). AllocVirtRange, when it is asked, answers
    `spare`. On success exactly the pages of the run are added, and they come out as planned.
     */
    method MapVirtEx(physical: nat, page: nat, pages: nat, f: MapFlags, file: Option<FileInfo>, pos: nat,
                     spare: nat, current: bool, frames: nat -> nat) returns (s: Status, start: nat, ghost p: Plan)
      requires Valid() && RangeFree(entries, spare, pages)
      modifies this
      ensures Valid()
      ensures MapError(f, physical, file, pos) != Ok ==> s == MapError(f, physical, file, pos)
      ensures MapError(f, physical, file, pos) == Ok ==>
                s == if f.fixedVirt && page != 0 && !RangeFree(old(entries), page, pages) then EExist else Ok
      ensures s != Ok ==> entries == old(entries)
      ensures s == Ok ==> start == if page == 0 || !RangeFree(old(entries), page, pages) then spare else page
      ensures s == Ok ==>
                MappedRun(old(entries), entries, start, physical, pages, f, file.Some? && file.value.canWrite, pos, current, frames)
      ensures p == Plan(f, physical, if page == 0 || !RangeFree(old(entries), page, pages) then spare else page, pages, pos,
                        file.Some? && file.value.canWrite, current, frames)
      ensures s == Ok ==> PlannedRun(old(entries), entries, p, pages)
      ensures s == Ok && Splittable(old(entries)) && !(f.hardware && physical == 0 && pages >= 3) ==> Splittable(entries)
    {
      p := Plan(f, physical, if page == 0 || !RangeFree(entries, page, pages) then spare else page, pages, pos,
                file.Some? && file.value.canWrite, current, frames);
      s, start := MapError(f, physical, file, pos), 0;
      if s != Ok {
        return;
      }
      ghost var t := entries;
      var ok, target := ChooseRange(page, pages, f.fixedVirt, spare);
      if !ok {
        return EExist, 0, p;
      }
      FewPagesSplit(p);
      MapRounds(Plan(f, physical, target, pages, pos, file.Some? && file.value.canWrite, current, frames));
      PlannedIsMapped(t, entries, p);
      start := target;
    }

    /** GetPhysFromVirt, for a mapped page. */
    method GetPhysFromVirt(page: nat) returns (address: nat)
      requires Valid() && Mapped(entries, page)
      ensures exists id :: id in entries && Covers(entries[id], page) && address == PhysOf(entries[id], page)
      ensures Lookup(entries, page).value.physical != 0 ==> address == Lookup(entries, page).value.physical
    {
      var id := GetVirtEntry(page);
      CoverIsUnique(entries, id, page);
      address := entries[id].physical;
      if entries[id].page < page {
        address := address + (page - entries[id].page) * PAGE_SIZE;
      }
    }
  }
}
