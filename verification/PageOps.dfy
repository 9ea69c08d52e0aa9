/**
What the operations of an address space do to the table of entries and to the page
map it stands for, as facts about tables before and after.
 */
module PageOps {
  import opened Basics
  import opened AvlTree
  import opened PageEntries
  import opened PageSplit

  /** Error numbers, and a failed assertion, which stops the kernel. */
  datatype Status = Ok | EInval | ENoMem | EAcces | EExist | AssertionFailed

  /** The table is well-formed and each tree lists its share of it in page order. */
  ghost predicate TableOk(t: Table, locals: seq<nat>, globals: seq<nat>, nextName: nat) {
    && Disjoint(t)
    && Indexed(t, locals, false)
    && Indexed(t, globals, true)
    && Named(t, nextName)
    && 0 < nextName
  }

  /** Every entry has a name that was given out, and somebody holds it. */
  ghost predicate Named(t: Table, nextName: nat) {
    forall id {:trigger t[id]} | id in t :: 0 < id < nextName && t[id].attr.refs >= 1
  }

  lemma Place(t: Table, locals: seq<nat>, globals: seq<nat>, x: nat, e: Entry) returns (k: nat)
    requires TableOk(t, locals, globals, x) && e.attr.refs >= 1 && Disjoint(t[x := e])
    ensures x !in t && Splits(if e.attr.global then globals else locals, x, ByEntry(t[x := e]), k)
    ensures TableOk(t[x := e], if e.attr.global then locals else InsertAt(locals, k, x),
                    if e.attr.global then InsertAt(globals, k, x) else globals, x + 1)
  {
    assert forall id | id in t :: t[id].pages >= 1;
    if e.attr.global {
      k := AddToIndex(t, globals, true, x, e);
      AddElsewhere(t, locals, false, x, e);
    } else {
      k := AddToIndex(t, locals, false, x, e);
      AddElsewhere(t, globals, true, x, e);
    }
  }

  lemma Displace(t: Table, locals: seq<nat>, globals: seq<nat>, next: nat, x: nat) returns (k: nat)
    requires TableOk(t, locals, globals, next) && x in t
    ensures Matches(if t[x].attr.global then globals else locals, x, ByEntry(t), k)
    ensures TableOk(t - {x}, if t[x].attr.global then locals else RemoveAt(locals, k),
                    if t[x].attr.global then RemoveAt(globals, k) else globals, next)
  {
    if t[x].attr.global {
      k := RemoveFromIndex(t, globals, true, x);
      RemoveElsewhere(t, locals, false, x);
    } else {
      k := RemoveFromIndex(t, locals, false, x);
      RemoveElsewhere(t, globals, true, x);
    }
  }

  ghost predicate MappedIn(t: Table, global: bool, p: nat) {
    exists x :: x in t && t[x].attr.global == global && Covers(t[x], p)
  }

  /** The stand-in entry used to look up one page, under the name 0. */
  function Probe(t: Table, page: nat): Table {
    t[0 := Entry(page, 1, 0, 0, Attributes(false, false, false, false, false, false, false, false, false, false, false, false, 1))]
  }

  /** An entry compares equal to the stand-in exactly when it covers the page. */
  lemma ProbeFinds(t: Table, page: nat, id: nat)
    requires id in t && id != 0 && t[id].pages >= 1
    ensures ByEntry(Probe(t, page))(id, 0) == 0 <==> Covers(t[id], page)
  {
    var u := Probe(t, page);
    assert ByEntry(u)(id, 0) == CompareEntries(u[id], u[0]);
  }

  /** Every page is mapped as it was. */
  ghost predicate SamePages(t: Table, t': Table) {
    forall p: nat {:trigger Lookup(t', p)} :: Lookup(t', p) == Lookup(t, p)
  }

  /** Whatever covers page p covers nothing else. */
  ghost predicate Isolated(t: Table, p: nat) {
    forall id | id in t && Covers(t[id], p) :: t[id].pages == 1
  }

  /** Pages covered by entries of their own stay so. */
  ghost predicate StayIsolated(t: Table, t': Table) {
    forall p: nat {:trigger Isolated(t', p)} :: Isolated(t, p) ==> Isolated(t', p)
  }

  /** The assertions of the split fail: a run of several pages that owns its memory, or is swapped out. */
  predicate SplitStops(e: Entry) { e.pages > 1 && (e.attr.owned || e.attr.swapfile) }

  /** No entry would stop the kernel when split. */
  ghost predicate Splittable(t: Table) {
    forall id {:trigger t[id]} | id in t :: !SplitStops(t[id])
  }

  /** A split at this page would trip the assertions. */
  ghost predicate StopsAt(t: Table, p: nat) {
    exists id :: id in t && Covers(t[id], p) && SplitStops(t[id])
  }

  /** The same pages cannot be split. */
  ghost predicate SameStops(t: Table, t': Table) {
    forall p: nat {:trigger StopsAt(t', p)} :: StopsAt(t', p) <==> StopsAt(t, p)
  }

  lemma SplittableIs(t: Table)
    ensures Splittable(t) <==> forall p: nat :: !StopsAt(t, p)
  {
    if !Splittable(t) {
      var id :| id in t && SplitStops(t[id]);
      assert Covers(t[id], t[id].page);
      assert StopsAt(t, t[id].page);
    }
  }

  lemma StopsAreSplittable(t: Table, t': Table)
    requires SameStops(t, t')
    ensures Splittable(t) <==> Splittable(t')
  {
    SplittableIs(t);
    SplittableIs(t');
    assert forall p: nat :: StopsAt(t', p) <==> StopsAt(t, p);
  }

  /** The table was rearranged, but no page was remapped, and the same pages cannot be split. */
  ghost predicate Quiet(t: Table, t': Table) {
    SamePages(t, t') && StayIsolated(t, t') && SameStops(t, t')
  }

  lemma StopsTrans(t: Table, u: Table, v: Table)
    requires SameStops(t, u) && SameStops(u, v)
    ensures SameStops(t, v)
  {
    forall p: nat ensures StopsAt(v, p) <==> StopsAt(t, p) {
      assert StopsAt(u, p) <==> StopsAt(t, p);
    }
  }

  /** A table that differs only in entries that do not stop a split. */
  lemma OthersStop(t: Table, t': Table, keys: set<nat>)
    requires forall x | x in t && x !in keys :: x in t' && t'[x] == t[x]
    requires forall x | x in t' && x !in keys :: x in t
    requires forall x | x in keys :: (x in t ==> !SplitStops(t[x])) && (x in t' ==> !SplitStops(t'[x]))
    ensures SameStops(t, t')
  {
    forall p: nat ensures StopsAt(t', p) <==> StopsAt(t, p) {
      if StopsAt(t, p) {
        var x :| x in t && Covers(t[x], p) && SplitStops(t[x]);
        assert x in t' && t'[x] == t[x];
      }
      if StopsAt(t', p) {
        var x :| x in t' && Covers(t'[x], p) && SplitStops(t'[x]);
        assert x in t && t'[x] == t[x];
      }
    }
  }

  lemma QuietTrans(t: Table, u: Table, v: Table)
    requires Quiet(t, u) && Quiet(u, v)
    ensures Quiet(t, v)
  {
    forall p: nat ensures Lookup(v, p) == Lookup(t, p) {
      assert Lookup(u, p) == Lookup(t, p);
    }
    forall p: nat | Isolated(t, p) ensures Isolated(v, p) {
      assert Isolated(u, p);
    }
    StopsTrans(t, u, v);
  }

  /** What a split leaves under the entry's own name. */
  function Narrowed(e: Entry, target: nat, leave: nat): Entry
    requires target < e.page + e.pages
  {
    if e.pages == 1 then e
    else
      var b := if e.page < target then Back(e, target - e.page) else e;
      if b.pages > leave then Front(b, leave) else b
  }

  /** The two cuts of a split, one after the other. */
  lemma NarrowedInTwo(e: Entry, target: nat, leave: nat, b: Entry)
    requires target < e.page + e.pages && e.pages > 1 && leave >= 1
    requires b == if e.page < target then Back(e, target - e.page) else e
    ensures Narrowed(e, target, leave) == if b.pages > leave then Front(b, leave) else b
  {
  }

  lemma CutIsQuiet(t: Table, id: nat, k: nat, x: nat, keepsFront: bool, t': Table)
    requires Disjoint(t) && IsCut(t, id, k, x, keepsFront, t') && !SplitStops(t[id])
    ensures Disjoint(t') && Quiet(t, t')
  {
    OthersStop(t, t', {id, x});
    CutDisjoint(t, id, k, x, keepsFront, t');
    forall p: nat ensures Lookup(t', p) == Lookup(t, p) {
      CutKeepsPages(t, id, k, x, keepsFront, t', p);
    }
    forall p: nat | Isolated(t, p) ensures Isolated(t', p) {
      assert !Covers(t[id], p);
    }
  }

  // ---- permissions ----

  /** A set of permission bits; `other` says that bits besides these four are set. */
  datatype Permissions = Permissions(read: bool, write: bool, exec: bool, user: bool, other: bool)

  /** Setting a bit overrides clearing it. */
  function Permit(a: Attributes, set': Permissions, clear: Permissions): Attributes {
    a.(read := set'.read || (!clear.read && a.read),
       write := set'.write || (!clear.write && a.write),
       exec := set'.exec || (!clear.exec && a.exec),
       user := set'.user || (!clear.user && a.user))
  }

  predicate Forbidden(a: Attributes, set': Permissions) {
    a.file && !a.fileWritable && set'.write && !a.relocatable
  }

  /** What changing permissions on one page answers, said of the page map. */
  ghost function PermitStatus(t: Table, page: nat, set': Permissions, clear: Permissions): Status {
    if set'.other || clear.other then EInval
    else if Lookup(t, page).None? then ENoMem
    else if Forbidden(Lookup(t, page).value.attr, set') then EAcces
    else if StopsAt(t, page) then AssertionFailed
    else Ok
  }

  /** Page `page` has its permissions changed, and every other page is as before. */
  ghost predicate PermittedOne(t: Table, t': Table, page: nat, set': Permissions, clear: Permissions) {
    && Lookup(t, page).Some?
    && forall p: nat {:trigger Lookup(t', p)} ::
         Lookup(t', p) == if p == page then Some(Lookup(t, p).value.(attr := Permit(Lookup(t, p).value.attr, set', clear)))
                          else Lookup(t, p)
  }

  /** A permission bit that is set wins, one that is only cleared is off, and any other is as it was. */
  predicate BitChanged(was: bool, now: bool, set': bool, clear: bool) {
    (set' ==> now) && (!set' && clear ==> !now) && (!set' && !clear ==> now == was)
  }

  /** The four permission bits of a page changed as asked, and nothing else about it. */
  predicate PermissionsChanged(was: PageView, now: PageView, set': Permissions, clear: Permissions) {
    && BitChanged(was.attr.read, now.attr.read, set'.read, clear.read)
    && BitChanged(was.attr.write, now.attr.write, set'.write, clear.write)
    && BitChanged(was.attr.exec, now.attr.exec, set'.exec, clear.exec)
    && BitChanged(was.attr.user, now.attr.user, set'.user, clear.user)
    && now.physical == was.physical && now.offset == was.offset
    && now.attr.(read := was.attr.read, write := was.attr.write, exec := was.attr.exec, user := was.attr.user) == was.attr
  }

  /** What setting and clearing permissions does to the page map, bit by bit. */
  lemma PermitLaw(t: Table, t': Table, page: nat, set': Permissions, clear: Permissions)
    requires PermittedOne(t, t', page, set', clear)
    ensures Lookup(t, page).Some? && Lookup(t', page).Some?
    ensures PermissionsChanged(Lookup(t, page).value, Lookup(t', page).value, set', clear)
    ensures forall q: nat | q != page :: Lookup(t', q) == Lookup(t, q)
  {
    assert Lookup(t', page) == Some(Lookup(t, page).value.(attr := Permit(Lookup(t, page).value.attr, set', clear)));
  }

  /** When changing permissions is refused, said of the page and the bits asked for. */
  lemma PermitAnswers(t: Table, page: nat, set': Permissions, clear: Permissions)
    ensures var s, v := PermitStatus(t, page, set', clear), Lookup(t, page);
            && (s == EInval <==> set'.other || clear.other)
            && (s == ENoMem <==> !set'.other && !clear.other && !Mapped(t, page))
            && (s == EAcces <==>
                  && !set'.other && !clear.other && v.Some? && set'.write
                  && v.value.attr.file && !v.value.attr.fileWritable && !v.value.attr.relocatable)
            && (s == Ok ==> v.Some?)
            && (s == Ok || s == EInval || s == ENoMem || s == EAcces || (s == AssertionFailed && StopsAt(t, page)))
  {
  }

  /** Entry id is for this page alone. */
  predicate OwnPage(t: Table, id: nat, page: nat) { id in t && t[id].page == page && t[id].pages == 1 }

  lemma PermitOne(t: Table, u: Table, id: nat, page: nat, set': Permissions, clear: Permissions)
    requires Disjoint(u) && SamePages(t, u) && OwnPage(u, id, page)
    ensures PermittedOne(t, u[id := u[id].(attr := Permit(u[id].attr, set', clear))], page, set', clear)
  {
    LookupIs(u, id, page);
    assert Lookup(u, page) == Lookup(t, page);
    Retouch(u, id, Permit(u[id].attr, set', clear));
    forall p: nat ensures Lookup(u, p) == Lookup(t, p) {
    }
  }

  lemma NarrowedToOne(e: Entry, p: nat)
    requires Covers(e, p)
    ensures Narrowed(e, p, 1).page == p && Narrowed(e, p, 1).pages == 1 && Narrowed(e, p, 1).attr == e.attr
  {
  }

  lemma CoverIsUnique(t: Table, id: nat, p: nat)
    requires Disjoint(t) && id in t && Covers(t[id], p)
    ensures Mapped(t, p) && Lookup(t, p) == Some(ViewOf(t[id], p))
    ensures StopsAt(t, p) <==> SplitStops(t[id])
  {
    LookupIs(t, id, p);
    forall x | x in t && Covers(t[x], p) ensures x == id {
      assert x != id ==> Apart(t, x, id);
    }
  }

  lemma OnlyCover(t: Table, id: nat, p: nat)
    requires Disjoint(t) && id in t && Covers(t[id], p)
    ensures forall x | x in t && Covers(t[x], p) :: x == id
  {
    forall x | x in t && Covers(t[x], p) ensures x == id {
      assert x != id ==> Apart(t, x, id);
    }
  }

  /** Changing the attributes of a one-page entry changes that page and no other. */
  lemma Retouch(t: Table, id: nat, a: Attributes)
    requires Disjoint(t) && id in t && t[id].pages == 1 && a.global == t[id].attr.global && a.file == t[id].attr.file
    ensures Disjoint(t[id := t[id].(attr := a)])
    ensures forall p: nat :: Lookup(t[id := t[id].(attr := a)], p)
                             == if p == t[id].page then Some(ViewOf(t[id], p).(attr := a)) else Lookup(t, p)
  {
    var t' := t[id := t[id].(attr := a)];
    DisjointTransfer(t, t');
    forall p: nat ensures Lookup(t', p) == if p == t[id].page then Some(ViewOf(t[id], p).(attr := a)) else Lookup(t, p) {
      if p == t[id].page {
        LookupIs(t', id, p);
      } else {
        LookupSame(t, t', p);
      }
    }
  }

  // ---- unmapping ----

  /** A page loses one reference; with the last one it is no longer mapped. */
  function Dropped(v: Option<PageView>): Option<PageView> {
    if v.None? then None
    else if v.value.attr.refs <= 1 then None
    else Some(v.value.(attr := v.value.attr.(refs := v.value.attr.refs - 1)))
  }

  /** What losing a reference means for a page: it goes with its last one, and keeps everything else otherwise. */
  lemma DroppedIs(v: Option<PageView>)
    ensures v.None? ==> Dropped(v).None?
    ensures v.Some? && v.value.attr.refs <= 1 ==> Dropped(v).None?
    ensures v.Some? && v.value.attr.refs > 1 ==>
              && Dropped(v).Some? && Dropped(v).value.attr.refs == v.value.attr.refs - 1
              && Dropped(v).value.physical == v.value.physical && Dropped(v).value.offset == v.value.offset
              && Dropped(v).value.attr.(refs := v.value.attr.refs) == v.value.attr
  {
  }

  /** Pages in the run have lost a reference, and no other page has changed. */
  ghost predicate DroppedRun(t: Table, t': Table, page: nat, n: nat) {
    forall p: nat {:trigger Lookup(t', p)} ::
      Lookup(t', p) == if page <= p < page + n then Dropped(Lookup(t, p)) else Lookup(t, p)
  }

  /** One page has lost a reference, and it is covered by at most an entry of its own. */
  ghost predicate DroppedPage(t: Table, t': Table, page: nat) {
    && DroppedRun(t, t', page, 1) && StayIsolated(t, t') && Isolated(t', page)
    && SameStops(t, t')
  }

  /** How far an unmapping has come: n pages are dropped, each covered by at most an entry of its own. */
  ghost predicate UnmappedRun(t: Table, u: Table, page: nat, n: nat, allowMissing: bool) {
    && DroppedRun(t, u, page, n)
    && (forall q | page <= q < page + n :: Isolated(u, q))
    && (!allowMissing ==> forall p | page <= p < page + n :: Mapped(t, p))
    && SameStops(t, u) && (forall p | page <= p < page + n :: !StopsAt(t, p))
  }

  lemma NothingUnmapped(t: Table, page: nat, allowMissing: bool)
    ensures UnmappedRun(t, t, page, 0, allowMissing)
  {
  }

  lemma StillUnmapped(t: Table, u: Table, page: nat, n: nat, allowMissing: bool)
    requires UnmappedRun(t, u, page, n, allowMissing)
    ensures Mapped(u, page + n) <==> Mapped(t, page + n)
    ensures StopsAt(u, page + n) <==> StopsAt(t, page + n)
  {
    assert Lookup(u, page + n) == Lookup(t, page + n);
  }

  lemma UnmapMore(t: Table, u: Table, v: Table, page: nat, n: nat, allowMissing: bool)
    requires UnmappedRun(t, u, page, n, allowMissing) && DroppedPage(u, v, page + n)
    requires (allowMissing || Mapped(u, page + n)) && !StopsAt(u, page + n)
    ensures UnmappedRun(t, v, page, n + 1, allowMissing)
  {
    StopsTrans(t, u, v);
    DropMore(t, u, v, page, n);
    StillUnmapped(t, u, page, n, allowMissing);
    forall q | page <= q < page + (n + 1) ensures Isolated(v, q) {
      assert q < page + n ==> Isolated(u, q);
    }
  }

  lemma DropMore(t: Table, u: Table, v: Table, page: nat, n: nat)
    requires DroppedRun(t, u, page, n) && DroppedRun(u, v, page + n, 1)
    ensures DroppedRun(t, v, page, n + 1)
  {
    forall p: nat ensures Lookup(v, p) == if page <= p < page + (n + 1) then Dropped(Lookup(t, p)) else Lookup(t, p) {
      assert Lookup(u, p) == if page <= p < page + n then Dropped(Lookup(t, p)) else Lookup(t, p);
    }
  }

  /** Everything in the run before page i is covered page by page, so an entry over page i starts there. */
  lemma StartsAt(t: Table, base: nat, i: nat, id: nat)
    requires id in t && Covers(t[id], base + i)
    requires forall q | base <= q < base + i :: Isolated(t, q)
    ensures i > 0 ==> t[id].page == base + i
    ensures Narrowed(t[id], base, 1).page == base + i && Narrowed(t[id], base, 1).pages == 1
    ensures Narrowed(t[id], base, 1).attr == t[id].attr
  {
    assert i > 0 ==> Isolated(t, base + i - 1);
  }

  /** A one-page entry is removed. */
  lemma RemoveOne(t: Table, id: nat, page: nat)
    requires Disjoint(t) && OwnPage(t, id, page)
    ensures Disjoint(t - {id})
    ensures forall p: nat :: Lookup(t - {id}, p) == if p == page then None else Lookup(t, p)
  {
    var t' := t - {id};
    DisjointTransfer(t, t');
    forall p: nat ensures Lookup(t', p) == if p == page then None else Lookup(t, p) {
      if p == page {
        forall x | x in t' ensures !Covers(t'[x], p) {
          assert Apart(t, x, id);
        }
      } else {
        LookupSame(t, t', p);
      }
    }
  }

  lemma SameThenDropped(t: Table, u: Table, v: Table, page: nat, n: nat)
    requires DroppedRun(t, u, page, n) && SamePages(u, v)
    ensures DroppedRun(t, v, page, n)
  {
    forall p: nat ensures Lookup(v, p) == if page <= p < page + n then Dropped(Lookup(t, p)) else Lookup(t, p) {
      assert Lookup(v, p) == Lookup(u, p);
    }
  }

  /** A page that is not mapped has nothing to lose. */
  lemma MissingDrops(t: Table, page: nat)
    requires !Mapped(t, page)
    ensures DroppedPage(t, t, page)
  {
  }

  lemma QuietDrop(t: Table, u: Table, v: Table, page: nat)
    requires Quiet(t, u) && DroppedPage(u, v, page)
    ensures DroppedPage(t, v, page)
  {
    forall p: nat ensures Lookup(v, p) == if page <= p < page + 1 then Dropped(Lookup(t, p)) else Lookup(t, p) {
      assert Lookup(u, p) == Lookup(t, p);
    }
    forall p: nat | Isolated(t, p) ensures Isolated(v, p) {
      assert Isolated(u, p);
    }
    StopsTrans(t, u, v);
  }

  /** Losing a reference, at the level of the table. */
  ghost predicate Dereferenced(t: Table, t': Table, id: nat) {
    && id in t
    && t' == if t[id].attr.refs <= 1 then t - {id}
             else t[id := t[id].(attr := t[id].attr.(refs := t[id].attr.refs - 1))]
  }

  lemma DereferenceDrops(t: Table, t': Table, id: nat, page: nat)
    requires Disjoint(t) && OwnPage(t, id, page) && Dereferenced(t, t', id)
    ensures DroppedPage(t, t', page)
  {
    OthersStop(t, t', {id});
    LookupIs(t, id, page);
    if t[id].attr.refs <= 1 {
      RemoveOne(t, id, page);
    } else {
      Retouch(t, id, t[id].attr.(refs := t[id].attr.refs - 1));
    }
    forall x | x in t' && Covers(t'[x], page) ensures t'[x].pages == 1 {
      assert x != id ==> Apart(t, x, id);
    }
    forall p: nat | Isolated(t, p) ensures Isolated(t', p) {
    }
  }

  // ---- mapping ----

  datatype MapFlags = MapFlags(
    read: bool, write: bool, exec: bool, user: bool, lock: bool, file: bool, fixedVirt: bool,
    hardware: bool, local: bool, relocatable: bool, shared: bool, hardIoFail: bool)

  /** What mapping asks of an open file: can it be mapped at all, read, written. */
  datatype FileInfo = FileInfo(mappable: bool, canRead: bool, canWrite: bool)

  /** The checks at the top of MapVirtEx, in order of error. */
  function MapError(f: MapFlags, physical: nat, file: Option<FileInfo>, pos: nat): Status {
    if (physical != 0 && !f.hardware && !f.relocatable)
       || (f.hardware && !f.lock)
       || (f.file && (f.hardware || file.None? || f.lock))
       || (!f.file && (file.Some? || pos != 0))
       || (f.relocatable && (!f.file || f.user || physical == 0))
       || (f.lock && f.shared)
       || (f.hardIoFail && (f.user || !f.file)) then EInval
    else if f.file && (!file.value.mappable || !file.value.canRead || (!file.value.canWrite && f.write)) then EAcces
    else Ok
  }

  /** A mapping to be made: `frames` are the pages AllocPhys would hand out, one per round. */
  datatype Plan = Plan(f: MapFlags, physical: nat, page: nat, pages: nat, pos: nat,
                       fileWritable: bool, current: bool, frames: nat -> nat)

  /** Several pages go into one entry when there is no memory to own, or the hardware provides it. */
  predicate OneEntry(p: Plan) { (!p.f.lock || p.f.hardware) && p.pages >= 3 }

  /** Memory is allocated for a locked mapping that was given no address. */
  predicate Owned(p: Plan) { p.f.lock && !p.f.relocatable && p.physical == 0 }

  /** A freshly locked page of the current space is made writable to be cleared, and is left so. */
  predicate LeftWritable(p: Plan) { p.f.lock && !p.f.hardware && p.current }

  function PlanAttributes(p: Plan): Attributes {
    Attributes(p.f.read, p.f.write, p.f.exec, p.f.user, !p.f.local, p.f.lock, p.f.lock,
               p.f.file, p.fileWritable, p.f.relocatable, Owned(p), false, 1)
  }

  /** The entry AddMapping builds in round i for n pages. */
  function PlanEntry(p: Plan, i: nat, n: nat): Entry {
    Entry(p.page + i, n,
          if p.f.relocatable then 0 else if Owned(p) then p.frames(i) else if p.physical == 0 then 0 else p.physical + PAGE_SIZE * i,
          p.pos + PAGE_SIZE * i, PlanAttributes(p))
  }

  /** The same, once the page has been cleared. */
  function FinalEntry(p: Plan, i: nat, n: nat): Entry {
    var e := PlanEntry(p, i, n);
    if LeftWritable(p) then e.(attr := e.attr.(write := true)) else e
  }

  /** How page k of the mapping ends up. */
  function PlanView(p: Plan, k: nat): PageView
    requires k < p.pages
  {
    if OneEntry(p) then ViewOf(FinalEntry(p, 0, p.pages), p.page + k) else ViewOf(FinalEntry(p, k, 1), p.page + k)
  }

  /**
  The address behind page k of a mapping, from what was asked for. Memory is allocated page
  by page for locked pages, but once for a run of hardware pages that is one entry.
   */
  ghost predicate BackedAs(address: nat, k: nat, physical: nat, pages: nat, f: MapFlags, frames: nat -> nat) {
    && (f.relocatable ==> address == 0)
    && (!f.relocatable && physical != 0 ==> address == physical + PAGE_SIZE * k)
    && (!f.relocatable && physical == 0 && !f.lock ==> address == 0)
    && (!f.relocatable && physical == 0 && f.lock && !(f.hardware && pages >= 3) ==> address == frames(k))
    && (!f.relocatable && physical == 0 && f.lock && f.hardware && pages >= 3 ==>
          address == if frames(0) == 0 then 0 else frames(0) + PAGE_SIZE * k)
  }

  /** The attributes of the pages of a mapping, from what was asked for. */
  ghost predicate FlaggedAs(a: Attributes, physical: nat, f: MapFlags, fileWritable: bool, current: bool) {
    && a.read == f.read && a.exec == f.exec && a.user == f.user
    && a.write == (f.write || (f.lock && !f.hardware && current))
    && a.global == !f.local && a.lock == f.lock && a.inRam == f.lock
    && a.file == f.file && a.fileWritable == fileWritable && a.relocatable == f.relocatable
    && a.owned == (f.lock && !f.relocatable && physical == 0) && !a.swapfile && a.refs == 1
  }

  /** How page k of a mapping comes out. */
  ghost predicate MappedAs(v: PageView, k: nat, physical: nat, pages: nat, f: MapFlags, fileWritable: bool, pos: nat,
                           current: bool, frames: nat -> nat) {
    && BackedAs(v.physical, k, physical, pages, f, frames)
    && v.offset == (if f.file then pos + PAGE_SIZE * k else 0)
    && FlaggedAs(v.attr, physical, f, fileWritable, current)
  }

  lemma OneEntryBacked(p: Plan, k: nat)
    requires k < p.pages && OneEntry(p)
    requires MapError(p.f, p.physical, if p.f.file then Some(FileInfo(true, true, p.fileWritable)) else None, p.pos) == Ok
    ensures BackedAs(PlanView(p, k).physical, k, p.physical, p.pages, p.f, p.frames)
    ensures PlanView(p, k).offset == if p.f.file then p.pos + PAGE_SIZE * k else 0
  {
    var e := FinalEntry(p, 0, p.pages);
    assert e.physical == PlanEntry(p, 0, p.pages).physical && e.offset == p.pos;
    assert p.page + k - e.page == k;
  }

  lemma ManyEntriesBacked(p: Plan, k: nat)
    requires k < p.pages && !OneEntry(p)
    requires MapError(p.f, p.physical, if p.f.file then Some(FileInfo(true, true, p.fileWritable)) else None, p.pos) == Ok
    ensures BackedAs(PlanView(p, k).physical, k, p.physical, p.pages, p.f, p.frames)
    ensures PlanView(p, k).offset == if p.f.file then p.pos + PAGE_SIZE * k else 0
  {
    var e := FinalEntry(p, k, 1);
    assert e.physical == PlanEntry(p, k, 1).physical && e.offset == p.pos + PAGE_SIZE * k;
    assert p.page + k - e.page == 0;
  }

  lemma PlanIsAsked(p: Plan, k: nat)
    requires k < p.pages
    requires MapError(p.f, p.physical, if p.f.file then Some(FileInfo(true, true, p.fileWritable)) else None, p.pos) == Ok
    ensures MappedAs(PlanView(p, k), k, p.physical, p.pages, p.f, p.fileWritable, p.pos, p.current, p.frames)
  {
    if OneEntry(p) {
      OneEntryBacked(p, k);
    } else {
      ManyEntriesBacked(p, k);
    }
  }

  /** The pages of the run are mapped as asked for, and no other page has changed. */
  ghost predicate MappedRun(t: Table, t': Table, start: nat, physical: nat, pages: nat, f: MapFlags, fileWritable: bool, pos: nat,
                            current: bool, frames: nat -> nat) {
    forall q: nat {:trigger Lookup(t', q)} ::
      if start <= q < start + pages
      then Lookup(t', q).Some? && MappedAs(Lookup(t', q).value, q - start, physical, pages, f, fileWritable, pos, current, frames)
      else Lookup(t', q) == Lookup(t, q)
  }

  /** Locked pages for which memory is allocated one by one have addresses of their own if the pages handed out do. */
  lemma LockedPagesApart(t: Table, t': Table, start: nat, pages: nat, f: MapFlags, fileWritable: bool, pos: nat, current: bool,
                         frames: nat -> nat, i: nat, j: nat)
    requires MappedRun(t, t', start, 0, pages, f, fileWritable, pos, current, frames)
    requires f.lock && !f.relocatable && !(f.hardware && pages >= 3) && i < j < pages
    requires forall a: nat, b: nat | a < b < pages :: frames(a) != frames(b)
    ensures Lookup(t', start + i).Some? && Lookup(t', start + j).Some?
    ensures Lookup(t', start + i).value.physical != Lookup(t', start + j).value.physical
  {
    assert frames(i) != frames(j);
  }

  /** Which requests are refused: the rules of MapVirtEx, each said of what was asked for. */
  lemma MapErrorIs(f: MapFlags, physical: nat, file: Option<FileInfo>, pos: nat)
    ensures MapError(f, physical, file, pos) == Ok <==>
            && (physical != 0 ==> f.hardware || f.relocatable)
            && (f.hardware ==> f.lock && !f.file)
            && (f.lock ==> !f.file && !f.shared)
            && (f.file <==> file.Some?)
            && (!f.file ==> pos == 0 && !f.relocatable && !f.hardIoFail)
            && (f.relocatable ==> !f.user && physical != 0)
            && (f.hardIoFail ==> !f.user)
            && (f.file ==> file.value.mappable && file.value.canRead && (f.write ==> file.value.canWrite))
    ensures MapError(f, physical, file, pos) == EAcces ==>
            f.file && file.Some? && !(file.value.mappable && file.value.canRead && (f.write ==> file.value.canWrite))
    ensures MapError(f, physical, file, pos) == Ok || MapError(f, physical, file, pos) == EAcces || MapError(f, physical, file, pos) == EInval
  {
  }

  /** One n-page entry and n one-page entries say the same, unless the one entry owns memory. */
  lemma EitherWayTheSame(p: Plan, k: nat)
    requires MapError(p.f, p.physical, if p.f.file then Some(FileInfo(true, true, p.fileWritable)) else None, p.pos) == Ok
    requires k < p.pages && !Owned(p)
    ensures ViewOf(FinalEntry(p, 0, p.pages), p.page + k) == ViewOf(FinalEntry(p, k, 1), p.page + k)
  {
  }

  /** Pages come out as writable as asked, except that a locked page of the current space always is writable. */
  lemma WritableAsAsked(p: Plan, k: nat)
    requires k < p.pages
    ensures PlanView(p, k).attr.write == p.f.write <==> !(p.f.lock && !p.f.hardware && p.current && !p.f.write)
  {
  }

  /** One locked page of the current space, asked for read-only: it comes out writable. */
  lemma ReadOnlyComesOutWritable()
    ensures var f := MapFlags(true, false, false, false, true, false, false, false, false, false, false, false);
            var p := Plan(f, 0, 16, 1, 0, false, true, _ => PAGE_SIZE);
            MapError(f, 0, None, 0) == Ok && !p.f.write && PlanView(p, 0).attr.write
  {
  }

  /** A mapping leaves an entry that stops the kernel when split exactly when hardware pages were asked for without an address. */
  lemma StopsExactly(p: Plan)
    requires MapError(p.f, p.physical, if p.f.file then Some(FileInfo(true, true, p.fileWritable)) else None, p.pos) == Ok
    ensures OneEntry(p) && SplitStops(FinalEntry(p, 0, p.pages)) <==> p.f.hardware && p.physical == 0 && p.pages >= 3
    ensures !SplitStops(FinalEntry(p, 0, 1))
  {
  }

  lemma FewPagesSplit(p: Plan)
    ensures OneEntry(p) && SplitStops(FinalEntry(p, 0, p.pages)) ==> p.f.hardware && p.physical == 0 && p.pages >= 3
  {
  }

  ghost predicate RangeFree(t: Table, page: nat, n: nat) {
    forall q | page <= q < page + n :: !Mapped(t, q)
  }

  lemma FreshIsDisjoint(t: Table, x: nat, e: Entry)
    requires Disjoint(t) && x !in t && e.pages >= 1 && RangeFree(t, e.page, e.pages)
    ensures Disjoint(t[x := e])
  {
    var t' := t[x := e];
    forall a, b | a in t' && b in t' && a != b ensures Apart(t', a, b) {
      if a != x && b != x {
        assert Apart(t, a, b);
      } else {
        var c := if a == x then b else a;
        var q := if t[c].page < e.page then e.page else t[c].page;
        assert Covers(t[c], q) && Covers(e, q) ==> Mapped(t, q);
      }
    }
  }

  /** A new entry maps its own pages and leaves the rest. */
  lemma FreshViews(t: Table, x: nat, e: Entry)
    requires Disjoint(t) && x !in t && Disjoint(t[x := e])
    ensures forall p: nat :: Lookup(t[x := e], p) == if Covers(e, p) then Some(ViewOf(e, p)) else Lookup(t, p)
  {
    var t' := t[x := e];
    forall p: nat ensures Lookup(t', p) == if Covers(e, p) then Some(ViewOf(e, p)) else Lookup(t, p) {
      if Covers(e, p) {
        LookupIs(t', x, p);
      } else {
        LookupSame(t, t', p);
      }
    }
  }

  /** The first n pages of the plan are mapped as planned, and no other page has changed. */
  ghost predicate PlannedRun(t: Table, t': Table, p: Plan, n: nat)
    requires n <= p.pages
  {
    forall q: nat {:trigger Lookup(t', q)} ::
      Lookup(t', q) == if p.page <= q < p.page + n then Some(PlanView(p, q - p.page)) else Lookup(t, q)
  }

  /** Entry e has been added, in effect: its pages are mapped by it, the others are as before. */
  ghost predicate EntryAdded(t: Table, t': Table, e: Entry) {
    forall q: nat {:trigger Lookup(t', q)} :: Lookup(t', q) == if Covers(e, q) then Some(ViewOf(e, q)) else Lookup(t, q)
  }

  const NoPermissions: Permissions := Permissions(false, false, false, false, false)
  const WritePermission: Permissions := Permissions(false, true, false, false, false)

  lemma NewNameIsFree(t: Table, locals: seq<nat>, globals: seq<nat>, next: nat)
    requires TableOk(t, locals, globals, next)
    ensures next !in t
  {
    assert forall id | id in t :: t[id].pages >= 1;
  }

  /** Making a fresh one-page mapping writable cannot fail. */
  lemma ClearingAllowed(u: Table, x: nat, e: Entry)
    requires Disjoint(u) && x in u && u[x] == e && e.pages == 1 && !e.attr.file
    ensures PermitStatus(u, e.page, WritePermission, NoPermissions) == Ok
  {
    CoverIsUnique(u, x, e.page);
  }

  lemma ClearedEntry(t: Table, u: Table, v: Table, e: Entry)
    requires EntryAdded(t, u, e) && e.pages == 1
    requires PermittedOne(u, v, e.page, WritePermission, NoPermissions)
    ensures EntryAdded(t, v, e.(attr := e.attr.(write := true)))
  {
    var e' := e.(attr := e.attr.(write := true));
    forall q: nat ensures Lookup(v, q) == if Covers(e', q) then Some(ViewOf(e', q)) else Lookup(t, q) {
      assert Lookup(u, q) == if Covers(e, q) then Some(ViewOf(e, q)) else Lookup(t, q);
    }
  }

  /** Once a page was made writable its entry says so: the test for taking the permission away sees nothing to do. */
  lemma StillWritable(u: Table, v: Table, x: nat, page: nat)
    requires Disjoint(v) && PermittedOne(u, v, page, WritePermission, NoPermissions) && OwnPage(v, x, page)
    ensures v[x].attr.write
  {
    CoverIsUnique(v, x, page);
    assert Lookup(v, page).value.attr.write;
  }

  lemma OneEntryRun(t: Table, t': Table, p: Plan)
    requires OneEntry(p) && EntryAdded(t, t', FinalEntry(p, 0, p.pages))
    ensures PlannedRun(t, t', p, p.pages)
  {
    forall q: nat ensures Lookup(t', q) == if p.page <= q < p.page + p.pages then Some(PlanView(p, q - p.page)) else Lookup(t, q) {
    }
  }

  lemma NextPageFree(t: Table, u: Table, p: Plan, i: nat)
    requires i < p.pages && RangeFree(t, p.page, p.pages) && PlannedRun(t, u, p, i)
    ensures RangeFree(u, p.page + i, 1)
  {
    assert !Mapped(t, p.page + i);
    assert Lookup(u, p.page + i) == Lookup(t, p.page + i);
  }

  lemma OnePageMore(t: Table, u: Table, v: Table, p: Plan, i: nat)
    requires i < p.pages && !OneEntry(p) && PlannedRun(t, u, p, i) && EntryAdded(u, v, FinalEntry(p, i, 1))
    ensures PlannedRun(t, v, p, i + 1)
  {
    forall q: nat ensures Lookup(v, q) == if p.page <= q < p.page + (i + 1) then Some(PlanView(p, q - p.page)) else Lookup(t, q) {
      assert Lookup(u, q) == if p.page <= q < p.page + i then Some(PlanView(p, q - p.page)) else Lookup(t, q);
    }
  }

  lemma PlannedIsMapped(t: Table, t': Table, p: Plan)
    requires MapError(p.f, p.physical, if p.f.file then Some(FileInfo(true, true, p.fileWritable)) else None, p.pos) == Ok
    requires PlannedRun(t, t', p, p.pages)
    ensures MappedRun(t, t', p.page, p.physical, p.pages, p.f, p.fileWritable, p.pos, p.current, p.frames)
  {
    forall q: nat | p.page <= q < p.page + p.pages
      ensures Lookup(t', q).Some?
      ensures MappedAs(Lookup(t', q).value, q - p.page, p.physical, p.pages, p.f, p.fileWritable, p.pos, p.current, p.frames)
    {
      PlanIsAsked(p, q - p.page);
    }
  }

  /** Unmapping what was mapped into a free range puts every page back as it was. */
  lemma MapThenUnmap(t: Table, u: Table, v: Table, p: Plan)
    requires RangeFree(t, p.page, p.pages)
    requires PlannedRun(t, u, p, p.pages) && DroppedRun(u, v, p.page, p.pages)
    ensures SamePages(t, v)
  {
    forall q: nat ensures Lookup(v, q) == Lookup(t, q) {
      assert Lookup(u, q) == if p.page <= q < p.page + p.pages then Some(PlanView(p, q - p.page)) else Lookup(t, q);
      if p.page <= q < p.page + p.pages {
        assert !Mapped(t, q);
      }
    }
  }

  /** With single references, unmapping removes exactly the run. */
  lemma UnmapRemovesExactly(t: Table, v: Table, page: nat, n: nat)
    requires Disjoint(t) && DroppedRun(t, v, page, n)
    requires forall id | id in t :: t[id].attr.refs == 1
    ensures forall q: nat :: Mapped(v, q) <==> Mapped(t, q) && !(page <= q < page + n)
    ensures forall q: nat | Mapped(v, q) :: Lookup(v, q) == Lookup(t, q)
  {
    forall q: nat
      ensures Mapped(v, q) <==> Mapped(t, q) && !(page <= q < page + n)
      ensures Mapped(v, q) ==> Lookup(v, q) == Lookup(t, q)
    {
      assert Lookup(v, q) == if page <= q < page + n then Dropped(Lookup(t, q)) else Lookup(t, q);
      if Mapped(t, q) {
        var id :| id in t && Covers(t[id], q);
        LookupIs(t, id, q);
      }
    }
  }
}
