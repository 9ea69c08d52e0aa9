/**
The two-stage physical page allocator of mem/physical.c. During boot, pages come from
a bitmap scanned backwards; after ReinitPhys they come from a stack, while the bitmap
is still kept. A bit of the source's word array is one array cell here.
 */
module PhysicalPages {
  import opened Basics

  const MAX_MEMORY_PAGES := 1048576
  const PAGE_SIZE := 4096
  const BITS_PER_ENTRY := 32
  const BITMAP_BYTES := MAX_MEMORY_PAGES / 8

  ghost function Upto(n: nat): set<nat> {
    if n == 0 then {} else Upto(n - 1) + {n - 1}
  }

  lemma {:induction false} UptoIs(n: nat)
    ensures |Upto(n)| == n && forall p: nat :: p in Upto(n) <==> p < n
  {
    if n > 0 {
      UptoIs(n - 1);
    }
  }

  /** A set of numbers below n that misses one of them has fewer than n. */
  lemma RoomForOne(s: set<nat>, n: nat, page: nat)
    requires (forall p | p in s :: p < n) && page < n && page !in s
    ensures |s| < n
  {
    UptoIs(n);
    Fits(s, Upto(n) - {page});
  }

  lemma {:induction false} Fits(s: set<nat>, t: set<nat>)
    requires s <= t
    ensures |s| <= |t|
    decreases |s|
  {
    if s != {} {
      var x :| x in s;
      Fits(s - {x}, t - {x});
    }
  }

  // ---- giving back the end of the bitmap ----

  /** Whole pages at the end of the bitmap that ReclaimBitmapSpace takes to be out of use. */
  function UnreachableBitmapPages(highest: nat): nat
    requires highest < MAX_MEMORY_PAGES
  {
    (MAX_MEMORY_PAGES - (highest + 1)) / BITS_PER_ENTRY / PAGE_SIZE
  }

  function RoundDown(x: nat): nat {
    x / PAGE_SIZE * PAGE_SIZE
  }

  function RegionStart(bitmap: nat, highest: nat): int
    requires highest < MAX_MEMORY_PAGES && bitmap + BITMAP_BYTES >= PAGE_SIZE * UnreachableBitmapPages(highest)
  {
    RoundDown(bitmap + BITMAP_BYTES - PAGE_SIZE * UnreachableBitmapPages(highest))
  }

  /**
  Wherever the bitmap lies and whatever the highest page is, every byte given back is
  inside the bitmap, before its end, and behind the byte of the highest page.
   */
  lemma ReclaimKeepsReachable(bitmap: nat, highest: nat, i: nat)
    requires highest < MAX_MEMORY_PAGES && i < UnreachableBitmapPages(highest)
    ensures bitmap + BITMAP_BYTES >= PAGE_SIZE * UnreachableBitmapPages(highest)
    ensures var start := RegionStart(bitmap, highest);
            bitmap + highest / 8 < start + PAGE_SIZE * i && start + PAGE_SIZE * (i + 1) <= bitmap + BITMAP_BYTES
  {
    var u := UnreachableBitmapPages(highest);
    var left := MAX_MEMORY_PAGES - (highest + 1);
    assert left / BITS_PER_ENTRY >= u * PAGE_SIZE;
    assert left >= u * PAGE_SIZE * BITS_PER_ENTRY;
    var end := bitmap + BITMAP_BYTES - PAGE_SIZE * u;
    assert end - PAGE_SIZE < RoundDown(end) <= end;
  }

  // ---- the allocator ----

  ghost function FreeIn(bits: seq<bool>): set<nat> {
    set p: nat | p < |bits| && bits[p]
  }

  lemma FreeInMoves(bits: seq<bool>, page: nat)
    requires page < |bits|
    ensures FreeIn(bits[page := true]) == FreeIn(bits) + {page}
    ensures FreeIn(bits[page := false]) == FreeIn(bits) - {page}
  {
  }

  /** The stack holds exactly the free pages, each once. */
  ghost predicate Lists(st: seq<nat>, pages: set<nat>) {
    && |st| == |pages|
    && Distinct(st)
    && forall p: nat :: p in st <==> p in pages
  }

  lemma PushLists(st: seq<nat>, pages: set<nat>, page: nat)
    requires Lists(st, pages) && page !in pages
    ensures Lists(st + [page], pages + {page})
  {
    assert forall i | 0 <= i < |st| :: st[i] in st;
  }

  lemma PopLists(st: seq<nat>, pages: set<nat>)
    requires Lists(st, pages) && st != []
    ensures var page := st[|st| - 1]; page in pages && Lists(st[..|st| - 1], pages - {page})
  {
    var top, rest := st[|st| - 1], st[..|st| - 1];
    assert st == rest + [top];
    assert forall i | 0 <= i < |rest| :: rest[i] == st[i];
  }

  /** Pages held by somebody: each once, none of them free. */
  ghost predicate Holds(live: seq<nat>, free: set<nat>, highest: nat) {
    && Distinct(live)
    && forall i | 0 <= i < |live| :: live[i] !in free && live[i] <= highest
  }

  /** The free pages once the first k pages held have been given back. */
  ghost function Given(free: set<nat>, q: seq<nat>, k: nat): set<nat>
    requires k <= |q|
  {
    if k == 0 then free else Given(free, q, k - 1) + {q[k - 1]}
  }

  lemma {:induction false} InGiven(free: set<nat>, q: seq<nat>, k: nat, p: nat)
    requires k <= |q|
    ensures p in Given(free, q, k) <==> p in free || exists i | 0 <= i < k :: q[i] == p
  {
    if k > 0 {
      InGiven(free, q, k - 1, p);
    }
  }

  lemma NotGiven(free: set<nat>, q: seq<nat>, highest: nat, k: nat)
    requires Holds(q, free, highest) && k < |q|
    ensures q[k] !in Given(free, q, k)
  {
    InGiven(free, q, k, q[k]);
  }

  lemma {:induction false} GivenSize(free: set<nat>, q: seq<nat>, highest: nat, k: nat)
    requires Holds(q, free, highest) && k <= |q|
    ensures |Given(free, q, k)| == |free| + k
  {
    if k > 0 {
      GivenSize(free, q, highest, k - 1);
      NotGiven(free, q, highest, k - 1);
    }
  }

  /** One page of the bitmap looked at while the stack is filled. */
  lemma FillOne(bits: seq<bool>, i: nat, st: seq<nat>, highest: nat)
    requires i < |bits| && Lists(st, FreeIn(bits[..i])) && forall p | p in FreeIn(bits) :: p <= highest
    ensures bits[i] ==> i <= highest && |st| < highest + 1 && Lists(st + [i], FreeIn(bits[..i + 1]))
    ensures !bits[i] ==> Lists(st, FreeIn(bits[..i + 1]))
  {
    var pages := FreeIn(bits[..i]);
    assert forall p | p in pages :: p in FreeIn(bits);
    if bits[i] {
      assert i in FreeIn(bits);
      assert FreeIn(bits[..i + 1]) == pages + {i};
      RoomForOne(pages, highest + 1, i);
      PushLists(st, pages, i);
    } else {
      assert FreeIn(bits[..i + 1]) == pages;
    }
  }

  class Allocator {
    const free: array<bool>
    var stack: array?<nat>
    var stackPointer: nat
    var pagesLeft: nat
    var highest: nat

    ghost function FreePages(): set<nat>
      reads this, free
    {
      FreeIn(free[..])
    }

    ghost predicate Valid()
      reads this, free, stack
    {
      && free.Length == MAX_MEMORY_PAGES
      && highest < MAX_MEMORY_PAGES
      && (forall p | p in FreePages() :: p <= highest)
      && pagesLeft == |FreePages()|
      && (stack != null ==>
            && stack.Length == highest + 1
            && stackPointer <= stack.Length
            && Lists(stack[..stackPointer], FreePages()))
    }

    /** InitPhys over the memory map's ranges of whole pages, which do not overlap. */
    constructor (ranges: seq<(nat, nat)>)
      requires forall i, j | 0 <= i < j < |ranges| :: ranges[i].1 <= ranges[j].0 || ranges[j].1 <= ranges[i].0
      ensures Valid() && stack == null && fresh(free)
      ensures forall p: nat :: p in FreePages() <==> p < MAX_MEMORY_PAGES && Covered(ranges, p)
    {
      free := new bool[MAX_MEMORY_PAGES](_ => false);
      stack := null;
      stackPointer, pagesLeft, highest := 0, 0, 0;
      new;
      assert FreePages() == {};
      for k := 0 to |ranges|
        invariant Valid() && stack == null && fresh(free)
        invariant forall p: nat :: p in FreePages() <==> p < MAX_MEMORY_PAGES && Covered(ranges[..k], p)
      {
        CoveredGrows(ranges, k);
        AddRange(ranges[k].0, ranges[k].1);
      }
      assert ranges[..|ranges|] == ranges;
    }

    method AddRange(first: nat, last: nat)
      requires Valid() && stack == null
      requires forall p | first <= p < last :: p !in FreePages()
      modifies this, free
      ensures Valid() && stack == null
      ensures forall p: nat :: p in FreePages() <==> p in old(FreePages()) || (first <= p < last && p < MAX_MEMORY_PAGES)
    {
      var page := first;
      while page < last && page < MAX_MEMORY_PAGES
        invariant Valid() && stack == null && first <= page
        invariant page <= last || first == page
        invariant forall p: nat :: p in FreePages() <==> p in old(FreePages()) || (first <= p < page && p < MAX_MEMORY_PAGES)
      {
        MarkFree(page);
        pagesLeft := pagesLeft + 1;
        if page > highest {
          highest := page;
        }
        page := page + 1;
      }
    }

    /** DeallocateBitmapEntry */
    method MarkFree(page: nat)
      requires free.Length == MAX_MEMORY_PAGES && page < MAX_MEMORY_PAGES && page !in FreePages()
      modifies free
      ensures FreePages() == old(FreePages()) + {page}
    {
      FreeInMoves(free[..], page);
      free[page] := true;
      assert free[..] == old(free[..])[page := true];
    }

    /** AllocateBitmapEntry */
    method MarkUsed(page: nat)
      requires free.Length == MAX_MEMORY_PAGES && page in FreePages()
      modifies free
      ensures FreePages() == old(FreePages()) - {page}
    {
      FreeInMoves(free[..], page);
      free[page] := false;
      assert free[..] == old(free[..])[page := false];
    }

    method PushIndex(page: nat)
      requires stack != null && stackPointer < stack.Length && page <= highest
      modifies this`stackPointer, stack
      ensures stackPointer == old(stackPointer) + 1
      ensures stack[..stackPointer] == old(stack[..stackPointer]) + [page]
    {
      stack[stackPointer] := page;
      stackPointer := stackPointer + 1;
    }

    method PopIndex() returns (page: nat)
      requires stack != null && 0 < stackPointer <= stack.Length
      modifies this`stackPointer
      ensures stackPointer == old(stackPointer) - 1 && page == stack[stackPointer]
    {
      stackPointer := stackPointer - 1;
      page := stack[stackPointer];
    }

    /** A page goes back; it must be one that is out. */
    method DeallocPhys(page: nat)
      requires Valid() && page <= highest && page !in FreePages()
      modifies this, free, stack
      ensures Valid() && FreePages() == old(FreePages()) + {page}
      ensures stack == old(stack) && highest == old(highest)
      ensures stack != null ==> stackPointer == old(stackPointer) + 1 <= stack.Length && stack[old(stackPointer)] == page
    {
      ghost var before := FreePages();
      RoomForOne(before, highest + 1, page);
      pagesLeft := pagesLeft + 1;
      MarkFree(page);
      if stack != null {
        PushFree(page, before);
      }
    }

    /** A page that has become free goes on the stack of free pages. */
    method PushFree(page: nat, ghost before: set<nat>)
      requires stack != null && stackPointer < stack.Length && page <= highest
      requires Lists(stack[..stackPointer], before) && page !in before
      modifies this`stackPointer, stack
      ensures stackPointer == old(stackPointer) + 1 && stack[old(stackPointer)] == page
      ensures Lists(stack[..stackPointer], before + {page})
    {
      PushLists(stack[..stackPointer], before, page);
      PushIndex(page);
    }

    /**
    The backward scan of the bitmap, from page 0 round to the highest one; it ends
    because some page is free.
     */
    method ScanBitmap() returns (index: nat)
      requires free.Length == MAX_MEMORY_PAGES && FreePages() != {}
      ensures index in FreePages()
      ensures index != 0 ==> 0 !in FreePages() && forall p | index < p < MAX_MEMORY_PAGES :: p !in FreePages()
    {
      index := 0;
      while !free[index]
        invariant index < MAX_MEMORY_PAGES
        invariant index != 0 ==> !free[0] && forall p | index < p < MAX_MEMORY_PAGES :: !free[p]
        decreases if index == 0 then MAX_MEMORY_PAGES else index
      {
        assert index == 1 ==> FreePages() == {};
        index := (index + MAX_MEMORY_PAGES - 1) % MAX_MEMORY_PAGES;
      }
    }

    /** The page AllocPhys is about to hand out, taken off the stack if there is one. */
    method NextPage() returns (page: nat)
      requires Valid() && FreePages() != {}
      modifies this`stackPointer
      ensures page in FreePages()
      ensures stack != null ==> stackPointer <= stack.Length && Lists(stack[..stackPointer], FreePages() - {page})
      ensures stack == null && page != 0 ==> 0 !in FreePages() && forall p | page < p < MAX_MEMORY_PAGES :: p !in FreePages()
      ensures stack != null ==> old(stackPointer) > 0 && page == stack[old(stackPointer) - 1]
    {
      if stack == null {
        page := ScanBitmap();
      } else {
        ghost var st := stack[..stackPointer];
        PopLists(st, FreePages());
        page := PopIndex();
        assert stack[..stackPointer] == st[..|st| - 1];
      }
    }

    /**
    Hands out a page that was free: before the stack is there page 0 or else the highest one,
    and then the one on top of the stack. `ok` is false where the source panics because none is left.
     */
    method AllocPhys() returns (ok: bool, page: nat)
      requires Valid()
      modifies this, free
      ensures Valid() && stack == old(stack) && highest == old(highest)
      ensures ok <==> old(FreePages()) != {}
      ensures ok ==> page in old(FreePages()) && page <= highest && FreePages() == old(FreePages()) - {page}
      ensures !ok ==> FreePages() == old(FreePages())
      ensures ok && stack == null && page != 0 ==>
                0 !in old(FreePages()) && forall p | page < p < MAX_MEMORY_PAGES :: p !in old(FreePages())
      ensures ok && stack != null ==> old(stackPointer) > 0 && page == stack[old(stackPointer) - 1]
    {
      page := 0;
      ok := pagesLeft != 0;
      if ok {
        page := NextPage();
        MarkUsed(page);
        pagesLeft := pagesLeft - 1;
      }
    }

    /** The loop of ReinitPhys that fills the new stack from the bitmap, lowest page first. */
    method FillStack()
      requires free.Length == MAX_MEMORY_PAGES && highest < MAX_MEMORY_PAGES && forall p | p in FreePages() :: p <= highest
      requires stack != null && stackPointer == 0 && stack.Length == highest + 1
      modifies this`stackPointer, stack
      ensures stackPointer <= stack.Length && Lists(stack[..stackPointer], FreePages())
    {
      ghost var bits := free[..];
      assert FreePages() == FreeIn(bits);
      for i := 0 to MAX_MEMORY_PAGES
        invariant free[..] == bits && forall p | p in FreeIn(bits) :: p <= highest
        invariant stackPointer <= stack.Length && Lists(stack[..stackPointer], FreeIn(bits[..i]))
      {
        FillOne(bits, i, stack[..stackPointer], highest);
        if free[i] {
          PushIndex(i);
        }
      }
      assert bits[..MAX_MEMORY_PAGES] == bits;
    }

    /** ReclaimBitmapSpace, given the physical pages under the end of the bitmap. */
    method ReclaimBitmapSpace(bitmapPages: seq<nat>)
      requires Valid() && |bitmapPages| == UnreachableBitmapPages(highest)
      requires Holds(bitmapPages, FreePages(), highest)
      modifies this, free, stack
      ensures Valid() && FreePages() == Given(old(FreePages()), bitmapPages, |bitmapPages|)
      ensures stack == old(stack) && highest == old(highest)
    {
      var left := UnreachableBitmapPages(highest);
      var k := 0;
      while left > 0
        invariant k + left == |bitmapPages| && Valid() && stack == old(stack) && highest == old(highest)
        invariant FreePages() == Given(old(FreePages()), bitmapPages, k)
      {
        left := left - 1;
        NotGiven(old(FreePages()), bitmapPages, highest, k);
        DeallocPhys(bitmapPages[k]);
        k := k + 1;
      }
    }

    method ReinitPhys(bitmapPages: seq<nat>)
      requires Valid() && stack == null && |bitmapPages| == UnreachableBitmapPages(highest)
      requires Holds(bitmapPages, FreePages(), highest)
      modifies this, free
      ensures Valid() && stack != null && fresh(stack)
      ensures highest == old(highest) && FreePages() == Given(old(FreePages()), bitmapPages, |bitmapPages|)
    {
      stack := new nat[highest + 1];
      stackPointer := 0;
      FillStack();
      ReclaimBitmapSpace(bitmapPages);
    }
  }

  datatype Request = Take | GiveBack(k: nat) | SwitchToStack

  /** What a script must come to: pages held, pages free, and whether the stack has taken over. */
  datatype Tally = Tally(held: nat, free: nat, switched: bool)

  ghost function Step(t: Tally, r: Request, spare: nat): Tally {
    match r
    case Take => if t.free > 0 then t.(held := t.held + 1, free := t.free - 1) else t
    case GiveBack(k) => if k < t.held then t.(held := t.held - 1, free := t.free + 1) else t
    case SwitchToStack => if t.switched then t else t.(free := t.free + spare, switched := true)
  }

  ghost function After(script: seq<Request>, start: nat, spare: nat): Tally {
    if script == [] then Tally(0, start, false)
    else Step(After(script[..|script| - 1], start, spare), script[|script| - 1], spare)
  }

  /** The pages of the bitmap are in use until the stack takes over. */
  ghost function Kept(bitmapPages: seq<nat>, switched: bool): seq<nat> {
    if switched then [] else bitmapPages
  }

  /**
  Any run of allocations and deallocations, with the switch to the stack anywhere in
  it: no page is handed out while somebody holds it, no page is ever lost, and a page
  is handed out whenever one is free. A request the source would panic on (or that
  gives back a page not held) is skipped.
   */
  method Run(a: Allocator, script: seq<Request>, bitmapPages: seq<nat>) returns (live: seq<nat>)
    requires a.Valid() && a.stack == null && |bitmapPages| == UnreachableBitmapPages(a.highest)
    requires Holds(bitmapPages, a.FreePages(), a.highest)
    modifies a, a.free
    ensures a.Valid() && Holds(live, a.FreePages(), a.highest)
    ensures Tally(|live|, |a.FreePages()|, a.stack != null) == After(script, |old(a.FreePages())|, |bitmapPages|)
  {
    live := [];
    ghost var pages := |a.FreePages()|;
    assert live + bitmapPages == bitmapPages;
    for n := 0 to |script|
      invariant a.Valid() && a.highest == old(a.highest) && (a.stack != null ==> fresh(a.stack))
      invariant Holds(live + Kept(bitmapPages, a.stack != null), a.FreePages(), a.highest)
      invariant Tally(|live|, |a.FreePages()|, a.stack != null) == After(script[..n], pages, |bitmapPages|)
    {
      assert script[..n + 1][..n] == script[..n];
      live := Serve(a, script[n], live, bitmapPages);
    }
    assert script[..|script|] == script;
    Splits(live, Kept(bitmapPages, a.stack != null), a.FreePages(), a.highest);
  }

  method Serve(a: Allocator, r: Request, live: seq<nat>, bitmapPages: seq<nat>) returns (live': seq<nat>)
    requires a.Valid() && |bitmapPages| == UnreachableBitmapPages(a.highest)
    requires Holds(live + Kept(bitmapPages, a.stack != null), a.FreePages(), a.highest)
    modifies a, a.free, a.stack
    ensures a.Valid() && a.highest == old(a.highest) && (a.stack == old(a.stack) || (a.stack != null && fresh(a.stack)))
    ensures Holds(live' + Kept(bitmapPages, a.stack != null), a.FreePages(), a.highest)
    ensures Tally(|live'|, |a.FreePages()|, a.stack != null)
            == Step(Tally(|live|, |old(a.FreePages())|, old(a.stack) != null), r, |bitmapPages|)
  {
    live' := live;
    ghost var kept := Kept(bitmapPages, a.stack != null);
    match r
    case Take => live' := TakeOne(a, live, kept);
    case GiveBack(k) =>
      if k < |live| {
        live' := GiveOne(a, live, kept, k);
      }
    case SwitchToStack =>
      if a.stack == null {
        Switch(a, live, bitmapPages);
      }
  }

  method TakeOne(a: Allocator, live: seq<nat>, ghost kept: seq<nat>) returns (live': seq<nat>)
    requires a.Valid() && Holds(live + kept, a.FreePages(), a.highest)
    modifies a, a.free
    ensures a.Valid() && a.stack == old(a.stack) && a.highest == old(a.highest)
    ensures Holds(live' + kept, a.FreePages(), a.highest) && |live'| + |a.FreePages()| == |live| + |old(a.FreePages())|
    ensures |live'| == if |old(a.FreePages())| > 0 then |live| + 1 else |live|
  {
    ghost var before, all := a.FreePages(), live + kept;
    var ok, page := a.AllocPhys();
    if !ok {
      return live;
    }
    Gains(all, before, a.highest, page);
    live' := [page] + live;
    assert live' + kept == [page] + all;
  }

  lemma Gains(live: seq<nat>, free: set<nat>, highest: nat, page: nat)
    requires Holds(live, free, highest) && page in free && page <= highest
    ensures Holds([page] + live, free - {page}, highest)
  {
  }

  lemma Loses(live: seq<nat>, free: set<nat>, highest: nat, k: nat)
    requires Holds(live, free, highest) && k < |live|
    ensures Holds(RemoveAt(live, k), free + {live[k]}, highest)
  {
    RemoveAtElements(live, k);
  }

  method GiveOne(a: Allocator, live: seq<nat>, ghost kept: seq<nat>, k: nat) returns (live': seq<nat>)
    requires a.Valid() && Holds(live + kept, a.FreePages(), a.highest) && k < |live|
    modifies a, a.free, a.stack
    ensures a.Valid() && a.stack == old(a.stack) && a.highest == old(a.highest)
    ensures live' == RemoveAt(live, k)
    ensures Holds(live' + kept, a.FreePages(), a.highest) && |a.FreePages()| == |old(a.FreePages())| + 1
  {
    ghost var all := live + kept;
    Loses(all, a.FreePages(), a.highest, k);
    live' := RemoveAt(live, k);
    assert live' + kept == RemoveAt(all, k);
    assert all[k] == live[k];
    a.DeallocPhys(live[k]);
  }

  method Switch(a: Allocator, ghost live: seq<nat>, bitmapPages: seq<nat>)
    requires a.Valid() && a.stack == null && |bitmapPages| == UnreachableBitmapPages(a.highest)
    requires Holds(live + bitmapPages, a.FreePages(), a.highest)
    modifies a, a.free
    ensures a.Valid() && a.stack != null && fresh(a.stack) && a.highest == old(a.highest)
    ensures Holds(live + [], a.FreePages(), a.highest) && |a.FreePages()| == |old(a.FreePages())| + |bitmapPages|
  {
    Splits(live, bitmapPages, a.FreePages(), a.highest);
    GivenSize(a.FreePages(), bitmapPages, a.highest, |bitmapPages|);
    assert live + [] == live;
    a.ReinitPhys(bitmapPages);
  }

  lemma Splits(live: seq<nat>, others: seq<nat>, free: set<nat>, highest: nat)
    requires Holds(live + others, free, highest)
    ensures Holds(others, free, highest) && Holds(live, free, highest)
    ensures Holds(live, Given(free, others, |others|), highest)
  {
    var all := live + others;
    assert forall i | 0 <= i < |others| :: others[i] == all[|live| + i];
    assert forall i | 0 <= i < |live| :: live[i] == all[i];
    forall i | 0 <= i < |live| ensures live[i] !in Given(free, others, |others|) {
      InGiven(free, others, |others|, live[i]);
    }
  }

  ghost predicate Covered(ranges: seq<(nat, nat)>, p: nat) {
    exists i | 0 <= i < |ranges| :: ranges[i].0 <= p < ranges[i].1
  }

  lemma CoveredGrows(ranges: seq<(nat, nat)>, k: nat)
    requires k < |ranges|
    ensures forall p: nat :: Covered(ranges[..k + 1], p) <==> Covered(ranges[..k], p) || ranges[k].0 <= p < ranges[k].1
  {
    forall p: nat ensures Covered(ranges[..k + 1], p) <==> Covered(ranges[..k], p) || ranges[k].0 <= p < ranges[k].1 {
      assert ranges[..k + 1] == ranges[..k] + [ranges[k]];
      if Covered(ranges[..k], p) {
        var i :| 0 <= i < k && ranges[..k][i].0 <= p < ranges[..k][i].1;
        assert ranges[..k + 1][i] == ranges[..k][i];
      }
      if ranges[k].0 <= p < ranges[k].1 {
        assert ranges[..k + 1][k] == ranges[k];
      }
    }
  }
}
