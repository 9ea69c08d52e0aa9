/**
Requests as the heap's callers see them: which ones can be served and from where, and
what the live blocks hold before and after.
 */
module HeapService {
  import opened HeapBuckets
  import opened HeapLayout
  import opened HeapTiling
  import opened HeapSteps
  import opened HeapMerging

  const PAGE_WORDS: nat := 1024

  /** The bootstrap area, and every later reserve, is 16 KiB. */
  const BOOTSTRAP_WORDS: nat := 4096

  // ---- requests ----

  /** RoundUpSize: at least two words, and a multiple of eight bytes. */
  function RoundUpSize(bytes: nat): (r: nat)
    requires bytes > 0
    ensures bytes <= r && r % 8 == 0 && 8 <= r
    ensures if bytes <= 8 then r == 8 else r < bytes + 8
  {
    (if bytes < 8 then 8 else bytes) + 7 - ((if bytes < 8 then 8 else bytes) + 7) % 8
  }

  /** Pages asked of the system for a request served by list i; SystemPagesRound says how they come about. */
  function SystemPages(i: nat): (p: nat) {
    if i < 27 then 1 else if i == 27 then 2 else if i == 28 then 3 else if i == 29 then 5
    else if i == 30 then 9 else if i == 31 then 17 else if i == 32 then 33 else 65
  }

  function SystemWords(i: nat): (w: nat) { PAGE_WORDS * SystemPages(i) }

  /** The next rung, its tags and two fenceposts, in whole pages. */
  lemma SystemPagesRound(i: nat)
    requires i + 1 < NUM_LISTS
    ensures SystemPages(i) == (Rung(i + 1) + 8 + 16 + 4095) / 4096
  {
  }

  lemma SystemWordsFit(i: nat)
    requires i + 1 < NUM_LISTS
    ensures SystemWords(i) % PAGE_WORDS == 0 && 2 * TAGS + MIN_BLOCK <= SystemWords(i)
    ensures Rung(i + 1) <= PayloadBytes(SystemWords(i) - 2 * TAGS)
    ensures SystemWords(i) <= BOOTSTRAP_WORDS <==> Rung(i) <= MAX_SYSTEM_REQUEST
  {
  }

  /** A region set aside for times when the heap may not fault: first word, words, in use or not. */
  datatype Reserve = Reserve(address: nat, size: nat, valid: bool)

  const MAX_RESERVES: nat := 16

  function Region(r: Reserve): Arena { Arena(r.address, r.address + r.size) }

  /**
  Valid reserves are whole pages, at most 16 KiB, apart from one another and from every
  arena; all lie below the limit. Arenas come from reserves, so they are no larger.
   */
  ghost predicate ReservesOk(rs: seq<Reserve>, arenas: set<Arena>, limit: nat) {
    && |rs| == MAX_RESERVES
    && (forall i | 0 <= i < |rs| && rs[i].valid ::
          && PAGE_WORDS <= rs[i].address && rs[i].address % PAGE_WORDS == 0
          && PAGE_WORDS <= rs[i].size <= BOOTSTRAP_WORDS && rs[i].size % PAGE_WORDS == 0
          && rs[i].address + rs[i].size <= limit)
    && (forall a | a in arenas :: a.hi <= limit && a.hi <= a.lo + BOOTSTRAP_WORDS)
    && (forall i, a | 0 <= i < |rs| && rs[i].valid && a in arenas :: Apart(Region(rs[i]), a))
    && (forall i, j | 0 <= i < |rs| && 0 <= j < |rs| && i != j && rs[i].valid && rs[j].valid ::
          Apart(Region(rs[i]), Region(rs[j])))
  }

  /** Pages taken off a reserve: apart from every arena and from what is left in reserve. */
  ghost predicate SetAside(rs: seq<Reserve>, arenas: set<Arena>, limit: nat, lo: nat, words: nat) {
    && ReservesOk(rs, arenas, limit)
    && PAGE_WORDS <= lo && lo % PAGE_WORDS == 0 && lo + words <= limit && words <= BOOTSTRAP_WORDS
    && (forall a | a in arenas :: Apart(Arena(lo, lo + words), a))
    && (forall i | 0 <= i < |rs| && rs[i].valid :: Apart(Region(rs[i]), Arena(lo, lo + words)))
  }

  ghost predicate CanSupply(rs: seq<Reserve>, words: nat) {
    exists k :: 0 <= k < |rs| && rs[k].valid && words <= rs[k].size
  }

  /** A smallest reserve among those large enough has given up its front; the others are as they were. */
  ghost predicate Carved(rs: seq<Reserve>, rs': seq<Reserve>, words: nat) {
    exists k :: 0 <= k < |rs| && CarvedAt(rs, rs', words, k)
  }

  ghost predicate CarvedAt(rs: seq<Reserve>, rs': seq<Reserve>, words: nat, k: nat)
    requires k < |rs|
  {
    && rs[k].valid && words <= rs[k].size
    && (forall j | 0 <= j < |rs| && rs[j].valid && words <= rs[j].size :: rs[k].size <= rs[j].size)
    && rs' == rs[k := Reserve(rs[k].address + words, rs[k].size - words, rs[k].size - words >= PAGE_WORDS)]
  }

  /** Why the kernel stops: no reserve is large enough, or the size table ends. */
  datatype StopReason = NoReserve | PastTable

  datatype Outcome<T> = Done(value: T) | Stopped(why: StopReason)

  lemma PagesAddUp(address: nat, size: nat, words: nat)
    requires address % PAGE_WORDS == 0 && size % PAGE_WORDS == 0 && words % PAGE_WORDS == 0 && words <= size
    ensures (address + words) % PAGE_WORDS == 0 && (size - words) % PAGE_WORDS == 0
  {
  }

  /** Taking the front pages off one reserve leaves the others and itself apart from them. */
  lemma CarveReserve(rs: seq<Reserve>, arenas: set<Arena>, limit: nat, k: nat, words: nat, rs': seq<Reserve>)
    requires ReservesOk(rs, arenas, limit) && k < |rs| && rs[k].valid
    requires 0 < words <= rs[k].size && words % PAGE_WORDS == 0
    requires rs' == rs[k := Reserve(rs[k].address + words, rs[k].size - words, rs[k].size - words >= PAGE_WORDS)]
    ensures ReservesOk(rs', arenas, limit)
    ensures forall i | 0 <= i < |rs'| && rs'[i].valid :: Apart(Region(rs'[i]), Arena(rs[k].address, rs[k].address + words))
    ensures forall a | a in arenas :: Apart(Arena(rs[k].address, rs[k].address + words), a)
  {
    PagesAddUp(rs[k].address, rs[k].size, words);
    forall i | 0 <= i < |rs'| && rs'[i].valid
      ensures Apart(Region(rs'[i]), Arena(rs[k].address, rs[k].address + words))
    {
      assert i != k ==> Apart(Region(rs[i]), Region(rs[k]));
    }
    forall a | a in arenas ensures Apart(Arena(rs[k].address, rs[k].address + words), a) && Apart(Region(rs'[k]), a) {
      assert Apart(Region(rs[k]), a);
    }
    forall i, j | 0 <= i < |rs'| && 0 <= j < |rs'| && i != j && rs'[i].valid && rs'[j].valid
      ensures Apart(Region(rs'[i]), Region(rs'[j]))
    {
      assert Apart(Region(rs[i]), Region(rs[j]));
    }
    forall i, a | 0 <= i < |rs'| && rs'[i].valid && a in arenas ensures Apart(Region(rs'[i]), a) {
      assert i != k ==> Apart(Region(rs[i]), a);
    }
  }

  /** All the blocks in c are undisturbed. */
  ghost predicate Keeps(m: Words, s: Shape, m': Words, s': Shape, c: set<nat>) {
    forall b {:trigger Undisturbed(m, s, m', s', b)} | b in c :: Undisturbed(m, s, m', s', b)
  }

  lemma KeepsTrans(m: Words, s: Shape, m1: Words, s1: Shape, m2: Words, s2: Shape, c: set<nat>)
    requires Keeps(m, s, m1, s1, c) && Keeps(m1, s1, m2, s2, c)
    ensures Keeps(m, s, m2, s2, c)
  {
    forall b | b in c ensures Undisturbed(m, s, m2, s2, b) {
      assert Undisturbed(m, s, m1, s1, b);
      assert Undisturbed(m1, s1, m2, s2, b);
      forall w | b < w < b + s.tiles.blocks[b].size - 1 ensures m2[w] == m[w] {
        assert m1[w] == m[w];
      }
    }
  }

  lemma KeepsIgnoresLists(m: Words, s: Shape, m': Words, s1: Shape, s2: Shape, c: set<nat>)
    requires Keeps(m, s, m', s1, c) && s2.tiles == s1.tiles
    ensures Keeps(m, s, m', s2, c)
  {
    forall b | b in c ensures Undisturbed(m, s, m', s2, b) {
      assert Undisturbed(m, s, m', s1, b);
    }
  }

  lemma KeepsLess(m: Words, s: Shape, m': Words, s': Shape, c: set<nat>, d: set<nat>)
    requires Keeps(m, s, m', s', c) && d <= c
    ensures Keeps(m, s, m', s', d)
  {
    forall b | b in d ensures Undisturbed(m, s, m', s', b) {
      assert b in c;
    }
  }

  /** Block b, new, large enough and at most 8 bytes larger, is the one addition to the live blocks; the others are undisturbed. */
  ghost predicate Served(m: Words, s: Shape, m': Words, s': Shape, b: nat, bytes: nat) {
    && b in s'.tiles.blocks && bytes <= PayloadBytes(s'.tiles.blocks[b].size) <= bytes + 8
    && b !in Live(s) && Live(s') == Live(s) + {b}
    && Keeps(m, s, m', s', Live(s))
  }

  /** The live blocks are the blocks in use that are not fenceposts; keeping those in use keeps both. */
  lemma LiveAfter(m: Words, s: Shape, m': Words, s': Shape, c: set<nat>)
    requires Taken(s', {}) == Taken(s, {}) + c && Keeps(m, s, m', s', Taken(s, {}))
    requires c <= s'.tiles.blocks.Keys
    ensures Live(s') == Live(s) + (set b | b in c && !IsFence(s'.tiles, b))
    ensures Live(s) <= Taken(s, {})
  {
    forall b | b in s.tiles.blocks && b !in s.free ensures b in s'.tiles.blocks && (IsFence(s.tiles, b) <==> IsFence(s'.tiles, b)) {
      assert b in Taken(s, {});
      assert Undisturbed(m, s, m', s', b);
    }
    forall b ensures b in Live(s') <==> b in Live(s) + (set b | b in c && !IsFence(s'.tiles, b)) {
      assert b in Taken(s', {}) <==> b in Taken(s, {}) || b in c;
    }
  }

  /** Some list at or above i holds a block. */
  ghost predicate ListedFrom(s: Shape, i: nat) {
    exists j :: i <= j < |s.lists| && s.lists[j] != []
  }

  /**
  Exactly when a (rounded) request succeeds: a searched list holds a block, or some
  reserve has the pages for the next rung.
   */
  ghost predicate CanServe(s: Shape, rs: seq<Reserve>, bytes: nat) {
    exists i: nat :: Serves(bytes, i) && (ListedFrom(s, i) || (i + 1 < NUM_LISTS && CanSupply(rs, SystemWords(i))))
  }

  lemma ServesUnique(bytes: nat, i: nat, j: nat)
    requires Serves(bytes, i) && Serves(bytes, j)
    ensures i == j
  {
    if i < j - 1 {
      RungsIncrease(i, j - 1);
    }
    if j < i - 1 {
      RungsIncrease(j, i - 1);
    }
  }

  lemma NothingServes(bytes: nat)
    requires bytes > Rung(NUM_LISTS - 1)
    ensures forall i: nat :: !Serves(bytes, i)
  {
    forall i: nat | Serves(bytes, i) ensures false {
      if i < NUM_LISTS - 1 {
        RungsIncrease(i, NUM_LISTS - 1);
      }
    }
  }

  lemma CanServeFrom(s: Shape, rs: seq<Reserve>, bytes: nat, i: nat)
    requires Serves(bytes, i)
    ensures CanServe(s, rs, bytes) <==> ListedFrom(s, i) || (i + 1 < NUM_LISTS && CanSupply(rs, SystemWords(i)))
  {
    if CanServe(s, rs, bytes) {
      var i': nat :| Serves(bytes, i') && (ListedFrom(s, i') || (i' + 1 < NUM_LISTS && CanSupply(rs, SystemWords(i'))));
      ServesUnique(bytes, i, i');
    }
  }

  /** What a request that is served takes from the reserves: nothing if a list holds a block, else just the pages for the next rung. */
  ghost predicate Drawn(s: Shape, rs: seq<Reserve>, rs': seq<Reserve>, bytes: nat) {
    exists i: nat :: Serves(bytes, i) && if ListedFrom(s, i) then rs' == rs else Carved(rs, rs', SystemWords(i))
  }

  /** Why a (rounded) request stops, when it does: above 128 KiB the size table ends. */
  function StopFor(bytes: nat): StopReason {
    if bytes > MAX_FILED then PastTable else NoReserve
  }

  lemma StopForIs(bytes: nat, i: nat)
    requires Serves(bytes, i)
    ensures bytes > MAX_FILED <==> i + 1 == NUM_LISTS
  {
    if i + 2 < NUM_LISTS {
      RungsIncrease(i, NUM_LISTS - 2);
    }
  }

  // ---- what no heap can serve ----

  /** No new memory comes for a request above 4 KiB: no reserve ever has the five pages or more it takes. */
  lemma NoMemoryFromSystem(rs: seq<Reserve>, arenas: set<Arena>, limit: nat, bytes: nat, i: nat)
    requires ReservesOk(rs, arenas, limit) && Serves(bytes, i) && bytes > MAX_SYSTEM_REQUEST
    ensures !CanSupply(rs, SystemWords(i))
  {
    if i < 28 {
      RungsIncrease(i, 28);
    }
  }

  /** Every request of up to 4 KiB is served while some reserve is whole, as RefillReservePages leaves it. */
  lemma WholeReserveServes(s: Shape, rs: seq<Reserve>, bytes: nat)
    requires CanSupply(rs, BOOTSTRAP_WORDS) && bytes <= MAX_SYSTEM_REQUEST
    ensures CanServe(s, rs, bytes)
  {
    var i := FirstThatServes(bytes, 28);
    var k :| 0 <= k < |rs| && rs[k].valid && BOOTSTRAP_WORDS <= rs[k].size;
    assert SystemWords(i) <= rs[k].size;
  }

  /** Every block lies between the fences of its arena. */
  lemma BlockInsideArena(m: Words, h: Words, s: Shape, rs: seq<Reserve>, limit: nat, b: nat)
    requires Inv(m, h, s, {}) && ReservesOk(rs, s.tiles.arenas, limit) && b in s.tiles.blocks && !IsFence(s.tiles, b)
    ensures s.tiles.blocks[b].size <= BOOTSTRAP_WORDS - 2 * TAGS
  {
    assert BlockFits(s.tiles, b);
    var a := s.tiles.blocks[b].home;
    assert ArenaFits(s.tiles, a, |m|);
    assert Precedes(s.tiles, a.lo, b);
    assert b < a.hi - TAGS ==> Precedes(s.tiles, b, a.hi - TAGS);
  }

  lemma NothingListedAbove(m: Words, h: Words, s: Shape, rs: seq<Reserve>, limit: nat, i: nat)
    requires Inv(m, h, s, {}) && ReservesOk(rs, s.tiles.arenas, limit) && 30 <= i
    ensures !ListedFrom(s, i)
  {
    forall j | i <= j < |s.lists| ensures s.lists[j] == [] {
      if s.lists[j] != [] {
        var y := s.lists[j][0];
        assert FiledAt(s, {}, j, y);
        BlockInsideArena(m, h, s, rs, limit, y);
        if j > 30 {
          RungsIncrease(30, j);
        }
      }
    }
  }

  /**
  No heap serves a request above 8 KiB: the reserves have at most four pages, and no block
  in them is large enough for the lists searched.
   */
  lemma LargeRequestsStop(m: Words, h: Words, s: Shape, rs: seq<Reserve>, limit: nat, bytes: nat)
    requires Inv(m, h, s, {}) && ReservesOk(rs, s.tiles.arenas, limit) && bytes > 2 * MAX_SYSTEM_REQUEST
    ensures !CanServe(s, rs, bytes)
  {
    forall i: nat | Serves(bytes, i) ensures !ListedFrom(s, i) && !CanSupply(rs, SystemWords(i)) {
      NoMemoryFromSystem(rs, s.tiles.arenas, limit, bytes, i);
      if i < 29 {
        RungsIncrease(i, 29);
      }
      NothingListedAbove(m, h, s, rs, limit, i);
    }
  }

  /** Two requests that stop any heap: 8200 bytes for want of reserves, 131080 bytes at the end of the table. */
  lemma RequestsThatStop(m: Words, h: Words, s: Shape, rs: seq<Reserve>, limit: nat)
    requires Inv(m, h, s, {}) && ReservesOk(rs, s.tiles.arenas, limit)
    ensures !CanServe(s, rs, 8200) && StopFor(8200) == NoReserve
    ensures !CanServe(s, rs, 131080) && StopFor(131080) == PastTable
  {
    LargeRequestsStop(m, h, s, rs, limit, 8200);
    LargeRequestsStop(m, h, s, rs, limit, 131080);
  }

  // ---- what comes back ----

  /** Coalescing is complete: an arena with no live block is one free block between its fences, and that block is listed. */
  lemma EmptyArenaIsWhole(m: Words, h: Words, s: Shape, a: Arena)
    requires Inv(m, h, s, {}) && a in s.tiles.arenas
    requires forall b | b in Live(s) :: s.tiles.blocks[b].home != a
    ensures var x := a.lo + TAGS;
            && x in s.tiles.blocks && s.tiles.blocks[x].size == a.hi - a.lo - 2 * TAGS
            && x in s.free && Listed(s, x)
  {
    var x := a.lo + TAGS;
    assert ArenaFits(s.tiles, a, |m|) && BlockFits(s.tiles, a.lo);
    assert BlockFits(s.tiles, x) && !IsFence(s.tiles, x);
    var c := NextOf(s.tiles, x);
    assert Precedes(s.tiles, x, a.hi - TAGS);
    assert Clear(s, {}, x);
    assert c == a.hi - TAGS;
  }

  /** Such an arena lets the heap serve every request up to the minimum of the list its block is on. */
  lemma EmptyArenaServes(m: Words, h: Words, s: Shape, rs: seq<Reserve>, a: Arena, j: nat, bytes: nat)
    requires Inv(m, h, s, {}) && a in s.tiles.arenas && (forall b | b in Live(s) :: s.tiles.blocks[b].home != a)
    requires a.lo + 2 * TAGS <= a.hi && Files(PayloadBytes(a.hi - a.lo - 2 * TAGS), j) && bytes <= Rung(j)
    ensures CanServe(s, rs, bytes)
  {
    EmptyArenaIsWhole(m, h, s, a);
    var x := a.lo + TAGS;
    var l :| 0 <= l < |s.lists| && x in s.lists[l];
    var k :| 0 <= k < |s.lists[l]| && s.lists[l][k] == x;
    assert FiledAt(s, {}, l, s.lists[l][k]);
    FilesUnique(PayloadBytes(a.hi - a.lo - 2 * TAGS), j, l);
    var i := FirstThatServes(bytes, j);
    assert i <= l < |s.lists| && s.lists[l] != [];
  }

  /** 8 KiB is within reach: an arena of three pages with no live block serves it. */
  lemma ThreePagesServe(m: Words, h: Words, s: Shape, rs: seq<Reserve>, a: Arena, bytes: nat)
    requires Inv(m, h, s, {}) && a in s.tiles.arenas && (forall b | b in Live(s) :: s.tiles.blocks[b].home != a)
    requires a.hi == a.lo + 3 * PAGE_WORDS && bytes <= 2 * MAX_SYSTEM_REQUEST
    ensures CanServe(s, rs, bytes)
  {
    assert Files(12264, 29);
    EmptyArenaServes(m, h, s, rs, a, 29, bytes);
  }

  lemma ListHeadOf(m: Words, h: Words, s: Shape, i: nat)
    requires Inv(m, h, s, {}) && i < NUM_LISTS
    ensures h[i] == 0 <==> s.lists[i] == []
    ensures s.lists[i] != [] ==> h[i] / 4 == s.lists[i][0]
  {
    if s.lists[i] != [] {
      FrontIsBlock(m, h, s, i);
    }
  }

  lemma FrontIsBlock(m: Words, h: Words, s: Shape, i: nat)
    requires Inv(m, h, s, {}) && i < NUM_LISTS && s.lists[i] != []
    ensures FiledAt(s, {}, i, s.lists[i][0]) && s.lists[i][0] >= 2
  {
    var y := s.lists[i][0];
    assert FiledAt(s, {}, i, y) && BlockFits(s.tiles, y);
    assert ArenaFits(s.tiles, s.tiles.blocks[y].home, |m|);
  }

  lemma AddReserve(rs: seq<Reserve>, arenas: set<Arena>, limit: nat, k: nat, address: nat)
    requires ReservesOk(rs, arenas, limit) && k < |rs| && !rs[k].valid
    requires PAGE_WORDS <= address && address % PAGE_WORDS == 0 && address + BOOTSTRAP_WORDS <= limit
    requires forall a | a in arenas :: Apart(Arena(address, address + BOOTSTRAP_WORDS), a)
    requires forall i | 0 <= i < |rs| && rs[i].valid :: Apart(Arena(address, address + BOOTSTRAP_WORDS), Region(rs[i]))
    ensures ReservesOk(rs[k := Reserve(address, BOOTSTRAP_WORDS, true)], arenas, limit)
    ensures CanSupply(rs[k := Reserve(address, BOOTSTRAP_WORDS, true)], BOOTSTRAP_WORDS)
  {
    var rs' := rs[k := Reserve(address, BOOTSTRAP_WORDS, true)];
    assert rs'[k].valid;
    forall i, j | 0 <= i < |rs'| && 0 <= j < |rs'| && i != j && rs'[i].valid && rs'[j].valid
      ensures Apart(Region(rs'[i]), Region(rs'[j]))
    {
      assert i != k && j != k ==> Apart(Region(rs[i]), Region(rs[j]));
      assert i == k ==> Apart(Arena(address, address + BOOTSTRAP_WORDS), Region(rs[j]));
      assert j == k ==> Apart(Arena(address, address + BOOTSTRAP_WORDS), Region(rs[i]));
    }
    forall i, a | 0 <= i < |rs'| && rs'[i].valid && a in arenas ensures Apart(Region(rs'[i]), a) {
      assert i == k ==> Apart(Arena(address, address + BOOTSTRAP_WORDS), a);
      assert i != k ==> Apart(Region(rs[i]), a);
    }
  }

  lemma PagesAreEven(lo: nat, words: nat)
    requires lo % PAGE_WORDS == 0 && words % PAGE_WORDS == 0
    ensures lo % 2 == 0 && (lo + words) % 2 == 0
  {
    assert lo == 2 * (512 * (lo / PAGE_WORDS)) && words == 2 * (512 * (words / PAGE_WORDS));
  }

  lemma NewArenaIsNew(m: Words, h: Words, s: Shape, a: Arena)
    requires Inv(m, h, s, {}) && a.lo < a.hi && forall c | c in s.tiles.arenas :: Apart(a, c)
    ensures a !in s.tiles.arenas
  {
  }

  lemma NewArenaKeepsReserves(rs: seq<Reserve>, arenas: set<Arena>, limit: nat, a: Arena)
    requires ReservesOk(rs, arenas, limit)
    requires a.hi <= limit && a.hi <= a.lo + BOOTSTRAP_WORDS
    requires forall i | 0 <= i < |rs| && rs[i].valid :: Apart(Region(rs[i]), a)
    ensures ReservesOk(rs, arenas + {a}, limit)
  {
  }

  /** Block x, of n words, is the only block of its arena, free and on no list. */
  ghost predicate LoneBlock(s: Shape, x: nat, n: nat) {
    && x in s.free && x in s.tiles.blocks && !IsFence(s.tiles, x)
    && s.tiles.blocks[x].size == n
    && FreeNeighbours(s, x) == 0
    && x >= TAGS && x - TAGS in s.tiles.blocks && x + n in s.tiles.blocks
    && IsFence(s.tiles, x - TAGS) && IsFence(s.tiles, x + n)
  }

  /** A new arena is in place: its one block x is in hand, and only its fenceposts are newly taken. */
  ghost predicate ArenaInHand(m: Words, s: Shape, m': Words, s': Shape, x: nat, n: nat) {
    && LoneBlock(s', x, n)
    && s'.lists == s.lists
    && Taken(s', {x}) == Taken(s, {}) + {x - TAGS, x + n}
    && Keeps(m, s, m', s', Taken(s, {}))
  }

  /** The new arena's block is the only one on list i. */
  ghost predicate Grown(m: Words, s: Shape, m': Words, s': Shape, i: nat, x: nat, n: nat) {
    && LoneBlock(s', x, n)
    && i < |s'.lists| && s'.lists[i] == [x]
    && Taken(s', {}) == Taken(s, {}) + {x - TAGS, x + n}
    && Keeps(m, s, m', s', Taken(s, {}))
  }

  lemma NewArenaLone(s: Shape, lo: nat, words: nat)
    requires 2 * TAGS + MIN_BLOCK <= words && s.free <= s.tiles.blocks.Keys
    requires forall d | d in s.tiles.blocks :: d !in {lo, lo + TAGS, lo + words - TAGS}
    ensures LoneBlock(WithArena(s, Arena(lo, lo + words)), lo + TAGS, words - 2 * TAGS)
  {
    assert lo !in s.free && lo + words - TAGS !in s.free;
  }

  lemma NewArenaInHand(m: Words, h: Words, s: Shape, lo: nat, words: nat, m': Words) returns (s': Shape)
    requires 2 * TAGS <= words
    requires Inv(m, h, s, {}) && CanAdd(s.tiles, |m|, Arena(lo, lo + words)) && ArenaTagged(m, m', Arena(lo, lo + words))
    ensures Inv(m', h, s', {lo + TAGS})
    ensures ArenaInHand(m, s, m', s', lo + TAGS, words - 2 * TAGS)
    ensures s'.tiles.arenas == s.tiles.arenas + {Arena(lo, lo + words)}
  {
    var a := Arena(lo, lo + words);
    s' := WithArena(s, a);
    ArenaKeepsInv(m, h, s, a, m');
    ArenaRebuilds(m, h, s, a, m');
    NewArenaLone(s, lo, words);
    assert {lo + TAGS - TAGS, lo + TAGS + (words - 2 * TAGS)} == {a.lo, a.hi - TAGS};
  }

  /** A new arena adds no live block. */
  lemma GrownLive(m: Words, s: Shape, m': Words, s': Shape, i: nat, x: nat, n: nat)
    requires Grown(m, s, m', s', i, x, n)
    ensures Live(s') == Live(s) && Keeps(m, s, m', s', Live(s))
  {
    LiveAfter(m, s, m', s', {x - TAGS, x + n});
    KeepsLess(m, s, m', s', Taken(s, {}), Live(s));
  }

  lemma ServedAfter(m0: Words, s0: Shape, m1: Words, s1: Shape, m: Words, s: Shape, b: nat, bytes: nat)
    requires Live(s1) == Live(s0) && Keeps(m0, s0, m1, s1, Live(s0)) && Served(m1, s1, m, s, b, bytes)
    ensures Served(m0, s0, m, s, b, bytes)
  {
    KeepsTrans(m0, s0, m1, s1, m, s, Live(s0));
  }

  lemma EvenLeft(n: nat, total: nat)
    requires n % 2 == 0 && total % 2 == 0 && total <= n
    ensures (n - total) % 2 == 0
  {
  }

  /** The words a request takes with its tags, and how little is left when a block of n words is not split for it. */
  lemma TotalWords(bytes: nat, n: nat, total: nat)
    requires 8 <= bytes && bytes % 8 == 0 && bytes <= PayloadBytes(n) && n % 2 == 0 && total == bytes / 4 + TAGS
    ensures total % 2 == 0 && MIN_BLOCK <= total <= n && PayloadBytes(total) == bytes
    ensures n - total < MIN_BLOCK ==> PayloadBytes(n) <= bytes + 8
  {
    var q, h := bytes / 8, n / 2;
    assert bytes == 8 * q && n == 2 * h && total == 2 * (q + 1);
    assert n - total == 2 * (h - q - 1);
  }

  /** Block b is the end of what was block x, and the words of x before it are the end of a free block. */
  ghost predicate CutOff(t: Tiling, s: Shape, x: nat, b: nat)
    requires x in t.blocks && b in s.tiles.blocks
  {
    && x <= b && NextOf(s.tiles, b) == NextOf(t, x)
    && (x < b ==> var r := s.tiles.blocks[b].prev; r in s.free && r <= x && r in s.tiles.blocks && NextOf(s.tiles, r) == b)
  }

  lemma LeftoverIsFree(m: Words, h: Words, s: Shape, x: nat, b: nat, r: nat)
    requires Inv(m, h, s, {}) && b in s.tiles.blocks && b !in s.free && !IsFence(s.tiles, b)
    requires r in s.free && r in s.tiles.blocks && r <= x < b <= NextOf(s.tiles, r)
    ensures s.tiles.blocks[b].prev == r && NextOf(s.tiles, r) == b
  {
    assert BlockFits(s.tiles, r) && !IsFence(s.tiles, r);
    assert Precedes(s.tiles, r, b);
  }

  /** List j is the first one from i on that holds a block. */
  ghost predicate FirstFrom(s: Shape, i: nat, j: nat) {
    i <= j < |s.lists| && s.lists[j] != [] && forall k | i <= k < j :: s.lists[k] == []
  }

  /** Block b was cut off the front block of the first list from i on that held one. */
  ghost predicate FromList(s: Shape, s': Shape, i: nat, b: nat) {
    && s'.tiles.arenas == s.tiles.arenas && b in s'.tiles.blocks
    && exists j: nat :: FirstFrom(s, i, j) && s.lists[j][0] in s.tiles.blocks && CutOff(s.tiles, s', s.lists[j][0], b)
  }

  /** One arena of this many words was added, with block x behind its first fence. */
  ghost predicate ArenaAdded(s: Shape, s': Shape, x: nat, words: nat) {
    && TAGS <= x && Arena(x - TAGS, x - TAGS + words) !in s.tiles.arenas
    && s'.tiles.arenas == s.tiles.arenas + {Arena(x - TAGS, x - TAGS + words)}
  }

  /** Block b lies in a new arena of just the pages a request served by list i asks for. */
  ghost predicate FromSystem(s: Shape, s': Shape, i: nat, b: nat) {
    exists a :: a !in s.tiles.arenas && s'.tiles.arenas == s.tiles.arenas + {a} && a.hi == a.lo + SystemWords(i) && a.lo < b < a.hi
  }

  lemma CutFromNew(s: Shape, s1: Shape, s': Shape, i: nat, x: nat, b: nat)
    requires ArenaAdded(s, s1, x, SystemWords(i)) && s'.tiles.arenas == s1.tiles.arenas && 2 * TAGS <= SystemWords(i)
    requires x in s1.tiles.blocks && s1.tiles.blocks[x].size == SystemWords(i) - 2 * TAGS
    requires b in s'.tiles.blocks && CutOff(s1.tiles, s', x, b)
    ensures FromSystem(s, s', i, b)
  {
    var a := Arena(x - TAGS, x - TAGS + SystemWords(i));
    assert a !in s.tiles.arenas && a.lo < b < a.hi;
  }

  /** Where the block for a request comes from. */
  ghost predicate Chosen(s: Shape, s': Shape, b: nat, bytes: nat) {
    exists i: nat :: Serves(bytes, i) && if ListedFrom(s, i) then FromList(s, s', i, b) else FromSystem(s, s', i, b)
  }

  /** The block cut off for the caller stays its own while the leftover is merged and filed. */
  lemma TakenStays(m0: Words, s0: Shape, m: Words, s: Shape, x: nat, b: nat, m': Words, s': Shape)
    requires Taken(s, {x}) == Taken(s0, {}) + {b} && Keeps(m0, s0, m, s, Taken(s0, {}))
    requires Preserves(m, s, {x}, m', s', {})
    requires b in s.tiles.blocks && !IsFence(s.tiles, b)
    ensures Taken(s', {}) == Taken(s0, {}) + {b} && Keeps(m0, s0, m', s', Taken(s0, {}))
    ensures b in s'.tiles.blocks && !IsFence(s'.tiles, b) && s'.tiles.blocks[b].size == s.tiles.blocks[b].size
  {
    assert Undisturbed(m, s, m', s', b);
    KeepsTrans(m0, s0, m, s, m', s', Taken(s0, {}));
  }

  // ---- the heap as its callers see it ----

  function Payload(m: Words, s: Shape, b: nat): seq<nat>
    requires b in s.tiles.blocks && 2 <= s.tiles.blocks[b].size && b + s.tiles.blocks[b].size <= |m|
  {
    m[b + 1..b + s.tiles.blocks[b].size - 1]
  }

  ghost predicate Readable(m: Words, s: Shape) {
    forall b | b in Live(s) :: 2 <= s.tiles.blocks[b].size && b + s.tiles.blocks[b].size <= |m|
  }

  /** What every live block holds between its tags. */
  ghost function ContentsOf(m: Words, s: Shape): map<nat, seq<nat>>
    requires Readable(m, s)
  {
    map b | b in Live(s) :: Payload(m, s, b)
  }

  lemma InvIsReadable(m: Words, h: Words, s: Shape)
    requires Inv(m, h, s, {})
    ensures Readable(m, s)
  {
    forall b | b in Live(s) ensures 2 <= s.tiles.blocks[b].size && b + s.tiles.blocks[b].size <= |m| {
      assert Tagged(m, b, s.tiles.blocks[b].size, true);
      assert BlockFits(s.tiles, b);
    }
  }

  lemma UndisturbedPayload(m: Words, s: Shape, m': Words, s': Shape, b: nat)
    requires Readable(m, s) && Readable(m', s') && b in Live(s) && b in Live(s')
    requires Undisturbed(m, s, m', s', b)
    ensures Payload(m', s', b) == Payload(m, s, b)
  {
  }

  /** Blocks kept live and undisturbed keep their contents. */
  lemma KeptContents(m: Words, s: Shape, m': Words, s': Shape, kept: set<nat>)
    requires Readable(m, s) && Readable(m', s')
    requires kept <= Live(s) && kept <= Live(s') && Keeps(m, s, m', s', kept)
    ensures forall b | b in kept :: ContentsOf(m', s')[b] == ContentsOf(m, s)[b]
  {
    forall b | b in kept ensures ContentsOf(m', s')[b] == ContentsOf(m, s)[b] {
      assert Undisturbed(m, s, m', s', b);
      UndisturbedPayload(m, s, m', s', b);
    }
  }

  /** Live blocks have 8-aligned headers, lie inside the arenas, and no two share a word, tags included. */
  lemma LiveBlocksApart(m: Words, h: Words, s: Shape, b: nat, c: nat)
    requires Inv(m, h, s, {}) && b in Live(s) && c in Live(s)
    ensures Ptr(b) % 8 == 0
    ensures s.tiles.blocks[b].home in s.tiles.arenas
    ensures s.tiles.blocks[b].home.lo < b && NextOf(s.tiles, b) < s.tiles.blocks[b].home.hi <= |m|
    ensures b < c ==> NextOf(s.tiles, b) <= c
  {
    assert BlockFits(s.tiles, b);
    assert ArenaFits(s.tiles, s.tiles.blocks[b].home, |m|);
    assert b < c ==> Precedes(s.tiles, b, c);
  }

  /** One word of one block's contents changed. */
  function Poke(c: map<nat, seq<nat>>, b: nat, offset: nat, v: nat): map<nat, seq<nat>>
    requires b in c && offset < |c[b]|
  {
    var p: seq<nat> := c[b];
    c[b := p[offset := v]]
  }

  /** The first n words of one block's contents are zero, the rest as before. */
  function Cleared(c: map<nat, seq<nat>>, b: nat, n: nat): map<nat, seq<nat>>
    requires b in c && n <= |c[b]|
  {
    var p: seq<nat> := seq(n, _ => 0) + c[b][n..];
    c[b := p]
  }

  lemma NothingCleared(c: map<nat, seq<nat>>, b: nat)
    requires b in c
    ensures Cleared(c, b, 0) == c
  {
    assert seq(0, _ => 0) + c[b][0..] == c[b];
  }

  lemma PokeClears(c: map<nat, seq<nat>>, b: nat, i: nat)
    requires b in c && i < |c[b]|
    ensures Poke(Cleared(c, b, i), b, i, 0) == Cleared(c, b, i + 1)
  {
    var p, q := Cleared(c, b, i)[b], Cleared(c, b, i + 1)[b];
    assert p[i := 0] == q;
  }

  function BlockOf(ptr: nat): nat
    requires 4 <= ptr
  {
    ptr / 4 - 1
  }

  /** Block b is the one addition to the contents: 8-aligned, large enough, at most 8 bytes larger, and cleared if asked. */
  ghost predicate Allotted(c: map<nat, seq<nat>>, c': map<nat, seq<nat>>, b: nat, bytes: nat, zero: bool) {
    && b !in c && b in c'
    && c' == c[b := c'[b]]
    && bytes <= 4 * |c'[b]| <= bytes + 8
    && Ptr(b) % 8 == 0
    && (zero ==> forall i | 0 <= i < bytes / 4 :: c'[b][i] == 0)
  }

  lemma ClearedAllotted(c: map<nat, seq<nat>>, c': map<nat, seq<nat>>, b: nat, bytes: nat)
    requires Allotted(c, c', b, bytes, false)
    ensures bytes / 4 <= |c'[b]|
    ensures Allotted(c, Cleared(c', b, bytes / 4), b, bytes, true)
  {
  }

  /** Storing inside a live payload keeps the invariant and changes that one word. */
  lemma StoreKeepsInv(m: Words, h: Words, s: Shape, b: nat, offset: nat, v: nat)
    requires Inv(m, h, s, {}) && Readable(m, s) && b in Live(s) && offset < |Payload(m, s, b)|
    ensures Inv(m[b + 1 + offset := v], h, s, {}) && Readable(m[b + 1 + offset := v], s)
    ensures ContentsOf(m[b + 1 + offset := v], s) == Poke(ContentsOf(m, s), b, offset, v)
  {
    var m': Words := m[b + 1 + offset := v];
    assert Tagged(m, b, s.tiles.blocks[b].size, true);
    forall w | 0 <= w < |m| && Outside(s.tiles, {b}, w) ensures m'[w] == m[w] {
      assert b in {b};
    }
    RebuildKeepsInv(m, h, s, {}, {b}, m', s, {});
    InvIsReadable(m', h, s);
    forall c | c in Live(s) && c != b ensures Payload(m', s, c) == Payload(m, s, c) {
      RebuiltUndisturbed(m, h, s, {}, {b}, m', s, {}, c);
    }
    assert Payload(m', s, b) == Payload(m, s, b)[offset := v];
  }

  /** Serving a request adds one entry to the contents and changes no other. */
  lemma ServedContents(m: Words, h: Words, s: Shape, m': Words, h': Words, s': Shape, b: nat, bytes: nat)
    requires Inv(m, h, s, {}) && Inv(m', h', s', {}) && Served(m, s, m', s', b, bytes)
    ensures Readable(m, s) && Readable(m', s')
    ensures b !in ContentsOf(m, s) && b in ContentsOf(m', s')
    ensures ContentsOf(m', s') == ContentsOf(m, s)[b := ContentsOf(m', s')[b]]
    ensures bytes <= 4 * |ContentsOf(m', s')[b]| <= bytes + 8
    ensures Ptr(b) % 8 == 0 && b in Live(s')
  {
    InvIsReadable(m, h, s);
    InvIsReadable(m', h', s');
    KeptContents(m, s, m', s', Live(s));
    LiveBlocksApart(m', h', s', b, b);
  }

  /** A block in use, picked up and scribbled on between its tags, is loose; nothing else changes. */
  lemma PickUpWords(m: Words, h: Words, s: Shape, x: nat, m': Words)
    requires Inv(m, h, s, {}) && x in Live(s)
    requires |m'| == |m| && forall w | 0 <= w < |m| && w != x + 1 && w != x + 2 :: m'[w] == m[w]
    ensures Inv(m', h, s, {x})
    ensures Taken(s, {x}) == Taken(s, {}) - {x}
    ensures Keeps(m, s, m', s, Taken(s, {x}))
  {
    PickUp(m, h, s, x);
    assert BlockFits(s.tiles, x);
    assert Tagged(m, x, s.tiles.blocks[x].size, true);
    forall w | 0 <= w < |m| && Outside(s.tiles, {x}, w) ensures m'[w] == m[w] {
      assert x in {x};
    }
    RebuildKeepsInv(m, h, s, {x}, {x}, m', s, {x});
    forall c | c in Taken(s, {x}) ensures Undisturbed(m, s, m', s, c) {
      RebuiltUndisturbed(m, h, s, {x}, {x}, m', s, {x}, c);
    }
  }

  /** Once x is no longer in use, it alone is gone from the contents. */
  lemma FreedContents(m: Words, h: Words, s: Shape, m': Words, h': Words, s': Shape, x: nat)
    requires Inv(m, h, s, {}) && Inv(m', h', s', {}) && x in Live(s)
    requires Taken(s', {}) == Taken(s, {}) - {x} && Keeps(m, s, m', s', Taken(s, {}) - {x})
    ensures Readable(m, s) && Readable(m', s')
    ensures ContentsOf(m', s') == ContentsOf(m, s) - {x}
  {
    InvIsReadable(m, h, s);
    InvIsReadable(m', h', s');
    forall b | b in Taken(s, {}) - {x}
      ensures b in s'.tiles.blocks && (IsFence(s.tiles, b) <==> IsFence(s'.tiles, b))
    {
      assert Undisturbed(m, s, m', s', b);
    }
    forall b ensures b in Live(s') <==> b in Live(s) - {x} {
      assert b in Taken(s', {}) <==> b in Taken(s, {}) && b != x;
    }
    KeepsLess(m, s, m', s', Taken(s, {}) - {x}, Live(s'));
    KeptContents(m, s, m', s', Live(s'));
  }
}
