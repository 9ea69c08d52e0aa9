/**
What the kernel heap looks like in memory. Memory is a sequence of 4-byte words;
a pointer is the byte address of a word, and 0 is NULL.

A block of n words starts with a size tag (byte size, with flag bits below) and
ends with a plain size tag. A free block keeps its list links in its second and
third words. Each arena taken from the system starts and ends with a two-word
fencepost that is never free.
 */
module HeapLayout {
  import opened Basics
  import opened HeapBuckets

  /** Words of metadata around a payload, and also the size of a fencepost. */
  const TAGS: nat := 2

  /** The smallest block: two tags and the two links. */
  const MIN_BLOCK: nat := 4

  type Words = seq<nat>

  datatype Arena = Arena(lo: nat, hi: nat)

  /** For a block that is not the first of its arena, `prev` is its left neighbour. */
  datatype Block = Block(size: nat, prev: nat, home: Arena)

  /** The arenas, and each block by its first word. */
  datatype Tiling = Tiling(arenas: set<Arena>, blocks: map<nat, Block>)

  /**
  The abstract picture: the tiling, the blocks tagged free, and the 35 free lists,
  front first.
   */
  datatype Shape = Shape(tiles: Tiling, free: set<nat>, lists: seq<seq<nat>>)

  function Ptr(b: nat): nat { 4 * b }

  function PayloadBytes(size: nat): (n: nat) {
    if size < TAGS then 0 else 4 * (size - TAGS)
  }

  predicate IsFence(t: Tiling, b: nat)
    requires b in t.blocks
  {
    var k := t.blocks[b];
    b == k.home.lo || b + k.size == k.home.hi
  }

  /** The blocks in the hands of callers. */
  function Live(s: Shape): set<nat> {
    set b | b in s.tiles.blocks && b !in s.free && !IsFence(s.tiles, b)
  }

  // ---- geometry: arenas are tiled by blocks ----

  ghost predicate ArenaFits(t: Tiling, a: Arena, limit: nat) {
    && 2 <= a.lo && a.lo % 2 == 0 && a.hi % 2 == 0
    && a.lo + 2 * TAGS + MIN_BLOCK <= a.hi <= limit
    && PayloadBytes(a.hi - a.lo - 2 * TAGS) <= MAX_FILED
    && a.lo in t.blocks && t.blocks[a.lo].size == TAGS && t.blocks[a.lo].home == a
    && a.hi - TAGS in t.blocks && t.blocks[a.hi - TAGS].size == TAGS && t.blocks[a.hi - TAGS].home == a
  }

  ghost predicate Apart(a: Arena, c: Arena) {
    a.hi <= c.lo || c.hi <= a.lo
  }

  ghost predicate BlockFits(t: Tiling, b: nat)
    requires b in t.blocks
  {
    var k := t.blocks[b];
    && k.home in t.arenas
    && b % 2 == 0 && k.size % 2 == 0
    && k.home.lo <= b && b + k.size <= k.home.hi
    && (if IsFence(t, b) then k.size == TAGS else MIN_BLOCK <= k.size)
    && (b + k.size < k.home.hi ==>
          && b + k.size in t.blocks
          && t.blocks[b + k.size].prev == b
          && t.blocks[b + k.size].home == k.home)
    && (k.home.lo < b ==>
          && k.prev in t.blocks
          && k.prev + t.blocks[k.prev].size == b
          && t.blocks[k.prev].home == k.home)
  }

  ghost predicate Precedes(t: Tiling, b: nat, c: nat)
    requires b in t.blocks
  {
    b + t.blocks[b].size <= c
  }

  ghost predicate Geometry(t: Tiling, limit: nat) {
    && (forall a {:trigger ArenaFits(t, a, limit)} | a in t.arenas :: ArenaFits(t, a, limit))
    && (forall a, c {:trigger Apart(a, c)} | a in t.arenas && c in t.arenas && a != c :: Apart(a, c))
    && (forall b {:trigger BlockFits(t, b)} | b in t.blocks :: BlockFits(t, b))
    && (forall b, c {:trigger Precedes(t, b, c)} | b in t.blocks && c in t.blocks && b < c :: Precedes(t, b, c))
  }

  ghost predicate Fenced(s: Shape) {
    && s.free <= s.tiles.blocks.Keys
    && (forall b {:trigger IsFence(s.tiles, b)} | b in s.free :: !IsFence(s.tiles, b))
  }

  // ---- tags ----

  ghost predicate Tagged(m: Words, b: nat, size: nat, taken: bool) {
    && 1 <= size && b + size <= |m|
    && m[b] / 4 == size
    && m[b] % 2 == (if taken then 1 else 0)
    && m[b + size - 1] == 4 * size
  }

  lemma HalfBit(v: nat, n: nat, r: nat)
    requires r < 2 && v == 2 * n + r
    ensures v % 2 == r && v / 2 == n
  {
  }

  lemma Quarter(v: nat, n: nat, r: nat)
    requires r < 4 && v == 4 * n + r
    ensures v % 4 == r && v / 4 == n
  {
  }

  /** Clearing or setting the low flag bit leaves the size readable. */
  lemma FlagBit(v: nat, n: nat)
    requires v / 4 == n
    ensures (v - v % 2) / 4 == n && (v - v % 2) % 2 == 0
    ensures (v - v % 2 + 1) / 4 == n && (v - v % 2 + 1) % 2 == 1
  {
    var r := v % 4;
    HalfBit(v, 2 * n + r / 2, r % 2);
    var e := v - v % 2;
    assert e == 4 * n + 2 * (r / 2);
    Quarter(e, n, 2 * (r / 2));
    Quarter(e + 1, n, 2 * (r / 2) + 1);
    HalfBit(e, 2 * n + r / 2, 0);
    HalfBit(e + 1, 2 * n + r / 2, 1);
  }

  ghost predicate Tags(m: Words, s: Shape) {
    forall b {:trigger s.tiles.blocks[b]} | b in s.tiles.blocks :: Tagged(m, b, s.tiles.blocks[b].size, b !in s.free)
  }

  // ---- free lists ----

  function NextLink(l: seq<nat>, j: nat): nat
    requires j < |l|
  {
    if j + 1 < |l| then Ptr(l[j + 1]) else 0
  }

  function PrevLink(l: seq<nat>, j: nat): nat
    requires j < |l|
  {
    if j > 0 then Ptr(l[j - 1]) else 0
  }

  ghost predicate Linked(m: Words, l: seq<nat>, j: nat)
    requires j < |l|
  {
    && l[j] + 2 < |m|
    && m[l[j] + 1] == NextLink(l, j)
    && m[l[j] + 2] == PrevLink(l, j)
  }

  function HeadLink(l: seq<nat>): nat {
    if l == [] then 0 else Ptr(l[0])
  }

  /** Every listed block is free, filed under its own size, not loose, and listed once. */
  ghost predicate Filing(s: Shape, loose: set<nat>) {
    && |s.lists| == NUM_LISTS
    && (forall i, j {:trigger s.lists[i][j]} | 0 <= i < NUM_LISTS && 0 <= j < |s.lists[i]| ::
          FiledAt(s, loose, i, s.lists[i][j]))
    && (forall i {:trigger s.lists[i]} | 0 <= i < NUM_LISTS :: Distinct(s.lists[i]))
    && (forall b {:trigger Listed(s, b)} | b in s.free && b !in loose :: Listed(s, b))
  }

  ghost predicate FiledAt(s: Shape, loose: set<nat>, i: nat, b: nat) {
    && b in s.free && b !in loose
    && b in s.tiles.blocks
    && s.tiles.blocks[b].size >= MIN_BLOCK
    && Files(PayloadBytes(s.tiles.blocks[b].size), i)
  }

  ghost predicate Listed(s: Shape, b: nat) {
    exists i :: 0 <= i < |s.lists| && b in s.lists[i]
  }

  ghost predicate Links(m: Words, h: Words, s: Shape)
    requires |s.lists| == NUM_LISTS
  {
    && |h| == NUM_LISTS
    && (forall i | 0 <= i < NUM_LISTS :: h[i] == HeadLink(s.lists[i]))
    && (forall i, j | 0 <= i < NUM_LISTS && 0 <= j < |s.lists[i]| :: Linked(m, s.lists[i], j))
  }

  /** No free block that is not loose touches another one. */
  ghost predicate Coalesced(s: Shape, loose: set<nat>) {
    forall b {:trigger Clear(s, loose, b)} | b in s.tiles.blocks && b in s.free && b !in loose :: Clear(s, loose, b)
  }

  ghost predicate Clear(s: Shape, loose: set<nat>, b: nat)
    requires b in s.tiles.blocks
  {
    b + s.tiles.blocks[b].size in s.free ==> b + s.tiles.blocks[b].size in loose
  }

  /**
  The heap invariant. `loose` holds the blocks an operation has in hand: they are
  tiled and tagged like any other, but on no list. Between operations it is empty.
   */
  ghost predicate Inv(m: Words, h: Words, s: Shape, loose: set<nat>) {
    && Geometry(s.tiles, |m|)
    && Fenced(s)
    && Tags(m, s)
    && Filing(s, loose)
    && Links(m, h, s)
    && Coalesced(s, loose)
    && loose <= s.tiles.blocks.Keys
  }
}
