/**
The layout of a DemoFS image under construction: which sectors belong to what, and how
adding a slot or a continuation sector changes what the image decodes to.
 */
module DemoFsLayout {
  import opened Basics
  import opened DemoFsFormat

  const ROOT := 9

  /** What a sector is for: nothing yet, the boot area, a sector of some directory, or file data. */
  datatype Kind = Unused | Boot | Meta(dir: nat) | Data

  datatype Fs = Fs(disk: Disk, next: nat, kinds: seq<Kind>)

  /** The slots in use come first; those behind them are blank. */
  ghost predicate Packed(slots: seq<seq<Byte>>)
    requires Proper(slots)
  {
    forall i, j | 0 <= i <= j < |slots| && !InUse(slots[i]) :: slots[j] == Zeros(SLOT_SIZE)
  }

  ghost predicate Full(slots: seq<seq<Byte>>)
    requires Proper(slots)
  {
    forall i | 0 <= i < |slots| :: InUse(slots[i])
  }

  /** The data a slot points to is where only file data is. */
  ghost predicate SlotSafe(fs: Fs, slot: seq<Byte>)
    requires |slot| == SLOT_SIZE && |fs.kinds| == |fs.disk|
  {
    slot[31] != 1 ==>
      var inode, n := FromLe(slot[28..31]), SectorsFor(FromLe(slot[24..28]));
      inode + n <= fs.next <= |fs.disk| && forall s | inode <= s < inode + n :: fs.kinds[s] == Data
  }

  ghost predicate Safe(fs: Fs, slots: seq<seq<Byte>>)
    requires Proper(slots) && |fs.kinds| == |fs.disk|
  {
    forall i | 0 <= i < |slots| && InUse(slots[i]) :: SlotSafe(fs, slots[i])
  }

  ghost predicate Linked(fs: Fs, s: nat, d: nat)
    requires s < |fs.disk| == |fs.kinds|
  {
    var b := SectorAt(fs.disk, s);
    && (b[0] == FINAL || b[0] == CONTINUED)
    && (b[0] == CONTINUED ==>
          && Full(Slots(b)) && s < NextSector(b) < fs.next
          && NextSector(b) < |fs.disk| && fs.kinds[NextSector(b)] == Meta(d))
  }

  ghost predicate MetaOk(fs: Fs, s: nat)
    requires s < |fs.disk| == |fs.kinds| && fs.kinds[s].Meta?
  {
    var b := SectorAt(fs.disk, s);
    && Linked(fs, s, fs.kinds[s].dir)
    && Packed(Slots(b))
    && Safe(fs, Slots(b))
  }

  ghost predicate Inv(fs: Fs) {
    && |fs.kinds| == |fs.disk|
    && ROOT < fs.next <= |fs.disk| && fs.next <= INODE_LIMIT
    && (forall s | 0 <= s < |fs.disk| :: |fs.disk[s]| == SECTOR_SIZE)
    && (forall s | fs.next <= s < |fs.disk| :: fs.kinds[s] == Unused)
    && (forall s {:trigger MetaOk(fs, s)} | 0 <= s < |fs.disk| && fs.kinds[s].Meta? :: MetaOk(fs, s))
  }

  // ---- what a change leaves alone ----

  /** Sectors in use keep their kind, and those of kind Data and of other directories their bytes. */
  ghost predicate Extends(fs: Fs, fs': Fs, d: nat, from: nat)
    requires |fs.kinds| == |fs.disk| && |fs'.kinds| == |fs'.disk|
  {
    && |fs'.disk| == |fs.disk| && fs.next <= fs'.next <= |fs.disk|
    && (forall s | 0 <= s < fs.next :: fs'.kinds[s] == fs.kinds[s])
    && (forall s | 0 <= s < fs.next && !(fs.kinds[s] == Meta(d) && s >= from) :: fs'.disk[s] == fs.disk[s])
  }

  lemma DecodeSame(fs: Fs, fs': Fs, d: nat, from: nat, slot: seq<Byte>)
    requires Inv(fs) && |fs'.kinds| == |fs'.disk| && Extends(fs, fs', d, from)
    requires |slot| == SLOT_SIZE && SlotSafe(fs, slot)
    ensures Decode(fs'.disk, slot) == Decode(fs.disk, slot) && SlotSafe(fs', slot)
  {
    if slot[31] != 1 {
      var inode, length := FromLe(slot[28..31]), FromLe(slot[24..28]);
      forall s | inode <= s < inode + SectorsFor(length) ensures SectorAt(fs'.disk, s) == SectorAt(fs.disk, s) {
        assert fs.kinds[s] == Data;
      }
      ReadSame(fs.disk, fs'.disk, inode, length);
    }
  }

  lemma {:induction false} EntriesSame(fs: Fs, fs': Fs, d: nat, from: nat, slots: seq<seq<Byte>>)
    requires Inv(fs) && |fs'.kinds| == |fs'.disk| && Extends(fs, fs', d, from)
    requires Proper(slots) && Safe(fs, slots)
    ensures Entries(fs'.disk, slots) == Entries(fs.disk, slots)
  {
    if slots != [] {
      EntriesSame(fs, fs', d, from, slots[1..]);
      if InUse(slots[0]) {
        DecodeSame(fs, fs', d, from, slots[0]);
      }
    }
  }

  /** A directory none of whose sectors changed lists what it did before. */
  lemma {:induction false} ListingSame(fs: Fs, fs': Fs, d: nat, from: nat, e: nat, s: nat)
    requires Inv(fs) && |fs'.kinds| == |fs'.disk| && Extends(fs, fs', d, from)
    requires s < fs.next && fs.kinds[s] == Meta(e) && e != d
    ensures Listing(fs'.disk, s) == Listing(fs.disk, s)
    decreases |fs.disk| - s
  {
    assert MetaOk(fs, s);
    var b := SectorAt(fs.disk, s);
    assert SectorAt(fs'.disk, s) == b;
    EntriesSame(fs, fs', d, from, Slots(b));
    if b[0] == CONTINUED {
      ListingSame(fs, fs', d, from, e, NextSector(b));
    }
    ListingGrows(fs.disk, fs'.disk, s, []);
  }

  lemma ExtendsJoins(a: Fs, b: Fs, c: Fs, d: nat, from: nat, from': nat)
    requires |a.kinds| == |a.disk| && |b.kinds| == |b.disk| && |c.kinds| == |c.disk|
    requires Extends(a, b, d, from) && Extends(b, c, d, from') && from <= from'
    ensures Extends(a, c, d, from)
  {
  }

  // ---- adding a slot ----

  ghost predicate FirstFree(slots: seq<seq<Byte>>, i: nat)
    requires Proper(slots)
  {
    i < |slots| && !InUse(slots[i]) && forall j | 0 <= j < i :: InUse(slots[j])
  }

  lemma {:induction false} BlankEntries(disk: Disk, slots: seq<seq<Byte>>)
    requires Proper(slots) && forall i | 0 <= i < |slots| :: !InUse(slots[i])
    ensures Entries(disk, slots) == []
  {
    if slots != [] {
      BlankEntries(disk, slots[1..]);
    }
  }

  lemma {:induction false} EntriesAppend(disk: Disk, slots: seq<seq<Byte>>, i: nat, slot: seq<Byte>)
    requires Proper(slots) && Packed(slots) && FirstFree(slots, i) && |slot| == SLOT_SIZE && InUse(slot)
    ensures Entries(disk, slots[i := slot]) == Entries(disk, slots) + [Decode(disk, slot)]
    decreases i
  {
    if i == 0 {
      forall j | 0 <= j < |slots| ensures !InUse(slots[j]) {
        assert slots[j] == Zeros(SLOT_SIZE);
      }
      BlankEntries(disk, slots);
      BlankEntries(disk, slots[1..]);
      assert slots[0 := slot][1..] == slots[1..];
    } else {
      assert slots[i := slot][1..] == slots[1..][i - 1 := slot];
      EntriesAppend(disk, slots[1..], i - 1, slot);
    }
  }

  /** A directory sector that did not change is as good as it was. */
  lemma MetaKept(fs: Fs, fs': Fs, d: nat, from: nat, t: nat)
    requires Inv(fs) && |fs'.kinds| == |fs'.disk| && Extends(fs, fs', d, from)
    requires t < fs.next && fs.kinds[t].Meta? && fs'.disk[t] == fs.disk[t]
    ensures MetaOk(fs', t)
  {
    assert MetaOk(fs, t);
    var slots := Slots(SectorAt(fs.disk, t));
    forall i | 0 <= i < |slots| && InUse(slots[i]) ensures SlotSafe(fs', slots[i]) {
      DecodeSame(fs, fs', d, from, slots[i]);
    }
  }

  /** Everything but the bytes of directory sectors in use before. */
  ghost predicate Frame(fs: Fs, fs': Fs, d: nat, from: nat)
    requires |fs.kinds| == |fs.disk|
  {
    && |fs'.kinds| == |fs'.disk| && Extends(fs, fs', d, from)
    && ROOT < fs'.next <= |fs'.disk| && fs'.next <= INODE_LIMIT
    && (forall s | 0 <= s < |fs'.disk| :: |fs'.disk[s]| == SECTOR_SIZE)
    && (forall s | fs'.next <= s < |fs'.disk| :: fs'.kinds[s] == Unused)
    && (forall s | fs.next <= s < fs'.next && fs'.kinds[s].Meta? :: MetaOk(fs', s))
  }

  /** One more slot in a directory sector is one more entry at the end of its listing. */
  lemma PlaceSlot(fs: Fs, fs': Fs, s: nat, d: nat, i: nat, slot: seq<Byte>)
    requires Inv(fs) && Frame(fs, fs', d, s)
    requires s < fs.next && fs.kinds[s] == Meta(d)
    requires FirstFree(Slots(SectorAt(fs.disk, s)), i) && |slot| == SLOT_SIZE && InUse(slot) && SlotSafe(fs', slot)
    requires fs'.disk[s] == PutSlot(SectorAt(fs.disk, s), i, slot)
    requires forall t | 0 <= t < fs.next && t != s && fs.kinds[t].Meta? :: fs'.disk[t] == fs.disk[t]
    ensures Inv(fs') && Listing(fs'.disk, s) == Listing(fs.disk, s) + [Decode(fs'.disk, slot)]
  {
    assert MetaOk(fs, s);
    var b := SectorAt(fs.disk, s);
    var slots := Slots(b);
    PutSlotAt(b, i, slot);
    assert b[0] == FINAL;
    PlacedOk(fs, fs', s, d, i, slot);
    forall t | 0 <= t < |fs'.disk| && fs'.kinds[t].Meta? ensures MetaOk(fs', t) {
      if t < fs.next && t != s {
        MetaKept(fs, fs', d, s, t);
      }
    }
    EntriesAppend(fs'.disk, slots, i, slot);
    EntriesSame(fs, fs', d, s, slots);
    LastListing(fs.disk, s);
    LastListing(fs'.disk, s);
  }

  lemma LastListing(disk: Disk, s: nat)
    requires SectorAt(disk, s)[0] == FINAL
    ensures Listing(disk, s) == Entries(disk, Slots(SectorAt(disk, s)))
  {
  }

  lemma PlacedOk(fs: Fs, fs': Fs, s: nat, d: nat, i: nat, slot: seq<Byte>)
    requires Inv(fs) && Frame(fs, fs', d, s)
    requires s < fs.next && fs.kinds[s] == Meta(d) && SectorAt(fs.disk, s)[0] == FINAL
    requires FirstFree(Slots(SectorAt(fs.disk, s)), i) && |slot| == SLOT_SIZE && InUse(slot) && SlotSafe(fs', slot)
    requires fs'.disk[s] == PutSlot(SectorAt(fs.disk, s), i, slot)
    ensures MetaOk(fs', s)
  {
    assert MetaOk(fs, s);
    var b := SectorAt(fs.disk, s);
    var slots := Slots(b);
    PutSlotAt(b, i, slot);
    var after := slots[i := slot];
    forall k | 0 <= k < |after| && InUse(after[k]) ensures SlotSafe(fs', after[k]) {
      if k != i {
        DecodeSame(fs, fs', d, s, slots[k]);
      }
    }
  }

  // ---- continuing a directory ----

  function Blank(head: Byte): (r: Sector)
    ensures |r| == SECTOR_SIZE
  {
    [head] + Zeros(SECTOR_SIZE - 1)
  }

  lemma BlankSlots(head: Byte)
    ensures forall i | 0 <= i < ENTRIES :: Slots(Blank(head))[i] == Zeros(SLOT_SIZE)
  {
  }

  function Continued(b: Sector, n: nat): (r: Sector)
    requires |b| == SECTOR_SIZE
    ensures |r| == SECTOR_SIZE
  {
    [CONTINUED] + Le(n, 3) + b[4..]
  }

  lemma ContinuedIs(b: Sector, n: nat)
    requires |b| == SECTOR_SIZE && n < INODE_LIMIT
    ensures Continued(b, n)[0] == CONTINUED && NextSector(Continued(b, n)) == n && Slots(Continued(b, n)) == Slots(b)
  {
    Limits();
    LittleEndian(n, 3);
    var r := Continued(b, n);
    assert r[1..4] == Le(n, 3);
    forall i | 0 <= i < ENTRIES ensures Slot(r, i) == Slot(b, i) {
    }
  }

  ghost function Grown(fs: Fs, s: nat, d: nat): Fs
    requires Inv(fs) && s < fs.next < |fs.disk|
  {
    Fs(fs.disk[s := Continued(SectorAt(fs.disk, s), fs.next)][fs.next := Blank(FINAL)], fs.next + 1,
       fs.kinds[fs.next := Meta(d)])
  }

  ghost predicate CanGrow(fs: Fs, s: nat, d: nat) {
    && Inv(fs) && s < fs.next < |fs.disk| && fs.next + 1 <= INODE_LIMIT && fs.kinds[s] == Meta(d)
    && SectorAt(fs.disk, s)[0] == FINAL && Full(Slots(SectorAt(fs.disk, s)))
  }

  lemma GrownInv(fs: Fs, s: nat, d: nat)
    requires CanGrow(fs, s, d)
    ensures Inv(Grown(fs, s, d)) && Extends(fs, Grown(fs, s, d), d, s)
  {
    var g, b, n := Grown(fs, s, d), SectorAt(fs.disk, s), fs.next;
    ContinuedIs(b, n);
    BlankSlots(FINAL);
    assert MetaOk(fs, s);
    forall i | 0 <= i < ENTRIES && InUse(Slots(b)[i]) ensures SlotSafe(g, Slots(b)[i]) {
      DecodeSame(fs, g, d, s, Slots(b)[i]);
    }
    forall t | 0 <= t < |g.disk| && g.kinds[t].Meta? ensures MetaOk(g, t) {
      if t < n && t != s {
        MetaKept(fs, g, d, s, t);
      }
    }
  }

  /** A full directory gets an empty continuation, and lists what it did before. */
  lemma GrownKeeps(fs: Fs, s: nat, d: nat)
    requires CanGrow(fs, s, d)
    ensures var g := Grown(fs, s, d);
            && Inv(g) && Extends(fs, g, d, s)
            && Listing(g.disk, s) == Listing(fs.disk, s) && Listing(g.disk, fs.next) == []
            && FirstFree(Slots(SectorAt(g.disk, fs.next)), 0)
            && SectorAt(g.disk, s)[0] == CONTINUED && NextSector(SectorAt(g.disk, s)) == fs.next
  {
    GrownInv(fs, s, d);
    var g, b, n := Grown(fs, s, d), SectorAt(fs.disk, s), fs.next;
    ContinuedIs(b, n);
    BlankSlots(FINAL);
    assert MetaOk(fs, s);
    BlankEntries(g.disk, Slots(Blank(FINAL)));
    LastListing(g.disk, n);
    EntriesSame(fs, g, d, s, Slots(b));
    LastListing(fs.disk, s);
    ContinuedListing(g.disk, s);
  }

  lemma ContinuedListing(disk: Disk, s: nat)
    requires var b := SectorAt(disk, s); b[0] == CONTINUED && s < NextSector(b) < |disk|
    ensures Listing(disk, s) == Entries(disk, Slots(SectorAt(disk, s))) + Listing(disk, NextSector(SectorAt(disk, s)))
  {
  }
}
