/**
Building a DemoFS image in place: formatting, adding directories and adding files, as
tools/mkdemofs.cpp does it, with the promise that decoding the image gives back
exactly what was added.
 */
module DemoFsImage {
  import opened Basics
  import opened DemoFsFormat
  import opened DemoFsLayout

  const SUPERBLOCK := 8
  const DOTS: seq<Byte> := [46, 46]
  // the last length whose number of sectors is computed without leaving a signed 32-bit int
  const LENGTH_MAX := 0x7FFF_FE00

  /** The part of a name strncpy keeps. A name must not be empty, or its slot would look free. */
  function Cut(name: seq<Byte>): (r: seq<Byte>)
    ensures r == name <==> |name| <= MAX_NAME_LENGTH
  {
    name[..Min(|name|, MAX_NAME_LENGTH)]
  }

  ghost predicate Named(name: seq<Byte>) {
    |name| > 0 && forall i | 0 <= i < |name| :: name[i] != 0
  }

  /** The first sector of a directory: its only entry names the directory it is in. */
  function NewDir(parent: nat): Sector {
    PutSlot(Blank(FINAL), 0, Encode(DOTS, 0, parent, 1))
  }

  lemma NewDirOk(fs: Fs, s: nat, d: nat, parent: nat)
    requires |fs.kinds| == |fs.disk| && s < |fs.disk| && fs.disk[s] == NewDir(parent) && fs.kinds[s] == Meta(d)
    requires parent < INODE_LIMIT
    ensures MetaOk(fs, s) && Listing(fs.disk, s) == [Dir(DOTS, parent)]
  {
    var slot, b := Encode(DOTS, 0, parent, 1), Blank(FINAL);
    BlankSlots(FINAL);
    PutSlotAt(b, 0, slot);
    DecodeEncode(fs.disk, DOTS, 0, parent, 1);
    assert Decode(fs.disk, slot).Dir?;
    BlankEntries(fs.disk, Slots(b));
    EntriesAppend(fs.disk, Slots(b), 0, slot);
    LastListing(fs.disk, s);
  }

  ghost function WithData(kinds: seq<Kind>, at: nat, n: nat): (r: seq<Kind>)
    requires at + n <= |kinds|
    ensures |r| == |kinds|
  {
    seq(|kinds|, s requires 0 <= s < |kinds| => if at <= s < at + n then Data else kinds[s])
  }

  /** The image after a file's slot and data were written. */
  ghost function WithFile(fs: Fs, s: nat, i: nat, name: seq<Byte>, data: seq<Byte>): Fs
    requires Inv(fs) && s < fs.next && i < ENTRIES && fs.next + SectorsFor(|data|) <= |fs.disk|
  {
    var b := PutSlot(SectorAt(fs.disk, s), i, Encode(Cut(name), |data|, fs.next, 0));
    Fs(FillData(fs.disk[s := b], fs.next, data), fs.next + SectorsFor(|data|),
       WithData(fs.kinds, fs.next, SectorsFor(|data|)))
  }

  lemma SlotOfFile(fs: Fs, name: seq<Byte>, length: nat, inode: nat)
    requires Named(name) && length < LENGTH_LIMIT && inode < INODE_LIMIT && |fs.kinds| == |fs.disk|
    requires inode + SectorsFor(length) <= fs.next <= |fs.disk|
    requires forall s | inode <= s < inode + SectorsFor(length) :: fs.kinds[s] == Data
    ensures var slot := Encode(Cut(name), length, inode, 0);
            && InUse(slot) && SlotSafe(fs, slot)
            && Decode(fs.disk, slot) == File(Cut(name), inode, ReadData(fs.disk, inode, length))
  {
    DecodeEncode(fs.disk, Cut(name), length, inode, 0);
    Limits();
    LittleEndian(length, 4);
    LittleEndian(inode, 3);
    Parts(Padded(Cut(name), MAX_NAME_LENGTH), Le(length, 4), Le(inode, 3), 0);
  }

  lemma FileAdded(fs: Fs, s: nat, d: nat, i: nat, name: seq<Byte>, data: seq<Byte>)
    requires Inv(fs) && s < fs.next && fs.kinds[s] == Meta(d) && FirstFree(Slots(SectorAt(fs.disk, s)), i)
    requires Named(name) && |data| < LENGTH_LIMIT
    requires fs.next + SectorsFor(|data|) <= |fs.disk| && fs.next + SectorsFor(|data|) <= INODE_LIMIT && fs.next < INODE_LIMIT
    ensures var fs' := WithFile(fs, s, i, name, data);
            && Inv(fs') && Extends(fs, fs', d, s)
            && Listing(fs'.disk, s) == Listing(fs.disk, s) + [File(Cut(name), fs.next, data)]
  {
    var fs' := WithFile(fs, s, i, name, data);
    var slot := Encode(Cut(name), |data|, fs.next, 0);
    var disk := fs.disk[s := PutSlot(SectorAt(fs.disk, s), i, slot)];
    FillSizes(disk, fs.next, data);
    ReadFilled(disk, fs.next, data);
    forall t | 0 <= t < |fs.disk| && !(fs.next <= t < fs.next + SectorsFor(|data|)) ensures fs'.disk[t] == disk[t] {
      FillOnly(disk, fs.next, data, t);
    }
    SlotOfFile(fs', name, |data|, fs.next);
    PlaceSlot(fs, fs', s, d, i, slot);
  }

  /** The image after a directory's slot and its first sector were written. */
  ghost function WithDir(fs: Fs, s: nat, i: nat, name: seq<Byte>): Fs
    requires Inv(fs) && s < fs.next < |fs.disk| && i < ENTRIES
  {
    var b := PutSlot(SectorAt(fs.disk, s), i, Encode(Cut(name), 0, fs.next, 1));
    Fs(fs.disk[s := b][fs.next := NewDir(s)], fs.next + 1, fs.kinds[fs.next := Meta(fs.next)])
  }

  lemma DirAdded(fs: Fs, s: nat, d: nat, i: nat, name: seq<Byte>)
    requires Inv(fs) && s < fs.next && fs.kinds[s] == Meta(d) && FirstFree(Slots(SectorAt(fs.disk, s)), i)
    requires Named(name) && fs.next < |fs.disk| && fs.next < INODE_LIMIT
    ensures var fs' := WithDir(fs, s, i, name);
            && Inv(fs') && Extends(fs, fs', d, s)
            && Listing(fs'.disk, s) == Listing(fs.disk, s) + [Dir(Cut(name), fs.next)]
            && Listing(fs'.disk, fs.next) == [Dir(DOTS, s)]
  {
    var fs' := WithDir(fs, s, i, name);
    var slot := Encode(Cut(name), 0, fs.next, 1);
    DecodeEncode(fs'.disk, Cut(name), 0, fs.next, 1);
    assert slot[31] == 1;
    NewDirOk(fs', fs.next, fs.next, s);
    PlaceSlot(fs, fs', s, d, i, slot);
  }

  class Image {
    const sectors: array<Sector>
    var nextInode: nat
    ghost var kinds: seq<Kind>
    // what was added to each directory, in order
    ghost var added: map<nat, seq<Entry>>

    ghost function View(): Fs
      reads this, sectors
    {
      Fs(sectors[..], nextInode, kinds)
    }

    /**
    Decoding the image gives back, for every directory, exactly what was added to it. The
    superblock names the root directory, and no two files share a sector.
     */
    ghost predicate Valid()
      reads this, sectors
    {
      && Inv(View())
      && (forall d {:trigger added[d]} | d in added :: Lists(View(), d, added[d]))
      && NamesRoot(View())
      && Separate(added, nextInode)
    }

    /** demofs_format, on a disk of zeros. */
    constructor (total: nat, kernelInode: nat, kernelKilobytes: Byte)
      requires ROOT < total
      ensures Valid() && fresh(sectors) && sectors.Length == total && nextInode == ROOT + 1
      ensures added == map[ROOT := [Dir(DOTS, ROOT)]]
    {
      sectors := new Sector[total](_ => Zeros(SECTOR_SIZE));
      nextInode := ROOT + 1;
      kinds := seq(total, s => if s < ROOT then Boot else if s == ROOT then Meta(ROOT) else Unused);
      added := map[ROOT := [Dir(DOTS, ROOT)]];
      new;
      sectors[0] := Zeros(SECTOR_SIZE);
      sectors[SUPERBLOCK] := Superblock(total, kernelInode, kernelKilobytes);
      SuperblockNamesRoot(total, kernelInode, kernelKilobytes);
      sectors[ROOT] := NewDir(ROOT);
      NewDirOk(View(), ROOT, ROOT, ROOT);
    }

    method FindFree(b: Sector) returns (i: nat)
      requires |b| == SECTOR_SIZE
      ensures i <= ENTRIES
      ensures if i < ENTRIES then FirstFree(Slots(b), i) else Full(Slots(b))
    {
      i := 0;
      while i < ENTRIES
        invariant i <= ENTRIES && forall j | 0 <= j < i :: InUse(Slots(b)[j])
      {
        assert b[SLOT_SIZE * (i + 1)] == Slots(b)[i][0];
        if b[SLOT_SIZE * (i + 1)] == 0 {
          return;
        }
        i := i + 1;
      }
    }

    /** Writes the slot and the data of a file into a directory sector with room for it. */
    method PutFile(s: nat, i: nat, name: seq<Byte>, data: seq<Byte>, ghost d: nat)
      requires Inv(View()) && s < nextInode && kinds[s] == Meta(d)
      requires FirstFree(Slots(SectorAt(sectors[..], s)), i) && Named(name) && |data| < LENGTH_LIMIT
      requires nextInode + SectorsFor(|data|) <= sectors.Length
      requires nextInode + SectorsFor(|data|) <= INODE_LIMIT && nextInode < INODE_LIMIT
      modifies this`nextInode, this`kinds, sectors
      ensures View() == WithFile(old(View()), s, i, name, data)
    {
      ghost var fs := View();
      ghost var final := WithFile(fs, s, i, name, data);
      var slot := Encode(Cut(name), |data|, nextInode, 0);
      sectors[s] := PutSlot(sectors[s], i, slot);
      assert sectors[..] == fs.disk[s := PutSlot(fs.disk[s], i, slot)];
      kinds := final.kinds;
      PutData(data);
    }

    /** The loop that writes a file's sectors. */
    method PutData(data: seq<Byte>)
      requires nextInode + SectorsFor(|data|) <= sectors.Length
      modifies this`nextInode, sectors
      ensures nextInode == old(nextInode) + SectorsFor(|data|)
      ensures sectors[..] == FillData(old(sectors[..]), old(nextInode), data)
    {
      var length := |data|;
      var left := data;
      var numSects := SectorsFor(length);
      for j := 0 to numSects
        invariant nextInode == old(nextInode) + j && SectorsFor(|left|) == numSects - j
        invariant FillData(sectors[..], nextInode, left) == FillData(old(sectors[..]), old(nextInode), data)
      {
        var n := Min(|left|, SECTOR_SIZE);
        ghost var before := sectors[..];
        sectors[nextInode] := Padded(left[..n], SECTOR_SIZE);
        assert sectors[..] == before[nextInode := Padded(left[..n], SECTOR_SIZE)];
        nextInode := nextInode + 1;
        left := left[n..];
      }
    }

    /** A full last sector is continued in a new one. */
    method Grow(s: nat, ghost d: nat)
      requires CanGrow(View(), s, d)
      modifies this`nextInode, this`kinds, sectors
      ensures View() == Grown(old(View()), s, d)
    {
      ghost var fs := View();
      var n := nextInode;
      nextInode := nextInode + 1;
      sectors[s] := Continued(sectors[s], n);
      sectors[n] := Blank(FINAL);
      kinds := kinds[n := Meta(d)];
      assert sectors[..] == Grown(fs, s, d).disk;
    }

    /** Writes the slot of a directory and its first sector. The slot's length bytes are left as they were. */
    method PutDir(s: nat, i: nat, name: seq<Byte>, ghost d: nat)
      requires Inv(View()) && s < nextInode && kinds[s] == Meta(d)
      requires FirstFree(Slots(SectorAt(sectors[..], s)), i) && Named(name)
      requires nextInode < sectors.Length && nextInode < INODE_LIMIT
      modifies this`nextInode, this`kinds, sectors
      ensures View() == WithDir(old(View()), s, i, name)
    {
      ghost var fs := View();
      assert MetaOk(fs, s);
      var b, n := sectors[s], nextInode;
      assert Slot(b, i) == Slots(b)[i] == Zeros(SLOT_SIZE);
      var slot := Padded(Cut(name), MAX_NAME_LENGTH) + Slot(b, i)[24..28] + Le(n, 3) + [1];
      assert Slot(b, i)[24..28] == Le(0, 4);
      sectors[s] := PutSlot(b, i, slot);
      sectors[n] := NewDir(s);
      nextInode := n + 1;
      kinds := kinds[n := Meta(n)];
      assert sectors[..] == WithDir(fs, s, i, name).disk;
    }

    /** demofs_write: finds a free slot along the chain of sectors, adding a sector at its end if there is none. */
    method Write(parent: nat, name: seq<Byte>, data: seq<Byte>, ghost d: nat) returns (inode: nat)
      requires Roomy(View(), parent, d, SectorsFor(|data|)) && Named(name) && |data| <= LENGTH_MAX
      modifies this`nextInode, this`kinds, sectors
      ensures Inv(View()) && Extends(old(View()), View(), d, parent) && inode < INODE_LIMIT
      ensures old(nextInode) <= inode && inode + SectorsFor(|data|) <= nextInode
      ensures Listing(sectors[..], parent) == old(Listing(sectors[..], parent)) + [File(Cut(name), inode, data)]
      decreases sectors.Length - parent
    {
      ghost var fs := View();
      assert MetaOk(fs, parent);
      var b := sectors[parent];
      var i := FindFree(b);
      if i < ENTRIES {
        FileAdded(fs, parent, d, i, name, data);
        inode := nextInode;
        PutFile(parent, i, name, data, d);
        return;
      }
      var next;
      if b[0] == CONTINUED {
        next := NextSector(b);
      } else {
        next := nextInode;
        GrownKeeps(fs, parent, d);
        Grow(parent, d);
      }
      ghost var grown := View();
      inode := Write(next, name, data, d);
      FurtherOn(fs, grown, View(), parent, d, [File(Cut(name), inode, data)]);
    }

    /** demofs_mkdir, in the same way; `holder` is the sector its entry ended up in. */
    method Mkdir(parent: nat, name: seq<Byte>, ghost d: nat) returns (inode: nat, ghost holder: nat)
      requires Roomy(View(), parent, d, 1) && Named(name)
      modifies this`nextInode, this`kinds, sectors
      ensures Inv(View()) && Extends(old(View()), View(), d, parent) && old(nextInode) <= inode < nextInode
      ensures Listing(sectors[..], parent) == old(Listing(sectors[..], parent)) + [Dir(Cut(name), inode)]
      ensures kinds[inode] == Meta(inode) && Listing(sectors[..], inode) == [Dir(DOTS, holder)]
      ensures holder < nextInode && kinds[holder] == Meta(d)
      ensures !Full(Slots(SectorAt(old(sectors[..]), parent))) ==> holder == parent
      decreases sectors.Length - parent
    {
      ghost var fs := View();
      assert MetaOk(fs, parent);
      var b := sectors[parent];
      var i := FindFree(b);
      if i < ENTRIES {
        DirAdded(fs, parent, d, i, name);
        inode, holder := nextInode, parent;
        PutDir(parent, i, name, d);
        return;
      }
      var next;
      if b[0] == CONTINUED {
        next := NextSector(b);
      } else {
        next := nextInode;
        GrownKeeps(fs, parent, d);
        Grow(parent, d);
      }
      ghost var grown := View();
      inode, holder := Mkdir(next, name, d);
      FurtherOn(fs, grown, View(), parent, d, [Dir(Cut(name), inode)]);
    }

    /** Adds a file to a directory; nothing else in the image reads differently afterwards. */
    method AddFile(d: nat, name: seq<Byte>, data: seq<Byte>) returns (inode: nat)
      requires Valid() && d in added && Named(name) && |data| <= LENGTH_MAX
      requires Roomy(View(), d, d, SectorsFor(|data|))
      modifies this, sectors
      ensures Valid()
      ensures added == old(added)[d := old(added[d]) + [File(Cut(name), inode, data)]]
    {
      ghost var fs := View();
      assert Lists(fs, d, added[d]);
      inode := Write(d, name, data, d);
      OthersSame(fs, View(), d, added);
      OneMoreEntry(added, fs.next, d, File(Cut(name), inode, data), nextInode);
      added := added[d := added[d] + [File(Cut(name), inode, data)]];
    }

    /** Adds a directory to a directory. */
    method AddDir(d: nat, name: seq<Byte>) returns (inode: nat, ghost holder: nat)
      requires Valid() && d in added && Named(name) && Roomy(View(), d, d, 1)
      modifies this, sectors
      ensures Valid() && inode !in old(added) && holder < |kinds| && kinds[holder] == Meta(d)
      ensures added == old(added)[d := old(added[d]) + [Dir(Cut(name), inode)]][inode := [Dir(DOTS, holder)]]
    {
      ghost var fs := View();
      assert Lists(fs, d, added[d]);
      inode, holder := Mkdir(d, name, d);
      NewIsNew(fs, added, inode);
      OthersSame(fs, View(), d, added);
      ghost var more := added[d] + [Dir(Cut(name), inode)];
      TwoListed(View(), added, d, more, inode, [Dir(DOTS, holder)]);
      OneMoreEntry(added, fs.next, d, Dir(Cut(name), inode), nextInode);
      OneMoreDirectory(added[d := more], nextInode, inode, Dir(DOTS, holder));
      added := added[d := more][inode := [Dir(DOTS, holder)]];
    }
  }

  /** No sector of the chain has a free slot. */
  ghost predicate ChainFull(disk: Disk, s: nat)
    decreases |disk| - s
  {
    var b := SectorAt(disk, s);
    && Full(Slots(b))
    && (b[0] == CONTINUED && s < NextSector(b) < |disk| ==> ChainFull(disk, NextSector(b)))
  }

  /** There are enough sectors, with numbers of 24 bits, for `n` more and for a continuation if one is needed. */
  ghost predicate Roomy(fs: Fs, s: nat, d: nat, n: nat) {
    && Inv(fs) && s < fs.next && fs.kinds[s] == Meta(d)
    && var more := if ChainFull(fs.disk, s) then 1 else 0;
    && fs.next + n + more <= |fs.disk| && fs.next + n + more <= INODE_LIMIT && fs.next + more < INODE_LIMIT
  }

  ghost predicate NamesRoot(fs: Fs) {
    && SUPERBLOCK < |fs.disk| == |fs.kinds| && fs.kinds[SUPERBLOCK] == Boot
    && |fs.disk[SUPERBLOCK]| == SECTOR_SIZE && RootInode(fs.disk[SUPERBLOCK]) == ROOT
  }

  ghost predicate Occupies(e: Entry, s: nat) {
    e.File? && e.inode <= s < e.inode + SectorsFor(|e.data|)
  }

  ghost predicate NoShare(e: Entry, e': Entry) {
    forall s: nat {:trigger Occupies(e, s)} :: !(Occupies(e, s) && Occupies(e', s))
  }

  ghost predicate Ends(e: Entry, limit: nat) {
    forall s: nat | Occupies(e, s) :: s < limit
  }

  /** The files lie in the sectors given out so far, and no two of them share a sector. */
  ghost predicate Separate(added: map<nat, seq<Entry>>, limit: nat) {
    && (forall d, i {:trigger added[d][i]} | d in added && 0 <= i < |added[d]| :: Ends(added[d][i], limit))
    && (forall d, i, e, j {:trigger added[d][i], added[e][j]} |
          && d in added && 0 <= i < |added[d]| && e in added && 0 <= j < |added[e]| && (d != e || i != j) ::
          NoShare(added[d][i], added[e][j]))
  }

  /** An entry that lies above everything given out so far. */
  ghost predicate Above(x: Entry, limit: nat, limit': nat) {
    limit <= limit' && (x.File? ==> limit <= x.inode && x.inode + SectorsFor(|x.data|) <= limit')
  }

  lemma AboveNoShare(e: Entry, x: Entry, limit: nat, limit': nat)
    requires Ends(e, limit) && Above(x, limit, limit')
    ensures NoShare(e, x) && NoShare(x, e) && Ends(e, limit')
  {
    forall s: nat ensures !(Occupies(e, s) && Occupies(x, s)) {
    }
  }

  lemma OneMoreEntry(added: map<nat, seq<Entry>>, limit: nat, d: nat, x: Entry, limit': nat)
    requires Separate(added, limit) && d in added && Above(x, limit, limit')
    ensures Separate(added[d := added[d] + [x]], limit')
  {
    var more := added[d := added[d] + [x]];
    forall c, i | c in added && 0 <= i < |added[c]|
      ensures NoShare(added[c][i], x) && NoShare(x, added[c][i]) && Ends(added[c][i], limit')
    {
      AboveNoShare(added[c][i], x, limit, limit');
    }
    forall c, i, e, j | c in more && 0 <= i < |more[c]| && e in more && 0 <= j < |more[e]| && (c != e || i != j)
      ensures NoShare(more[c][i], more[e][j])
    {
      if i < |added[c]| && j < |added[e]| {
        assert NoShare(added[c][i], added[e][j]);
      }
    }
  }

  lemma OneMoreDirectory(added: map<nat, seq<Entry>>, limit: nat, k: nat, first: Entry)
    requires Separate(added, limit) && k !in added && first.Dir?
    ensures Separate(added[k := [first]], limit)
  {
  }

  /** Entries added further along the chain are added to the directory as a whole. */
  lemma FurtherOn(fs: Fs, grown: Fs, fs': Fs, s: nat, d: nat, more: seq<Entry>)
    requires Inv(fs) && Inv(grown) && Inv(fs') && s < fs.next && fs.kinds[s] == Meta(d)
    requires Extends(fs, grown, d, s) && Listing(grown.disk, s) == Listing(fs.disk, s)
    requires var b := SectorAt(grown.disk, s);
             && b[0] == CONTINUED && s < NextSector(b) < |grown.disk|
             && Extends(grown, fs', d, NextSector(b))
             && Listing(fs'.disk, NextSector(b)) == Listing(grown.disk, NextSector(b)) + more
    ensures Extends(fs, fs', d, s) && Listing(fs'.disk, s) == Listing(fs.disk, s) + more
  {
    var b := SectorAt(grown.disk, s);
    assert MetaOk(grown, s);
    ExtendsJoins(fs, grown, fs', d, s, NextSector(b));
    EntriesSame(grown, fs', d, NextSector(b), Slots(b));
    ListingGrows(grown.disk, fs'.disk, s, more);
  }

  lemma NewIsNew(fs: Fs, added: map<nat, seq<Entry>>, inode: nat)
    requires (forall e | e in added :: Lists(fs, e, added[e])) && inode >= fs.next
    ensures inode !in added
  {
    assert inode in added ==> Lists(fs, inode, added[inode]);
  }

  lemma TwoListed(fs: Fs, added: map<nat, seq<Entry>>, d: nat, more: seq<Entry>, inode: nat, first: seq<Entry>)
    requires forall e | e in added && e != d :: Lists(fs, e, added[e])
    requires Lists(fs, d, more) && Lists(fs, inode, first)
    ensures var all := added[d := more][inode := first]; forall e | e in all :: Lists(fs, e, all[e])
  {
  }

  lemma OthersSame(fs: Fs, fs': Fs, d: nat, added: map<nat, seq<Entry>>)
    requires Inv(fs) && Inv(fs') && Extends(fs, fs', d, d) && forall e | e in added :: Lists(fs, e, added[e])
    ensures forall e | e in added && e != d :: Lists(fs', e, added[e])
  {
    forall e | e in added && e != d ensures Lists(fs', e, added[e]) {
      assert Lists(fs, e, added[e]);
      ListingSame(fs, fs', d, d, e, e);
    }
  }

  ghost predicate Lists(fs: Fs, d: nat, entries: seq<Entry>) {
    d < fs.next <= |fs.kinds| && fs.kinds[d] == Meta(d) && Listing(fs.disk, d) == entries
  }

  /** The superblock: a signature, the logarithm of the sector size and three sector numbers. */
  function Superblock(total: nat, kernelInode: nat, kernelKilobytes: Byte): (r: Sector)
    ensures |r| == SECTOR_SIZE
  {
    [68, 69, 77, 79, 0, 9] + Le(ROOT, 3) + Le(total, 3) + Le(kernelInode, 3) + [kernelKilobytes] + Zeros(496)
  }

  function RootInode(b: Sector): nat
    requires |b| == SECTOR_SIZE
  {
    FromLe(b[6..9])
  }

  /** The format of directory sectors: the header, where the slots are, and how a sector names its continuation. */
  lemma DirectoryFormat(b: Sector, n: nat, parent: nat, i: nat)
    requires |b| == 512 && i < 15
    ensures |Slots(b)| == 15 && Slots(b)[i] == b[32 * i + 32..32 * i + 64]
    ensures NewDir(parent)[0] == 255 && Slots(NewDir(parent))[0] == Encode([46, 46], 0, parent, 1)
    ensures Blank(FINAL)[0] == 255 && forall j | 1 <= j < 512 :: Blank(FINAL)[j] == 0
    ensures var r := Continued(b, n);
            && r[0] == 254 && r[4..] == b[4..]
            && r[1] as nat == n % 256 && r[2] as nat == n / 256 % 256 && r[3] as nat == n / 65536 % 256
  {
    PutSlotAt(Blank(FINAL), 0, Encode(DOTS, 0, parent, 1));
    LowBytes(n, 3);
  }

  /** The superblock, byte by byte. */
  lemma SuperblockFormat(total: nat, kernelInode: nat, kernelKilobytes: Byte)
    ensures var r := Superblock(total, kernelInode, kernelKilobytes);
            && |r| == 512 && r[..6] == [68, 69, 77, 79, 0, 9]
            && r[6] == 9 && r[7] == 0 && r[8] == 0
            && r[9] as nat == total % 256 && r[10] as nat == total / 256 % 256 && r[11] as nat == total / 65536 % 256
            && r[12] as nat == kernelInode % 256 && r[13] as nat == kernelInode / 256 % 256 && r[14] as nat == kernelInode / 65536 % 256
            && r[15] == kernelKilobytes && forall i | 16 <= i < 512 :: r[i] == 0
  {
    LowBytes(ROOT, 3);
    LowBytes(total, 3);
    LowBytes(kernelInode, 3);
  }

  lemma SuperblockNamesRoot(total: nat, kernelInode: nat, kernelKilobytes: Byte)
    ensures RootInode(Superblock(total, kernelInode, kernelKilobytes)) == ROOT
  {
    Limits();
    LittleEndian(ROOT, 3);
    assert Superblock(total, kernelInode, kernelKilobytes)[6..9] == Le(ROOT, 3);
  }
}
