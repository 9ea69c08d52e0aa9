/**
The on-disk format of DemoFS as tools/mkdemofs.cpp writes it: sectors of 512 bytes,
directory sectors of a header and fifteen 32-byte slots, and file data in consecutive
sectors. Decoding is defined on any image at all.
 */
module DemoFsFormat {
  import opened Basics

  const SECTOR_SIZE := 512
  const SLOT_SIZE := 32
  const MAX_NAME_LENGTH := 24
  const INODE_LIMIT := 0x100_0000
  const LENGTH_LIMIT := 0x1_0000_0000

  const CONTINUED: Byte := 0xFE
  const FINAL: Byte := 0xFF

  type Sector = seq<Byte>
  type Disk = seq<Sector>

  datatype Entry = File(name: seq<Byte>, inode: nat, data: seq<Byte>) | Dir(name: seq<Byte>, inode: nat)

  function Zeros(n: nat): (r: seq<Byte>)
    ensures |r| == n
  {
    seq(n, _ => 0 as Byte)
  }

  /** A sector of the image, or zeros outside it. */
  function SectorAt(disk: Disk, s: nat): (r: Sector)
    ensures |r| == SECTOR_SIZE
  {
    if s < |disk| && |disk[s]| == SECTOR_SIZE then disk[s] else Zeros(SECTOR_SIZE)
  }

  // ---- numbers and names ----

  function Le(x: nat, n: nat): (r: seq<Byte>)
    ensures |r| == n
    decreases n
  {
    if n == 0 then [] else [(x % 256) as Byte] + Le(x / 256, n - 1)
  }

  function FromLe(b: seq<Byte>): nat {
    if b == [] then 0 else b[0] as nat + 256 * FromLe(b[1..])
  }

  function Power(n: nat): nat {
    if n == 0 then 1 else 256 * Power(n - 1)
  }

  lemma {:induction false} LittleEndian(x: nat, n: nat)
    requires x < Power(n)
    ensures FromLe(Le(x, n)) == x
    decreases n
  {
    if n > 0 {
      LittleEndian(x / 256, n - 1);
      assert Le(x, n)[1..] == Le(x / 256, n - 1);
    }
  }

  lemma Limits()
    ensures Power(3) == INODE_LIMIT && Power(4) == LENGTH_LIMIT
  {
  }

  /** The bytes up to the first zero. */
  function Trim(s: seq<Byte>): seq<Byte> {
    if s == [] || s[0] == 0 then [] else [s[0]] + Trim(s[1..])
  }

  predicate ValidName(name: seq<Byte>) {
    0 < |name| <= MAX_NAME_LENGTH && forall i | 0 <= i < |name| :: name[i] != 0
  }

  /** strncpy */
  function Padded(s: seq<Byte>, n: nat): (r: seq<Byte>)
    requires |s| <= n
    ensures |r| == n
  {
    s + Zeros(n - |s|)
  }

  lemma {:induction false} TrimPadded(s: seq<Byte>, n: nat)
    requires |s| <= n && forall i | 0 <= i < |s| :: s[i] != 0
    ensures Trim(Padded(s, n)) == s
  {
    if s != [] {
      assert Padded(s, n)[1..] == Padded(s[1..], n - 1);
      TrimPadded(s[1..], n - 1);
    }
  }

  // ---- slots ----

  function Encode(name: seq<Byte>, length: nat, inode: nat, flag: Byte): (r: seq<Byte>)
    requires |name| <= MAX_NAME_LENGTH
    ensures |r| == SLOT_SIZE
  {
    Padded(name, MAX_NAME_LENGTH) + Le(length, 4) + Le(inode, 3) + [flag]
  }

  function Decode(disk: Disk, slot: seq<Byte>): Entry
    requires |slot| == SLOT_SIZE
  {
    var name, length, inode := Trim(slot[..24]), FromLe(slot[24..28]), FromLe(slot[28..31]);
    if slot[31] == 1 then Dir(name, inode) else File(name, inode, ReadData(disk, inode, length))
  }

  lemma Parts(a: seq<Byte>, b: seq<Byte>, c: seq<Byte>, d: Byte)
    requires |a| == 24 && |b| == 4 && |c| == 3
    ensures var r := a + b + c + [d]; r[..24] == a && r[24..28] == b && r[28..31] == c && r[31] == d && r[0] == a[0]
  {
  }

  /** The format of a slot, byte by byte: name, length, sector number and flag, numbers with their low byte first. */
  lemma SlotFormat(name: seq<Byte>, length: nat, inode: nat, flag: Byte)
    requires |name| <= MAX_NAME_LENGTH
    ensures var r := Encode(name, length, inode, flag);
            && |r| == 32
            && (forall i | 0 <= i < 24 :: r[i] == if i < |name| then name[i] else 0)
            && r[24] as nat == length % 256 && r[25] as nat == length / 256 % 256
            && r[26] as nat == length / 65536 % 256 && r[27] as nat == length / 16777216 % 256
            && r[28] as nat == inode % 256 && r[29] as nat == inode / 256 % 256 && r[30] as nat == inode / 65536 % 256
            && r[31] == flag
  {
    var r := Encode(name, length, inode, flag);
    LowBytes(length, 4);
    LowBytes(inode, 3);
    Parts(Padded(name, MAX_NAME_LENGTH), Le(length, 4), Le(inode, 3), flag);
    assert forall i | 0 <= i < 4 :: r[24..28][i] == r[24 + i];
    assert forall i | 0 <= i < 3 :: r[28..31][i] == r[28 + i];
    assert forall i | 0 <= i < 24 :: r[..24][i] == r[i];
  }

  lemma LowBytes(x: nat, n: nat)
    requires n >= 3
    ensures Le(x, n)[0] as nat == x % 256 && Le(x, n)[1] as nat == x / 256 % 256 && Le(x, n)[2] as nat == x / 65536 % 256
    ensures n >= 4 ==> Le(x, n)[3] as nat == x / 16777216 % 256
  {
    var y := x / 256;
    var z := y / 256;
    assert z == x / 65536 && z / 256 == x / 16777216;
    assert Le(x, n)[1..] == Le(y, n - 1);
    assert Le(y, n - 1)[1..] == Le(z, n - 2);
    assert Le(x, n)[1] == Le(y, n - 1)[0] && Le(x, n)[2] == Le(y, n - 1)[1] == Le(z, n - 2)[0];
    if n >= 4 {
      assert Le(z, n - 2)[1..] == Le(z / 256, n - 3);
      assert Le(x, n)[3] == Le(y, n - 1)[2] == Le(z, n - 2)[1];
    }
  }

  lemma DecodeEncode(disk: Disk, name: seq<Byte>, length: nat, inode: nat, flag: Byte)
    requires ValidName(name) && length < LENGTH_LIMIT && inode < INODE_LIMIT
    ensures Encode(name, length, inode, flag)[0] != 0
    ensures Decode(disk, Encode(name, length, inode, flag)) ==
            if flag == 1 then Dir(name, inode) else File(name, inode, ReadData(disk, inode, length))
  {
    Limits();
    LittleEndian(length, 4);
    LittleEndian(inode, 3);
    TrimPadded(name, MAX_NAME_LENGTH);
    Parts(Padded(name, MAX_NAME_LENGTH), Le(length, 4), Le(inode, 3), flag);
  }

  // ---- file data ----

  function SectorsFor(length: nat): nat {
    (length + SECTOR_SIZE - 1) / SECTOR_SIZE
  }

  function ReadData(disk: Disk, inode: nat, length: nat): (r: seq<Byte>)
    ensures |r| == length
    decreases length
  {
    if length == 0 then []
    else
      var n := Min(length, SECTOR_SIZE);
      SectorAt(disk, inode)[..n] + ReadData(disk, inode + 1, length - n)
  }

  function FillData(disk: Disk, inode: nat, data: seq<Byte>): (r: Disk)
    requires inode + SectorsFor(|data|) <= |disk|
    ensures |r| == |disk|
    decreases |data|
  {
    if data == [] then disk
    else
      var n := Min(|data|, SECTOR_SIZE);
      FillData(disk[inode := Padded(data[..n], SECTOR_SIZE)], inode + 1, data[n..])
  }

  lemma {:induction false} FillOnly(disk: Disk, inode: nat, data: seq<Byte>, s: nat)
    requires inode + SectorsFor(|data|) <= |disk| && s < |disk| && !(inode <= s < inode + SectorsFor(|data|))
    ensures FillData(disk, inode, data)[s] == disk[s]
    decreases |data|
  {
    if data != [] {
      var n := Min(|data|, SECTOR_SIZE);
      FillOnly(disk[inode := Padded(data[..n], SECTOR_SIZE)], inode + 1, data[n..], s);
    }
  }

  lemma {:induction false} FillSizes(disk: Disk, inode: nat, data: seq<Byte>)
    requires inode + SectorsFor(|data|) <= |disk| && forall s | 0 <= s < |disk| :: |disk[s]| == SECTOR_SIZE
    ensures forall s | 0 <= s < |disk| :: |FillData(disk, inode, data)[s]| == SECTOR_SIZE
    decreases |data|
  {
    if data != [] {
      var n := Min(|data|, SECTOR_SIZE);
      FillSizes(disk[inode := Padded(data[..n], SECTOR_SIZE)], inode + 1, data[n..]);
    }
  }

  /** What was written is read back. */
  lemma {:induction false} ReadFilled(disk: Disk, inode: nat, data: seq<Byte>)
    requires inode + SectorsFor(|data|) <= |disk|
    ensures ReadData(FillData(disk, inode, data), inode, |data|) == data
    decreases |data|
  {
    if data != [] {
      var n := Min(|data|, SECTOR_SIZE);
      var next := disk[inode := Padded(data[..n], SECTOR_SIZE)];
      FillOnly(next, inode + 1, data[n..], inode);
      ReadFilled(next, inode + 1, data[n..]);
      assert SectorAt(FillData(disk, inode, data), inode)[..n] == data[..n];
      assert data == data[..n] + data[n..];
    }
  }

  /** Reading looks at no other sectors than the file's own. */
  lemma {:induction false} ReadSame(disk: Disk, disk': Disk, inode: nat, length: nat)
    requires forall s | inode <= s < inode + SectorsFor(length) :: SectorAt(disk', s) == SectorAt(disk, s)
    ensures ReadData(disk', inode, length) == ReadData(disk, inode, length)
    decreases length
  {
    if length > 0 {
      ReadSame(disk, disk', inode + 1, length - Min(length, SECTOR_SIZE));
    }
  }

  // ---- directories ----

  const ENTRIES := 15

  /** The slots of a directory sector; the header comes first and is not one of them. */
  function Slot(b: Sector, i: nat): (r: seq<Byte>)
    requires |b| == SECTOR_SIZE && i < ENTRIES
    ensures |r| == SLOT_SIZE
  {
    b[SLOT_SIZE * (i + 1)..SLOT_SIZE * (i + 1) + SLOT_SIZE]
  }

  predicate Proper(slots: seq<seq<Byte>>) {
    forall i | 0 <= i < |slots| :: |slots[i]| == SLOT_SIZE
  }

  function Slots(b: Sector): (r: seq<seq<Byte>>)
    requires |b| == SECTOR_SIZE
    ensures |r| == ENTRIES && Proper(r)
  {
    seq(ENTRIES, i requires 0 <= i < ENTRIES => Slot(b, i))
  }

  predicate InUse(slot: seq<Byte>)
    requires |slot| == SLOT_SIZE
  {
    slot[0] != 0
  }

  function Entries(disk: Disk, slots: seq<seq<Byte>>): seq<Entry>
    requires Proper(slots)
  {
    if slots == [] then []
    else (if InUse(slots[0]) then [Decode(disk, slots[0])] else []) + Entries(disk, slots[1..])
  }

  function NextSector(b: Sector): nat
    requires |b| == SECTOR_SIZE
  {
    FromLe(b[1..4])
  }

  /** All entries of the directory at a sector, following continuations. */
  function Listing(disk: Disk, s: nat): seq<Entry>
    decreases |disk| - s
  {
    var b := SectorAt(disk, s);
    Entries(disk, Slots(b)) +
    if b[0] == CONTINUED && s < NextSector(b) < |disk| then Listing(disk, NextSector(b)) else []
  }

  /** More entries at the end of a continuation are more entries at the end of the directory. */
  lemma ListingGrows(disk: Disk, disk': Disk, s: nat, more: seq<Entry>)
    requires |disk'| == |disk| && SectorAt(disk', s) == SectorAt(disk, s)
    requires Entries(disk', Slots(SectorAt(disk, s))) == Entries(disk, Slots(SectorAt(disk, s)))
    requires var b := SectorAt(disk, s);
             if b[0] == CONTINUED && s < NextSector(b) < |disk|
             then Listing(disk', NextSector(b)) == Listing(disk, NextSector(b)) + more
             else more == []
    ensures Listing(disk', s) == Listing(disk, s) + more
  {
    var b := SectorAt(disk, s);
    var a, n := Entries(disk, Slots(b)), NextSector(b);
    if b[0] == CONTINUED && s < n < |disk| {
      assert a + (Listing(disk, n) + more) == (a + Listing(disk, n)) + more;
    }
  }

  function PutSlot(b: Sector, i: nat, slot: seq<Byte>): (r: Sector)
    requires |b| == SECTOR_SIZE && i < ENTRIES && |slot| == SLOT_SIZE
    ensures |r| == SECTOR_SIZE
  {
    b[..SLOT_SIZE * (i + 1)] + slot + b[SLOT_SIZE * (i + 1) + SLOT_SIZE..]
  }

  lemma PutSlotAt(b: Sector, i: nat, slot: seq<Byte>)
    requires |b| == SECTOR_SIZE && i < ENTRIES && |slot| == SLOT_SIZE
    ensures Slots(PutSlot(b, i, slot)) == Slots(b)[i := slot]
    ensures PutSlot(b, i, slot)[0] == b[0] && PutSlot(b, i, slot)[1..4] == b[1..4]
  {
    var r := PutSlot(b, i, slot);
    forall j | 0 <= j < ENTRIES ensures Slot(r, j) == if i == j then slot else Slot(b, j) {
      forall k | 0 <= k < SLOT_SIZE
        ensures r[SLOT_SIZE * (j + 1) + k] == if i == j then slot[k] else b[SLOT_SIZE * (j + 1) + k] {
      }
    }
  }
}
