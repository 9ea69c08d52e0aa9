/**
The byte ring of sync/mailbox.c: a fixed buffer with a start and an end position that
wrap around, and the number of bytes in use.
 */
module MailboxRing {
  import opened Basics

  datatype Ring = Ring(data: seq<Byte>, start: nat, end: nat, used: nat)

  /** The index `i` places behind `from`, wrapping at `size`. */
  function Slot(from: nat, i: nat, size: nat): nat
    requires from < size && i <= size
  {
    if from + i < size then from + i else from + i - size
  }

  lemma OnceAround(x: nat, size: nat)
    requires size <= x < 2 * size
    ensures x % size == x - size
  {
    var q := x / size;
    assert x == size * q + x % size;
    assert q >= 2 ==> size * q >= size * 2;
    assert q <= 0 ==> size * q <= 0;
  }

  lemma SlotIsMod(from: nat, i: nat, size: nat)
    requires from < size && i <= size
    ensures (from + i) % size == Slot(from, i, size)
  {
    var x := from + i;
    if x >= size {
      OnceAround(x, size);
    }
  }

  ghost predicate RingOk(r: Ring) {
    && r.start < |r.data| && r.used <= |r.data|
    && r.end == Slot(r.start, r.used, |r.data|)
  }

  /** The bytes waiting, oldest first. */
  ghost function Contents(r: Ring): seq<Byte>
    requires RingOk(r)
  {
    seq(r.used, i requires 0 <= i < r.used => r.data[Slot(r.start, i, |r.data|)])
  }

  function Put(r: Ring, c: Byte): Ring
    requires r.end < |r.data|
  {
    Ring(r.data[r.end := c], r.start, (r.end + 1) % |r.data|, r.used + 1)
  }

  function Taken(r: Ring): Ring
    requires r.start < |r.data| && r.used > 0
  {
    r.(start := (r.start + 1) % |r.data|, used := r.used - 1)
  }

  lemma PutAppends(r: Ring, c: Byte)
    requires RingOk(r) && r.used < |r.data|
    ensures RingOk(Put(r, c)) && Contents(Put(r, c)) == Contents(r) + [c]
  {
    var r' := Put(r, c);
    SlotIsMod(r.end, 1, |r.data|);
    forall i | 0 <= i < r'.used ensures Contents(r')[i] == (Contents(r) + [c])[i] {
      assert i < r.used ==> Slot(r.start, i, |r.data|) != r.end;
    }
  }

  lemma TakenDrops(r: Ring)
    requires RingOk(r) && r.used > 0
    ensures RingOk(Taken(r)) && [r.data[r.start]] + Contents(Taken(r)) == Contents(r)
  {
    var r' := Taken(r);
    SlotIsMod(r.start, 1, |r.data|);
    forall i | 0 <= i < r'.used ensures Contents(r')[i] == Contents(r)[i + 1] {
    }
  }

  lemma MoveOver(a: seq<Byte>, b: seq<Byte>, c: Byte)
    ensures (a + [c]) + b == a + ([c] + b)
  {
  }

  /** The ring in place, with the copying loops of MailboxAddMany and MailboxGetMany. */
  class Buffer {
    const data: array<Byte>
    var startPos: nat
    var endPos: nat
    var usedSize: nat

    ghost function View(): Ring
      reads this, data
    {
      Ring(data[..], startPos, endPos, usedSize)
    }

    constructor (size: nat)
      requires size > 0
      ensures RingOk(View()) && Contents(View()) == [] && data.Length == size && fresh(data)
    {
      data := new Byte[size];
      startPos, endPos, usedSize := 0, 0, 0;
    }

    method AddBytes(c: seq<Byte>, n: nat)
      requires RingOk(View()) && n <= |c| && usedSize + n <= data.Length
      modifies this, data
      ensures RingOk(View()) && Contents(View()) == old(Contents(View())) + c[..n]
    {
      for i := 0 to n
        invariant RingOk(View()) && usedSize == old(usedSize) + i
        invariant Contents(View()) == old(Contents(View())) + c[..i]
      {
        PutAppends(View(), c[i]);
        ghost var r := View();
        data[endPos] := c[i];
        endPos := (endPos + 1) % data.Length;
        usedSize := usedSize + 1;
        assert View() == Put(r, c[i]);
        assert c[..i + 1] == c[..i] + [c[i]];
      }
    }

    method GetBytes(n: nat) returns (c: seq<Byte>)
      requires RingOk(View()) && n <= usedSize
      modifies this
      ensures RingOk(View()) && |c| == n && c + Contents(View()) == old(Contents(View()))
    {
      c := [];
      for i := 0 to n
        invariant RingOk(View()) && usedSize == old(usedSize) - i && |c| == i
        invariant c + Contents(View()) == old(Contents(View()))
      {
        TakenDrops(View());
        ghost var r := View();
        MoveOver(c, Contents(Taken(r)), data[startPos]);
        c := c + [data[startPos]];
        startPos := (startPos + 1) % data.Length;
        usedSize := usedSize - 1;
        assert View() == Taken(r);
      }
    }
  }
}
