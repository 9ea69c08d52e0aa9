/**
Moving a caller's buffer through a mailbox in chunks: intra-kernel transfers of
vfs/transfer.c and MailboxAccess of sync/mailbox.c.

A chunk is first taken from the transfer and then offered to the mailbox, which may
accept only part of it; the rest is given back to the transfer. How much the mailbox
accepts each time is up to the other threads, so it is a script of replies here.
 */
module Transfers {
  import opened Basics

  const CHUNK_SIZE := 256

  datatype Direction = Reading | Writing
  datatype Error = NoError | EAgain

  lemma Overwritten(m: seq<Byte>, a: nat, c: seq<Byte>, m': seq<Byte>)
    requires a + |c| <= |m| == |m'|
    requires forall k | 0 <= k < |m| :: m'[k] == if a <= k < a + |c| then c[k - a] else m[k]
    ensures m' == m[..a] + c + m[a + |c|..]
  {
  }

  lemma SliceStart(m: seq<Byte>, a: nat, n: nat, k: nat)
    requires a + n <= |m| && k <= n
    ensures m[a..a + n][..k] == m[a..a + k]
  {
  }

  /** The caller's side: a position in a buffer and how much of it is left to move. */
  class Transfer {
    const memory: array<Byte>
    const direction: Direction
    const blockable: bool
    var address: nat
    var lengthRemaining: nat
    var offset: nat

    ghost predicate Valid()
      reads this
    {
      address + lengthRemaining <= memory.Length
    }

    constructor (memory: array<Byte>, address: nat, length: nat, offset: nat, direction: Direction, blockable: bool)
      requires address + length <= memory.Length
      ensures Valid() && this.memory == memory && this.direction == direction && this.blockable == blockable
      ensures this.address == address && lengthRemaining == length && this.offset == offset
    {
      this.memory, this.direction, this.blockable := memory, direction, blockable;
      this.address, lengthRemaining, this.offset := address, length, offset;
    }

    /** The part of the state that moving n more bytes gives. */
    twostate predicate Moved(n: int)
      reads this
    {
      && address == old(address) + n
      && offset == old(offset) + n
      && lengthRemaining == old(lengthRemaining) - n
    }

    /** PerformTransfer out of the caller's buffer; the buffer keeps its bytes. */
    method PerformOut(len: nat) returns (c: seq<Byte>)
      requires Valid()
      modifies this
      ensures Valid() && |c| == Min(len, old(lengthRemaining)) && Moved(|c|)
      ensures c == memory[old(address)..old(address) + |c|]
    {
      var amount := Min(len, lengthRemaining);
      c := memory[address..address + amount];
      lengthRemaining := lengthRemaining - amount;
      offset := offset + amount;
      address := address + amount;
    }

    /** PerformTransfer into the caller's buffer; what does not fit there is not moved. */
    method PerformIn(c: seq<Byte>)
      requires Valid()
      modifies this, memory
      ensures var n := Min(|c|, old(lengthRemaining));
              && Valid() && Moved(n)
              && memory[..] == old(memory[..address]) + c[..n] + old(memory[address + n..])
    {
      var amount := Min(|c|, lengthRemaining);
      ghost var m := memory[..];
      for i := 0 to amount
        invariant address == old(address) && offset == old(offset) && lengthRemaining == old(lengthRemaining)
        invariant forall k | 0 <= k < memory.Length :: memory[k] == if address <= k < address + i then c[k - address] else m[k]
      {
        memory[address + i] := c[i];
      }
      Overwritten(m, address, c[..amount], memory[..]);
      lengthRemaining := lengthRemaining - amount;
      offset := offset + amount;
      address := address + amount;
    }

    method RevertTransfer(amount: nat)
      requires Valid() && amount <= address && amount <= offset
      modifies this
      ensures Valid() && Moved(0 as int - amount as int)
    {
      lengthRemaining := lengthRemaining + amount;
      offset := offset - amount;
      address := address - amount;
    }
  }

  /** What is left of the script after one more call. */
  function Rest(replies: seq<nat>): seq<nat> {
    if replies == [] then [] else replies[1..]
  }

  /** How many of at most n bytes go through now; none at all when nothing is free and the call may not wait. */
  function Granted(replies: seq<nat>, n: nat, blocking: bool): (k: nat)
    requires n > 0
    ensures k <= n && (blocking ==> k > 0)
  {
    var k := if replies == [] then 0 else Min(replies[0], n);
    if blocking && k == 0 then 1 else k
  }

  /**
  How many of n bytes a whole access moves when `avail` are there to be moved, and what is
  left of the script then: chunk after chunk until nothing goes through. Only the first
  chunk may wait.
   */
  function Access(replies: seq<nat>, n: nat, avail: nat, blocking: bool): (r: (nat, seq<nat>))
    ensures r.0 <= n && r.0 <= avail
    decreases n
  {
    if n == 0 then (0, replies)
    else
      var k := Min(Granted(replies, Min(n, CHUNK_SIZE), blocking), avail);
      if k == 0 then (0, Rest(replies))
      else
        var more := Access(Rest(replies), n - k, avail - k, false);
        (k + more.0, more.1)
  }

  /** The whole access, seen from a point where some bytes have moved. */
  ghost function Onward(replies: seq<nat>, n: nat, avail: nat, blocking: bool, done: nat): (nat, seq<nat>) {
    var more := Access(replies, n, avail, blocking);
    (done + more.0, more.1)
  }

  lemma OneRound(replies: seq<nat>, n: nat, avail: nat, blocking: bool, done: nat, k: nat)
    requires n > 0 && k == Min(Granted(replies, Min(n, CHUNK_SIZE), blocking), avail)
    ensures Onward(replies, n, avail, blocking, done) ==
            if k == 0 then (done, Rest(replies)) else Onward(Rest(replies), n - k, avail - k, false, done + k)
  {
  }

  /** Everything there is moves if the mailbox never refuses before that. */
  lemma {:induction false} AccessMovesAll(replies: seq<nat>, n: nat, avail: nat, blocking: bool)
    requires |replies| >= Min(n, avail) && forall i | 0 <= i < |replies| :: replies[i] > 0
    ensures Access(replies, n, avail, blocking).0 == Min(n, avail)
    decreases n
  {
    if n > 0 && avail > 0 {
      var k := Min(Granted(replies, Min(n, CHUNK_SIZE), blocking), avail);
      AccessMovesAll(Rest(replies), n - k, avail - k, false);
    }
  }

  /** A mailbox with room to spare takes a transfer in chunks of 256 bytes. */
  lemma {:induction false} AccessInChunks(replies: seq<nat>, n: nat, blocking: bool)
    requires forall i | 0 <= i < |replies| :: replies[i] >= 256
    requires |replies| >= (n + 255) / 256
    ensures Access(replies, n, n, blocking) == (n, replies[(n + 255) / 256..])
    decreases n
  {
    if n > 0 {
      var k := Min(n, 256);
      assert (n + 255) / 256 >= 1 && (n - k + 255) / 256 == (n + 255) / 256 - 1;
      AccessInChunks(replies[1..], n - k, false);
      assert replies[1..][(n + 255) / 256 - 1..] == replies[(n + 255) / 256..];
    }
  }

  /** An access that may not wait moves something exactly if the mailbox does not refuse its first chunk. */
  lemma AccessStarts(replies: seq<nat>, n: nat, avail: nat, blocking: bool)
    ensures Access(replies, n, avail, blocking).0 > 0 <==>
            n > 0 && avail > 0 && (blocking || (replies != [] && replies[0] > 0))
  {
  }

  /** The mailbox as one thread sees it: what it will accept, what it has accepted, what it will deliver. */
  class Peer {
    var replies: seq<nat>
    var accepted: seq<Byte>
    var incoming: seq<Byte>

    constructor (replies: seq<nat>, incoming: seq<Byte>)
      ensures this.replies == replies && accepted == [] && this.incoming == incoming
    {
      this.replies, accepted, this.incoming := replies, [], incoming;
    }

    method Reply(n: nat, blocking: bool) returns (k: nat)
      requires n > 0
      modifies this`replies
      ensures k == Granted(old(replies), n, blocking) && replies == Rest(old(replies))
    {
      k := if replies == [] then 0 else Min(replies[0], n);
      if replies != [] {
        replies := replies[1..];
      }
      if blocking && k == 0 {
        k := 1;
      }
    }

    /** MailboxWaitAddable and MailboxWaitGettable without waiting: could a byte go through now? */
    method Probe(gettable: bool) returns (res: Error)
      modifies this`replies
      ensures res == NoError <==> Granted(old(replies), 1, false) > 0 && (gettable ==> incoming != [])
      ensures replies == Rest(old(replies))
    {
      var k := Reply(1, false);
      res := if k > 0 && (gettable ==> incoming != []) then NoError else EAgain;
    }

    method AddMany(c: seq<Byte>, blocking: bool) returns (res: Error, added: nat)
      requires |c| > 0
      modifies this`replies, this`accepted
      ensures added == Granted(old(replies), |c|, blocking) && (res == NoError <==> added > 0)
      ensures accepted == old(accepted) + c[..added] && replies == Rest(old(replies))
    {
      added := Reply(|c|, blocking);
      res := if added > 0 then NoError else EAgain;
      accepted := accepted + c[..added];
    }

    method GetMany(n: nat, blocking: bool) returns (res: Error, c: seq<Byte>)
      requires n > 0
      modifies this`replies, this`incoming
      ensures |c| == Min(Granted(old(replies), n, blocking), |old(incoming)|) && (res == NoError <==> c != [])
      ensures c == old(incoming)[..|c|] && incoming == old(incoming)[|c|..] && replies == Rest(old(replies))
    {
      var k := Reply(n, blocking);
      k := Min(k, |incoming|);
      c := incoming[..k];
      incoming := incoming[k..];
      res := if k > 0 then NoError else EAgain;
    }
  }

  /** One round of MailboxAccess writing: what was taken but not accepted goes back. */
  method WriteRound(peer: Peer, tr: Transfer, canBlock: bool) returns (res: Error, added: nat)
    requires tr.Valid() && tr.lengthRemaining > 0
    modifies peer`replies, peer`accepted, tr
    ensures tr.Valid() && tr.Moved(added) && (res == NoError <==> added > 0)
    ensures added == Granted(old(peer.replies), Min(old(tr.lengthRemaining), CHUNK_SIZE), canBlock)
    ensures peer.accepted == old(peer.accepted) + tr.memory[old(tr.address)..tr.address]
    ensures peer.replies == Rest(old(peer.replies))
  {
    ghost var m := tr.memory[..];
    var oldRemaining := tr.lengthRemaining;
    var len := Min(tr.lengthRemaining, CHUNK_SIZE);
    var c := tr.PerformOut(len);
    var transferred := oldRemaining - tr.lengthRemaining;
    res, added := peer.AddMany(c, canBlock);
    if transferred != added {
      assert added <= transferred;
      tr.RevertTransfer(transferred - added);
    }
    SliceStart(m, old(tr.address), |c|, added);
  }

  lemma SliceJoins(s: seq<Byte>, a: nat, b: nat, c: nat)
    requires a <= b <= c <= |s|
    ensures s[a..b] + s[b..c] == s[a..c]
  {
  }

  /** One more round of an access that has moved some bytes and is to come to `goal`. */
  method WriteNext(peer: Peer, tr: Transfer, canBlock: bool, ghost base: seq<Byte>, ghost moved: nat, ghost goal: (nat, seq<nat>))
    returns (res: Error, added: nat)
    requires tr.Valid() && tr.lengthRemaining > 0 && moved <= tr.address
    requires peer.accepted == base + tr.memory[tr.address - moved..tr.address]
    requires Onward(peer.replies, tr.lengthRemaining, tr.lengthRemaining, canBlock, moved) == goal
    modifies peer`replies, peer`accepted, tr
    ensures tr.Valid() && tr.Moved(added) && (res == NoError <==> added > 0)
    ensures peer.accepted == base + tr.memory[old(tr.address) - moved..tr.address]
    ensures res == NoError ==> Onward(peer.replies, tr.lengthRemaining, tr.lengthRemaining, false, moved + added) == goal
    ensures res != NoError ==> goal == (moved, peer.replies)
  {
    ghost var replies, n, a := peer.replies, tr.lengthRemaining, tr.address;
    res, added := WriteRound(peer, tr, canBlock);
    OneRound(replies, n, n, canBlock, moved, added);
    SliceJoins(tr.memory[..], a - moved, a, tr.address);
    assert peer.accepted == base + tr.memory[..][a - moved..tr.address];
  }

  /** The loop of MailboxAccess, writing. */
  method WriteLoop(peer: Peer, tr: Transfer, ghost goal: (nat, seq<nat>)) returns (res: Error)
    requires tr.Valid() && tr.lengthRemaining > 0
    requires Onward(peer.replies, tr.lengthRemaining, tr.lengthRemaining, tr.blockable, 0) == goal
    modifies peer`replies, peer`accepted, tr
    ensures goal.0 <= old(tr.lengthRemaining) && tr.Valid() && tr.Moved(goal.0) && peer.replies == goal.1
    ensures peer.accepted == old(peer.accepted) + tr.memory[old(tr.address)..old(tr.address) + goal.0]
    ensures res == NoError <==> goal.0 > 0
  {
    ghost var base, moved := peer.accepted, 0;
    var doneAny := false;
    while tr.lengthRemaining > 0
      invariant tr.Valid() && tr.Moved(moved)
      invariant peer.accepted == base + tr.memory[tr.address - moved..tr.address]
      invariant doneAny <==> moved > 0
      invariant Onward(peer.replies, tr.lengthRemaining, tr.lengthRemaining, tr.blockable && !doneAny, moved) == goal
      decreases tr.lengthRemaining
    {
      var added;
      res, added := WriteNext(peer, tr, tr.blockable && !doneAny, base, moved, goal);
      moved := moved + added;
      if res != NoError {
        return if doneAny then NoError else res;
      }
      doneAny := true;
    }
    res := NoError;
  }

  /**
  MailboxAccess for a transfer into the mailbox, whatever part of each chunk it accepts:
  the bytes accepted are the consumed prefix of the buffer, in order, as many as the
  replies let through, and an error means that nothing moved. A call for no bytes only
  asks whether the mailbox would take one.
   */
  method AccessWrite(peer: Peer, tr: Transfer) returns (res: Error)
    requires tr.Valid()
    modifies peer`replies, peer`accepted, tr
    ensures var n := old(tr.lengthRemaining);
            var (moved, left) := Access(old(peer.replies), n, n, tr.blockable);
            && tr.Valid() && tr.Moved(moved)
            && peer.accepted == old(peer.accepted) + tr.memory[old(tr.address)..old(tr.address) + moved]
            && (n > 0 ==> peer.replies == left && (res == NoError <==> moved > 0))
            && (n == 0 ==> (res == NoError <==> Granted(old(peer.replies), 1, false) > 0))
  {
    ghost var n := tr.lengthRemaining;
    ghost var goal := Access(peer.replies, n, n, tr.blockable);
    if tr.lengthRemaining == 0 {
      res := peer.Probe(false);
    } else {
      res := WriteLoop(peer, tr, goal);
    }
  }

  /** The first k bytes sent have filled the buffer from position `from` on; the rest of it is as it was. */
  ghost predicate FilledTo(was: seq<Byte>, from: nat, sent: seq<Byte>, k: nat, m: seq<Byte>) {
    && k <= |sent| && from + k <= |was| == |m|
    && forall j {:trigger m[j]} | 0 <= j < |m| :: m[j] == if from <= j < from + k then sent[j - from] else was[j]
  }

  lemma FilledMore(was: seq<Byte>, from: nat, sent: seq<Byte>, k: nat, n: nat, m: seq<Byte>, m': seq<Byte>)
    requires FilledTo(was, from, sent, k, m) && FilledTo(m, from + k, sent[k..], n, m')
    ensures FilledTo(was, from, sent, k + n, m') && sent[k..][n..] == sent[k + n..]
  {
  }

  /** One round of MailboxAccess reading. */
  method ReadRound(peer: Peer, tr: Transfer, canBlock: bool) returns (res: Error, added: nat)
    requires tr.Valid() && tr.lengthRemaining > 0
    modifies peer`replies, peer`incoming, tr, tr.memory
    ensures tr.Valid() && tr.Moved(added) && (res == NoError <==> added > 0)
    ensures added == Min(Granted(old(peer.replies), Min(old(tr.lengthRemaining), CHUNK_SIZE), canBlock), |old(peer.incoming)|)
    ensures FilledTo(old(tr.memory[..]), old(tr.address), old(peer.incoming), added, tr.memory[..])
    ensures peer.incoming == old(peer.incoming)[added..] && peer.replies == Rest(old(peer.replies))
  {
    var c;
    res, c := peer.GetMany(Min(tr.lengthRemaining, CHUNK_SIZE), canBlock);
    added := |c|;
    assert c[..added] == c;
    if res == NoError {
      tr.PerformIn(c);
    }
    assert old(tr.memory[..]) == old(tr.memory[..tr.address]) + old(tr.memory[tr.address..]);
  }

  /** One more round of an access that has moved some bytes and is to come to `goal`. */
  method ReadNext(peer: Peer, tr: Transfer, canBlock: bool, ghost moved: nat, ghost goal: (nat, seq<nat>))
    returns (res: Error, added: nat)
    requires tr.Valid() && tr.lengthRemaining > 0
    requires Onward(peer.replies, tr.lengthRemaining, |peer.incoming|, canBlock, moved) == goal
    modifies peer`replies, peer`incoming, tr, tr.memory
    ensures tr.Valid() && tr.Moved(added) && (res == NoError <==> added > 0)
    ensures FilledTo(old(tr.memory[..]), old(tr.address), old(peer.incoming), added, tr.memory[..])
    ensures peer.incoming == old(peer.incoming)[added..]
    ensures res == NoError ==> Onward(peer.replies, tr.lengthRemaining, |peer.incoming|, false, moved + added) == goal
    ensures res != NoError ==> goal == (moved, peer.replies)
  {
    ghost var replies, n, avail := peer.replies, tr.lengthRemaining, |peer.incoming|;
    res, added := ReadRound(peer, tr, canBlock);
    OneRound(replies, n, avail, canBlock, moved, added);
  }

  /** The loop of MailboxAccess, reading. */
  method ReadLoop(peer: Peer, tr: Transfer, ghost goal: (nat, seq<nat>)) returns (res: Error)
    requires tr.Valid() && tr.lengthRemaining > 0
    requires Onward(peer.replies, tr.lengthRemaining, |peer.incoming|, tr.blockable, 0) == goal
    modifies peer`replies, peer`incoming, tr, tr.memory
    ensures goal.0 <= |old(peer.incoming)| && tr.Valid() && tr.Moved(goal.0) && peer.replies == goal.1
    ensures FilledTo(old(tr.memory[..]), old(tr.address), old(peer.incoming), goal.0, tr.memory[..])
    ensures peer.incoming == old(peer.incoming)[goal.0..]
    ensures res == NoError <==> goal.0 > 0
  {
    ghost var was, from, sent, moved := tr.memory[..], tr.address, peer.incoming, 0;
    var doneAny := false;
    while tr.lengthRemaining > 0
      invariant tr.Valid() && tr.Moved(moved) && FilledTo(was, from, sent, moved, tr.memory[..])
      invariant peer.incoming == sent[moved..]
      invariant doneAny <==> moved > 0
      invariant Onward(peer.replies, tr.lengthRemaining, |peer.incoming|, tr.blockable && !doneAny, moved) == goal
      decreases tr.lengthRemaining
    {
      ghost var m := tr.memory[..];
      var added;
      res, added := ReadNext(peer, tr, tr.blockable && !doneAny, moved, goal);
      FilledMore(was, from, sent, moved, added, m, tr.memory[..]);
      moved := moved + added;
      if res != NoError {
        return if doneAny then NoError else res;
      }
      doneAny := true;
    }
    res := NoError;
  }

  /**
  MailboxAccess for a transfer out of the mailbox: the bytes the mailbox delivers, as many as
  the replies let through, fill the buffer from the front, and nothing else in it changes.
   */
  method AccessRead(peer: Peer, tr: Transfer) returns (res: Error)
    requires tr.Valid()
    modifies peer`replies, peer`incoming, tr, tr.memory
    ensures var n := old(tr.lengthRemaining);
            var (moved, left) := Access(old(peer.replies), n, |old(peer.incoming)|, tr.blockable);
            && tr.Valid() && tr.Moved(moved)
            && FilledTo(old(tr.memory[..]), old(tr.address), old(peer.incoming), moved, tr.memory[..])
            && peer.incoming == old(peer.incoming)[moved..]
            && (n > 0 ==> peer.replies == left && (res == NoError <==> moved > 0))
            && (n == 0 ==> (res == NoError <==> Granted(old(peer.replies), 1, false) > 0 && old(peer.incoming) != []))
  {
    ghost var goal := Access(peer.replies, tr.lengthRemaining, |peer.incoming|, tr.blockable);
    if tr.lengthRemaining == 0 {
      res := peer.Probe(true);
    } else {
      res := ReadLoop(peer, tr, goal);
    }
  }
}
