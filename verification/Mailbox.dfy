/**
Threads adding to and getting from one mailbox (sync/mailbox.c), interleaved in any
way: single and batch calls, probes that add or get nothing, and waits that fail.

A thread's program counter says what it does next. Acquiring a semaphore is one step,
enabled while a unit is free; a unit handed to a waiter is a release followed at once
by that waiter's acquire. The semaphores count units taken, as the source's do: room
for a byte is a unit of `empty`, a byte to read is a unit of `full`.
 */
module Mailbox {
  import opened Basics
  import opened MailboxRing
  import BlockingRuns
  import Blocking

  datatype Pc =
    | Idle
      // adding: the bytes to add, the units taken, the bytes written so far
    | WantAdd(c: seq<Byte>, probe: bool)
    | WantRoom(c: seq<Byte>, probe: bool)
    | NoRoom
    | GatherRoom(c: seq<Byte>, n: nat)
    | WantRingToAdd(c: seq<Byte>, n: nat)
    | Writing(c: seq<Byte>, n: nat, i: nat)
    | Written(c: seq<Byte>, n: nat)
    | Announce(n: nat)
    | RoomProbe
    | AddProbed
      // getting: the most to get, the units taken, the bytes read so far
    | WantGet(max: nat, probe: bool)
    | WantByte(max: nat, probe: bool)
    | NoByte
    | GatherBytes(max: nat, n: nat)
    | WantRingToGet(n: nat)
    | Reading(n: nat, got: seq<Byte>)
    | Read(got: seq<Byte>)
    | GiveBack(n: nat)
    | ByteProbe
    | GetProbed

  datatype Event = AddCall(c: seq<Byte>, probe: bool) | GetCall(max: nat, probe: bool) | GiveUp | Advance

  /** The last two fields are history: every byte ever put in and every byte ever taken out. */
  datatype Box = Box(ring: Ring, empty: int, full: int, add: int, get: int, inner: int, threads: seq<Pc>,
                     written: seq<Byte>, read: seq<Byte>)

  function Size(b: Box): nat {
    |b.ring.data|
  }

  // ---- steps ----

  /** Whether thread t can do what the event says now. */
  ghost predicate Enabled(b: Box, t: nat, e: Event) {
    t < |b.threads| &&
    match e
    case AddCall(c, _) => b.threads[t].Idle? && |c| > 0
    case GetCall(max, _) => b.threads[t].Idle? && max > 0
    case GiveUp => b.threads[t].WantAdd? || b.threads[t].WantRoom? || b.threads[t].WantGet? || b.threads[t].WantByte?
    case Advance =>
      match b.threads[t]
      case Idle => false
      case WantAdd(_, _) => b.add < 1
      case WantRoom(_, _) => b.empty < Size(b)
      case WantGet(_, _) => b.get < 1
      case WantByte(_, _) => b.full < Size(b)
      case WantRingToAdd(_, _) => b.inner < 1
      case WantRingToGet(_) => b.inner < 1
      case Writing(_, _, _) => b.ring.end < Size(b)
      case Reading(_, _) => b.ring.start < Size(b)
      case _ => true
  }

  function Goto(b: Box, t: nat, pc: Pc): Box
    requires t < |b.threads|
  {
    b.(threads := b.threads[t := pc])
  }

  ghost function AddStep(b: Box, t: nat): Box
    requires t < |b.threads| && PcOk(b.threads[t])
    requires b.threads[t].Writing? ==> b.ring.end < Size(b)
  {
    match b.threads[t]
    case WantAdd(c, probe) => Goto(b, t, WantRoom(c, probe)).(add := b.add + 1)
    case WantRoom(c, probe) => Goto(b, t, if probe then RoomProbe else GatherRoom(c, 1)).(empty := b.empty + 1)
    case NoRoom => Goto(b, t, Idle).(add := b.add - 1)
    case GatherRoom(c, n) =>
      if n < |c| && b.empty < Size(b) then Goto(b, t, GatherRoom(c, n + 1)).(empty := b.empty + 1)
      else Goto(b, t, WantRingToAdd(c, n))
    case WantRingToAdd(c, n) => Goto(b, t, Writing(c, n, 0)).(inner := b.inner + 1)
    case Writing(c, n, i) =>
      if i < n then Goto(b, t, Writing(c, n, i + 1)).(ring := Put(b.ring, c[i]), written := b.written + [c[i]])
      else Goto(b, t, Written(c, n)).(inner := b.inner - 1)
    case Written(c, n) => Goto(b, t, Announce(n)).(add := b.add - 1)
    case Announce(n) => Goto(b, t, Idle).(full := b.full - n)
    case RoomProbe => Goto(b, t, AddProbed).(empty := b.empty - 1)
    case AddProbed => Goto(b, t, Idle).(add := b.add - 1)
    case _ => b
  }

  ghost function GetStep(b: Box, t: nat): Box
    requires t < |b.threads| && PcOk(b.threads[t])
    requires b.threads[t].Reading? ==> b.ring.start < Size(b) && (|b.threads[t].got| < b.threads[t].n ==> b.ring.used > 0)
  {
    match b.threads[t]
    case WantGet(max, probe) => Goto(b, t, WantByte(max, probe)).(get := b.get + 1)
    case WantByte(max, probe) => Goto(b, t, if probe then ByteProbe else GatherBytes(max, 1)).(full := b.full + 1)
    case NoByte => Goto(b, t, Idle).(get := b.get - 1)
    case GatherBytes(max, n) =>
      if n < max && b.full < Size(b) then Goto(b, t, GatherBytes(max, n + 1)).(full := b.full + 1)
      else Goto(b, t, WantRingToGet(n))
    case WantRingToGet(n) => Goto(b, t, Reading(n, [])).(inner := b.inner + 1)
    case Reading(n, got) =>
      if |got| < n then
        var c := b.ring.data[b.ring.start];
        Goto(b, t, Reading(n, got + [c])).(ring := Taken(b.ring), read := b.read + [c])
      else Goto(b, t, Read(got)).(inner := b.inner - 1)
    case Read(got) => Goto(b, t, GiveBack(|got|)).(get := b.get - 1)
    case GiveBack(n) => Goto(b, t, Idle).(empty := b.empty - n)
    case ByteProbe => Goto(b, t, GetProbed).(full := b.full - 1)
    case GetProbed => Goto(b, t, Idle).(get := b.get - 1)
    case _ => b
  }

  predicate Adding(pc: Pc) {
    pc.WantAdd? || pc.WantRoom? || pc.NoRoom? || pc.GatherRoom? || pc.WantRingToAdd? || pc.Writing? || pc.Written?
    || pc.Announce? || pc.RoomProbe? || pc.AddProbed?
  }

  // ---- what each thread holds ----

  /** The mutexes a thread holds and the units it has taken, before and after moving the bytes they stand for. */
  datatype Share = Share(add: int, get: int, inner: int, room: int, announce: int, bytes: int, back: int)

  function Plus(a: Share, b: Share): Share {
    Share(a.add + b.add, a.get + b.get, a.inner + b.inner, a.room + b.room, a.announce + b.announce,
          a.bytes + b.bytes, a.back + b.back)
  }

  predicate AtMost(a: Share, b: Share) {
    && a.add <= b.add && a.get <= b.get && a.inner <= b.inner && a.room <= b.room && a.announce <= b.announce
    && a.bytes <= b.bytes && a.back <= b.back
  }

  const NOTHING := Share(0, 0, 0, 0, 0, 0, 0)

  function ShareOf(pc: Pc): Share {
    match pc
    case WantRoom(_, _) => NOTHING.(add := 1)
    case NoRoom => NOTHING.(add := 1)
    case GatherRoom(_, n) => NOTHING.(add := 1, room := n)
    case WantRingToAdd(_, n) => NOTHING.(add := 1, room := n)
    case Writing(_, n, i) => NOTHING.(add := 1, inner := 1, room := n - i, announce := i)
    case Written(_, n) => NOTHING.(add := 1, announce := n)
    case Announce(n) => NOTHING.(announce := n)
    case RoomProbe => NOTHING.(add := 1, room := 1)
    case AddProbed => NOTHING.(add := 1)
    case WantByte(_, _) => NOTHING.(get := 1)
    case NoByte => NOTHING.(get := 1)
    case GatherBytes(_, n) => NOTHING.(get := 1, bytes := n)
    case WantRingToGet(n) => NOTHING.(get := 1, bytes := n)
    case Reading(n, got) => NOTHING.(get := 1, inner := 1, bytes := n - |got|, back := |got|)
    case Read(got) => NOTHING.(get := 1, back := |got|)
    case GiveBack(n) => NOTHING.(back := n)
    case ByteProbe => NOTHING.(get := 1, bytes := 1)
    case GetProbed => NOTHING.(get := 1)
    case _ => NOTHING
  }

  predicate PcOk(pc: Pc) {
    match pc
    case WantAdd(c, _) => |c| > 0
    case WantRoom(c, _) => |c| > 0
    case GatherRoom(c, n) => 1 <= n <= |c|
    case WantRingToAdd(c, n) => 1 <= n <= |c|
    case Writing(c, n, i) => 1 <= n <= |c| && i <= n
    case Written(c, n) => 1 <= n <= |c|
    case Announce(n) => 1 <= n
    case WantGet(max, _) => max > 0
    case WantByte(max, _) => max > 0
    case GatherBytes(max, n) => 1 <= n <= max
    case WantRingToGet(n) => 1 <= n
    case Reading(n, got) => 1 <= n && |got| <= n
    case Read(got) => 1 <= |got|
    case GiveBack(n) => 1 <= n
    case _ => true
  }

  ghost function Sum(shares: seq<Share>): Share {
    if shares == [] then NOTHING else Plus(shares[0], Sum(shares[1..]))
  }

  ghost function Shares(threads: seq<Pc>): seq<Share> {
    seq(|threads|, t requires 0 <= t < |threads| => ShareOf(threads[t]))
  }

  ghost function Total(threads: seq<Pc>): Share {
    Sum(Shares(threads))
  }

  ghost predicate AllOk(threads: seq<Pc>) {
    forall t | 0 <= t < |threads| :: PcOk(threads[t])
  }

  ghost predicate Owned(shares: seq<Share>) {
    forall t | 0 <= t < |shares| :: AtMost(NOTHING, shares[t])
  }

  lemma {:induction false} SumCovers(shares: seq<Share>)
    requires Owned(shares)
    ensures AtMost(NOTHING, Sum(shares))
  {
    if shares != [] {
      SumCovers(shares[1..]);
    }
  }

  lemma {:induction false} SumOfOne(shares: seq<Share>, t: nat)
    requires Owned(shares) && t < |shares|
    ensures AtMost(shares[t], Sum(shares))
  {
    SumCovers(shares[1..]);
    if t > 0 {
      SumOfOne(shares[1..], t - 1);
    }
  }

  lemma {:induction false} SumOfTwo(shares: seq<Share>, t: nat, u: nat)
    requires Owned(shares) && t < u < |shares|
    ensures AtMost(Plus(shares[t], shares[u]), Sum(shares))
  {
    if t == 0 {
      SumOfOne(shares[1..], u - 1);
    } else {
      SumOfTwo(shares[1..], t - 1, u - 1);
    }
  }

  lemma {:induction false} SumMoves(shares: seq<Share>, t: nat, x: Share)
    requires t < |shares|
    ensures Plus(Sum(shares[t := x]), shares[t]) == Plus(Sum(shares), x)
  {
    if t == 0 {
      assert shares[0 := x][1..] == shares[1..];
    } else {
      assert shares[t := x][1..] == shares[1..][t - 1 := x];
      SumMoves(shares[1..], t - 1, x);
    }
  }

  lemma ShareIsOwned(pc: Pc)
    requires PcOk(pc)
    ensures AtMost(NOTHING, ShareOf(pc))
  {
  }

  lemma TotalIsOwned(threads: seq<Pc>)
    requires AllOk(threads)
    ensures Owned(Shares(threads)) && AtMost(NOTHING, Total(threads))
  {
    forall u | 0 <= u < |threads| ensures AtMost(NOTHING, Shares(threads)[u]) {
      ShareIsOwned(threads[u]);
    }
    SumCovers(Shares(threads));
  }

  lemma TotalOfOne(threads: seq<Pc>, t: nat)
    requires AllOk(threads) && t < |threads|
    ensures AtMost(ShareOf(threads[t]), Total(threads)) && AtMost(NOTHING, Total(threads))
  {
    TotalIsOwned(threads);
    SumOfOne(Shares(threads), t);
  }

  lemma TotalOfTwo(threads: seq<Pc>, t: nat, u: nat)
    requires AllOk(threads) && t < |threads| && u < |threads| && t != u
    ensures AtMost(Plus(ShareOf(threads[t]), ShareOf(threads[u])), Total(threads))
  {
    TotalIsOwned(threads);
    SumOfTwo(Shares(threads), if t < u then t else u, if t < u then u else t);
  }

  lemma TotalMoves(threads: seq<Pc>, t: nat, pc: Pc)
    requires t < |threads|
    ensures Plus(Total(threads[t := pc]), ShareOf(threads[t])) == Plus(Total(threads), ShareOf(pc))
  {
    var shares := Shares(threads);
    SumMoves(shares, t, ShareOf(pc));
    assert Shares(threads[t := pc]) == shares[t := ShareOf(pc)];
  }

  // ---- the invariant ----

  /** Every unit taken is accounted for by a thread or by a byte in the ring. */
  ghost predicate Conserved(b: Box) {
    var all := Total(b.threads);
    && b.add == all.add <= 1 && b.get == all.get <= 1 && b.inner == all.inner <= 1
    && b.empty == all.room + b.ring.used + all.back <= Size(b)
    && b.full + b.ring.used == Size(b) + all.bytes + all.announce
    && b.full <= Size(b)
  }

  ghost predicate Ends(h: seq<Byte>, tail: seq<Byte>) {
    |tail| <= |h| && h[|h| - |tail|..] == tail
  }

  /** A batch being moved is in one piece: nobody else's bytes are in between. */
  ghost predicate InOnePiece(b: Box, pc: Pc)
    requires PcOk(pc)
  {
    match pc
    case Writing(c, _, i) => Ends(b.written, c[..i])
    case Written(c, n) => Ends(b.written, c[..n])
    case Reading(_, got) => Ends(b.read, got)
    case Read(got) => Ends(b.read, got)
    case _ => true
  }

  ghost predicate Inv(b: Box) {
    && RingOk(b.ring)
    && AllOk(b.threads)
    && Conserved(b)
    && b.written == b.read + Contents(b.ring)
    && forall t | 0 <= t < |b.threads| :: InOnePiece(b, b.threads[t])
  }

  ghost function Start(size: nat, threads: nat): Box
    requires size > 0
  {
    Box(Ring(seq(size, _ => 0 as Byte), 0, 0, 0), 0, size, 0, 0, 0, seq(threads, _ => Idle), [], [])
  }

  lemma StartInv(size: nat, threads: nat)
    requires size > 0
    ensures Inv(Start(size, threads))
  {
    var b := Start(size, threads);
    IdleTotal(b.threads);
  }

  lemma {:induction false} IdleShares(shares: seq<Share>)
    requires forall t | 0 <= t < |shares| :: AtMost(shares[t], NOTHING)
    ensures AtMost(Sum(shares), NOTHING)
  {
    if shares != [] {
      IdleShares(shares[1..]);
    }
  }

  lemma IdleTotal(threads: seq<Pc>)
    requires forall t | 0 <= t < |threads| :: threads[t] == Idle
    ensures AtMost(Total(threads), NOTHING) && AtMost(NOTHING, Total(threads))
  {
    var shares := Shares(threads);
    IdleShares(shares);
    SumCovers(shares);
  }

  // ---- no step can fail ----

  /** A thread about to write has room, one about to read has a byte, and every release has the units it gives. */
  lemma NothingRunsOut(b: Box, t: nat)
    requires Inv(b) && t < |b.threads|
    ensures match b.threads[t]
            case Writing(_, n, i) => i < n ==> b.ring.used < Size(b)
            case Reading(n, got) => |got| < n ==> b.ring.used > 0
            case Announce(n) => 1 <= n <= b.full
            case GiveBack(n) => 1 <= n <= b.empty
            case RoomProbe => 1 <= b.empty
            case ByteProbe => 1 <= b.full
            case _ => true
    ensures ShareOf(b.threads[t]).add <= b.add && ShareOf(b.threads[t]).get <= b.get && ShareOf(b.threads[t]).inner <= b.inner
  {
    TotalOfOne(b.threads, t);
  }

  /** So each batch release does its full count, whoever else is waiting on the semaphore. */
  lemma BatchReleasesInFull(b: Box, t: nat, sem: Blocking.Semaphore)
    requires Inv(b) && t < |b.threads|
    ensures b.threads[t].Announce? && sem.count == b.full ==> BlockingRuns.Units(sem, b.threads[t].n) == b.threads[t].n
    ensures b.threads[t].GiveBack? && sem.count == b.empty ==> BlockingRuns.Units(sem, b.threads[t].n) == b.threads[t].n
  {
    NothingRunsOut(b, t);
  }

  // ---- every step keeps the invariant ----

  ghost predicate SameHistory(b: Box, b': Box) {
    b'.ring == b.ring && b'.written == b.written && b'.read == b.read
  }

  /** A step that moves units but no bytes. */
  lemma MoveUnits(b: Box, t: nat, pc: Pc, b': Box)
    requires Inv(b) && t < |b.threads| && PcOk(pc) && SameHistory(b, b') && b'.threads == b.threads[t := pc]
    requires InOnePiece(b, pc)
    requires var x, y := ShareOf(b.threads[t]), ShareOf(pc);
             && b'.add - b.add == y.add - x.add && b'.add <= 1
             && b'.get - b.get == y.get - x.get && b'.get <= 1
             && b'.inner - b.inner == y.inner - x.inner && b'.inner <= 1
             && b'.empty - b.empty == y.room + y.back - x.room - x.back && b'.empty <= Size(b)
             && b'.full - b.full == y.bytes + y.announce - x.bytes - x.announce && b'.full <= Size(b)
    ensures Inv(b')
  {
    TotalMoves(b.threads, t, pc);
    forall u | 0 <= u < |b'.threads| ensures PcOk(b'.threads[u]) && InOnePiece(b', b'.threads[u]) {
      assert u != t ==> InOnePiece(b, b.threads[u]);
    }
  }

  lemma AddStepKeepsInv(b: Box, t: nat)
    requires Inv(b) && Enabled(b, t, Advance) && Adding(b.threads[t])
    requires !(b.threads[t].Writing? && b.threads[t].i < b.threads[t].n)
    ensures Inv(AddStep(b, t))
  {
    NothingRunsOut(b, t);
    assert InOnePiece(b, b.threads[t]);
    var b' := AddStep(b, t);
    MoveUnits(b, t, b'.threads[t], b');
  }

  lemma GetStepTakes(b: Box, t: nat)
    requires Inv(b) && Enabled(b, t, Advance)
    requires b.threads[t].WantGet? || b.threads[t].WantByte? || b.threads[t].GatherBytes? || b.threads[t].WantRingToGet?
    ensures Inv(GetStep(b, t))
  {
    NothingRunsOut(b, t);
    var b' := GetStep(b, t);
    MoveUnits(b, t, b'.threads[t], b');
  }

  lemma GetStepReturns(b: Box, t: nat)
    requires Inv(b) && t < |b.threads|
    requires var pc := b.threads[t];
             || pc.NoByte? || pc.Read? || pc.GiveBack? || pc.ByteProbe? || pc.GetProbed?
             || (pc.Reading? && |pc.got| == pc.n)
    ensures Inv(GetStep(b, t))
  {
    NothingRunsOut(b, t);
    assert InOnePiece(b, b.threads[t]);
    var b' := GetStep(b, t);
    MoveUnits(b, t, b'.threads[t], b');
  }

  lemma EndsGrows(h: seq<Byte>, tail: seq<Byte>, c: Byte)
    requires Ends(h, tail)
    ensures Ends(h + [c], tail + [c])
  {
  }

  lemma WriteInOnePiece(b: Box, t: nat, u: nat)
    requires Inv(b) && t < |b.threads| && b.threads[t].Writing? && b.threads[t].i < b.threads[t].n && u < |b.threads|
    ensures var b' := AddStep(b, t); u < |b'.threads| && PcOk(b'.threads[u]) && InOnePiece(b', b'.threads[u])
  {
    var pc := b.threads[t];
    assert InOnePiece(b, b.threads[u]);
    if u == t {
      EndsGrows(b.written, pc.c[..pc.i], pc.c[pc.i]);
      assert pc.c[..pc.i + 1] == pc.c[..pc.i] + [pc.c[pc.i]];
    } else {
      TotalOfTwo(b.threads, t, u);
    }
  }

  lemma WriteKeepsInv(b: Box, t: nat)
    requires Inv(b) && t < |b.threads| && b.threads[t].Writing? && b.threads[t].i < b.threads[t].n
    ensures Inv(AddStep(b, t))
  {
    NothingRunsOut(b, t);
    var b', pc := AddStep(b, t), b.threads[t];
    PutAppends(b.ring, pc.c[pc.i]);
    TotalMoves(b.threads, t, b'.threads[t]);
    forall u | 0 <= u < |b'.threads| ensures PcOk(b'.threads[u]) && InOnePiece(b', b'.threads[u]) {
      WriteInOnePiece(b, t, u);
    }
  }

  lemma ReadKeepsInv(b: Box, t: nat)
    requires Inv(b) && t < |b.threads| && b.threads[t].Reading? && |b.threads[t].got| < b.threads[t].n
    ensures b.ring.used > 0 && Inv(GetStep(b, t))
  {
    NothingRunsOut(b, t);
    var b', pc := GetStep(b, t), b.threads[t];
    TakenDrops(b.ring);
    var c := b.ring.data[b.ring.start];
    MoveOver(b.read, Contents(b'.ring), c);
    TotalMoves(b.threads, t, b'.threads[t]);
    forall u | 0 <= u < |b'.threads| ensures PcOk(b'.threads[u]) && InOnePiece(b', b'.threads[u]) {
      assert InOnePiece(b, b.threads[u]);
      if u == t {
        EndsGrows(b.read, pc.got, c);
      } else {
        TotalOfTwo(b.threads, t, u);
      }
    }
  }

  // ---- whole runs ----

  ghost function Next(b: Box, t: nat, e: Event): Box
    requires Inv(b) && Enabled(b, t, e)
  {
    match e
    case AddCall(c, probe) => Goto(b, t, WantAdd(c, probe))
    case GetCall(max, probe) => Goto(b, t, WantGet(max, probe))
    case GiveUp => Goto(b, t, if b.threads[t].WantRoom? then NoRoom else if b.threads[t].WantByte? then NoByte else Idle)
    case Advance =>
      NothingRunsOut(b, t);
      if Adding(b.threads[t]) then AddStep(b, t) else GetStep(b, t)
  }

  lemma AdvanceKeepsInv(b: Box, t: nat)
    requires Inv(b) && Enabled(b, t, Advance)
    ensures Inv(Next(b, t, Advance))
  {
    NothingRunsOut(b, t);
    var pc := b.threads[t];
    if pc.Writing? && pc.i < pc.n {
      WriteKeepsInv(b, t);
    } else if Adding(pc) {
      AddStepKeepsInv(b, t);
    } else if pc.Reading? && |pc.got| < pc.n {
      ReadKeepsInv(b, t);
    } else if pc.WantGet? || pc.WantByte? || pc.GatherBytes? || pc.WantRingToGet? {
      GetStepTakes(b, t);
    } else {
      GetStepReturns(b, t);
    }
  }

  lemma StepKeepsInv(b: Box, t: nat, e: Event)
    requires Inv(b) && Enabled(b, t, e)
    ensures Inv(Next(b, t, e))
    ensures b.written <= Next(b, t, e).written && b.read <= Next(b, t, e).read && Size(Next(b, t, e)) == Size(b)
  {
    if e == Advance {
      AdvanceKeepsInv(b, t);
    } else {
      MoveUnits(b, t, Next(b, t, e).threads[t], Next(b, t, e));
    }
  }

  /** A schedule: which thread does what, in order. */
  ghost predicate Allowed(b: Box, run: seq<(nat, Event)>)
    requires Inv(b)
    decreases |run|
  {
    run == [] || (Enabled(b, run[0].0, run[0].1)
                  && (StepKeepsInv(b, run[0].0, run[0].1); Allowed(Next(b, run[0].0, run[0].1), run[1..])))
  }

  ghost function Run(b: Box, run: seq<(nat, Event)>): Box
    requires Inv(b) && Allowed(b, run)
    decreases |run|
  {
    if run == [] then b else
      StepKeepsInv(b, run[0].0, run[0].1);
      Run(Next(b, run[0].0, run[0].1), run[1..])
  }

  /**
  In every interleaving, the bytes taken out followed by those still in the ring are
  the bytes put in, in order; the ring is never over- or underfull; and no semaphore
  leaves its range.
   */
  lemma {:induction false} RunConserves(b: Box, run: seq<(nat, Event)>)
    requires Inv(b) && Allowed(b, run)
    ensures var b' := Run(b, run);
            && Inv(b') && Size(b') == Size(b)
            && b'.written == b'.read + Contents(b'.ring)
            && b.written <= b'.written && b.read <= b'.read
            && 0 <= b'.ring.used <= Size(b) && 0 <= b'.empty <= Size(b) && 0 <= b'.full <= Size(b)
            && 0 <= b'.add <= 1 && 0 <= b'.get <= 1 && 0 <= b'.inner <= 1
    decreases |run|
  {
    if run == [] {
      BoundsHold(b);
    } else {
      StepKeepsInv(b, run[0].0, run[0].1);
      RunConserves(Next(b, run[0].0, run[0].1), run[1..]);
    }
  }

  lemma BoundsHold(b: Box)
    requires Inv(b)
    ensures 0 <= b.ring.used <= Size(b) && 0 <= b.empty <= Size(b) && 0 <= b.full <= Size(b)
    ensures 0 <= b.add <= 1 && 0 <= b.get <= 1 && 0 <= b.inner <= 1
  {
    TotalIsOwned(b.threads);
  }

  /** When every call is over, every unit is either room in the ring or a byte in it. */
  lemma QuietBoxBalances(b: Box)
    requires Inv(b) && forall t | 0 <= t < |b.threads| :: b.threads[t].Idle?
    ensures b.empty == b.ring.used && b.full == Size(b) - b.ring.used
    ensures b.add == 0 && b.get == 0 && b.inner == 0
  {
    IdleTotal(b.threads);
  }
}
