/**
What a call on a mailbox has done once it is over, in every interleaving: which bytes it
added or took, and what it does when nobody else is about.
 */
module MailboxCalls {
  import opened Basics
  import opened MailboxRing
  import opened Mailbox

  // ---- one thread's share of a run ----

  /** What a step of thread t added to the bytes put in; nothing if another thread made it. */
  ghost function Wrote(b: Box, step: (nat, Event), t: nat): seq<Byte>
    requires Inv(b) && Enabled(b, step.0, step.1)
  {
    StepKeepsInv(b, step.0, step.1);
    if step.0 == t then Next(b, step.0, step.1).written[|b.written|..] else []
  }

  /** The same for the bytes taken out. */
  ghost function Took(b: Box, step: (nat, Event), t: nat): seq<Byte>
    requires Inv(b) && Enabled(b, step.0, step.1)
  {
    StepKeepsInv(b, step.0, step.1);
    if step.0 == t then Next(b, step.0, step.1).read[|b.read|..] else []
  }

  /** All the bytes thread t put in during a run. */
  ghost function WroteIn(b: Box, run: seq<(nat, Event)>, t: nat): seq<Byte>
    requires Inv(b) && Allowed(b, run)
    decreases |run|
  {
    if run == [] then [] else
      StepKeepsInv(b, run[0].0, run[0].1);
      Wrote(b, run[0], t) + WroteIn(Next(b, run[0].0, run[0].1), run[1..], t)
  }

  ghost function TookIn(b: Box, run: seq<(nat, Event)>, t: nat): seq<Byte>
    requires Inv(b) && Allowed(b, run)
    decreases |run|
  {
    if run == [] then [] else
      StepKeepsInv(b, run[0].0, run[0].1);
      Took(b, run[0], t) + TookIn(Next(b, run[0].0, run[0].1), run[1..], t)
  }

  ghost predicate GaveUp(run: seq<(nat, Event)>, t: nat) {
    (t, GiveUp) in run
  }

  /** Thread t is in the middle of a call before every step of the run, and its call is over at the end. */
  ghost predicate Finishes(b: Box, run: seq<(nat, Event)>, t: nat)
    requires Inv(b) && Allowed(b, run)
    decreases |run|
  {
    t < |b.threads| &&
    if run == [] then b.threads[t].Idle?
    else
      StepKeepsInv(b, run[0].0, run[0].1);
      !b.threads[t].Idle? && Finishes(Next(b, run[0].0, run[0].1), run[1..], t)
  }

  lemma Unfold(b: Box, run: seq<(nat, Event)>, t: nat)
    requires Inv(b) && Allowed(b, run) && Finishes(b, run, t) && run != []
    ensures var (u, e) := run[0];
            && Enabled(b, u, e) && Inv(Next(b, u, e)) && Allowed(Next(b, u, e), run[1..])
            && t < |b.threads| && !b.threads[t].Idle? && Finishes(Next(b, u, e), run[1..], t)
            && Run(b, run) == Run(Next(b, u, e), run[1..])
            && WroteIn(b, run, t) == Wrote(b, run[0], t) + WroteIn(Next(b, u, e), run[1..], t)
            && TookIn(b, run, t) == Took(b, run[0], t) + TookIn(Next(b, u, e), run[1..], t)
            && (GaveUp(run, t) <==> run[0] == (t, GiveUp) || GaveUp(run[1..], t))
  {
    StepKeepsInv(b, run[0].0, run[0].1);
    assert run == [run[0]] + run[1..];
  }

  /** Only the two copying loops move bytes, one at a time. */
  lemma StepBytes(b: Box, t: nat, e: Event)
    requires Inv(b) && Enabled(b, t, e) && !b.threads[t].Idle?
    ensures var pc := b.threads[t];
            && Wrote(b, (t, e), t) == (if pc.Writing? && pc.i < pc.n && pc.n <= |pc.c| then [pc.c[pc.i]] else [])
            && (pc.Reading? && |pc.got| < pc.n ==> b.ring.start < Size(b) && Took(b, (t, e), t) == [b.ring.data[b.ring.start]])
            && (!(pc.Reading? && |pc.got| < pc.n) ==> Took(b, (t, e), t) == [])
  {
    StepKeepsInv(b, t, e);
    var b', pc := Next(b, t, e), b.threads[t];
    assert PcOk(pc);
    if pc.Writing? && pc.i < pc.n {
      assert b'.written == b.written + [pc.c[pc.i]];
    }
    if pc.Reading? && |pc.got| < pc.n {
      assert b'.read == b.read + [b.ring.data[b.ring.start]];
    }
  }

  lemma JoinThree(a: seq<Byte>, b: seq<Byte>, c: seq<Byte>)
    ensures (a + b) + c == a + (b + c)
    ensures b == [] ==> a + b == a && b + c == c
  {
  }

  ghost predicate StandsAt(h: seq<Byte>, w: seq<Byte>, i: nat) {
    i + |w| <= |h| && h[i..i + |w|] == w
  }

  /** The bytes stand somewhere in the history, in one piece. */
  ghost predicate Within(h: seq<Byte>, w: seq<Byte>) {
    exists i: nat :: StandsAt(h, w, i)
  }

  lemma WithinGrows(h: seq<Byte>, h': seq<Byte>, w: seq<Byte>)
    requires Within(h, w) && h <= h'
    ensures Within(h', w)
  {
    var i: nat :| StandsAt(h, w, i);
    assert StandsAt(h', w, i);
  }

  lemma EndIsWithin(h: seq<Byte>, w: seq<Byte>)
    requires Ends(h, w)
    ensures Within(h, w)
  {
    assert StandsAt(h, w, |h| - |w|);
  }

  // ---- calls that add ----

  /** How far an add call of `c` has come when its thread is at pc: `w` is what it has put in, `gave` whether it gave up. */
  ghost predicate AddSoFar(h: seq<Byte>, pc: Pc, c: seq<Byte>, probe: bool, gave: bool, w: seq<Byte>) {
    match pc
    case WantAdd(c', probe') => c' == c && probe' == probe && !gave && w == []
    case WantRoom(c', probe') => c' == c && probe' == probe && !gave && w == []
    case NoRoom => gave && w == []
    case GatherRoom(c', n) => c' == c && !probe && !gave && w == []
    case WantRingToAdd(c', n) => c' == c && !probe && !gave && w == []
    case Writing(c', n, i) => c' == c && !probe && !gave && i <= |c| && w == c[..i]
    case Written(c', n) => c' == c && !probe && !gave && 1 <= n <= |c| && w == c[..n] && Within(h, w)
    case Announce(n) => !probe && !gave && 1 <= n <= |c| && w == c[..n] && Within(h, w)
    case RoomProbe => probe && !gave && w == []
    case AddProbed => probe && !gave && w == []
    case Idle => AddDone(h, c, probe, gave, w)
    case _ => false
  }

  /** A finished add call: a probe, or one that gave up, put nothing in; any other put in the first n of its bytes, in one piece. */
  ghost predicate AddDone(h: seq<Byte>, c: seq<Byte>, probe: bool, gave: bool, w: seq<Byte>) {
    if probe || gave then w == [] else exists n :: 1 <= n <= |c| && w == c[..n] && Within(h, w)
  }

  lemma AddStepGoesOn(b: Box, t: nat, e: Event, c: seq<Byte>, probe: bool, gave: bool, w: seq<Byte>)
    requires Inv(b) && Enabled(b, t, e) && !b.threads[t].Idle? && AddSoFar(b.written, b.threads[t], c, probe, gave, w)
    ensures var b' := Next(b, t, e);
            AddSoFar(b'.written, b'.threads[t], c, probe, gave || e == GiveUp, w + Wrote(b, (t, e), t)) && Took(b, (t, e), t) == []
  {
    StepBytes(b, t, e);
    assert PcOk(b.threads[t]) && InOnePiece(b, b.threads[t]);
    var pc := b.threads[t];
    assert w + [] == w;
    if pc.Writing? {
      if pc.i < pc.n {
        assert c[..pc.i + 1] == c[..pc.i] + [c[pc.i]];
      } else {
        EndIsWithin(b.written, w);
      }
    }
  }

  lemma AddOtherStep(b: Box, u: nat, e: Event, t: nat, c: seq<Byte>, probe: bool, gave: bool, w: seq<Byte>)
    requires Inv(b) && Enabled(b, u, e) && u != t && t < |b.threads| && AddSoFar(b.written, b.threads[t], c, probe, gave, w)
    ensures var b' := Next(b, u, e);
            && t < |b'.threads| && b'.threads[t] == b.threads[t]
            && AddSoFar(b'.written, b'.threads[t], c, probe, gave, w)
  {
    StepKeepsInv(b, u, e);
    if b.threads[t].Written? || b.threads[t].Announce? {
      WithinGrows(b.written, Next(b, u, e).written, w);
    } else if b.threads[t].Idle? && !probe && !gave {
      WithinGrows(b.written, Next(b, u, e).written, w);
    }
  }

  lemma {:induction false} AddFinishes(b: Box, run: seq<(nat, Event)>, t: nat, c: seq<Byte>, probe: bool, gave: bool, w: seq<Byte>)
    requires Inv(b) && Allowed(b, run) && Finishes(b, run, t) && AddSoFar(b.written, b.threads[t], c, probe, gave, w)
    ensures AddDone(Run(b, run).written, c, probe, gave || GaveUp(run, t), w + WroteIn(b, run, t))
    ensures TookIn(b, run, t) == []
    decreases |run|
  {
    if run == [] {
      assert w + [] == w;
    } else {
      Unfold(b, run, t);
      var (u, e) := run[0];
      var b', rest, mine := Next(b, u, e), run[1..], Wrote(b, run[0], t);
      var more := WroteIn(b', rest, t);
      if u == t {
        AddStepGoesOn(b, t, e, c, probe, gave, w);
        AddFinishes(b', rest, t, c, probe, gave || e == GiveUp, w + mine);
        JoinThree(w, mine, more);
      } else {
        AddOtherStep(b, u, e, t, c, probe, gave, w);
        AddFinishes(b', rest, t, c, probe, gave, w);
        JoinThree(w, [], more);
      }
    }
  }

  /**
  A call that adds, once it is over, whoever else did what meanwhile: it has put in the
  first n of its bytes with n at least 1, in order and in one piece, and taken nothing. A
  probe and a call that gave up have put in nothing.
   */
  lemma AddCallDid(b: Box, t: nat, c: seq<Byte>, probe: bool, run: seq<(nat, Event)>)
    requires Inv(b) && Enabled(b, t, AddCall(c, probe)) && Inv(Next(b, t, AddCall(c, probe)))
    requires var b1 := Next(b, t, AddCall(c, probe)); Allowed(b1, run) && Finishes(b1, run, t)
    ensures var b1 := Next(b, t, AddCall(c, probe));
            && AddDone(Run(b1, run).written, c, probe, GaveUp(run, t), WroteIn(b1, run, t))
            && TookIn(b1, run, t) == []
  {
    var b1 := Next(b, t, AddCall(c, probe));
    AddFinishes(b1, run, t, c, probe, false, []);
    assert [] + WroteIn(b1, run, t) == WroteIn(b1, run, t);
  }

  // ---- calls that get ----

  ghost predicate GetSoFar(h: seq<Byte>, pc: Pc, max: nat, probe: bool, gave: bool, w: seq<Byte>) {
    match pc
    case WantGet(max', probe') => max' == max && probe' == probe && !gave && w == []
    case WantByte(max', probe') => max' == max && probe' == probe && !gave && w == []
    case NoByte => gave && w == []
    case GatherBytes(max', n) => max' == max && !probe && !gave && w == []
    case WantRingToGet(n) => n <= max && !probe && !gave && w == []
    case Reading(n, got) => n <= max && !probe && !gave && w == got
    case Read(got) => |got| <= max && !probe && !gave && w == got && Within(h, w)
    case GiveBack(n) => 1 <= n <= max && !probe && !gave && |w| == n && Within(h, w)
    case ByteProbe => probe && !gave && w == []
    case GetProbed => probe && !gave && w == []
    case Idle => GetDone(h, max, probe, gave, w)
    case _ => false
  }

  /** A finished get call: a probe, or one that gave up, took nothing; any other took 1 up to max bytes, next to one another. */
  ghost predicate GetDone(h: seq<Byte>, max: nat, probe: bool, gave: bool, w: seq<Byte>) {
    if probe || gave then w == [] else 1 <= |w| <= max && Within(h, w)
  }

  lemma GetStepGoesOn(b: Box, t: nat, e: Event, max: nat, probe: bool, gave: bool, w: seq<Byte>)
    requires Inv(b) && Enabled(b, t, e) && !b.threads[t].Idle? && GetSoFar(b.read, b.threads[t], max, probe, gave, w)
    ensures var b' := Next(b, t, e);
            GetSoFar(b'.read, b'.threads[t], max, probe, gave || e == GiveUp, w + Took(b, (t, e), t)) && Wrote(b, (t, e), t) == []
  {
    StepBytes(b, t, e);
    assert PcOk(b.threads[t]) && InOnePiece(b, b.threads[t]);
    assert w + [] == w;
    if b.threads[t].Reading? && |b.threads[t].got| == b.threads[t].n {
      EndIsWithin(b.read, w);
    }
  }

  lemma GetOtherStep(b: Box, u: nat, e: Event, t: nat, max: nat, probe: bool, gave: bool, w: seq<Byte>)
    requires Inv(b) && Enabled(b, u, e) && u != t && t < |b.threads| && GetSoFar(b.read, b.threads[t], max, probe, gave, w)
    ensures var b' := Next(b, u, e);
            && t < |b'.threads| && b'.threads[t] == b.threads[t]
            && GetSoFar(b'.read, b'.threads[t], max, probe, gave, w)
  {
    StepKeepsInv(b, u, e);
    if b.threads[t].Read? || b.threads[t].GiveBack? || (b.threads[t].Idle? && !probe && !gave) {
      WithinGrows(b.read, Next(b, u, e).read, w);
    }
  }

  lemma {:induction false} GetFinishes(b: Box, run: seq<(nat, Event)>, t: nat, max: nat, probe: bool, gave: bool, w: seq<Byte>)
    requires Inv(b) && Allowed(b, run) && Finishes(b, run, t) && GetSoFar(b.read, b.threads[t], max, probe, gave, w)
    ensures GetDone(Run(b, run).read, max, probe, gave || GaveUp(run, t), w + TookIn(b, run, t))
    ensures WroteIn(b, run, t) == []
    decreases |run|
  {
    if run == [] {
      assert w + [] == w;
    } else {
      Unfold(b, run, t);
      var (u, e) := run[0];
      var b', rest, mine := Next(b, u, e), run[1..], Took(b, run[0], t);
      var more := TookIn(b', rest, t);
      if u == t {
        GetStepGoesOn(b, t, e, max, probe, gave, w);
        GetFinishes(b', rest, t, max, probe, gave || e == GiveUp, w + mine);
        JoinThree(w, mine, more);
      } else {
        GetOtherStep(b, u, e, t, max, probe, gave, w);
        GetFinishes(b', rest, t, max, probe, gave, w);
        JoinThree(w, [], more);
      }
    }
  }

  /**
  A call that gets, once it is over: it has taken 1 up to max bytes that were put in next
  to one another, in order, and put in nothing. A probe and a call that gave up took nothing.
   */
  lemma GetCallDid(b: Box, t: nat, max: nat, probe: bool, run: seq<(nat, Event)>)
    requires Inv(b) && Enabled(b, t, GetCall(max, probe)) && Inv(Next(b, t, GetCall(max, probe)))
    requires var b1 := Next(b, t, GetCall(max, probe)); Allowed(b1, run) && Finishes(b1, run, t)
    ensures var b1 := Next(b, t, GetCall(max, probe));
            && GetDone(Run(b1, run).read, max, probe, GaveUp(run, t), TookIn(b1, run, t))
            && WroteIn(b1, run, t) == []
  {
    var b1 := Next(b, t, GetCall(max, probe));
    GetFinishes(b1, run, t, max, probe, false, []);
    assert [] + TookIn(b1, run, t) == TookIn(b1, run, t);
  }

  // ---- a thread alone with the mailbox ----

  ghost predicate Alone(b: Box, t: nat) {
    t < |b.threads| && forall u | 0 <= u < |b.threads| && u != t :: b.threads[u].Idle?
  }

  lemma TotalAlone(threads: seq<Pc>, t: nat)
    requires t < |threads| && forall u | 0 <= u < |threads| && u != t :: threads[u].Idle?
    ensures Total(threads) == ShareOf(threads[t])
  {
    TotalMoves(threads, t, Idle);
    IdleTotal(threads[t := Idle]);
  }

  /** All that is taken is taken by that thread. */
  lemma AloneHolds(b: Box, t: nat)
    requires Inv(b) && Alone(b, t)
    ensures var mine := ShareOf(b.threads[t]);
            && b.add == mine.add && b.get == mine.get && b.inner == mine.inner
            && b.empty == mine.room + b.ring.used + mine.back
            && b.full + b.ring.used == Size(b) + mine.bytes + mine.announce
  {
    TotalAlone(b.threads, t);
  }

  /** Steps left of a call, at most. */
  function StepsLeft(pc: Pc): nat {
    match pc
    case WantAdd(c, _) => 2 * |c| + 9
    case WantRoom(c, _) => 2 * |c| + 8
    case GatherRoom(c, n) => if n <= |c| then |c| - n + |c| + 6 else 0
    case WantRingToAdd(_, n) => n + 5
    case Writing(_, n, i) => if i <= n then n - i + 4 else 0
    case Written(_, _) => 2
    case RoomProbe => 2
    case WantGet(max, _) => 2 * max + 9
    case WantByte(max, _) => 2 * max + 8
    case GatherBytes(max, n) => if n <= max then max - n + max + 6 else 0
    case WantRingToGet(n) => n + 5
    case Reading(n, got) => if |got| <= n then n - |got| + 4 else 0
    case Read(_) => 2
    case ByteProbe => 2
    case Idle => 0
    case _ => 1
  }

  lemma StepsShrink(b: Box, t: nat)
    requires Inv(b) && Enabled(b, t, Advance)
    ensures t < |Next(b, t, Advance).threads| && StepsLeft(Next(b, t, Advance).threads[t]) < StepsLeft(b.threads[t])
    ensures forall u | 0 <= u < |b.threads| && u != t ::
              u < |Next(b, t, Advance).threads| && Next(b, t, Advance).threads[u] == b.threads[u]
    ensures |Next(b, t, Advance).threads| == |b.threads|
  {
    assert PcOk(b.threads[t]);
  }

  /** Nothing holds a thread up that is alone, but for room or a byte to wait for. */
  lemma AloneEnabled(b: Box, t: nat)
    requires Inv(b) && Alone(b, t) && !b.threads[t].Idle?
    requires b.threads[t].WantRoom? ==> b.ring.used < Size(b)
    requires b.threads[t].WantByte? ==> b.ring.used > 0
    ensures Enabled(b, t, Advance)
  {
    AloneHolds(b, t);
  }

  lemma AloneAdvances(b: Box, t: nat)
    requires Inv(b) && Alone(b, t) && !b.threads[t].Idle?
    requires b.threads[t].WantRoom? ==> b.ring.used < Size(b)
    requires b.threads[t].WantByte? ==> b.ring.used > 0
    ensures Enabled(b, t, Advance)
    ensures var b' := Next(b, t, Advance); Inv(b') && Alone(b', t) && StepsLeft(b'.threads[t]) < StepsLeft(b.threads[t])
  {
    AloneEnabled(b, t);
    StepsShrink(b, t);
    StepKeepsInv(b, t, Advance);
  }

  /** Only thread t takes steps, and it never gives up. */
  ghost predicate OnlyBy(run: seq<(nat, Event)>, t: nat) {
    forall i | 0 <= i < |run| :: run[i] == (t, Advance)
  }

  // ---- adding, alone ----

  /** Where an add call of c stands that nobody disturbs: `room` was free and `base` written when it began. */
  ghost predicate AddAlone(b: Box, t: nat, c: seq<Byte>, room: nat, base: seq<Byte>) {
    var n, used := Min(|c|, room), b.ring.used;
    && Alone(b, t)
    && match b.threads[t]
       case WantAdd(c', probe) => c' == c && !probe && used + room == Size(b) && b.written == base
       case WantRoom(c', probe) => c' == c && !probe && used + room == Size(b) && b.written == base
       case GatherRoom(c', k) => c' == c && k <= n && used + room == Size(b) && b.written == base
       case WantRingToAdd(c', k) => c' == c && k == n && b.written == base
       case Writing(c', k, i) => c' == c && k == n && i <= n && b.written == base + c[..i]
       case Written(c', k) => c' == c && k == n && b.written == base + c[..n]
       case Announce(k) => k == n && b.written == base + c[..n]
       case Idle => b.written == base + c[..n]
       case _ => false
  }

  lemma AddAloneStep(b: Box, t: nat, c: seq<Byte>, room: nat, base: seq<Byte>)
    requires Inv(b) && AddAlone(b, t, c, room, base) && Enabled(b, t, Advance) && !b.threads[t].Idle?
    ensures AddAlone(Next(b, t, Advance), t, c, room, base) && Next(b, t, Advance).read == b.read
  {
    AloneHolds(b, t);
    var pc := b.threads[t];
    assert PcOk(pc);
    if pc.Writing? && pc.i < pc.n {
      assert base + c[..pc.i] + [c[pc.i]] == base + c[..pc.i + 1];
    } else if pc.WantRingToAdd? {
      assert base + c[..0] == base;
    }
  }

  lemma {:induction false} AddAloneRun(b: Box, run: seq<(nat, Event)>, t: nat, c: seq<Byte>, room: nat, base: seq<Byte>)
    requires Inv(b) && Allowed(b, run) && Finishes(b, run, t) && OnlyBy(run, t) && AddAlone(b, t, c, room, base)
    ensures Run(b, run).written == base + c[..Min(|c|, room)] && Run(b, run).read == b.read
    decreases |run|
  {
    if run != [] {
      Unfold(b, run, t);
      assert run[0] == (t, Advance);
      AddAloneStep(b, t, c, room, base);
      AddAloneRun(Next(b, t, Advance), run[1..], t, c, room, base);
    }
  }

  /** The run of an add call that nobody disturbs; it ends. */
  lemma {:induction false} FinishAdd(b: Box, t: nat, c: seq<Byte>, room: nat, base: seq<Byte>) returns (run: seq<(nat, Event)>)
    requires Inv(b) && AddAlone(b, t, c, room, base) && room > 0
    ensures Allowed(b, run) && Finishes(b, run, t) && OnlyBy(run, t)
    decreases StepsLeft(b.threads[t])
  {
    if b.threads[t].Idle? {
      run := [];
    } else {
      AloneAdvances(b, t);
      AddAloneStep(b, t, c, room, base);
      var rest := FinishAdd(Next(b, t, Advance), t, c, room, base);
      run := [(t, Advance)] + rest;
      assert run[1..] == rest;
    }
  }

  /**
  With nobody else about, an add call to a mailbox with room ends, and it puts in as many of
  its bytes as there is room for.
   */
  lemma AddAloneDid(b: Box, t: nat, c: seq<Byte>) returns (run: seq<(nat, Event)>)
    requires Inv(b) && Alone(b, t) && Enabled(b, t, AddCall(c, false)) && b.ring.used < Size(b)
    ensures Inv(Next(b, t, AddCall(c, false)))
    ensures var b1 := Next(b, t, AddCall(c, false));
            && Allowed(b1, run) && Finishes(b1, run, t) && OnlyBy(run, t)
            && forall other | Allowed(b1, other) && Finishes(b1, other, t) && OnlyBy(other, t) ::
                 Run(b1, other).written == b.written + c[..Min(|c|, Size(b) - b.ring.used)] && Run(b1, other).read == b.read
  {
    StepKeepsInv(b, t, AddCall(c, false));
    var b1, room := Next(b, t, AddCall(c, false)), Size(b) - b.ring.used;
    run := FinishAdd(b1, t, c, room, b.written);
    forall other | Allowed(b1, other) && Finishes(b1, other, t) && OnlyBy(other, t)
      ensures Run(b1, other).written == b.written + c[..Min(|c|, room)] && Run(b1, other).read == b.read
    {
      AddAloneRun(b1, other, t, c, room, b.written);
    }
  }

  // ---- getting, alone ----

  /** The same for a get call: `have` bytes were waiting and `out` had been taken when it began. */
  ghost predicate GetAlone(b: Box, t: nat, max: nat, have: nat, out: nat, h: seq<Byte>) {
    var n, used := Min(max, have), b.ring.used;
    && Alone(b, t) && b.written == h
    && match b.threads[t]
       case WantGet(max', probe) => max' == max && !probe && used == have && |b.read| == out
       case WantByte(max', probe) => max' == max && !probe && used == have && |b.read| == out
       case GatherBytes(max', k) => max' == max && k <= n && used == have && |b.read| == out
       case WantRingToGet(k) => k == n && |b.read| == out
       case Reading(k, got) => k == n && |got| <= n && |b.read| == out + |got|
       case Read(got) => |got| == n && |b.read| == out + n
       case GiveBack(k) => k == n && |b.read| == out + n
       case Idle => |b.read| == out + n
       case _ => false
  }

  lemma GetAloneStep(b: Box, t: nat, max: nat, have: nat, out: nat, h: seq<Byte>)
    requires Inv(b) && GetAlone(b, t, max, have, out, h) && Enabled(b, t, Advance) && !b.threads[t].Idle?
    ensures GetAlone(Next(b, t, Advance), t, max, have, out, h)
  {
    AloneHolds(b, t);
    assert PcOk(b.threads[t]);
  }

  lemma {:induction false} GetAloneRun(b: Box, run: seq<(nat, Event)>, t: nat, max: nat, have: nat, out: nat, h: seq<Byte>)
    requires Inv(b) && Allowed(b, run) && Finishes(b, run, t) && OnlyBy(run, t) && GetAlone(b, t, max, have, out, h)
    ensures var b' := Run(b, run); Inv(b') && b'.written == h && |b'.read| == out + Min(max, have)
    decreases |run|
  {
    if run != [] {
      Unfold(b, run, t);
      assert run[0] == (t, Advance);
      GetAloneStep(b, t, max, have, out, h);
      GetAloneRun(Next(b, t, Advance), run[1..], t, max, have, out, h);
    }
  }

  lemma {:induction false} FinishGet(b: Box, t: nat, max: nat, have: nat, out: nat, h: seq<Byte>) returns (run: seq<(nat, Event)>)
    requires Inv(b) && GetAlone(b, t, max, have, out, h) && have > 0
    ensures Allowed(b, run) && Finishes(b, run, t) && OnlyBy(run, t)
    decreases StepsLeft(b.threads[t])
  {
    if b.threads[t].Idle? {
      run := [];
    } else {
      AloneAdvances(b, t);
      GetAloneStep(b, t, max, have, out, h);
      var rest := FinishGet(Next(b, t, Advance), t, max, have, out, h);
      run := [(t, Advance)] + rest;
      assert run[1..] == rest;
    }
  }

  lemma TakenInOrder(b: Box, b': Box, n: nat)
    requires Inv(b) && Inv(b') && b'.written == b.written && |b'.read| == |b.read| + n && n <= b.ring.used
    ensures n <= |Contents(b.ring)| && b'.read == b.read + Contents(b.ring)[..n]
  {
    assert b'.read == b'.written[..|b'.read|];
  }

  /**
  With nobody else about, a get call on a mailbox with bytes in it ends, and it takes the
  oldest of them, as many as it asked for or as there are.
   */
  lemma GetAloneDid(b: Box, t: nat, max: nat) returns (run: seq<(nat, Event)>)
    requires Inv(b) && Alone(b, t) && Enabled(b, t, GetCall(max, false)) && b.ring.used > 0
    ensures Inv(Next(b, t, GetCall(max, false))) && |Contents(b.ring)| == b.ring.used
    ensures var b1 := Next(b, t, GetCall(max, false));
            && Allowed(b1, run) && Finishes(b1, run, t) && OnlyBy(run, t)
            && forall other | Allowed(b1, other) && Finishes(b1, other, t) && OnlyBy(other, t) ::
                 Run(b1, other).read == b.read + Contents(b.ring)[..Min(max, b.ring.used)] && Run(b1, other).written == b.written
  {
    StepKeepsInv(b, t, GetCall(max, false));
    var b1, have := Next(b, t, GetCall(max, false)), b.ring.used;
    run := FinishGet(b1, t, max, have, |b.read|, b.written);
    forall other | Allowed(b1, other) && Finishes(b1, other, t) && OnlyBy(other, t)
      ensures Run(b1, other).read == b.read + Contents(b.ring)[..Min(max, have)] && Run(b1, other).written == b.written
    {
      GetAloneRun(b1, other, t, max, have, |b.read|, b.written);
      TakenInOrder(b, Run(b1, other), Min(max, have));
    }
  }
}
