/**
The blocking protocol of sync/semaphore.c, thread/timer.c and thread/thread.c as a
state machine over values. Every step is one region under the scheduler lock.

Blocking does not give up the processor at once: the current thread only changes its
state and the switch comes later. In between, interrupts may release semaphores or
expire sleeps, so the current thread can be woken before it was ever switched out.
 */
module Blocking {
  import opened Basics
  import opened Queues

  const NANOS_PER_MILLI := 1000000
  const CLOCK_RANGE := 0x1_0000_0000_0000_0000

  datatype State = Running | Ready | Sleeping | Waiting | WaitingWithTimeout

  /** The last call a thread made: an acquire records whether it was granted a unit. */
  datatype Call = NoCall | Asked(sem: nat, granted: bool)

  /** One acquire of a semaphore; each draws the next number. */
  datatype Ask = Ask(thread: nat, ticket: nat)

  datatype Thread = Thread(state: State, timedOut: bool, bySignal: bool, waitingOn: nat, expiry: nat, ticket: nat, call: Call)

  /**
  The first three fields are the source's. The rest is history: the count it began
  with, the number of acquires, the acquires granted in order of granting, and the
  number of units released.
   */
  datatype Semaphore = Semaphore(max: nat, count: nat, waiting: seq<nat>,
                                 initial: nat, tickets: nat, grants: seq<Ask>, releases: nat)

  datatype System = System(threads: seq<Thread>, ready: seq<nat>, sleeping: seq<nat>, sems: seq<Semaphore>,
                           current: nat, idle: nat)

  // ---- the invariant ----

  ghost predicate Among(q: seq<nat>, n: nat) {
    Distinct(q) && forall i | 0 <= i < |q| :: q[i] < n
  }

  ghost predicate Waits(s: System, t: nat, k: nat)
    requires k < |s.sems|
  {
    t in s.sems[k].waiting
  }

  /** On a list that keeps it from running. */
  ghost predicate Blocked(s: System, t: nat) {
    t in s.sleeping || exists k :: 0 <= k < |s.sems| && Waits(s, t, k)
  }

  predicate ForSemaphore(st: State) {
    st == Waiting || st == WaitingWithTimeout
  }

  /** Which lists a thread is on follows from its state and whether it is on the ready list. */
  ghost predicate Placed(s: System, t: nat)
    requires t < |s.threads|
  {
    var th := s.threads[t];
    && (th.state == Running ==> (t in s.ready <==> t != s.current))
    && (th.state == Ready ==> t in s.ready)
    && (t in s.sleeping <==> t !in s.ready && (th.state == Sleeping || th.state == WaitingWithTimeout))
    && (ForSemaphore(th.state) ==> th.waitingOn < |s.sems|)
    && (forall k {:trigger Waits(s, t, k)} | 0 <= k < |s.sems| ::
          Waits(s, t, k) <==> t !in s.ready && ForSemaphore(th.state) && th.waitingOn == k)
    && (t !in s.ready && ForSemaphore(th.state) ==> th.call == Asked(th.waitingOn, false) && !th.timedOut)
    && (t !in s.ready && th.state == Sleeping ==> th.call == NoCall)
    && (t in s.ready || !ForSemaphore(th.state) ==> th.call.Asked? ==> (th.timedOut <==> !th.call.granted))
    && (th.call.Asked? ==> Recorded(s, t))
  }

  /** A thread's last acquire is marked granted exactly when the semaphore's history says so. */
  ghost predicate Recorded(s: System, t: nat)
    requires t < |s.threads| && s.threads[t].call.Asked?
  {
    var th := s.threads[t];
    && th.call.sem < |s.sems|
    && th.ticket < s.sems[th.call.sem].tickets
    && (th.call.granted <==> Ask(t, th.ticket) in s.sems[th.call.sem].grants)
  }

  /** The acquires granted, in order, and then those still waiting, in order. */
  ghost function Line(s: System, k: nat): seq<Ask>
    requires k < |s.sems| && Among(s.sems[k].waiting, |s.threads|)
  {
    s.sems[k].grants + Asks(s, s.sems[k].waiting)
  }

  ghost function Asks(s: System, q: seq<nat>): seq<Ask>
    requires Among(q, |s.threads|)
  {
    seq(|q|, i requires 0 <= i < |q| => Ask(q[i], s.threads[q[i]].ticket))
  }

  ghost predicate InOrder(line: seq<Ask>, below: nat) {
    && (forall i, j | 0 <= i < j < |line| :: line[i].ticket < line[j].ticket)
    && forall i | 0 <= i < |line| :: line[i].ticket < below
  }

  ghost predicate SemaphoreOk(s: System, k: nat)
    requires k < |s.sems|
  {
    var sem := s.sems[k];
    && sem.count <= sem.max
    && (sem.waiting != [] ==> sem.count == sem.max)
    && sem.count + sem.releases == sem.initial + |sem.grants|
    && Among(sem.waiting, |s.threads|)
    && InOrder(Line(s, k), sem.tickets)
  }

  ghost predicate Ids(s: System) {
    && s.current < |s.threads| && s.idle < |s.threads|
    && Among(s.ready, |s.threads|) && Among(s.sleeping, |s.threads|)
  }

  ghost predicate Inv(s: System) {
    && Ids(s)
    && (forall t {:trigger Placed(s, t)} | 0 <= t < |s.threads| :: Placed(s, t))
    && (forall k {:trigger SemaphoreOk(s, k)} | 0 <= k < |s.sems| :: SemaphoreOk(s, k))
    && (s.idle != s.current ==> s.idle in s.ready)
    && (s.idle == s.current ==> s.threads[s.idle].state == Running)
    && (s.current in s.ready ==> s.ready[0] != s.current)
  }

  /** Every thread is in exactly one of running, ready or blocked; a timed waiter is on both lists or on neither. */
  lemma ExactlyOnePlace(s: System, t: nat, k: nat)
    requires Inv(s) && t < |s.threads| && k < |s.sems|
    ensures Blocked(s, t) ==> t !in s.ready && s.threads[t].state != Running
    ensures t in s.ready ==> !(t == s.current && s.threads[t].state == Running)
    ensures Blocked(s, t) || t in s.ready || (t == s.current && s.threads[t].state == Running)
    ensures s.threads[t].state == WaitingWithTimeout && s.threads[t].waitingOn == k ==> (Waits(s, t, k) <==> t in s.sleeping)
    ensures forall j | 0 <= j < |s.sems| && j != k :: !(Waits(s, t, k) && Waits(s, t, j))
  {
    assert Placed(s, t);
    var w := s.threads[t].waitingOn;
    assert w < |s.sems| ==> Waits(s, t, w) || !Waits(s, t, w);
  }

  // ---- steps ----

  /** GetSystemTimer() + ((uint64_t) timeout_ms) * 1000 * 1000 */
  function Expiry(now: nat, timeout: int): nat {
    (now + timeout % CLOCK_RANGE * NANOS_PER_MILLI) % CLOCK_RANGE
  }

  function SetThread(s: System, t: nat, th: Thread): System
    requires t < |s.threads|
  {
    s.(threads := s.threads[t := th])
  }

  function SetSemaphore(s: System, k: nat, sem: Semaphore): System
    requires k < |s.sems|
  {
    s.(sems := s.sems[k := sem])
  }

  /** What acquiring asks of the caller: it is running, and it is not the idle thread, which never blocks. */
  ghost predicate MayBlock(s: System) {
    s.current < |s.threads| && s.threads[s.current].state == Running && s.current != s.idle
  }

  ghost function Granted(s: System, k: nat): System
    requires k < |s.sems| && s.current < |s.threads|
  {
    var sem, me := s.sems[k], s.threads[s.current];
    SetSemaphore(SetThread(s, s.current, me.(timedOut := false, ticket := sem.tickets, call := Asked(k, true))),
                 k, sem.(count := sem.count + 1, tickets := sem.tickets + 1, grants := sem.grants + [Ask(s.current, sem.tickets)]))
  }

  ghost function Refused(s: System, k: nat): System
    requires k < |s.sems| && s.current < |s.threads|
  {
    var sem, me := s.sems[k], s.threads[s.current];
    SetSemaphore(SetThread(s, s.current, me.(timedOut := true, waitingOn := k, ticket := sem.tickets, call := Asked(k, false))),
                 k, sem.(tickets := sem.tickets + 1))
  }

  ghost function Enlisted(s: System, k: nat, timed: bool, expiry: nat): System
    requires k < |s.sems| && s.current < |s.threads|
  {
    var sem, me := s.sems[k], s.threads[s.current];
    var th := me.(timedOut := false, waitingOn := k, ticket := sem.tickets, call := Asked(k, false),
                  state := if timed then WaitingWithTimeout else Waiting,
                  expiry := if timed then expiry else me.expiry);
    SetSemaphore(SetThread(s, s.current, th), k, sem.(waiting := sem.waiting + [s.current], tickets := sem.tickets + 1))
    .(sleeping := if timed then s.sleeping + [s.current] else s.sleeping)
  }

  /** AcquireSemaphore, up to the switch. */
  ghost function Acquire(s: System, k: nat, timeout: int, now: nat): System
    requires k < |s.sems| && s.current < |s.threads|
  {
    if s.sems[k].count < s.sems[k].max then Granted(s, k)
    else if timeout == 0 then Refused(s, k)
    else Enlisted(s, k, timeout != -1, Expiry(now, timeout))
  }

  /** SleepUntil, up to the switch. */
  ghost function Sleep(s: System, until: nat, now: nat): System
    requires s.current < |s.threads|
  {
    if until < now then s
    else SetThread(s, s.current, s.threads[s.current].(timedOut := false, state := Sleeping, expiry := until, call := NoCall))
         .(sleeping := s.sleeping + [s.current])
  }

  /** DecrementSemaphore when nobody waits. */
  ghost function Returned(s: System, k: nat): System
    requires k < |s.sems| && s.sems[k].count > 0
  {
    SetSemaphore(s, k, s.sems[k].(count := s.sems[k].count - 1, releases := s.sems[k].releases + 1))
  }

  /** DecrementSemaphore when somebody waits: the longest waiter gets the unit. */
  ghost function HandedOff(s: System, k: nat): System
    requires k < |s.sems| && s.sems[k].waiting != [] && s.sems[k].waiting[0] < |s.threads|
  {
    var sem := s.sems[k];
    var top := sem.waiting[0];
    var th := s.threads[top];
    var timed := th.state == WaitingWithTimeout;
    SetSemaphore(SetThread(s, top, th.(call := Asked(k, true), state := if timed then Ready else th.state)), k,
                 sem.(waiting := sem.waiting[1..], grants := sem.grants + [Ask(top, th.ticket)], releases := sem.releases + 1))
    .(ready := s.ready + [top], sleeping := if timed then Removed(s.sleeping, top) else s.sleeping)
  }

  ghost function Give(s: System, k: nat): System
    requires k < |s.sems| && Among(s.sems[k].waiting, |s.threads|)
    requires s.sems[k].waiting == [] ==> s.sems[k].count > 0
  {
    if s.sems[k].waiting == [] then Returned(s, k) else HandedOff(s, k)
  }

  /** The expiry or interruption of one sleep: UnblockThread after the thread left the sleep list. */
  ghost function Expired(s: System, t: nat, signalled: bool): System
    requires t < |s.threads| && (s.threads[t].state == WaitingWithTimeout ==> s.threads[t].waitingOn < |s.sems|)
  {
    var th := s.threads[t];
    var s' := SetThread(s, t, th.(timedOut := true, bySignal := signalled)).(sleeping := Removed(s.sleeping, t), ready := s.ready + [t]);
    if th.state != WaitingWithTimeout then s'
    else SetSemaphore(s', th.waitingOn, s.sems[th.waitingOn].(waiting := Removed(s.sems[th.waitingOn].waiting, t)))
  }

  /** ScheduleWithLockHeld */
  ghost function Schedule(s: System): System
    requires s.current < |s.threads| && (s.ready != [] ==> s.ready[0] < |s.threads|)
  {
    if s.ready == [] || s.ready[0] == s.current then s
    else
      var q := if s.threads[s.current].state == Running then s.ready + [s.current] else s.ready;
      SetThread(s, s.ready[0], s.threads[s.ready[0]].(state := Running)).(ready := q[1..], current := s.ready[0])
  }

  // ---- every step keeps the invariant ----

  lemma AsksKept(s: System, s': System, q: seq<nat>)
    requires Among(q, |s.threads|) && |s'.threads| == |s.threads|
    requires forall t | t in q :: s'.threads[t].ticket == s.threads[t].ticket
    ensures Asks(s', q) == Asks(s, q)
  {
    forall i | 0 <= i < |q| ensures Asks(s', q)[i] == Asks(s, q)[i] {
      assert q[i] in q;
    }
  }

  /** A semaphore whose record did not change is still in order when its waiters kept their tickets. */
  lemma SemaphoreKept(s: System, s': System, k: nat)
    requires k < |s.sems| && SemaphoreOk(s, k)
    requires |s'.threads| == |s.threads| && |s'.sems| == |s.sems| && s'.sems[k] == s.sems[k]
    requires forall t | t in s.sems[k].waiting :: s'.threads[t].ticket == s.threads[t].ticket
    ensures SemaphoreOk(s', k)
  {
    AsksKept(s, s', s.sems[k].waiting);
  }

  lemma RunnerIsOnNoList(s: System)
    requires Inv(s) && s.threads[s.current].state == Running
    ensures s.current !in s.ready && s.current !in s.sleeping
    ensures forall k | 0 <= k < |s.sems| :: !Waits(s, s.current, k)
  {
    assert Placed(s, s.current);
  }

  lemma NewTicket(s: System, k: nat, t: nat)
    requires k < |s.sems| && SemaphoreOk(s, k)
    ensures Ask(t, s.sems[k].tickets) !in s.sems[k].grants
  {
    var g := s.sems[k].grants;
    assert forall i | 0 <= i < |g| :: Line(s, k)[i] == g[i];
  }

  lemma GrantedKeepsInv(s: System, k: nat)
    requires Inv(s) && MayBlock(s) && k < |s.sems| && s.sems[k].count < s.sems[k].max
    ensures Inv(Granted(s, k))
  {
    var s' := Granted(s, k);
    assert SemaphoreOk(s, k);
    RunnerIsOnNoList(s);
    forall t | 0 <= t < |s'.threads| ensures Placed(s', t) {
      assert Placed(s, t);
      forall j | 0 <= j < |s'.sems| ensures Waits(s', t, j) <==> Waits(s, t, j) {
      }
    }
    forall j | 0 <= j < |s'.sems| ensures SemaphoreOk(s', j) {
      assert SemaphoreOk(s, j);
      assert !Waits(s, s.current, j);
      if j != k {
        SemaphoreKept(s, s', j);
      } else {
        assert Line(s', k) == Line(s, k) + [Ask(s.current, s.sems[k].tickets)];
      }
    }
  }

  lemma RefusedKeepsInv(s: System, k: nat)
    requires Inv(s) && MayBlock(s) && k < |s.sems|
    ensures Inv(Refused(s, k))
  {
    var s' := Refused(s, k);
    RunnerIsOnNoList(s);
    forall t | 0 <= t < |s'.threads| ensures Placed(s', t) {
      assert Placed(s, t);
      assert SemaphoreOk(s, k);
      NewTicket(s, k, t);
      forall j | 0 <= j < |s'.sems| ensures Waits(s', t, j) <==> Waits(s, t, j) {
      }
    }
    forall j | 0 <= j < |s'.sems| ensures SemaphoreOk(s', j) {
      assert SemaphoreOk(s, j);
      assert !Waits(s, s.current, j);
      AsksKept(s, s', s.sems[j].waiting);
    }
  }

  lemma EnlistedPlaced(s: System, k: nat, timed: bool, expiry: nat, t: nat)
    requires Inv(s) && MayBlock(s) && k < |s.sems| && t < |s.threads|
    ensures Placed(Enlisted(s, k, timed, expiry), t)
  {
    var s', me := Enlisted(s, k, timed, expiry), s.current;
    RunnerIsOnNoList(s);
    assert SemaphoreOk(s, k);
    NewTicket(s, k, me);
    assert Placed(s, t);
    forall j | 0 <= j < |s'.sems| ensures Waits(s', t, j) <==> Waits(s, t, j) || (t == me && j == k) {
    }
  }

  lemma EnlistedKeepsInv(s: System, k: nat, timed: bool, expiry: nat)
    requires Inv(s) && MayBlock(s) && k < |s.sems| && s.sems[k].count == s.sems[k].max
    ensures Inv(Enlisted(s, k, timed, expiry))
  {
    var s', me := Enlisted(s, k, timed, expiry), s.current;
    RunnerIsOnNoList(s);
    forall t | 0 <= t < |s'.threads| ensures Placed(s', t) {
      EnlistedPlaced(s, k, timed, expiry, t);
    }
    forall j | 0 <= j < |s'.sems| ensures SemaphoreOk(s', j) {
      assert SemaphoreOk(s, j);
      assert !Waits(s, me, j);
      if j != k {
        SemaphoreKept(s, s', j);
      } else {
        AsksKept(s, s', s.sems[k].waiting);
        assert Asks(s', s'.sems[k].waiting) == Asks(s', s.sems[k].waiting) + [Ask(me, s.sems[k].tickets)];
        assert Line(s', k) == Line(s, k) + [Ask(me, s.sems[k].tickets)];
      }
    }
  }

  lemma AcquireKeepsInv(s: System, k: nat, timeout: int, now: nat)
    requires Inv(s) && MayBlock(s) && k < |s.sems|
    ensures Inv(Acquire(s, k, timeout, now))
  {
    assert SemaphoreOk(s, k);
    if s.sems[k].count < s.sems[k].max {
      GrantedKeepsInv(s, k);
    } else if timeout == 0 {
      RefusedKeepsInv(s, k);
    } else {
      EnlistedKeepsInv(s, k, timeout != -1, Expiry(now, timeout));
    }
  }

  lemma SleepKeepsInv(s: System, until: nat, now: nat)
    requires Inv(s) && MayBlock(s)
    ensures Inv(Sleep(s, until, now))
  {
    var s', me := Sleep(s, until, now), s.current;
    assert Placed(s, me);
    forall t | 0 <= t < |s'.threads| ensures Placed(s', t) {
      assert Placed(s, t);
      forall j | 0 <= j < |s'.sems| ensures Waits(s', t, j) <==> Waits(s, t, j) {
      }
    }
    forall j | 0 <= j < |s'.sems| ensures SemaphoreOk(s', j) {
      assert SemaphoreOk(s, j);
      SemaphoreKept(s, s', j);
    }
  }

  lemma ReturnedKeepsInv(s: System, k: nat)
    requires Inv(s) && k < |s.sems| && s.sems[k].waiting == [] && s.sems[k].count > 0
    ensures Inv(Returned(s, k))
  {
    var s' := Returned(s, k);
    forall t | 0 <= t < |s'.threads| ensures Placed(s', t) {
      assert Placed(s, t);
      forall j | 0 <= j < |s'.sems| ensures Waits(s', t, j) <==> Waits(s, t, j) {
      }
    }
    forall j | 0 <= j < |s'.sems| ensures SemaphoreOk(s', j) {
      assert SemaphoreOk(s, j);
      AsksKept(s, s', s.sems[j].waiting);
    }
  }

  /**
  The waiter at the head of a semaphore's list is not on the ready list, and when it
  has a time-out it is on the sleep list: the case in DecrementSemaphore that finds
  it "already on the ready queue" never occurs.
   */
  lemma WaiterIsOffTheReadyList(s: System, k: nat, t: nat)
    requires Inv(s) && k < |s.sems| && Waits(s, t, k)
    ensures t < |s.threads| && t !in s.ready && t != s.idle
    ensures ForSemaphore(s.threads[t].state) && s.threads[t].waitingOn == k
    ensures s.threads[t].state == WaitingWithTimeout <==> t in s.sleeping
  {
    assert SemaphoreOk(s, k);
    assert Placed(s, t);
  }

  lemma HandedOffPlaced(s: System, k: nat, t: nat)
    requires Inv(s) && k < |s.sems| && s.sems[k].waiting != [] && t < |s.threads|
    ensures s.sems[k].waiting[0] < |s.threads| && Placed(HandedOff(s, k), t)
  {
    assert SemaphoreOk(s, k);
    var s', top := HandedOff(s, k), s.sems[k].waiting[0];
    assert Waits(s, top, k);
    WaiterIsOffTheReadyList(s, k, top);
    RemovedKeeps(s.sleeping, top);
    assert Placed(s, t);
    assert Placed(s, top);
    forall j | 0 <= j < |s'.sems| ensures Waits(s', t, j) <==> Waits(s, t, j) && !(t == top && j == k) {
      TailHas(s.sems[k].waiting, t);
    }
  }

  lemma HandedOffKeepsInv(s: System, k: nat)
    requires Inv(s) && k < |s.sems| && s.sems[k].waiting != []
    ensures s.sems[k].waiting[0] < |s.threads| && Inv(HandedOff(s, k))
  {
    assert SemaphoreOk(s, k);
    var s', top := HandedOff(s, k), s.sems[k].waiting[0];
    assert Waits(s, top, k);
    WaiterIsOffTheReadyList(s, k, top);
    RemovedKeeps(s.sleeping, top);
    forall t | 0 <= t < |s'.threads| ensures Placed(s', t) {
      HandedOffPlaced(s, k, t);
    }
    forall j | 0 <= j < |s'.sems| ensures SemaphoreOk(s', j) {
      assert SemaphoreOk(s, j);
      if j != k {
        SemaphoreKept(s, s', j);
      } else {
        assert Line(s', k) == Line(s, k);
      }
    }
  }

  lemma TailHas(q: seq<nat>, t: nat)
    requires Distinct(q) && q != []
    ensures t in q[1..] <==> t in q && t != q[0]
  {
    assert q == [q[0]] + q[1..];
  }

  lemma GiveKeepsInv(s: System, k: nat)
    requires Inv(s) && k < |s.sems| && s.sems[k].count > 0
    ensures SemaphoreOk(s, k) && Inv(Give(s, k))
  {
    assert SemaphoreOk(s, k);
    if s.sems[k].waiting == [] {
      ReturnedKeepsInv(s, k);
    } else {
      HandedOffKeepsInv(s, k);
    }
  }

  /**
  A sleeper with a semaphore time-out is on that semaphore's list: the assertion in
  CancelSemaphoreOfThread never fires.
   */
  lemma SleeperIsListed(s: System, t: nat)
    requires Inv(s) && t in s.sleeping
    ensures t < |s.threads| && t !in s.ready && t != s.idle
    ensures if s.threads[t].state == WaitingWithTimeout
            then s.threads[t].waitingOn < |s.sems| && Waits(s, t, s.threads[t].waitingOn)
            else s.threads[t].state == Sleeping && forall k | 0 <= k < |s.sems| :: !Waits(s, t, k)
  {
    assert Placed(s, t);
    assert ForSemaphore(s.threads[t].state) ==> Waits(s, t, s.threads[t].waitingOn);
  }

  lemma OrderWithout(line: seq<Ask>, below: nat, i: nat)
    requires InOrder(line, below) && i < |line|
    ensures InOrder(RemoveAt(line, i), below)
  {
    RemoveAtElements(line, i);
  }

  lemma AsksShrink(s: System, s': System, q: seq<nat>, i: nat)
    requires Among(q, |s.threads|) && i < |q| && |s'.threads| == |s.threads|
    requires forall u | 0 <= u < |s.threads| :: s'.threads[u].ticket == s.threads[u].ticket
    ensures Among(RemoveAt(q, i), |s'.threads|) && Asks(s', RemoveAt(q, i)) == RemoveAt(Asks(s, q), i)
  {
    RemoveAtElements(q, i);
  }

  lemma RemoveBehind(a: seq<Ask>, b: seq<Ask>, i: nat)
    requires i < |b|
    ensures a + RemoveAt(b, i) == RemoveAt(a + b, |a| + i)
  {
  }

  /** A thread that leaves a list leaves the others in their order. */
  lemma LineShrinks(s: System, s': System, k: nat, i: nat, below: nat)
    requires k < |s.sems| && Among(s.sems[k].waiting, |s.threads|) && i < |s.sems[k].waiting|
    requires InOrder(Line(s, k), below)
    requires |s'.threads| == |s.threads| && |s'.sems| == |s.sems|
    requires forall u | 0 <= u < |s.threads| :: s'.threads[u].ticket == s.threads[u].ticket
    requires s'.sems[k] == s.sems[k].(waiting := RemoveAt(s.sems[k].waiting, i))
    ensures Among(s'.sems[k].waiting, |s'.threads|) && InOrder(Line(s', k), below)
  {
    var q, g := s.sems[k].waiting, s.sems[k].grants;
    AsksShrink(s, s', q, i);
    RemoveBehind(g, Asks(s, q), i);
    OrderWithout(Line(s, k), below, |g| + i);
  }

  lemma LineWithout(s: System, s': System, k: nat, t: nat)
    requires k < |s.sems| && SemaphoreOk(s, k) && Waits(s, t, k)
    requires |s'.threads| == |s.threads| && |s'.sems| == |s.sems|
    requires forall u | 0 <= u < |s.threads| :: s'.threads[u].ticket == s.threads[u].ticket
    requires s'.sems[k] == s.sems[k].(waiting := Removed(s.sems[k].waiting, t))
    ensures SemaphoreOk(s', k)
  {
    LineShrinks(s, s', k, IndexOf(s.sems[k].waiting, t), s.sems[k].tickets);
  }

  lemma ExpiredPlaced(s: System, t: nat, signalled: bool, u: nat)
    requires Inv(s) && t in s.sleeping && u < |s.threads|
    ensures t < |s.threads| && (s.threads[t].state == WaitingWithTimeout ==> s.threads[t].waitingOn < |s.sems|)
    ensures Placed(Expired(s, t, signalled), u)
  {
    SleeperIsListed(s, t);
    assert Placed(s, t);
    var s', w := Expired(s, t, signalled), s.threads[t].waitingOn;
    RemovedKeeps(s.sleeping, t);
    assert Placed(s, u);
    forall k | 0 <= k < |s'.sems| ensures Waits(s', u, k) <==> Waits(s, u, k) && u != t {
      assert SemaphoreOk(s, k);
      assert Waits(s, t, k) ==> k == w && s.threads[t].state == WaitingWithTimeout;
      RemovedKeeps(s.sems[k].waiting, t);
    }
  }

  lemma ExpiredKeepsInv(s: System, t: nat, signalled: bool)
    requires Inv(s) && t in s.sleeping
    ensures t < |s.threads| && (s.threads[t].state == WaitingWithTimeout ==> s.threads[t].waitingOn < |s.sems|)
    ensures Inv(Expired(s, t, signalled))
  {
    SleeperIsListed(s, t);
    var s', w := Expired(s, t, signalled), s.threads[t].waitingOn;
    RemovedKeeps(s.sleeping, t);
    forall k | 0 <= k < |s.sems| ensures SemaphoreOk(s', k) {
      assert SemaphoreOk(s, k);
      if s.threads[t].state == WaitingWithTimeout && k == w {
        LineWithout(s, s', k, t);
      } else {
        SemaphoreKept(s, s', k);
      }
    }
    forall u | 0 <= u < |s'.threads| ensures Placed(s', u) {
      ExpiredPlaced(s, t, signalled, u);
    }
  }

  lemma ScheduledPlaced(s: System, t: nat)
    requires Inv(s) && s.ready != [] && s.ready[0] != s.current && t < |s.threads|
    ensures Placed(Schedule(s), t)
  {
    var s' := Schedule(s);
    assert Placed(s, t);
    assert Placed(s, s.current);
    assert Placed(s, s.ready[0]);
    assert t in s'.ready <==> (t in s.ready && t != s.ready[0]) || (t == s.current && s.threads[t].state == Running) by {
      TailHas(s.ready, t);
      assert (s.ready + [s.current])[1..] == s.ready[1..] + [s.current];
    }
    forall k | 0 <= k < |s'.sems| ensures Waits(s', t, k) <==> Waits(s, t, k) {
    }
  }

  /** The scheduler always has another thread to switch to when the current one blocked. */
  lemma ScheduleKeepsInv(s: System)
    requires Inv(s)
    ensures Inv(Schedule(s))
    ensures Schedule(s).threads[Schedule(s).current].state == Running
  {
    var s' := Schedule(s);
    assert Placed(s, s.current);
    if s.ready != [] && s.ready[0] != s.current {
      assert (s.ready + [s.current])[1..] == s.ready[1..] + [s.current];
      forall t | 0 <= t < |s'.threads| ensures Placed(s', t) {
        ScheduledPlaced(s, t);
      }
      forall k | 0 <= k < |s'.sems| ensures SemaphoreOk(s', k) {
        assert SemaphoreOk(s, k);
        SemaphoreKept(s, s', k);
      }
      TailHas(s.ready, s.idle);
      TailHas(s.ready, s.ready[0]);
    }
  }
}
