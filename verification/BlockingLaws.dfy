/**
What each step of the blocking protocol does, said of the state before and the state
after alone: who runs, who is on which list, what the counts are and what is answered.
 */
module BlockingLaws {
  import opened Basics
  import opened Queues
  import opened Blocking
  import opened BlockingRuns

  /** Only thread t and semaphore k may have changed, besides the lists and who runs. */
  ghost predicate OthersSame(s: System, s': System, t: nat, k: int) {
    && |s'.threads| == |s.threads| && |s'.sems| == |s.sems| && s'.idle == s.idle
    && (forall u | 0 <= u < |s.threads| && u != t :: s'.threads[u] == s.threads[u])
    && (forall j | 0 <= j < |s.sems| && j != k :: s'.sems[j] == s.sems[j])
  }

  /**
  AcquireSemaphore. A free unit is taken at once, whatever the time-out. Without one, a
  time-out of 0 is refused and changes no list; any other makes the caller the last on
  the semaphore's list, and it is put to sleep as well exactly if the wait is timed.
   */
  lemma AcquireLaw(s: System, k: nat, timeout: int, now: nat)
    requires Inv(s) && MayBlock(s) && k < |s.sems|
    ensures var s', me, sem := Acquire(s, k, timeout, now), s.current, s.sems[k];
            && OthersSame(s, s', me, k) && s'.current == s.current && s'.ready == s.ready
            && var th, sem' := s'.threads[me], s'.sems[k];
            && sem'.max == sem.max
            && (sem.count < sem.max ==>
                  && sem'.count == sem.count + 1 && sem'.waiting == sem.waiting && s'.sleeping == s.sleeping
                  && th.state == Running && AcquireResult(th, timeout) == NoError)
            && (sem.count == sem.max && timeout == 0 ==>
                  && sem'.count == sem.count && sem'.waiting == sem.waiting && s'.sleeping == s.sleeping
                  && th.state == Running && AcquireResult(th, timeout) == EAgain)
            && (sem.count == sem.max && timeout != 0 ==>
                  && sem'.count == sem.count && sem'.waiting == sem.waiting + [me] && th.waitingOn == k && !th.timedOut
                  && s'.sleeping == (if timeout == -1 then s.sleeping else s.sleeping + [me])
                  && th.state == (if timeout == -1 then Waiting else WaitingWithTimeout))
  {
    assert SemaphoreOk(s, k);
  }

  /** The caller goes on exactly if a unit was free or it would not wait, and the count goes up exactly if one was free. */
  lemma AcquireDecides(s: System, k: nat, timeout: int, now: nat)
    requires Inv(s) && MayBlock(s) && k < |s.sems|
    ensures var s' := Acquire(s, k, timeout, now);
            && |s'.threads| == |s.threads| && |s'.sems| == |s.sems|
            && (s'.threads[s.current].state == Running <==> s.sems[k].count < s.sems[k].max || timeout == 0)
            && (s'.sems[k].count == s.sems[k].count + 1 <==> s.sems[k].count < s.sems[k].max)
  {
    AcquireLaw(s, k, timeout, now);
    assert SemaphoreOk(s, k);
  }

  /** A timed wait ends a million nanoseconds per millisecond from now. */
  lemma TimedWaitEnds(s: System, k: nat, timeout: nat, now: nat)
    requires Inv(s) && MayBlock(s) && k < |s.sems| && s.sems[k].count == s.sems[k].max && timeout > 0
    requires now + 1000000 * timeout < 0x1_0000_0000_0000_0000
    ensures |Acquire(s, k, timeout, now).threads| == |s.threads|
    ensures Acquire(s, k, timeout, now).threads[s.current].expiry == now + 1000000 * timeout
  {
    SmallMod(timeout, CLOCK_RANGE);
    SmallMod(now + 1000000 * timeout, CLOCK_RANGE);
  }

  lemma SmallMod(x: nat, m: nat)
    requires x < m
    ensures x % m == x
  {
  }

  /** What a call that ran out of time answers. */
  lemma LateAnswer(th: Thread, timeout: int)
    requires th.timedOut
    ensures AcquireResult(th, timeout) == if timeout == 0 then EAgain else ETimedOut
  {
  }

  /** A machine starts with its idle thread running, the others ready in order, and every semaphore as it was made. */
  lemma BootLaw(threads: nat, sems: seq<(nat, nat)>)
    requires threads > 0
    ensures var s := Boot(threads, sems);
            && |s.threads| == threads && s.current == 0 && s.idle == 0 && s.threads[0].state == Running && s.sleeping == []
            && |s.ready| == threads - 1 && (forall i | 0 <= i < |s.ready| :: s.ready[i] == i + 1)
            && |s.sems| == |sems|
            && forall k | 0 <= k < |sems| :: s.sems[k].max == sems[k].0 && s.sems[k].count == sems[k].1 && s.sems[k].waiting == []
  {
  }

  /** SleepUntil: a time that has passed returns at once; otherwise the caller is the last sleeper, until just that time. */
  lemma SleepLaw(s: System, until: nat, now: nat)
    requires Inv(s) && MayBlock(s)
    ensures until < now ==> Sleep(s, until, now) == s
    ensures until >= now ==>
              var s', me := Sleep(s, until, now), s.current;
              && OthersSame(s, s', me, -1) && s'.current == me && s'.ready == s.ready && s'.sems == s.sems
              && s'.sleeping == s.sleeping + [me]
              && s'.threads[me].state == Sleeping && s'.threads[me].expiry == until && !s'.threads[me].timedOut
  {
  }

  /**
  ScheduleWithLockHeld: the front of the ready list runs next, and a thread that was still
  running goes to the back. With nobody ready nothing changes.
   */
  lemma ScheduleLaw(s: System)
    requires Inv(s)
    ensures s.ready == [] ==> Schedule(s) == s
    ensures s.ready != [] ==>
              var s', next := Schedule(s), s.ready[0];
              && OthersSame(s, s', next, -1) && s'.sems == s.sems && s'.sleeping == s.sleeping
              && next < |s.threads| && s'.current == next
              && s'.threads[next] == s.threads[next].(state := Running)
              && s'.ready == s.ready[1..] + if s.threads[s.current].state == Running then [s.current] else []
  {
    if s.ready != [] {
      var next := s.ready[0];
      assert next in s.ready;
      assert Placed(s, next) && Placed(s, s.current);
    }
  }

  /**
  DecrementSemaphore: the longest waiter, if there is one, leaves both lists it may be on,
  becomes ready and has its unit, so the count stays; otherwise the count goes down.
   */
  lemma GiveLaw(s: System, k: nat)
    requires Inv(s) && k < |s.sems| && s.sems[k].count > 0
    ensures SemaphoreOk(s, k)
    ensures s.sems[k].waiting == [] ==>
              var s' := Give(s, k);
              && OthersSame(s, s', |s.threads|, k) && s'.ready == s.ready && s'.sleeping == s.sleeping && s'.current == s.current
              && s'.sems[k].count == s.sems[k].count - 1 && s'.sems[k].waiting == []
    ensures s.sems[k].waiting != [] ==>
              var s', top := Give(s, k), s.sems[k].waiting[0];
              && top < |s.threads| && OthersSame(s, s', top, k) && s'.current == s.current
              && s'.sems[k].count == s.sems[k].count && s'.sems[k].waiting == s.sems[k].waiting[1..]
              && s'.ready == s.ready + [top] && top !in s'.sleeping
              && (forall u | u != top :: u in s'.sleeping <==> u in s.sleeping)
              && !s'.threads[top].timedOut
  {
    assert SemaphoreOk(s, k);
    if s.sems[k].waiting != [] {
      var top := s.sems[k].waiting[0];
      assert Waits(s, top, k) && Placed(s, top);
      RemovedKeeps(s.sleeping, top);
    }
  }

  /**
  HandleSleepWakeups: exactly the sleepers whose time has come or who have a signal leave
  the sleep list and their semaphore's list, become ready and are marked; nobody else changes.
   */
  lemma TickLaw(s: System, now: nat, signalled: set<nat>, t: nat, k: nat)
    requires Inv(s) && t < |s.threads| && k < |s.sems|
    ensures var s' := Tick(s, now, signalled);
            var due := t in s.sleeping && (s.threads[t].expiry <= now || t in signalled);
            && |s'.threads| == |s.threads| && |s'.sems| == |s.sems| && s'.current == s.current
            && s'.sems[k].count == s.sems[k].count
            && (due ==>
                  && t in s'.ready && t !in s'.sleeping && !Waits(s', t, k)
                  && s'.threads[t] == s.threads[t].(timedOut := true, bySignal := t in signalled))
            && (!due ==>
                  && (t in s'.ready <==> t in s.ready) && (t in s'.sleeping <==> t in s.sleeping)
                  && (Waits(s', t, k) <==> Waits(s, t, k)) && s'.threads[t] == s.threads[t])
  {
    var d := DueSet(s, now, signalled);
    FilterHas(s.sleeping, d, t);
    FilterHas(s.sems[k].waiting, d, t);
  }
}
