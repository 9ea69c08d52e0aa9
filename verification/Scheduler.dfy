/**
The scheduler's state updated in place: semaphores, the ready and sleep lists and the
current thread, with the operations of sync/semaphore.c, thread/timer.c and
thread/thread.c proved to be the steps of Blocking and BlockingRuns. The source's
assertions are asserted here. Thread lists are sequences, as the linked lists of
ThreadList implement them.
 */
module Scheduler {
  import opened Basics
  import opened Queues
  import opened Blocking
  import opened BlockingRuns

  /** ThreadListDelete */
  method Delete(q: seq<nat>, t: nat) returns (r: seq<nat>)
    requires Distinct(q) && t in q
    ensures r == Removed(q, t)
  {
    var i := 0;
    while q[i] != t
      invariant 0 <= i < |q| && t in q[i..]
      decreases |q| - i
    {
      assert q[i..] == [q[i]] + q[i + 1..];
      i := i + 1;
    }
    RemovedIs(q, t, i);
    r := RemoveAt(q, i);
  }

  class Scheduler {
    var threads: seq<Thread>
    var ready: seq<nat>
    var sleeping: seq<nat>
    var sems: seq<Semaphore>
    var current: nat
    const idle: nat

    ghost function View(): System
      reads this
    {
      System(threads, ready, sleeping, sems, current, idle)
    }

    constructor (count: nat, limits: seq<(nat, nat)>)
      requires count > 0 && forall k | 0 <= k < |limits| :: limits[k].1 <= limits[k].0
      ensures Inv(View()) && View() == Boot(count, limits)
    {
      threads := seq(count, t requires 0 <= t < count => Thread(if t == 0 then Running else Ready, false, false, 0, 0, 0, NoCall));
      ready := seq(count - 1, i requires 0 <= i < count - 1 => i + 1);
      sleeping := [];
      sems := seq(|limits|, k requires 0 <= k < |limits| => Semaphore(limits[k].0, limits[k].1, [], limits[k].1, 0, [], 0));
      current := 0;
      idle := 0;
      BootInv(count, limits);
    }

    method BlockThread(reason: State)
      requires current < |threads| && threads[current].state == Running
      requires reason != Ready && reason != Running
      modifies this`threads
      ensures View() == old(SetThread(View(), current, threads[current].(state := reason)))
    {
      threads := threads[current := threads[current].(state := reason)];
    }

    method QueueForSleep(t: nat)
      requires t < |threads| && t !in sleeping
      modifies this`threads, this`sleeping
      ensures View() == old(SetThread(View(), t, threads[t].(timedOut := false)).(sleeping := sleeping + [t]))
    {
      threads := threads[t := threads[t].(timedOut := false)];
      sleeping := sleeping + [t];
    }

    method TryDequeueForSleep(t: nat) returns (found: bool)
      requires Distinct(sleeping)
      modifies this`sleeping
      ensures found <==> t in old(sleeping)
      ensures sleeping == Removed(old(sleeping), t)
    {
      var i := 0;
      while i < |sleeping|
        invariant 0 <= i <= |sleeping| && t !in sleeping[..i] && sleeping == old(sleeping)
      {
        if sleeping[i] == t {
          sleeping := Delete(sleeping, t);
          return true;
        }
        i := i + 1;
      }
      found := false;
    }

    method CancelSemaphoreOfThread(t: nat)
      requires t < |threads| && threads[t].waitingOn < |sems|
      requires Distinct(sems[threads[t].waitingOn].waiting) && t in sems[threads[t].waitingOn].waiting
      modifies this`sems
      ensures sems == old(sems[threads[t].waitingOn := sems[threads[t].waitingOn].(
                                waiting := Removed(sems[threads[t].waitingOn].waiting, t))])
    {
      var k := threads[t].waitingOn;
      assert t in sems[k].waiting;
      var q := Delete(sems[k].waiting, t);
      sems := sems[k := sems[k].(waiting := q)];
    }

    /** Puts a thread that left the sleep list on the ready list. */
    method UnblockExpired(t: nat, signalled: bool, ghost before: System)
      requires Inv(before) && t in before.sleeping
      requires t < |threads| && (threads[t].state == WaitingWithTimeout ==> threads[t].waitingOn < |sems|)
      requires View() == SetThread(before, t, before.threads[t].(timedOut := true, bySignal := signalled)).(sleeping := Removed(before.sleeping, t))
      modifies this`sems, this`ready
      ensures Inv(View()) && t < |before.threads|
      ensures before.threads[t].state == WaitingWithTimeout ==> before.threads[t].waitingOn < |before.sems|
      ensures View() == Expired(before, t, signalled)
    {
      ghost var k := threads[t].waitingOn;
      SleeperIsListed(before, t);
      ExpiredKeepsInv(before, t, signalled);
      assert k < |sems| ==> SemaphoreOk(before, k);
      UnblockThread(t);
    }

    method UnblockThread(t: nat)
      requires t < |threads| && t !in ready
      requires threads[t].state == WaitingWithTimeout ==>
                 && threads[t].waitingOn < |sems|
                 && Distinct(sems[threads[t].waitingOn].waiting) && t in sems[threads[t].waitingOn].waiting
      modifies this`sems, this`ready
      ensures ready == old(ready) + [t]
      ensures sems == if threads[t].state != WaitingWithTimeout then old(sems) else
                        old(sems[threads[t].waitingOn := sems[threads[t].waitingOn].(
                                  waiting := Removed(sems[threads[t].waitingOn].waiting, t))])
    {
      if threads[t].state == WaitingWithTimeout {
        CancelSemaphoreOfThread(t);
      }
      ready := ready + [t];
    }

    /** The part of AcquireSemaphore that waits. */
    method Enlist(k: nat, timeout: int, now: nat)
      requires Inv(View()) && MayBlock(View()) && k < |sems| && sems[k].count == sems[k].max
      modifies this`threads, this`sems, this`sleeping
      ensures View() == Enlisted(old(View()), k, timeout != -1, Expiry(now, timeout))
    {
      RunnerIsOnNoList(View());
      ghost var s := View();
      var me := current;
      threads := threads[me := threads[me].(timedOut := false, waitingOn := k, ticket := sems[k].tickets, call := Asked(k, false))];
      sems := sems[k := sems[k].(waiting := sems[k].waiting + [me], tickets := sems[k].tickets + 1)];
      if timeout == -1 {
        BlockThread(Waiting);
      } else {
        threads := threads[me := threads[me].(expiry := Expiry(now, timeout))];
        QueueForSleep(me);
        BlockThread(WaitingWithTimeout);
      }
      assert threads == Enlisted(s, k, timeout != -1, Expiry(now, timeout)).threads;
    }

    method AcquireSemaphore(k: nat, timeout: int, now: nat)
      requires Inv(View()) && MayBlock(View()) && k < |sems|
      modifies this`threads, this`sems, this`sleeping
      ensures View() == Acquire(old(View()), k, timeout, now) && Inv(View())
    {
      AcquireKeepsInv(View(), k, timeout, now);
      assert SemaphoreOk(View(), k);
      var me := current;
      if sems[k].count < sems[k].max {
        threads := threads[me := threads[me].(timedOut := false, ticket := sems[k].tickets, call := Asked(k, true))];
        sems := sems[k := sems[k].(count := sems[k].count + 1, tickets := sems[k].tickets + 1,
                                   grants := sems[k].grants + [Ask(me, sems[k].tickets)])];
      } else if timeout == 0 {
        threads := threads[me := threads[me].(timedOut := true, waitingOn := k, ticket := sems[k].tickets, call := Asked(k, false))];
        sems := sems[k := sems[k].(tickets := sems[k].tickets + 1)];
      } else {
        Enlist(k, timeout, now);
      }
    }

    /** Hands a unit to the thread at the head of the semaphore's list. */
    method WakeTop(k: nat)
      requires Inv(View()) && k < |sems| && sems[k].waiting != []
      modifies this`threads, this`sems, this`sleeping, this`ready
      ensures old(sems[k].waiting[0] < |threads|) && View() == HandedOff(old(View()), k)
    {
      ghost var s := View();
      assert SemaphoreOk(s, k);
      var top := sems[k].waiting[0];
      assert Waits(s, top, k);
      WaiterIsOffTheReadyList(s, k, top);
      sems := sems[k := sems[k].(waiting := sems[k].waiting[1..], grants := sems[k].grants + [Ask(top, threads[top].ticket)],
                                 releases := sems[k].releases + 1)];
      threads := threads[top := threads[top].(call := Asked(k, true))];
      if threads[top].state == WaitingWithTimeout {
        var onSleepQueue := TryDequeueForSleep(top);
        assert onSleepQueue;
        threads := threads[top := threads[top].(state := Ready)];
      }
      UnblockThread(top);
      assert threads == HandedOff(s, k).threads;
    }

    method DecrementSemaphore(k: nat)
      requires Inv(View()) && k < |sems| && sems[k].count > 0
      modifies this`threads, this`sems, this`sleeping, this`ready
      ensures SemaphoreOk(old(View()), k) && View() == Give(old(View()), k) && Inv(View())
    {
      GiveKeepsInv(View(), k);
      if sems[k].waiting == [] {
        sems := sems[k := sems[k].(count := sems[k].count - 1, releases := sems[k].releases + 1)];
      } else {
        WakeTop(k);
      }
    }

    method ReleaseSemaphoreEx(k: nat, n: int) returns (decrements: nat)
      requires Inv(View()) && k < |sems| && (n >= 0 ==> sems[k].count > 0)
      modifies this`threads, this`sems, this`sleeping, this`ready
      ensures decrements == Units(old(sems[k]), n)
      ensures View() == Released(old(View()), k, decrements) && Inv(View())
    {
      decrements := 0;
      if n < 0 {
        return;
      }
      ghost var s, total := View(), Units(sems[k], n);
      var left := n;
      var more := true;
      while more
        invariant Inv(View()) && k < |sems| && left == n - decrements
        invariant more <==> decrements < total
        invariant decrements <= total && CanGive(View(), k, total - decrements)
        invariant |sems[k].waiting| + sems[k].count == |s.sems[k].waiting| + s.sems[k].count - decrements
        invariant Released(View(), k, total - decrements) == Released(s, k, total)
        invariant sems[k].max == s.sems[k].max
        decreases total - decrements
      {
        GiveLeaves(View(), k, total - decrements);
        decrements := decrements + 1;
        DecrementSemaphore(k);
        assert SemaphoreOk(View(), k);
        left := left - 1;
        more := left != 0 && sems[k].count > 0;
      }
    }

    method SleepUntil(until: nat, now: nat)
      requires Inv(View()) && MayBlock(View())
      modifies this`threads, this`sleeping
      ensures View() == Sleep(old(View()), until, now) && Inv(View())
    {
      SleepKeepsInv(View(), until, now);
      RunnerIsOnNoList(View());
      ghost var s := View();
      if until < now {
        return;
      }
      threads := threads[current := threads[current].(expiry := until, call := NoCall)];
      QueueForSleep(current);
      BlockThread(Sleeping);
      assert threads == Sleep(s, until, now).threads;
    }

    /** Wakes the sleeper at a position of the sleep list. */
    method Expire(i: nat, signalled: bool)
      requires Inv(View()) && i < |sleeping|
      modifies this`threads, this`sems, this`sleeping, this`ready
      ensures Inv(View())
      ensures var t := old(sleeping[i]);
              && t < |old(threads)| && (old(threads[t]).state == WaitingWithTimeout ==> old(threads[t]).waitingOn < |old(sems)|)
              && View() == Expired(old(View()), t, signalled)
    {
      ghost var s := View();
      var t := sleeping[i];
      SleeperIsListed(s, t);
      sleeping := Delete(sleeping, t);
      threads := threads[t := threads[t].(timedOut := true, bySignal := signalled)];
      UnblockExpired(t, signalled, s);
    }

    /** The walk along the sleep list starts over after every wake-up. */
    method HandleSleepWakeups(now: nat, signalled: set<nat>)
      requires Inv(View())
      modifies this`threads, this`sems, this`sleeping, this`ready
      ensures View() == Tick(old(View()), now, signalled) && Inv(View())
    {
      ghost var s := View();
      var i := 0;
      while i < |sleeping|
        invariant Inv(View()) && 0 <= i <= |sleeping|
        invariant Tick(View(), now, signalled) == Tick(s, now, signalled)
        invariant forall j | 0 <= j < i :: !Due(threads[sleeping[j]], now, sleeping[j] in signalled)
        decreases |sleeping|, |sleeping| - i
      {
        if Due(threads[sleeping[i]], now, sleeping[i] in signalled) {
          TickFirst(View(), now, signalled, i);
          Expire(i, sleeping[i] in signalled);
          i := 0;
        } else {
          i := i + 1;
        }
      }
      assert DueSet(View(), now, signalled) == {};
      AwakenNobody(View(), signalled);
    }

    method SwitchToNewTask(next: nat)
      requires ready != [] && ready[0] == next < |threads|
      modifies this`threads, this`ready, this`current
      ensures View() == old(SetThread(View(), next, threads[next].(state := Running)).(ready := ready[1..], current := next))
    {
      threads := threads[next := threads[next].(state := Running)];
      ready := ready[1..];
      current := next;
    }

    method ScheduleWithLockHeld()
      requires Inv(View())
      modifies this`threads, this`ready, this`current
      ensures View() == Schedule(old(View())) && Inv(View())
      ensures threads[current].state == Running
    {
      ScheduleKeepsInv(View());
      if ready == [] || ready[0] == current {
        return;
      }
      var next := ready[0];
      if threads[current].state == Running {
        ready := ready + [current];
      }
      SwitchToNewTask(next);
    }
  }
}
