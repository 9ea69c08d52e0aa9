/**
The recursive scheduler lock of thread/thread.c, built from two spinlocks that save
and restore the interrupt level (sync/spinlock.c). The outermost lock swaps the two
saved levels, so that the level the caller came from is kept in the lock that stays
held, and the outermost unlock swaps them back.
 */
module SchedulerLock {
  import opened HeapOrder
  import opened Irql

  const SCHEDULER := 3

  datatype Spinlock = Spinlock(held: bool, irql: nat, prevIrql: nat)

  /** How using a spinlock ends: with what became of the level, or in one of the panics of spinlock.c. */
  datatype Spun = Spun(why: Outcome) | DoubleAcquisition | ReleasedBeforeAcquired

  /** What is done while the lock is at some depth. */
  datatype Event = Lock | Unlock | Code(acts: seq<Action>)

  ghost function Depth(script: seq<Event>): int {
    if script == [] then 0
    else
      Depth(script[..|script| - 1]) +
      match script[|script| - 1] { case Lock => 1 case Unlock => -1 case Code(_) => 0 }
  }

  /** The level code runs at once the events of a script have happened. */
  ghost function LevelAfter(script: seq<Event>, entry: nat): nat {
    if Depth(script) > 0 then SCHEDULER else entry
  }

  /** No unlock without a lock, and no code that raises to level 1. */
  ghost predicate WellNested(script: seq<Event>) {
    && (forall i | 0 <= i <= |script| :: Depth(script[..i]) >= 0)
    && (forall i | 0 <= i < |script| && script[i].Code? :: Plain(script[i].acts))
  }

  /** All code in the script keeps to the rules at the level it runs at. */
  ghost predicate ScriptFits(script: seq<Event>, entry: nat) {
    forall i | 0 <= i < |script| && script[i].Code? :: Fits(script[i].acts, LevelAfter(script[..i], entry))
  }

  ghost function ScriptSize(script: seq<Event>): nat {
    if script == [] then 0
    else ScriptSize(script[..|script| - 1]) + EventSize(script[|script| - 1])
  }

  ghost function EventSize(e: Event): nat {
    if e.Code? then SizeOf(e.acts, Deferrals) else 0
  }

  /** The deferrals that code makes itself. */
  ghost function EventIssues(e: Event): multiset<Item<Handler>> {
    if e.Code? then Issues(e.acts) else multiset{}
  }

  ghost function ScriptIssues(script: seq<Event>): multiset<Item<Handler>> {
    if script == [] then multiset{}
    else ScriptIssues(script[..|script| - 1]) + EventIssues(script[|script| - 1])
  }

  lemma {:induction false} ScriptIssuesGrow(script: seq<Event>, i: nat)
    requires i <= |script|
    ensures ScriptIssues(script[..i]) <= ScriptIssues(script)
    decreases |script| - i
  {
    if i == |script| {
      assert script[..i] == script;
    } else {
      ScriptStep(script, i);
      ScriptIssuesGrow(script, i + 1);
    }
  }

  lemma OutstandingWithin(i: multiset<Item<Handler>>, l: seq<Ran>, own: multiset<Item<Handler>>, all: multiset<Item<Handler>>,
                          i': multiset<Item<Handler>>, l': seq<Ran>, x: Item<Handler>)
    requires Outstanding(i, l, own, i', l', x) && own <= all
    ensures Outstanding(i, l, all, i', l', x)
  {
    OutstandingMore(i, l, own, all - own, i', l', x);
    assert own + (all - own) == all;
  }

  lemma ScriptStep(script: seq<Event>, i: nat)
    requires i < |script|
    ensures ScriptIssues(script[..i + 1]) == ScriptIssues(script[..i]) + EventIssues(script[i])
    ensures ScriptSize(script[..i + 1]) == ScriptSize(script[..i]) + EventSize(script[i])
    ensures Depth(script[..i + 1]) == Depth(script[..i]) + match script[i] { case Lock => 1 case Unlock => -1 case Code(_) => 0 }
  {
    assert script[..i + 1][..i] == script[..i];
  }

  lemma {:induction false} ScriptGrows(script: seq<Event>, i: nat)
    requires i <= |script|
    ensures ScriptSize(script[..i]) <= ScriptSize(script)
    decreases |script| - i
  {
    if i == |script| {
      assert script[..i] == script;
    } else {
      ScriptStep(script, i);
      ScriptGrows(script, i + 1);
    }
  }

  class RecursiveLock {
    const cpu: Cpu
    var lock: Spinlock
    var recur: Spinlock
    var count: nat

    /**
    `entry` is the level of the outermost caller. Level 1 is not a level code runs at.
    Nothing is deferred to the scheduler's level or above it.
     */
    ghost predicate Valid(entry: nat)
      reads this, cpu, cpu.deferred, cpu.deferred.items
    {
      && cpu.Valid() && cpu.Below(SCHEDULER)
      && entry <= SCHEDULER && entry != STANDARD_HIGH_PRIORITY
      && lock.irql == SCHEDULER && recur.irql == SCHEDULER
      && !recur.held
      && (lock.held <==> count > 0)
      && cpu.irql == (if count > 0 then SCHEDULER else entry)
      && (count > 0 ==> lock.prevIrql == entry)
    }

    constructor (cpu: Cpu)
      requires cpu.Valid() && cpu.Below(SCHEDULER) && cpu.irql <= SCHEDULER
      ensures Valid(cpu.irql) && this.cpu == cpu && count == 0
    {
      this.cpu := cpu;
      lock := Spinlock(false, SCHEDULER, 0);
      recur := Spinlock(false, SCHEDULER, 0);
      count := 0;
    }

    /** AcquireSpinlock; spinlocks have the scheduler's level or a higher one. */
    method AcquireSpinlock(l: Spinlock) returns (l': Spinlock, r: Spun)
      requires cpu.Valid() && l.irql >= SCHEDULER
      modifies cpu
      ensures cpu.Valid() && cpu.log == old(cpu.log) && cpu.issued == old(cpu.issued)
      ensures r == if l.held then DoubleAcquisition else Spun(if l.irql < old(cpu.irql) then InvalidIrql else Done)
      ensures l' == if r == Spun(Done) then Spinlock(true, l.irql, old(cpu.irql)) else l
      ensures cpu.irql == if r == Spun(Done) then l.irql else old(cpu.irql)
    {
      l' := l;
      if l.held {
        return l, DoubleAcquisition;
      }
      var prior := cpu.irql;
      var raised := cpu.RaiseIrql(l.irql);
      if raised == Done {
        l' := Spinlock(true, l.irql, prior);
      }
      r := Spun(raised);
    }

    /** ReleaseSpinlock: the lock is cleared first, and then the level goes back to the saved one. */
    method ReleaseSpinlock(l: Spinlock) returns (l': Spinlock, r: Spun)
      requires cpu.Valid()
      modifies cpu, cpu.deferred, cpu.deferred.items
      ensures !l.held ==> r == ReleasedBeforeAcquired && l' == l && unchanged(cpu, cpu.deferred, cpu.deferred.items)
      ensures l.held ==> r.Spun? && l' == l.(held := false)
      ensures l.held && l.prevIrql > old(cpu.irql) ==> r == Spun(InvalidIrql)
      ensures r == Spun(Done) ==> cpu.Valid() && cpu.irql == Runs(l.prevIrql) && cpu.Below(l.prevIrql)
      ensures r == Spun(Done) ==> cpu.Load() <= old(cpu.Load())
      ensures l.held && l.prevIrql <= old(cpu.irql) ==> Since(old(cpu.log), cpu.log, Runs(l.prevIrql))
      ensures l.prevIrql <= old(cpu.irql) && old(AllFit(cpu.deferred.Contents())) ==>
                r != Spun(InvalidIrql) && (r == Spun(Done) ==> AllFit(cpu.deferred.Contents()))
      ensures r == Spun(Done) ==> CarriedOut(old(cpu.issued), old(cpu.log), multiset{}, cpu.issued, cpu.log)
      ensures old(cpu.Load()) <= cpu.deferred.items.Length + 1 ==> !(r.Spun? && r.why.QueueFull?)
      ensures r.Spun? && r.why.QueueFull? ==> cpu.Stuck(r.why.item) && Outstanding(old(cpu.issued), old(cpu.log), multiset{}, cpu.issued, cpu.log, r.why.item)
      ensures l.held && l.prevIrql <= old(cpu.irql) && old(cpu.Below(l.prevIrql)) ==>
                r == Spun(Done) && cpu.log == old(cpu.log) && cpu.issued == old(cpu.issued) && unchanged(cpu.deferred, cpu.deferred.items)
    {
      if !l.held {
        return l, ReleasedBeforeAcquired;
      }
      l' := l.(held := false);
      var lowered := cpu.LowerIrql(l.prevIrql);
      r := Spun(lowered);
    }

    /** Acquires a free lock of the scheduler's level from no higher a level. */
    method Enter(l: Spinlock) returns (l': Spinlock)
      requires cpu.Valid() && !l.held && l.irql == SCHEDULER && cpu.irql <= SCHEDULER
      modifies cpu
      ensures cpu.Valid() && cpu.irql == SCHEDULER && l' == Spinlock(true, SCHEDULER, old(cpu.irql))
      ensures cpu.log == old(cpu.log) && cpu.issued == old(cpu.issued)
    {
      var r;
      l', r := AcquireSpinlock(l);
      assert r == Spun(Done);
    }

    /** Releases a lock without leaving the scheduler's level, where nothing is due. */
    method Stay(l: Spinlock) returns (l': Spinlock)
      requires cpu.Valid() && cpu.Below(SCHEDULER) && cpu.irql == SCHEDULER && l.held && l.prevIrql == SCHEDULER
      modifies cpu, cpu.deferred, cpu.deferred.items
      ensures cpu.Valid() && cpu.irql == SCHEDULER && l' == l.(held := false)
      ensures cpu.log == old(cpu.log) && cpu.issued == old(cpu.issued) && unchanged(cpu.deferred, cpu.deferred.items)
    {
      var r;
      l', r := ReleaseSpinlock(l);
      assert r == Spun(Done);
    }

    /** The two locks once both are held by the outermost caller, whose level is kept in the one that stays held. */
    method TakeBoth(ghost entry: nat)
      requires Valid(entry)
      modifies this`lock, this`recur, cpu
      ensures cpu.Valid() && cpu.irql == SCHEDULER && cpu.log == old(cpu.log) && cpu.issued == old(cpu.issued)
      ensures recur == Spinlock(true, SCHEDULER, SCHEDULER) && lock == Spinlock(true, SCHEDULER, entry)
    {
      var inner := Enter(recur);
      var outer := lock;
      if count == 0 {
        outer := Enter(lock);
        outer := outer.(prevIrql := inner.prevIrql);
        inner := inner.(prevIrql := outer.irql);
      }
      lock, recur := outer, inner;
    }

    /** No deferred work runs, and the caller goes on at the scheduler's level. */
    method LockScheduler(ghost entry: nat)
      requires Valid(entry)
      modifies this, cpu, cpu.deferred, cpu.deferred.items
      ensures Valid(entry) && count == old(count) + 1
      ensures cpu.log == old(cpu.log) && cpu.issued == old(cpu.issued) && unchanged(cpu.deferred, cpu.deferred.items)
    {
      TakeBoth(entry);
      assert lock.held;
      var inner := Stay(recur);
      recur, count := inner, count + 1;
    }

    /** The last unlock's share: frees the lock and swaps the saved levels back. */
    method FreeOuter(ghost entry: nat)
      requires cpu.Valid() && cpu.Below(SCHEDULER) && cpu.irql == SCHEDULER && lock.held && lock.prevIrql == entry
      modifies this`lock, this`recur, cpu, cpu.deferred, cpu.deferred.items
      ensures cpu.Valid() && cpu.irql == SCHEDULER
      ensures cpu.log == old(cpu.log) && cpu.issued == old(cpu.issued) && unchanged(cpu.deferred, cpu.deferred.items)
      ensures lock == Spinlock(false, old(lock.irql), SCHEDULER) && recur == old(recur).(prevIrql := entry)
    {
      recur := recur.(prevIrql := lock.prevIrql);
      lock := lock.(prevIrql := cpu.irql);
      lock := Stay(lock);
    }

    /** What holds while only the inner lock is left to release. */
    ghost predicate Leaving(entry: nat)
      reads this, cpu, cpu.deferred, cpu.deferred.items
    {
      && cpu.Valid() && cpu.Below(SCHEDULER) && cpu.irql == SCHEDULER
      && entry <= SCHEDULER && entry != STANDARD_HIGH_PRIORITY
      && lock.irql == SCHEDULER && recur.irql == SCHEDULER && recur.held
      && recur.prevIrql == (if count > 0 then SCHEDULER else entry)
      && (lock.held <==> count > 0) && (count > 0 ==> lock.prevIrql == entry)
    }

    /** The start of UnlockScheduler, up to the release of the inner lock. */
    method CountDown(ghost entry: nat)
      requires Valid(entry) && count > 0
      modifies this, cpu, cpu.deferred, cpu.deferred.items
      ensures Leaving(entry) && count == old(count) - 1
      ensures cpu.log == old(cpu.log) && cpu.issued == old(cpu.issued) && unchanged(cpu.deferred, cpu.deferred.items)
    {
      var inner := Enter(recur);
      assert lock.held;
      recur, count := inner, count - 1;
      if count == 0 {
        FreeOuter(entry);
      }
    }

    /** The end of UnlockScheduler: the level goes back, and what is due by then runs. */
    method Leave(ghost entry: nat) returns (r: Outcome)
      requires Leaving(entry)
      modifies this`recur, cpu, cpu.deferred, cpu.deferred.items
      ensures !recur.held
      ensures count > 0 ==> r == Done && cpu.log == old(cpu.log) && unchanged(cpu.deferred, cpu.deferred.items)
      ensures r == Done ==> Valid(entry) && cpu.Load() <= old(cpu.Load()) && (count == 0 ==> cpu.Below(entry))
      ensures old(AllFit(cpu.deferred.Contents())) ==> r != InvalidIrql && (r == Done ==> AllFit(cpu.deferred.Contents()))
      ensures old(cpu.Load()) <= cpu.deferred.items.Length + 1 ==> !r.QueueFull?
      ensures r == Done ==> CarriedOut(old(cpu.issued), old(cpu.log), multiset{}, cpu.issued, cpu.log)
      ensures r.QueueFull? ==> cpu.Stuck(r.item) && Outstanding(old(cpu.issued), old(cpu.log), multiset{}, cpu.issued, cpu.log, r.item)
    {
      var spun;
      recur, spun := ReleaseSpinlock(recur);
      r := spun.why;
    }

    /**
    The work deferred meanwhile runs only once the lock is free. Unlocking can stop only
    in that work: never if it fits, but for a queue that overflows.
     */
    method UnlockScheduler(ghost entry: nat) returns (r: Outcome)
      requires Valid(entry) && count > 0
      modifies this, cpu, cpu.deferred, cpu.deferred.items
      ensures count == old(count) - 1 && !recur.held && (lock.held <==> count > 0)
      ensures count > 0 ==> r == Done && cpu.log == old(cpu.log) && unchanged(cpu.deferred, cpu.deferred.items)
      ensures r == Done ==> Valid(entry) && cpu.Load() <= old(cpu.Load()) && (count == 0 ==> cpu.Below(entry))
      ensures old(AllFit(cpu.deferred.Contents())) ==> r != InvalidIrql && (r == Done ==> AllFit(cpu.deferred.Contents()))
      ensures old(cpu.Load()) <= cpu.deferred.items.Length + 1 ==> !r.QueueFull?
      ensures r == Done ==> CarriedOut(old(cpu.issued), old(cpu.log), multiset{}, cpu.issued, cpu.log)
      ensures r.QueueFull? ==> cpu.Stuck(r.item) && Outstanding(old(cpu.issued), old(cpu.log), multiset{}, cpu.issued, cpu.log, r.item)
    {
      CountDown(entry);
      r := Leave(entry);
    }

    /** Code at the current level, which may defer work and have it run. */
    method RunCode(acts: seq<Action>, ghost entry: nat) returns (r: Outcome)
      requires Valid(entry) && Plain(acts)
      modifies cpu, cpu.deferred, cpu.deferred.items
      ensures r == Done ==> Valid(entry) && cpu.Load() <= old(cpu.Load()) + SizeOf(acts, Deferrals)
      ensures old(AllFit(cpu.deferred.Contents())) && Fits(acts, old(cpu.irql)) ==>
                r != InvalidIrql && (r == Done ==> AllFit(cpu.deferred.Contents()))
      ensures old(cpu.Load()) + SizeOf(acts, Deferrals) <= cpu.deferred.items.Length ==> !r.QueueFull?
      ensures r == Done ==> CarriedOut(old(cpu.issued), old(cpu.log), Issues(acts), cpu.issued, cpu.log)
      ensures r.QueueFull? ==> cpu.Stuck(r.item) && Outstanding(old(cpu.issued), old(cpu.log), Issues(acts), cpu.issued, cpu.log, r.item)
    {
      r := cpu.Run(acts);
      assert r == Done && cpu.irql < SCHEDULER ==> cpu.Below(SCHEDULER);
    }

    method Take(e: Event, ghost entry: nat) returns (r: Outcome)
      requires Valid(entry) && (e.Unlock? ==> count > 0) && (e.Code? ==> Plain(e.acts))
      modifies this, cpu, cpu.deferred, cpu.deferred.items
      ensures r == Done ==> Valid(entry) && cpu.Load() <= old(cpu.Load()) + EventSize(e)
      ensures r == Done ==> count == old(count) + match e { case Lock => 1 case Unlock => -1 case Code(_) => 0 }
      ensures old(AllFit(cpu.deferred.Contents())) && (e.Code? ==> Fits(e.acts, old(cpu.irql))) ==>
                r != InvalidIrql && (r == Done ==> AllFit(cpu.deferred.Contents()))
      ensures old(cpu.Load()) + EventSize(e) <= cpu.deferred.items.Length ==> !r.QueueFull?
      ensures r == Done ==> CarriedOut(old(cpu.issued), old(cpu.log), EventIssues(e), cpu.issued, cpu.log)
      ensures r.QueueFull? ==> cpu.Stuck(r.item) && Outstanding(old(cpu.issued), old(cpu.log), EventIssues(e), cpu.issued, cpu.log, r.item)
    {
      match e
      case Lock =>
        LockScheduler(entry);
        r := Done;
      case Unlock =>
        r := UnlockScheduler(entry);
      case Code(acts) =>
        r := RunCode(acts, entry);
    }

    /** One more event of a script that has come this far. */
    method TakeNext(script: seq<Event>, i: nat, ghost entry: nat, ghost w: nat, ghost fit: bool,
                    ghost issued: multiset<Item<Handler>>, ghost log: seq<Ran>)
      returns (r: Outcome)
      requires i < |script| && WellNested(script) && (fit ==> ScriptFits(script, entry))
      requires Valid(entry) && count == Depth(script[..i]) && cpu.Load() <= w + ScriptSize(script[..i])
      requires CarriedOut(issued, log, ScriptIssues(script[..i]), cpu.issued, cpu.log)
      requires fit ==> AllFit(cpu.deferred.Contents())
      modifies this, cpu, cpu.deferred, cpu.deferred.items
      ensures r == Done ==> Valid(entry) && count == Depth(script[..i + 1]) && cpu.Load() <= w + ScriptSize(script[..i + 1])
      ensures r == Done ==> CarriedOut(issued, log, ScriptIssues(script[..i + 1]), cpu.issued, cpu.log)
      ensures fit ==> r != InvalidIrql && (r == Done ==> AllFit(cpu.deferred.Contents()))
      ensures w + ScriptSize(script) <= cpu.deferred.items.Length ==> !r.QueueFull?
      ensures r.QueueFull? ==> cpu.Stuck(r.item) && Outstanding(issued, log, ScriptIssues(script[..i + 1]), cpu.issued, cpu.log, r.item)
    {
      ScriptStep(script, i);
      ScriptGrows(script, i + 1);
      assert Depth(script[..i + 1]) >= 0;
      assert cpu.irql == LevelAfter(script[..i], entry);
      ghost var i1, l1, own, more := cpu.issued, cpu.log, ScriptIssues(script[..i]), EventIssues(script[i]);
      r := Take(script[i], entry);
      if r == Done {
        CarriedOutJoins(issued, log, own, i1, l1, more, cpu.issued, cpu.log);
      } else if r.QueueFull? {
        OutstandingJoins(issued, log, own, i1, l1, more, cpu.issued, cpu.log, r.item);
      }
    }

    /**
    Any well-nested sequence of locks, unlocks and code in between: the lock is held and
    the level is the scheduler's exactly while the count is positive, and otherwise it is
    the caller's own; all that was deferred either ran to its end or waits. Where all code
    fits, the only stop is a deferral that finds the queue full, and with no more deferrals
    than the queue holds there is none.
     */
    method Replay(script: seq<Event>, ghost entry: nat) returns (r: Outcome)
      requires Valid(entry) && count == 0 && WellNested(script)
      modifies this, cpu, cpu.deferred, cpu.deferred.items
      ensures r == Done ==> Valid(entry) && count == Depth(script)
      ensures r == Done ==> (lock.held <==> Depth(script) > 0) && cpu.irql == LevelAfter(script, entry)
      ensures r == Done ==> CarriedOut(old(cpu.issued), old(cpu.log), ScriptIssues(script), cpu.issued, cpu.log)
      ensures old(AllFit(cpu.deferred.Contents())) && ScriptFits(script, entry) ==> r != InvalidIrql
      ensures old(cpu.Load()) + ScriptSize(script) <= cpu.deferred.items.Length ==> !r.QueueFull?
      ensures r.QueueFull? ==>
                cpu.Stuck(r.item) && Outstanding(old(cpu.issued), old(cpu.log), ScriptIssues(script), cpu.issued, cpu.log, r.item)
    {
      r := Done;
      ghost var w, fit := cpu.Load(), AllFit(cpu.deferred.Contents()) && ScriptFits(script, entry);
      ghost var i0, l0 := cpu.issued, cpu.log;
      assert script[..0] == [];
      for i := 0 to |script|
        invariant r == Done && Valid(entry) && count == Depth(script[..i])
        invariant fit ==> AllFit(cpu.deferred.Contents())
        invariant cpu.Load() <= w + ScriptSize(script[..i])
        invariant CarriedOut(i0, l0, ScriptIssues(script[..i]), cpu.issued, cpu.log)
      {
        r := TakeNext(script, i, entry, w, fit, i0, l0);
        if r != Done {
          if r.QueueFull? {
            ScriptIssuesGrow(script, i + 1);
            OutstandingWithin(i0, l0, ScriptIssues(script[..i + 1]), ScriptIssues(script), cpu.issued, cpu.log, r.item);
          }
          return;
        }
      }
      assert script[..|script|] == script;
    }
  }
}
