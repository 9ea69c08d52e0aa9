/**
Releases of several units, timer ticks and whole runs of the blocking protocol, and
what every run promises.
 */
module BlockingRuns {
  import opened Basics
  import opened Queues
  import opened Blocking

  // ---- releasing several units ----

  /**
  How many units ReleaseSemaphoreEx releases when asked for `n`. The loop tests the
  count only after decrementing it, so asking for 0 releases everything there is.
   */
  function Units(sem: Semaphore, n: int): (m: nat) {
    if n < 0 then 0
    else if n == 0 then |sem.waiting| + sem.count
    else Min(n, |sem.waiting| + sem.count)
  }

  /** Asking for 0 units of a semaphore with two out releases both. */
  lemma ZeroReleasesAll()
    ensures var sem := Semaphore(5, 2, [], 0, 2, [Ask(1, 0), Ask(2, 1)], 0); Units(sem, 0) == 2
  {
  }

  /** ReleaseSemaphoreEx does what it is asked exactly for 1 up to all the units there are; for 0 or more than that, all of them go. */
  lemma ReleasesAsAsked(sem: Semaphore, n: int)
    requires sem.count > 0
    ensures Units(sem, n) == n <==> 1 <= n <= |sem.waiting| + sem.count
    ensures n == 0 || n > |sem.waiting| + sem.count ==> Units(sem, n) == |sem.waiting| + sem.count
    ensures n < 0 ==> Units(sem, n) == 0
  {
  }

  ghost predicate CanGive(s: System, k: nat, m: nat) {
    k < |s.sems| && m <= |s.sems[k].waiting| + s.sems[k].count && (m > 0 ==> s.sems[k].count > 0)
  }

  lemma GiveLeaves(s: System, k: nat, m: nat)
    requires Inv(s) && CanGive(s, k, m) && m > 0
    ensures SemaphoreOk(s, k) && Inv(Give(s, k)) && CanGive(Give(s, k), k, m - 1)
  {
    GiveKeepsInv(s, k);
  }

  ghost function Released(s: System, k: nat, m: nat): System
    requires Inv(s) && CanGive(s, k, m)
    decreases m
  {
    if m == 0 then s else
      GiveLeaves(s, k, m);
      Released(Give(s, k), k, m - 1)
  }

  /** The semaphore after m units were released: the longest waiters got theirs, the rest lowers the count. */
  ghost function After(s: System, k: nat, m: nat): Semaphore
    requires CanGive(s, k, m) && Among(s.sems[k].waiting, |s.threads|)
  {
    var sem := s.sems[k];
    var n := Min(m, |sem.waiting|);
    sem.(waiting := sem.waiting[n..], count := sem.count - (m - n),
         grants := sem.grants + Asks(s, sem.waiting)[..n], releases := sem.releases + m)
  }

  lemma AfterGive(s: System, k: nat, m: nat)
    requires Inv(s) && CanGive(s, k, m) && m > 0
    ensures SemaphoreOk(s, k) && Inv(Give(s, k)) && CanGive(Give(s, k), k, m - 1) && SemaphoreOk(Give(s, k), k)
    ensures After(Give(s, k), k, m - 1) == After(s, k, m)
    ensures var q, n := s.sems[k].waiting, Min(m, |s.sems[k].waiting|);
            Give(s, k).ready + Give(s, k).sems[k].waiting[..Min(m - 1, |Give(s, k).sems[k].waiting|)] == s.ready + q[..n]
  {
    GiveLeaves(s, k, m);
    assert SemaphoreOk(Give(s, k), k);
    if s.sems[k].waiting != [] {
      AfterHandOff(s, k, m);
    }
  }

  lemma AfterHandOff(s: System, k: nat, m: nat)
    requires Inv(s) && CanGive(s, k, m) && m > 0 && SemaphoreOk(s, k) && s.sems[k].waiting != []
    requires CanGive(HandedOff(s, k), k, m - 1) && SemaphoreOk(HandedOff(s, k), k)
    ensures After(HandedOff(s, k), k, m - 1) == After(s, k, m)
    ensures var q, n := s.sems[k].waiting, Min(m, |s.sems[k].waiting|);
            HandedOff(s, k).ready + q[1..][..n - 1] == s.ready + q[..n]
  {
    var q := s.sems[k].waiting;
    AsksAfterHandOff(s, k);
    HandOffShifts(s.ready, q, Min(m, |q|));
    HandOffShifts(s.sems[k].grants, Asks(s, q), Min(m, |q|));
  }

  lemma OnlyThatOne(s: System, g: System, k: nat, sem: Semaphore)
    requires k < |s.sems| && |g.sems| == |s.sems| && forall j | 0 <= j < |s.sems| && j != k :: g.sems[j] == s.sems[j]
    ensures g.sems[k := sem] == s.sems[k := sem]
  {
  }

  /** The units go to the longest waiters, in order, and what is left over lowers the count. */
  lemma {:induction false} ReleasedExactly(s: System, k: nat, m: nat)
    requires Inv(s) && CanGive(s, k, m)
    ensures var s', q := Released(s, k, m), s.sems[k].waiting;
            && Inv(s') && SemaphoreOk(s, k)
            && s'.ready == s.ready + q[..Min(m, |q|)]
            && s'.current == s.current && s'.idle == s.idle
            && s'.sems == s.sems[k := After(s, k, m)]
    decreases m
  {
    assert SemaphoreOk(s, k);
    if m == 0 {
      assert s.sems[k].waiting[0..] == s.sems[k].waiting;
      assert After(s, k, m) == s.sems[k];
    } else {
      AfterGive(s, k, m);
      var g := Give(s, k);
      ReleasedExactly(g, k, m - 1);
      OnlyThatOne(s, g, k, After(s, k, m));
    }
  }

  lemma AsksAfterHandOff(s: System, k: nat)
    requires Inv(s) && k < |s.sems| && SemaphoreOk(s, k) && s.sems[k].waiting != []
    ensures var q := s.sems[k].waiting;
            Among(q[1..], |s.threads|) && Asks(HandedOff(s, k), q[1..]) == Asks(s, q)[1..]
            && Asks(s, q)[0] == Ask(q[0], s.threads[q[0]].ticket)
  {
  }

  lemma HandOffShifts<T>(a: seq<T>, q: seq<T>, n: nat)
    requires 0 < n <= |q|
    ensures (a + [q[0]]) + q[1..][..n - 1] == a + q[..n]
    ensures q[1..][n - 1..] == q[n..]
  {
  }

  // ---- a timer tick ----

  ghost function Rest(q: seq<nat>, d: set<nat>): seq<nat> {
    if q == [] then [] else (if q[0] in d then [] else [q[0]]) + Rest(q[1..], d)
  }

  ghost function Pick(q: seq<nat>, d: set<nat>): seq<nat> {
    if q == [] then [] else (if q[0] in d then [q[0]] else []) + Pick(q[1..], d)
  }

  lemma {:induction false} FilterNone(q: seq<nat>, d: set<nat>)
    requires forall t | t in q :: t !in d
    ensures Rest(q, d) == q && Pick(q, d) == []
  {
    if q != [] {
      assert q[0] in q;
      FilterNone(q[1..], d);
    }
  }

  lemma {:induction false} FilterIgnores(q: seq<nat>, d: set<nat>, t: nat)
    requires t !in q
    ensures Rest(q, d - {t}) == Rest(q, d) && Pick(q, d - {t}) == Pick(q, d)
  {
    if q != [] {
      assert q[0] in q;
      FilterIgnores(q[1..], d, t);
    }
  }

  lemma {:induction false} FilterAround(a: seq<nat>, t: nat, b: seq<nat>, d: set<nat>)
    requires t in d && t !in a && t !in b
    ensures Rest(a + b, d - {t}) == Rest(a + ([t] + b), d)
    ensures Pick(a, d) == [] ==> [t] + Pick(a + b, d - {t}) == Pick(a + ([t] + b), d)
  {
    if a == [] {
      assert a + b == b && a + ([t] + b) == [t] + b && ([t] + b)[1..] == b;
      FilterIgnores(b, d, t);
    } else {
      assert a[0] in a && t !in a[1..];
      assert (a + b)[1..] == a[1..] + b && (a + ([t] + b))[1..] == a[1..] + ([t] + b);
      FilterAround(a[1..], t, b, d);
    }
  }

  /** Taking out one element of the set beforehand changes nothing but that element. */
  lemma FilterStep(q: seq<nat>, d: set<nat>, i: nat)
    requires Distinct(q) && i < |q| && q[i] in d
    ensures Rest(Removed(q, q[i]), d - {q[i]}) == Rest(q, d)
    ensures (forall j | 0 <= j < i :: q[j] !in d) ==> [q[i]] + Pick(Removed(q, q[i]), d - {q[i]}) == Pick(q, d)
  {
    RemovedIs(q, q[i], i);
    assert q == q[..i] + ([q[i]] + q[i + 1..]);
    FilterAround(q[..i], q[i], q[i + 1..], d);
    if forall j | 0 <= j < i :: q[j] !in d {
      FilterNone(q[..i], d);
    }
  }

  predicate Due(th: Thread, now: nat, signalled: bool) {
    th.expiry <= now || signalled
  }

  ghost function DueSet(s: System, now: nat, signalled: set<nat>): set<nat>
    requires Ids(s)
  {
    set t | t in s.sleeping && Due(s.threads[t], now, t in signalled)
  }

  /**
  HandleSleepWakeups as one simultaneous change: everyone due leaves the sleep list
  and its semaphore's list and joins the ready list, in the order of the sleep list.
   */
  ghost function Tick(s: System, now: nat, signalled: set<nat>): System
    requires Ids(s)
  {
    Awaken(s, DueSet(s, now, signalled), signalled)
  }

  ghost function Awaken(s: System, d: set<nat>, signalled: set<nat>): System {
    s.(threads := seq(|s.threads|, t requires 0 <= t < |s.threads| =>
                    if t in d then s.threads[t].(timedOut := true, bySignal := t in signalled) else s.threads[t]),
       sems := seq(|s.sems|, k requires 0 <= k < |s.sems| => s.sems[k].(waiting := Rest(s.sems[k].waiting, d))),
       ready := s.ready + Pick(s.sleeping, d),
       sleeping := Rest(s.sleeping, d))
  }

  lemma AwakenNobody(s: System, signalled: set<nat>)
    ensures Awaken(s, {}, signalled) == s
  {
    FilterNone(s.sleeping, {});
    forall k | 0 <= k < |s.sems| ensures Rest(s.sems[k].waiting, {}) == s.sems[k].waiting {
      FilterNone(s.sems[k].waiting, {});
    }
  }

  lemma AwakenSemaphore(s: System, d: set<nat>, signalled: set<nat>, t: nat, k: nat)
    requires Inv(s) && t in s.sleeping && t in d && k < |s.sems|
    requires t < |s.threads| && (s.threads[t].state == WaitingWithTimeout ==> s.threads[t].waitingOn < |s.sems|)
    ensures Rest(Expired(s, t, t in signalled).sems[k].waiting, d - {t}) == Rest(s.sems[k].waiting, d)
    ensures Expired(s, t, t in signalled).sems[k].(waiting := []) == s.sems[k].(waiting := [])
  {
    SleeperIsListed(s, t);
    assert SemaphoreOk(s, k);
    var q := s.sems[k].waiting;
    assert Placed(s, t);
    assert Waits(s, t, k) <==> s.threads[t].state == WaitingWithTimeout && s.threads[t].waitingOn == k;
    if t in q {
      FilterStep(q, d, IndexOf(q, t));
    } else {
      FilterIgnores(q, d, t);
    }
  }

  lemma AwakenSemaphores(s: System, d: set<nat>, signalled: set<nat>, t: nat)
    requires Inv(s) && t in s.sleeping && t in d
    requires t < |s.threads| && (s.threads[t].state == WaitingWithTimeout ==> s.threads[t].waitingOn < |s.sems|)
    ensures Awaken(Expired(s, t, t in signalled), d - {t}, signalled).sems == Awaken(s, d, signalled).sems
  {
    var a, b := Awaken(Expired(s, t, t in signalled), d - {t}, signalled), Awaken(s, d, signalled);
    forall k | 0 <= k < |s.sems| ensures a.sems[k] == b.sems[k] {
      AwakenSemaphore(s, d, signalled, t, k);
    }
  }

  lemma AwakenThreads(s: System, d: set<nat>, signalled: set<nat>, t: nat)
    requires t < |s.threads| && t in d
    requires s.threads[t].state == WaitingWithTimeout ==> s.threads[t].waitingOn < |s.sems|
    ensures Awaken(Expired(s, t, t in signalled), d - {t}, signalled).threads == Awaken(s, d, signalled).threads
  {
    var a, b := Awaken(Expired(s, t, t in signalled), d - {t}, signalled), Awaken(s, d, signalled);
    forall u | 0 <= u < |s.threads| ensures a.threads[u] == b.threads[u] {
    }
  }

  lemma AppendThree(a: seq<nat>, t: nat, b: seq<nat>, c: seq<nat>)
    requires [t] + b == c
    ensures (a + [t]) + b == a + c
  {
  }

  /** Waking the first sleeper due and then the others is waking them all. */
  lemma AwakenFirst(s: System, d: set<nat>, signalled: set<nat>, i: nat)
    requires Inv(s) && i < |s.sleeping| && s.sleeping[i] in d && forall j | 0 <= j < i :: s.sleeping[j] !in d
    ensures var t := s.sleeping[i];
            && t < |s.threads| && (s.threads[t].state == WaitingWithTimeout ==> s.threads[t].waitingOn < |s.sems|)
            && Awaken(Expired(s, t, t in signalled), d - {t}, signalled) == Awaken(s, d, signalled)
  {
    var t := s.sleeping[i];
    SleeperIsListed(s, t);
    FilterStep(s.sleeping, d, i);
    AwakenSemaphores(s, d, signalled, t);
    AwakenThreads(s, d, signalled, t);
    AppendThree(s.ready, t, Pick(Removed(s.sleeping, t), d - {t}), Pick(s.sleeping, d));
  }

  lemma TickFirst(s: System, now: nat, signalled: set<nat>, i: nat)
    requires Inv(s) && i < |s.sleeping|
    requires Due(s.threads[s.sleeping[i]], now, s.sleeping[i] in signalled)
    requires forall j | 0 <= j < i :: !Due(s.threads[s.sleeping[j]], now, s.sleeping[j] in signalled)
    ensures var t := s.sleeping[i];
            && (s.threads[t].state == WaitingWithTimeout ==> s.threads[t].waitingOn < |s.sems|)
            && Inv(Expired(s, t, t in signalled)) && Tick(Expired(s, t, t in signalled), now, signalled) == Tick(s, now, signalled)
            && |Expired(s, t, t in signalled).sleeping| < |s.sleeping|
  {
    var t, d := s.sleeping[i], DueSet(s, now, signalled);
    ExpiredKeepsInv(s, t, t in signalled);
    AwakenFirst(s, d, signalled, i);
    RemovedKeeps(s.sleeping, t);
    assert DueSet(Expired(s, t, t in signalled), now, signalled) == d - {t};
  }

  lemma {:induction false} TickKeepsInv(s: System, now: nat, signalled: set<nat>)
    requires Inv(s)
    ensures Inv(Tick(s, now, signalled))
    decreases |s.sleeping|
  {
    var d := DueSet(s, now, signalled);
    if d == {} {
      AwakenNobody(s, signalled);
    } else {
      var i := FirstIn(s.sleeping, d);
      TickFirst(s, now, signalled, i);
      TickKeepsInv(Expired(s, s.sleeping[i], s.sleeping[i] in signalled), now, signalled);
    }
  }

  lemma {:induction false} FirstIn(q: seq<nat>, d: set<nat>) returns (i: nat)
    requires exists t :: t in q && t in d
    ensures i < |q| && q[i] in d && forall j | 0 <= j < i :: q[j] !in d
  {
    if q[0] in d {
      i := 0;
    } else {
      i := FirstIn(q[1..], d);
      i := i + 1;
    }
  }

  // ---- whole runs ----

  datatype Step =
    | AcquireStep(sem: nat, timeout: int, now: nat)
    | ReleaseStep(sem: nat, n: int)
    | SleepStep(until: nat, now: nat)
    | TickStep(now: nat, signalled: set<nat>)
    | ScheduleStep

  /**
  What the source asks of its callers: a thread that blocks is running and is not the
  idle thread, and a release is of a semaphore that has a unit out.
   */
  ghost predicate Legal(s: System, step: Step) {
    match step
    case AcquireStep(k, _, _) => k < |s.sems| && MayBlock(s)
    case ReleaseStep(k, n) => k < |s.sems| && (n >= 0 ==> s.sems[k].count > 0)
    case SleepStep(_, _) => MayBlock(s)
    case TickStep(_, _) => true
    case ScheduleStep => true
  }

  ghost function Next(s: System, step: Step): System
    requires Inv(s) && Legal(s, step)
  {
    match step
    case AcquireStep(k, timeout, now) => Acquire(s, k, timeout, now)
    case ReleaseStep(k, n) => Released(s, k, Units(s.sems[k], n))
    case SleepStep(until, now) => Sleep(s, until, now)
    case TickStep(now, signalled) => Tick(s, now, signalled)
    case ScheduleStep => Schedule(s)
  }

  lemma StepKeepsInv(s: System, step: Step)
    requires Inv(s) && Legal(s, step)
    ensures Inv(Next(s, step))
  {
    match step
    case AcquireStep(k, timeout, now) => AcquireKeepsInv(s, k, timeout, now);
    case ReleaseStep(k, n) => ReleasedExactly(s, k, Units(s.sems[k], n));
    case SleepStep(until, now) => SleepKeepsInv(s, until, now);
    case TickStep(now, signalled) => TickKeepsInv(s, now, signalled);
    case ScheduleStep => ScheduleKeepsInv(s);
  }

  ghost predicate LegalRun(s: System, steps: seq<Step>)
    requires Inv(s)
    decreases |steps|
  {
    steps == [] || (Legal(s, steps[0]) && (StepKeepsInv(s, steps[0]); LegalRun(Next(s, steps[0]), steps[1..])))
  }

  ghost function Run(s: System, steps: seq<Step>): System
    requires Inv(s) && LegalRun(s, steps)
    decreases |steps|
  {
    if steps == [] then s else
      StepKeepsInv(s, steps[0]);
      Run(Next(s, steps[0]), steps[1..])
  }

  /** A machine before its first step: the idle thread runs and all others are ready. */
  ghost function Boot(threads: nat, sems: seq<(nat, nat)>): System
    requires threads > 0
  {
    System(seq(threads, t requires 0 <= t < threads => Thread(if t == 0 then Running else Ready, false, false, 0, 0, 0, NoCall)),
           seq(threads - 1, i requires 0 <= i < threads - 1 => i + 1), [],
           seq(|sems|, k requires 0 <= k < |sems| => Semaphore(sems[k].0, sems[k].1, [], sems[k].1, 0, [], 0)), 0, 0)
  }

  lemma BootInv(threads: nat, sems: seq<(nat, nat)>)
    requires threads > 0 && forall k | 0 <= k < |sems| :: sems[k].1 <= sems[k].0
    ensures Inv(Boot(threads, sems))
  {
    var s := Boot(threads, sems);
    forall t | 0 <= t < threads ensures Placed(s, t) {
      assert t > 0 ==> s.ready[t - 1] == t;
    }
    forall k | 0 <= k < |s.sems| ensures SemaphoreOk(s, k) {
    }
  }

  /** In every run of legal steps the invariant holds at the end, and so after every step. */
  lemma {:induction false} RunKeepsInv(s: System, steps: seq<Step>)
    requires Inv(s) && LegalRun(s, steps)
    ensures Inv(Run(s, steps))
    ensures |Run(s, steps).sems| == |s.sems|
    ensures forall k | 0 <= k < |s.sems| :: s.sems[k].grants <= Run(s, steps).sems[k].grants
    ensures forall k | 0 <= k < |s.sems| ::
              Run(s, steps).sems[k].max == s.sems[k].max && Run(s, steps).sems[k].initial == s.sems[k].initial
    decreases |steps|
  {
    if steps != [] {
      StepKeepsInv(s, steps[0]);
      StepKeepsHistory(s, steps[0]);
      RunKeepsInv(Next(s, steps[0]), steps[1..]);
    }
  }

  lemma StepKeepsHistory(s: System, step: Step)
    requires Inv(s) && Legal(s, step)
    ensures |Next(s, step).sems| == |s.sems|
    ensures forall k | 0 <= k < |s.sems| ::
              && s.sems[k].grants <= Next(s, step).sems[k].grants
              && Next(s, step).sems[k].max == s.sems[k].max && Next(s, step).sems[k].initial == s.sems[k].initial
  {
    match step
    case ReleaseStep(k, n) => ReleasedExactly(s, k, Units(s.sems[k], n));
    case _ =>
  }

  /**
  No overtaking: when t began to wait before u, no later state of a run has u's
  acquire granted while t's is still waiting.
   */
  lemma NoOvertaking(s: System, steps: seq<Step>, k: nat, t: nat, u: nat)
    requires Inv(s) && LegalRun(s, steps) && k < |s.sems| && Waits(s, t, k) && Waits(s, u, k)
    requires t < |s.threads| && u < |s.threads| && s.threads[t].ticket < s.threads[u].ticket
    ensures var s' := Run(s, steps);
            && Inv(s') && k < |s'.sems|
            && (Ask(u, s.threads[u].ticket) in s'.sems[k].grants && Waits(s', t, k) && t < |s'.threads| ==>
                  s'.threads[t].ticket != s.threads[t].ticket)
  {
    RunKeepsInv(s, steps);
    GrantedBeforeWaiting(Run(s, steps), k, Ask(u, s.threads[u].ticket), t);
  }

  /** Whoever still waits asked later than everyone who was granted. */
  lemma GrantedBeforeWaiting(s: System, k: nat, asked: Ask, t: nat)
    requires Inv(s) && k < |s.sems|
    ensures asked in s.sems[k].grants && Waits(s, t, k) && t < |s.threads| ==> asked.ticket < s.threads[t].ticket
  {
    if asked in s.sems[k].grants && Waits(s, t, k) && t < |s.threads| {
      assert SemaphoreOk(s, k);
      var g, w := IndexOf(s.sems[k].grants, asked), IndexOf(s.sems[k].waiting, t);
      var line := Line(s, k);
      assert line[g] == asked && line[|s.sems[k].grants| + w] == Ask(t, s.threads[t].ticket);
    }
  }

  /** The semaphore's list is in the order the waits began. */
  lemma ListedInOrder(s: System, k: nat, i: nat, j: nat)
    requires Inv(s) && k < |s.sems| && i < j < |s.sems[k].waiting|
    ensures var q := s.sems[k].waiting;
            q[i] < |s.threads| && q[j] < |s.threads| && s.threads[q[i]].ticket < s.threads[q[j]].ticket
  {
    assert SemaphoreOk(s, k);
    var n := |s.sems[k].grants|;
    assert Line(s, k)[n + i] == Asks(s, s.sems[k].waiting)[i] && Line(s, k)[n + j] == Asks(s, s.sems[k].waiting)[j];
  }

  /**
  Safety of a semaphore at the end of every run: the units out are the initial ones
  plus those granted less those released, never more than the maximum, and all of them
  are out while anybody waits. For a mutex, at most one unit is ever out.
   */
  lemma SemaphoreSafety(s: System, steps: seq<Step>, k: nat)
    requires Inv(s) && LegalRun(s, steps) && k < |s.sems|
    ensures var s' := Run(s, steps);
            && |s'.sems| == |s.sems|
            && var sem := s'.sems[k];
            && sem.count == s.sems[k].initial + |sem.grants| - sem.releases
            && sem.count <= sem.max == s.sems[k].max
            && (sem.waiting != [] ==> sem.count == sem.max)
  {
    RunKeepsInv(s, steps);
    assert SemaphoreOk(Run(s, steps), k);
  }

  datatype Errno = NoError | EAgain | ETimedOut | EIntr

  /** The last line of AcquireSemaphore. */
  function AcquireResult(th: Thread, timeout: int): Errno {
    if !th.timedOut then NoError else if timeout == 0 then EAgain else ETimedOut
  }

  /** The last line of SleepUntil. */
  function SleepResult(th: Thread): Errno {
    if th.bySignal then EIntr else NoError
  }

  lemma {:induction false} FilterHas(q: seq<nat>, d: set<nat>, t: nat)
    ensures t in Rest(q, d) <==> t in q && t !in d
    ensures t in Pick(q, d) <==> t in q && t in d
  {
    if q != [] {
      FilterHas(q[1..], d, t);
      assert t in q <==> t == q[0] || t in q[1..];
    }
  }

  /**
  Who sleeps is woken by a tick exactly when its time has come or it has a signal, and
  SleepUntil then says that it was interrupted exactly when it has one.
   */
  lemma SleepEndsRight(s: System, now: nat, signalled: set<nat>, t: nat)
    requires Inv(s) && t in s.sleeping
    ensures var s' := Tick(s, now, signalled);
            && t < |s.threads| == |s'.threads|
            && (t in s'.sleeping <==> !(s.threads[t].expiry <= now || t in signalled))
            && (t !in s'.sleeping ==> t in s'.ready && (SleepResult(s'.threads[t]) == EIntr <==> t in signalled))
  {
    SleeperIsListed(s, t);
    FilterHas(s.sleeping, DueSet(s, now, signalled), t);
  }

  /**
  What AcquireSemaphore returns once the thread is no longer waiting: no error exactly
  when the acquire it made was granted a unit.
   */
  lemma AnswerIsRight(s: System, steps: seq<Step>, t: nat, timeout: int)
    requires Inv(s) && LegalRun(s, steps)
    ensures var s' := Run(s, steps);
            t < |s'.threads| && s'.threads[t].call.Asked? && !Blocked(s', t) ==>
              && s'.threads[t].call.sem < |s'.sems|
              && (AcquireResult(s'.threads[t], timeout) == NoError <==>
                    Ask(t, s'.threads[t].ticket) in s'.sems[s'.threads[t].call.sem].grants)
  {
    RunKeepsInv(s, steps);
    var s' := Run(s, steps);
    if t < |s'.threads| {
      assert Placed(s', t);
      assert s'.threads[t].waitingOn < |s'.sems| ==> Waits(s', t, s'.threads[t].waitingOn) || !Waits(s', t, s'.threads[t].waitingOn);
    }
  }
}
