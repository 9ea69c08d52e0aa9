/**
Interrupt request levels of irq/irql.c: work deferred to a lower level waits in a
priority queue that LowerIrql drains, and the work it runs may itself raise, lower
and defer, so draining nests.

A handler is a finite tree of what it does. A Section is a raise to a level, a body
at that level and the matching lower.
 */
module Irql {
  import opened Basics
  import opened ArrayHeap
  import opened HeapOrder

  const STANDARD := 0
  const STANDARD_HIGH_PRIORITY := 1
  const QUEUE_CAPACITY := 32

  datatype Handler = Handler(actions: seq<Action>)
  datatype Action =
    | Defer(level: nat, handler: Handler)
    | Section(to: nat, body: seq<Action>)

  /** What the processor does next: carry on, or one of the source's panics; a full queue names the work it had no room for. */
  datatype Outcome = Done | InvalidIrql | QueueFull(item: Item<Handler>)

  // ---- how much work is still to be done ----

  /** What is counted: every step, or deferrals only. */
  datatype Count = Steps | Deferrals

  ghost function Size(h: Handler, c: Count): (n: nat)
    ensures n > 0
  {
    1 + SizeOf(h.actions, c)
  }

  ghost function SizeOf(acts: seq<Action>, c: Count): nat {
    if acts == [] then 0 else ActionSize(acts[0], c) + SizeOf(acts[1..], c)
  }

  ghost function ActionSize(a: Action, c: Count): (n: nat)
    ensures c == Steps ==> n > 0
  {
    (if c == Steps then 1 else 0) +
    match a
    case Defer(_, h) => Size(h, c)
    case Section(_, body) => SizeOf(body, c)
  }

  ghost function Queued(s: seq<Item<Handler>>, c: Count): nat {
    if s == [] then 0 else Size(s[0].data, c) + Queued(s[1..], c)
  }

  lemma {:induction false} QueuedSplit(s: seq<Item<Handler>>, k: nat, c: Count)
    requires k < |s|
    ensures Queued(s, c) == Size(s[k].data, c) + Queued(RemoveAt(s, k), c)
  {
    if k == 0 {
      assert RemoveAt(s, 0) == s[1..];
    } else {
      QueuedSplit(s[1..], k - 1, c);
      assert RemoveAt(s, k)[1..] == RemoveAt(s[1..], k - 1);
    }
  }

  lemma DropOne(s: seq<Item<Handler>>, k: nat)
    requires k < |s|
    ensures multiset(RemoveAt(s, k)) == multiset(s) - multiset{s[k]}
  {
    assert s == s[..k] + [s[k]] + s[k + 1..];
  }

  lemma Occurs(t: seq<Item<Handler>>, x: Item<Handler>) returns (k: nat)
    requires x in multiset(t)
    ensures k < |t| && t[k] == x
  {
    k :| k < |t| && t[k] == x;
  }

  /** The work queued does not depend on the order of the queue. */
  lemma {:induction false} QueuedPermutes(s: seq<Item<Handler>>, t: seq<Item<Handler>>, c: Count)
    requires multiset(s) == multiset(t)
    ensures Queued(s, c) == Queued(t, c)
    decreases |s|
  {
    if s == [] {
      assert |multiset(t)| == 0;
    } else {
      assert s[0] in multiset(s);
      var k := Occurs(t, s[0]);
      DropOne(s, 0);
      DropOne(t, k);
      QueuedPermutes(RemoveAt(s, 0), RemoveAt(t, k), c);
      QueuedSplit(s, 0, c);
      QueuedSplit(t, k, c);
    }
  }

  /** There is some work in every handler. */
  lemma {:induction false} QueuedAtLeast(s: seq<Item<Handler>>, c: Count)
    ensures |s| <= Queued(s, c)
  {
    if s != [] {
      QueuedAtLeast(s[1..], c);
    }
  }

  lemma QueuedAdds(s: seq<Item<Handler>>, t: seq<Item<Handler>>, x: Item<Handler>, c: Count)
    requires multiset(t) == multiset(s) + multiset{x}
    ensures Queued(t, c) == Queued(s, c) + Size(x.data, c)
  {
    assert multiset([x] + s) == multiset(t);
    QueuedPermutes(t, [x] + s, c);
    assert ([x] + s)[1..] == s;
  }

  // ---- levels ----

  /** The level a handler deferred to `level` runs at. */
  function Runs(level: nat): nat {
    if level == STANDARD_HIGH_PRIORITY then STANDARD else level
  }

  /** Work for `level` may be waiting while the processor is at `now`. */
  predicate MayWait(level: nat, now: nat) {
    level <= now || (level == STANDARD_HIGH_PRIORITY && now == STANDARD)
  }

  /** No raise anywhere in the code goes to level 1, which LowerIrql cannot go back to. */
  ghost predicate Plain(acts: seq<Action>) {
    forall a | a in acts :: PlainAction(a)
  }

  ghost predicate PlainAction(a: Action) {
    match a
    case Defer(_, h) => Plain(h.actions)
    case Section(to, body) => to != STANDARD_HIGH_PRIORITY && Plain(body)
  }

  /**
  Code that keeps to the rules of levels when it is carried out at `now`: it defers to
  levels that have come by then, raises upwards, and so do the handlers it defers.
   */
  ghost predicate Fits(acts: seq<Action>, now: nat) {
    forall a | a in acts :: ActionFits(a, now)
  }

  ghost predicate ActionFits(a: Action, now: nat) {
    match a
    case Defer(level, h) => Runs(level) <= now && Fits(h.actions, Runs(level))
    case Section(to, body) => now <= to && to != STANDARD_HIGH_PRIORITY && Fits(body, to)
  }

  /** The same for the code itself, leaving aside what the handlers it defers will do. */
  ghost predicate Permitted(acts: seq<Action>, now: nat) {
    forall a | a in acts :: ActionPermitted(a, now)
  }

  ghost predicate ActionPermitted(a: Action, now: nat) {
    match a
    case Defer(level, _) => Runs(level) <= now
    case Section(to, body) => now <= to && Permitted(body, to)
  }

  ghost predicate AllFit(q: multiset<Item<Handler>>) {
    forall x | x in q :: Fits(x.data.actions, Runs(x.priority))
  }

  ghost predicate AllPlain(q: multiset<Item<Handler>>) {
    forall x | x in q :: Plain(x.data.actions)
  }

  ghost predicate AllWait(q: multiset<Item<Handler>>, now: nat) {
    forall x | x in q :: MayWait(x.priority, now)
  }

  lemma OneMoreWaits(q: multiset<Item<Handler>>, now: nat, x: Item<Handler>)
    requires AllPlain(q) && AllWait(q, now) && Plain(x.data.actions) && MayWait(x.priority, now)
    ensures AllPlain(q + multiset{x}) && AllWait(q + multiset{x}, now)
  {
  }

  lemma AddToBoth(a: multiset<Item<Handler>>, b: multiset<Item<Handler>>, q: multiset<Item<Handler>>, x: Item<Handler>)
    requires a == b + q
    ensures a + multiset{x} == b + (q + multiset{x})
  {
  }

  /** A handler that was deferred to `level` and ran while the processor was at `at`. */
  datatype Ran = Ran(level: nat, handler: Handler, at: nat)

  ghost predicate AtOwnLevels(log: seq<Ran>) {
    forall r | r in log :: r.at == Runs(r.level)
  }

  /** The log grew from one to the other, only by handlers run at `floor` or above. */
  ghost predicate Since(before: seq<Ran>, after: seq<Ran>, floor: nat) {
    before <= after && forall i | |before| <= i < |after| :: after[i].at >= floor
  }

  /** Every handler run in between was permitted what it did. */
  ghost predicate Lawful(before: seq<Ran>, after: seq<Ran>) {
    forall i | |before| <= i < |after| :: Permitted(after[i].handler.actions, after[i].at)
  }

  lemma LawfulJoins(a: seq<Ran>, b: seq<Ran>, c: seq<Ran>)
    requires a <= b <= c
    ensures Lawful(a, c) <==> Lawful(a, b) && Lawful(b, c)
  {
    assert forall i | 0 <= i < |b| :: b[i] == c[i];
  }

  lemma SinceJoins(a: seq<Ran>, b: seq<Ran>, c: seq<Ran>, floor: nat, higher: nat)
    requires Since(a, b, floor) && Since(b, c, higher) && floor <= higher
    ensures Since(a, c, floor)
  {
  }

  ghost function Calls(log: seq<Ran>): multiset<Item<Handler>> {
    if log == [] then multiset{}
    else Calls(log[..|log| - 1]) + multiset{Item(log[|log| - 1].level, log[|log| - 1].handler)}
  }

  // ---- what was carried out ----

  /** The deferrals a list of actions makes itself, when it is carried out to the end. */
  ghost function Issues(acts: seq<Action>): multiset<Item<Handler>> {
    if acts == [] then multiset{} else IssuesOf(acts[0]) + Issues(acts[1..])
  }

  ghost function IssuesOf(a: Action): multiset<Item<Handler>> {
    match a
    case Defer(level, h) => multiset{Item(level, h)}
    case Section(_, body) => Issues(body)
  }

  ghost function IssuedBy(log: seq<Ran>): multiset<Item<Handler>> {
    if log == [] then multiset{} else IssuedBy(log[..|log| - 1]) + Issues(log[|log| - 1].handler.actions)
  }

  /** Between two moments, what was deferred is `own` and all that the handlers run in between defer: each ran to its end. */
  ghost predicate CarriedOut(issued: multiset<Item<Handler>>, log: seq<Ran>, own: multiset<Item<Handler>>,
                             issued': multiset<Item<Handler>>, log': seq<Ran>) {
    issued' + IssuedBy(log) == issued + own + IssuedBy(log')
  }

  lemma CarriedOutJoins(i: multiset<Item<Handler>>, l: seq<Ran>, x: multiset<Item<Handler>>, i1: multiset<Item<Handler>>,
                        l1: seq<Ran>, y: multiset<Item<Handler>>, i2: multiset<Item<Handler>>, l2: seq<Ran>)
    requires CarriedOut(i, l, x, i1, l1) && CarriedOut(i1, l1, y, i2, l2)
    ensures CarriedOut(i, l, x + y, i2, l2)
  {
    JoinSums(i, IssuedBy(l), x, i1, IssuedBy(l1), y, i2, IssuedBy(l2));
  }

  /**
  Between two moments, x is a deferral that the code at hand, or a handler run in between,
  makes but that has not been made: something stopped before its end.
   */
  ghost predicate Outstanding(issued: multiset<Item<Handler>>, log: seq<Ran>, own: multiset<Item<Handler>>,
                              issued': multiset<Item<Handler>>, log': seq<Ran>, x: Item<Handler>) {
    issued' + multiset{x} + IssuedBy(log) <= issued + own + IssuedBy(log')
  }

  lemma OutstandingMore(i: multiset<Item<Handler>>, l: seq<Ran>, own: multiset<Item<Handler>>, more: multiset<Item<Handler>>,
                        i': multiset<Item<Handler>>, l': seq<Ran>, x: Item<Handler>)
    requires Outstanding(i, l, own, i', l', x)
    ensures Outstanding(i, l, own + more, i', l', x)
  {
  }

  lemma OutstandingJoins(i: multiset<Item<Handler>>, l: seq<Ran>, own: multiset<Item<Handler>>, i1: multiset<Item<Handler>>,
                         l1: seq<Ran>, more: multiset<Item<Handler>>, i2: multiset<Item<Handler>>, l2: seq<Ran>, x: Item<Handler>)
    requires CarriedOut(i, l, own, i1, l1) && Outstanding(i1, l1, more, i2, l2, x)
    ensures Outstanding(i, l, own + more, i2, l2, x)
  {
    JoinBounds(i, IssuedBy(l), own, i1, IssuedBy(l1), more, i2 + multiset{x}, IssuedBy(l2));
  }

  lemma JoinBounds<T>(i: multiset<T>, l: multiset<T>, x: multiset<T>, i1: multiset<T>, l1: multiset<T>, y: multiset<T>,
                      i2: multiset<T>, l2: multiset<T>)
    requires i1 + l == i + x + l1 && i2 + l1 <= i1 + y + l2
    ensures i2 + l <= i + (x + y) + l2
  {
    forall t ensures (i2 + l)[t] <= (i + (x + y) + l2)[t] {
      assert (i1 + l)[t] == (i + x + l1)[t] && (i2 + l1)[t] <= (i1 + y + l2)[t];
    }
  }

  lemma OutstandingCall(i: multiset<Item<Handler>>, l: seq<Ran>, r: Ran, i': multiset<Item<Handler>>, l': seq<Ran>, x: Item<Handler>)
    requires Outstanding(i, l + [r], Issues(r.handler.actions), i', l', x)
    ensures Outstanding(i, l, multiset{}, i', l', x)
  {
    assert (l + [r])[..|l|] == l;
    CancelBounds(i, IssuedBy(l), Issues(r.handler.actions), i' + multiset{x}, IssuedBy(l'));
  }

  lemma CancelBounds<T>(i: multiset<T>, l: multiset<T>, x: multiset<T>, i': multiset<T>, l': multiset<T>)
    requires i' + (l + x) <= i + x + l'
    ensures i' + l <= i + multiset{} + l'
  {
    forall t ensures (i' + l)[t] <= (i + multiset{} + l')[t] {
      assert (i' + (l + x))[t] <= (i + x + l')[t];
    }
  }

  lemma JoinSums<T>(i: multiset<T>, l: multiset<T>, x: multiset<T>, i1: multiset<T>, l1: multiset<T>, y: multiset<T>,
                    i2: multiset<T>, l2: multiset<T>)
    requires i1 + l == i + x + l1 && i2 + l1 == i1 + y + l2
    ensures i2 + l == i + (x + y) + l2
  {
    forall t ensures (i2 + l)[t] == (i + (x + y) + l2)[t] {
      assert (i1 + l)[t] == (i + x + l1)[t] && (i2 + l1)[t] == (i1 + y + l2)[t];
    }
  }

  /** A handler that was run to its end accounts for its own deferrals. */
  lemma CarriedOutCall(i: multiset<Item<Handler>>, l: seq<Ran>, r: Ran, i': multiset<Item<Handler>>, l': seq<Ran>)
    requires CarriedOut(i, l + [r], Issues(r.handler.actions), i', l')
    ensures CarriedOut(i, l, multiset{}, i', l')
  {
    assert (l + [r])[..|l|] == l;
    CancelSums(i, IssuedBy(l), Issues(r.handler.actions), i', IssuedBy(l'));
  }

  lemma CancelSums<T>(i: multiset<T>, l: multiset<T>, x: multiset<T>, i': multiset<T>, l': multiset<T>)
    requires i' + (l + x) == i + x + l'
    ensures i' + l == i + multiset{} + l'
  {
    forall t ensures (i' + l)[t] == (i + multiset{} + l')[t] {
      assert (i' + (l + x))[t] == (i + x + l')[t];
    }
  }

  lemma CallsPush(log: seq<Ran>, r: Ran)
    ensures Calls(log + [r]) == Calls(log) + multiset{Item(r.level, r.handler)}
    ensures AtOwnLevels(log) && r.at == Runs(r.level) ==> AtOwnLevels(log + [r])
    ensures Since(log, log + [r], r.at)
  {
    assert (log + [r])[..|log|] == log;
  }

  class Cpu {
    var irql: nat
    const deferred: PriorityQueue<Handler>
    // every call of DeferUntilIrql that did not panic, and every handler run, in order
    ghost var issued: multiset<Item<Handler>>
    ghost var log: seq<Ran>

    ghost predicate Shape()
      reads deferred, deferred.items
    {
      deferred.Valid() && deferred.max && AllPlain(deferred.Contents())
    }

    /**
    Between instructions: nothing waits that should have run, and everything ever
    deferred either ran, once, at its own level, or waits.
     */
    ghost predicate Valid()
      reads this, deferred, deferred.items
    {
      Steady() && irql != STANDARD_HIGH_PRIORITY
    }

    ghost predicate Steady()
      reads this, deferred, deferred.items
    {
      && Shape()
      && AllWait(deferred.Contents(), irql)
      && Accounted()
    }

    ghost predicate Accounted()
      requires deferred.Valid()
      reads this, deferred, deferred.items
    {
      AtOwnLevels(log) && issued == Calls(log) + deferred.Contents()
    }

    /** All that the handlers queued have to do. */
    ghost function Work(): nat
      requires deferred.Valid()
      reads deferred, deferred.items
    {
      Queued(deferred.items[..deferred.size], Steps)
    }

    /** The handlers queued and all that they will defer. */
    ghost function Load(): nat
      requires deferred.Valid()
      reads deferred, deferred.items
    {
      Queued(deferred.items[..deferred.size], Deferrals)
    }

    /** The stop at a deferral: everything deferred before it ran or waits, and the queue has no room for this one. */
    ghost predicate Stuck(x: Item<Handler>)
      reads this, deferred, deferred.items
    {
      Valid() && deferred.size == deferred.items.Length && x.priority < irql
    }

    constructor ()
      ensures Valid() && fresh(deferred) && fresh(deferred.items)
      ensures irql == STANDARD && deferred.Contents() == multiset{} && deferred.items.Length == 32 && log == []
    {
      irql := STANDARD;
      deferred := new PriorityQueue<Handler>(QUEUE_CAPACITY, true, Handler([]));
      issued := multiset{};
      log := [];
    }

    /** DeferUntilIrql when the work has to wait. */
    method Enqueue(level: nat, h: Handler) returns (r: Outcome)
      requires Valid() && Plain(h.actions) && level < irql
      modifies this, deferred, deferred.items
      ensures r == if old(deferred.size) == deferred.items.Length then QueueFull(Item(level, h)) else Done
      ensures Valid() && irql == old(irql) && log == old(log)
      ensures r != Done ==> Stuck(Item(level, h)) && issued == old(issued)
      ensures r == Done ==> deferred.Contents() == old(deferred.Contents()) + multiset{Item(level, h)}
      ensures r == Done ==> issued == old(issued) + multiset{Item(level, h)}
      ensures r == Done ==> CarriedOut(old(issued), old(log), multiset{Item(level, h)}, issued, log)
      ensures r != Done ==> Outstanding(old(issued), old(log), multiset{Item(level, h)}, issued, log, Item(level, h))
      ensures r == Done ==> Work() == old(Work()) + Size(h, Steps) && Load() == old(Load()) + Size(h, Deferrals)
      ensures old(Load()) < deferred.items.Length ==> r == Done
    {
      ghost var s := deferred.items[..deferred.size];
      QueuedAtLeast(s, Deferrals);
      var ok := deferred.Insert(h, level);
      if !ok {
        return QueueFull(Item(level, h));
      }
      ghost var t := deferred.items[..deferred.size];
      QueuedAdds(s, t, Item(level, h), Steps);
      QueuedAdds(s, t, Item(level, h), Deferrals);
      OneMoreWaits(multiset(s), irql, Item(level, h));
      AddToBoth(issued, Calls(log), multiset(s), Item(level, h));
      issued := issued + multiset{Item(level, h)};
      r := Done;
    }

    /** Nothing queued has the given priority or a higher one. */
    ghost predicate Below(target: nat)
      requires deferred.Valid()
      reads deferred, deferred.items
    {
      forall x | x in deferred.Contents() :: x.priority < target
    }

    /** Runs a handler of the given level at the current one. */
    method Call(level: nat, h: Handler) returns (r: Outcome)
      requires Shape() && irql == Runs(level) && AllWait(deferred.Contents(), irql)
      requires Plain(h.actions)
      requires AtOwnLevels(log) && issued == Calls(log) + deferred.Contents() + multiset{Item(level, h)}
      modifies this, deferred, deferred.items
      ensures r == Done ==> Valid() && irql == old(irql)
      ensures r == Done ==> Work() <= old(Work()) + SizeOf(h.actions, Steps)
      ensures r == Done ==> Load() <= old(Load()) + SizeOf(h.actions, Deferrals)
      ensures r == Done ==> CarriedOut(old(issued), old(log), multiset{}, issued, log)
      ensures old(log) + [Ran(level, h, old(irql))] <= log && Since(old(log), log, old(irql))
      ensures r.QueueFull? ==> Stuck(r.item) && Outstanding(old(issued), old(log), multiset{}, issued, log, r.item)
      ensures r == Done ==> Lawful(old(log), log)
      ensures r == InvalidIrql ==> !Lawful(old(log), log)
      ensures old(AllFit(deferred.Contents())) && Fits(h.actions, old(irql)) ==> r != InvalidIrql && (r == Done ==> AllFit(deferred.Contents()))
      ensures old(Load()) + SizeOf(h.actions, Deferrals) <= deferred.items.Length ==> !r.QueueFull?
      ensures r == Done && old(Below(irql)) ==> Below(irql)
      decreases Work() + SizeOf(h.actions, Steps), 2
    {
      CallsPush(log, Ran(level, h, irql));
      log := log + [Ran(level, h, irql)];
      assert deferred.Contents() == old(deferred.Contents());
      ghost var started := log;
      r := Run(h.actions);
      SinceJoins(old(log), started, log, old(irql), old(irql));
      LawfulJoins(old(log), started, log);
      if r == Done {
        CarriedOutCall(old(issued), old(log), Ran(level, h, old(irql)), issued, log);
      } else if r.QueueFull? {
        OutstandingCall(old(issued), old(log), Ran(level, h, old(irql)), issued, log, r.item);
      }
    }

    /** Carries out a list of actions, in order, ending at the level it began at. */
    method Run(acts: seq<Action>) returns (r: Outcome)
      requires Valid() && Plain(acts)
      modifies this, deferred, deferred.items
      ensures r == Done ==> Valid() && irql == old(irql)
      ensures r == Done ==> Work() <= old(Work()) + SizeOf(acts, Steps)
      ensures r == Done ==> Load() <= old(Load()) + SizeOf(acts, Deferrals)
      ensures r == Done ==> CarriedOut(old(issued), old(log), Issues(acts), issued, log)
      ensures Since(old(log), log, old(irql))
      ensures r.QueueFull? ==> Stuck(r.item) && Outstanding(old(issued), old(log), Issues(acts), issued, log, r.item)
      ensures r == Done ==> Permitted(acts, old(irql)) && Lawful(old(log), log)
      ensures r == InvalidIrql ==> !(Permitted(acts, old(irql)) && Lawful(old(log), log))
      ensures old(AllFit(deferred.Contents())) && Fits(acts, old(irql)) ==> r != InvalidIrql && (r == Done ==> AllFit(deferred.Contents()))
      ensures old(Load()) + SizeOf(acts, Deferrals) <= deferred.items.Length ==> !r.QueueFull?
      ensures r == Done && old(Below(irql)) ==> Below(irql)
      decreases Work() + SizeOf(acts, Steps), 1
    {
      if acts == [] {
        return Done;
      }
      r := Perform(acts[0]);
      if r.QueueFull? {
        OutstandingMore(old(issued), old(log), IssuesOf(acts[0]), Issues(acts[1..]), issued, log, r.item);
      } else if r == Done {
        ghost var i1, l1 := issued, log;
        r := Run(acts[1..]);
        LawfulJoins(old(log), l1, log);
        if r == Done {
          CarriedOutJoins(old(issued), old(log), IssuesOf(acts[0]), i1, l1, Issues(acts[1..]), issued, log);
        } else if r.QueueFull? {
          OutstandingJoins(old(issued), old(log), IssuesOf(acts[0]), i1, l1, Issues(acts[1..]), issued, log, r.item);
        }
      }
    }

    method Perform(a: Action) returns (r: Outcome)
      requires Valid() && PlainAction(a)
      modifies this, deferred, deferred.items
      ensures r == Done ==> Valid() && irql == old(irql)
      ensures r == Done ==> Work() < old(Work()) + ActionSize(a, Steps)
      ensures r == Done ==> Load() <= old(Load()) + ActionSize(a, Deferrals)
      ensures r == Done ==> CarriedOut(old(issued), old(log), IssuesOf(a), issued, log)
      ensures Since(old(log), log, old(irql))
      ensures r.QueueFull? ==> Stuck(r.item) && Outstanding(old(issued), old(log), IssuesOf(a), issued, log, r.item)
      ensures r == Done ==> ActionPermitted(a, old(irql)) && Lawful(old(log), log)
      ensures r == InvalidIrql ==> !(ActionPermitted(a, old(irql)) && Lawful(old(log), log))
      ensures old(AllFit(deferred.Contents())) && ActionFits(a, old(irql)) ==> r != InvalidIrql && (r == Done ==> AllFit(deferred.Contents()))
      ensures old(Load()) + ActionSize(a, Deferrals) <= deferred.items.Length ==> !r.QueueFull?
      ensures r == Done && old(Below(irql)) ==> Below(irql)
      decreases Work() + ActionSize(a, Steps), 0
    {
      match a
      case Defer(level, h) =>
        r := DeferUntilIrql(level, h);
      case Section(to, body) =>
        r := PerformSection(to, body);
    }

    method PerformSection(to: nat, body: seq<Action>) returns (r: Outcome)
      requires Valid() && to != STANDARD_HIGH_PRIORITY && Plain(body)
      modifies this, deferred, deferred.items
      ensures r == Done ==> Valid() && irql == old(irql)
      ensures r == Done ==> Work() <= old(Work()) + SizeOf(body, Steps)
      ensures r == Done ==> Load() <= old(Load()) + SizeOf(body, Deferrals)
      ensures r == Done ==> CarriedOut(old(issued), old(log), Issues(body), issued, log)
      ensures Since(old(log), log, old(irql))
      ensures r.QueueFull? ==> Stuck(r.item) && Outstanding(old(issued), old(log), Issues(body), issued, log, r.item)
      ensures r == Done ==> ActionPermitted(Section(to, body), old(irql)) && Lawful(old(log), log)
      ensures r == InvalidIrql ==> !(ActionPermitted(Section(to, body), old(irql)) && Lawful(old(log), log))
      ensures old(AllFit(deferred.Contents())) && ActionFits(Section(to, body), old(irql)) ==> r != InvalidIrql && (r == Done ==> AllFit(deferred.Contents()))
      ensures old(Load()) + SizeOf(body, Deferrals) <= deferred.items.Length ==> !r.QueueFull?
      ensures r == Done && old(Below(irql)) ==> Below(irql)
      decreases Work() + SizeOf(body, Steps), 6
    {
      var existing := irql;
      r := RaiseIrql(to);
      if r == Done {
        r := Run(body);
      }
      if r == Done {
        ghost var i1, l1 := issued, log;
        r := LowerIrql(existing);
        LawfulJoins(old(log), l1, log);
        assert Issues(body) + multiset{} == Issues(body);
        if r == Done {
          CarriedOutJoins(old(issued), old(log), Issues(body), i1, l1, multiset{}, issued, log);
        } else if r.QueueFull? {
          OutstandingJoins(old(issued), old(log), Issues(body), i1, l1, multiset{}, issued, log, r.item);
        }
      }
    }

    /** DeferUntilIrql when the work is for the current level. */
    method CallNow(level: nat, h: Handler) returns (r: Outcome)
      requires Valid() && Plain(h.actions) && Runs(level) == irql
      modifies this, deferred, deferred.items
      ensures r == Done ==> Valid() && irql == old(irql)
      ensures r == Done ==> Work() <= old(Work()) + SizeOf(h.actions, Steps)
      ensures r == Done ==> Load() <= old(Load()) + SizeOf(h.actions, Deferrals)
      ensures r == Done ==> CarriedOut(old(issued), old(log), multiset{Item(level, h)}, issued, log)
      ensures old(log) + [Ran(level, h, old(irql))] <= log && Since(old(log), log, old(irql))
      ensures r.QueueFull? ==> Stuck(r.item) && Outstanding(old(issued), old(log), multiset{Item(level, h)}, issued, log, r.item)
      ensures r == Done ==> Lawful(old(log), log)
      ensures r == InvalidIrql ==> !Lawful(old(log), log)
      ensures old(AllFit(deferred.Contents())) && Fits(h.actions, old(irql)) ==> r != InvalidIrql && (r == Done ==> AllFit(deferred.Contents()))
      ensures old(Load()) + SizeOf(h.actions, Deferrals) <= deferred.items.Length ==> !r.QueueFull?
      ensures r == Done && old(Below(irql)) ==> Below(irql)
      decreases Work() + SizeOf(h.actions, Steps), 3
    {
      ghost var x, i0, l0 := Item(level, h), issued, log;
      issued := issued + multiset{x};
      ghost var i1 := issued;
      r := Call(level, h);
      assert multiset{x} + multiset{} == multiset{x};
      if r == Done {
        CarriedOutJoins(i0, l0, multiset{x}, i1, l0, multiset{}, issued, log);
      } else if r.QueueFull? {
        OutstandingJoins(i0, l0, multiset{x}, i1, l0, multiset{}, issued, log, r.item);
      }
    }

    method DeferUntilIrql(level: nat, h: Handler) returns (r: Outcome)
      requires Valid() && Plain(h.actions)
      modifies this, deferred, deferred.items
      ensures r == Done ==> Valid() && irql == old(irql)
      ensures r == Done ==> Work() <= old(Work()) + Size(h, Steps)
      ensures r == Done ==> Load() <= old(Load()) + Size(h, Deferrals)
      ensures r == Done ==> CarriedOut(old(issued), old(log), multiset{Item(level, h)}, issued, log)
      ensures r == Done && Runs(level) != old(irql) ==>
                log == old(log) && deferred.Contents() == old(deferred.Contents()) + multiset{Item(level, h)}
      ensures Since(old(log), log, old(irql))
      ensures r.QueueFull? ==> Stuck(r.item) && Outstanding(old(issued), old(log), multiset{Item(level, h)}, issued, log, r.item)
      ensures r == Done ==> Runs(level) <= old(irql) && Lawful(old(log), log)
      ensures r == InvalidIrql ==> !(Runs(level) <= old(irql) && Lawful(old(log), log))
      ensures old(AllFit(deferred.Contents())) && ActionFits(Defer(level, h), old(irql)) ==> r != InvalidIrql && (r == Done ==> AllFit(deferred.Contents()))
      ensures old(Load()) + Size(h, Deferrals) <= deferred.items.Length ==> !r.QueueFull?
      ensures Runs(level) < old(irql) ==>
                r == if old(deferred.size) == deferred.items.Length then QueueFull(Item(level, h)) else Done
      ensures Runs(level) == old(irql) && old(Load()) + SizeOf(h.actions, Deferrals) <= deferred.items.Length ==> !r.QueueFull?
      ensures r == Done && old(Below(irql)) ==> Below(irql)
      ensures Runs(level) == old(irql) ==> old(log) + [Ran(level, h, old(irql))] <= log
      ensures (level == 0 || level == 1) && old(irql) == 0 ==> old(log) + [Ran(level, h, 0)] <= log
      ensures level > old(irql) && Runs(level) != old(irql) ==> r == InvalidIrql && log == old(log)
      decreases Work() + Size(h, Steps), 0
    {
      if level == irql || (level == STANDARD_HIGH_PRIORITY && irql == STANDARD) {
        r := CallNow(level, h);
      } else if level > irql {
        r := InvalidIrql;
      } else {
        r := Enqueue(level, h);
      }
    }

    method RaiseIrql(level: nat) returns (r: Outcome)
      requires Valid()
      modifies this
      ensures Steady() && log == old(log) && issued == old(issued)
      ensures r == if level < old(irql) then InvalidIrql else Done
      ensures irql == if r == Done then level else old(irql)
    {
      if level < irql {
        return InvalidIrql;
      }
      irql := level;
      r := Done;
    }

    /** Takes the handler at the head of the queue off it and drops the level to its own. */
    method TakeNext(next: Item<Handler>)
      requires Valid() && deferred.size > 0 && next == deferred.items[0]
      modifies this, deferred, deferred.items
      ensures Shape() && irql == Runs(next.priority) && AllWait(deferred.Contents(), irql)
      ensures Plain(next.data.actions)
      ensures log == old(log) && issued == old(issued) && AtOwnLevels(log)
      ensures issued == Calls(log) + deferred.Contents() + multiset{next}
      ensures old(deferred.Contents()) == deferred.Contents() + multiset{next}
      ensures Work() + Size(next.data, Steps) == old(Work()) && Load() + Size(next.data, Deferrals) == old(Load())
    {
      ghost var s := deferred.items[..deferred.size];
      deferred.TopIsExtreme();
      deferred.Pop();
      irql := Runs(next.priority);
      QueuedAdds(deferred.items[..deferred.size], s, next, Steps);
      QueuedAdds(deferred.items[..deferred.size], s, next, Deferrals);
    }

    method RunNext(next: Item<Handler>) returns (r: Outcome)
      requires Valid() && deferred.size > 0 && next == deferred.items[0]
      modifies this, deferred, deferred.items
      ensures r == Done ==> Valid() && irql == Runs(next.priority)
      ensures r == Done ==> Work() < old(Work())
      ensures r == Done ==> Load() <= old(Load())
      ensures r == Done ==> CarriedOut(old(issued), old(log), multiset{}, issued, log)
      ensures Since(old(log), log, Runs(next.priority))
      ensures r.QueueFull? ==> Stuck(r.item) && Outstanding(old(issued), old(log), multiset{}, issued, log, r.item)
      ensures r == Done ==> Lawful(old(log), log)
      ensures r == InvalidIrql ==> !Lawful(old(log), log)
      ensures old(AllFit(deferred.Contents())) ==> r != InvalidIrql && (r == Done ==> AllFit(deferred.Contents()))
      ensures old(Load()) <= deferred.items.Length + 1 ==> !r.QueueFull?
      decreases Work(), 2
    {
      TakeNext(next);
      r := Call(next.priority, next.data);
    }

    /**
    One round of the loop in LowerIrql: the next handler runs if it is due at `target`.
    The assertion is the source's own: nothing is ever found waiting that should have run
    at a higher level than the current one.
     */
    method DrainOne(target: nat) returns (due: bool, r: Outcome)
      requires Valid() && deferred.size > 0
      modifies this, deferred, deferred.items
      ensures due <==> !old(Below(target))
      ensures !due ==> r == Done && unchanged(this, deferred, deferred.items)
      ensures r == Done ==> Valid() && CarriedOut(old(issued), old(log), multiset{}, issued, log)
      ensures r == Done && due ==> Work() < old(Work())
      ensures r == Done ==> Load() <= old(Load())
      ensures Since(old(log), log, Runs(target))
      ensures r.QueueFull? ==> Stuck(r.item) && Outstanding(old(issued), old(log), multiset{}, issued, log, r.item)
      ensures r == Done ==> Lawful(old(log), log)
      ensures r == InvalidIrql ==> !Lawful(old(log), log)
      ensures old(AllFit(deferred.Contents())) ==> r != InvalidIrql && (r == Done ==> AllFit(deferred.Contents()))
      ensures old(Load()) <= deferred.items.Length + 1 ==> !r.QueueFull?
      decreases Work(), 3
    {
      var next := deferred.Peek();
      assert next.priority <= irql || (next.priority == STANDARD_HIGH_PRIORITY && irql == STANDARD);
      due := next.priority >= target;
      if due {
        r := RunNext(next);
        SinceJoins(old(log), old(log), log, Runs(target), Runs(next.priority));
      } else {
        r := Done;
      }
    }

    /** The loop of LowerIrql. */
    method Drain(target: nat) returns (r: Outcome)
      requires Valid() && target <= irql
      modifies this, deferred, deferred.items
      ensures r == Done ==> Valid() && Below(target)
      ensures r == Done ==> Work() <= old(Work())
      ensures r == Done ==> Load() <= old(Load())
      ensures r == Done ==> CarriedOut(old(issued), old(log), multiset{}, issued, log)
      ensures Since(old(log), log, Runs(target))
      ensures r.QueueFull? ==> Stuck(r.item) && Outstanding(old(issued), old(log), multiset{}, issued, log, r.item)
      ensures r == Done ==> Lawful(old(log), log)
      ensures r == InvalidIrql ==> !Lawful(old(log), log)
      ensures old(AllFit(deferred.Contents())) ==> r != InvalidIrql && (r == Done ==> AllFit(deferred.Contents()))
      ensures old(Load()) <= deferred.items.Length + 1 ==> !r.QueueFull?
      ensures old(Below(target)) ==> r == Done && unchanged(this, deferred, deferred.items)
      decreases Work(), 4
    {
      ghost var i0, l0, w, fit, none := issued, log, Work(), AllFit(deferred.Contents()), Below(target);
      ghost var load := Load();
      while deferred.size > 0
        invariant Valid() && Work() <= w && Load() <= load
        invariant Since(l0, log, Runs(target)) && CarriedOut(i0, l0, multiset{}, issued, log)
        invariant none ==> unchanged(this, deferred, deferred.items)
        invariant fit ==> AllFit(deferred.Contents())
        invariant Lawful(l0, log)
        decreases Work()
      {
        ghost var i1, l1 := issued, log;
        var due;
        due, r := DrainOne(target);
        SinceJoins(l0, l1, log, Runs(target), Runs(target));
        LawfulJoins(l0, l1, log);
        if r != Done {
          if r.QueueFull? {
            OutstandingJoins(i0, l0, multiset{}, i1, l1, multiset{}, issued, log, r.item);
          }
          return;
        }
        CarriedOutJoins(i0, l0, multiset{}, i1, l1, multiset{}, issued, log);
        if !due {
          break;
        }
      }
      r := Done;
    }

    method LowerIrql(target: nat) returns (r: Outcome)
      requires Valid()
      modifies this, deferred, deferred.items
      ensures target > old(irql) ==> r == InvalidIrql && irql == old(irql)
      ensures r == Done ==> Valid() && irql == Runs(target) && Below(target)
      ensures r == Done ==> irql == if target == 1 then 0 else target
      ensures r == Done ==> Work() <= old(Work())
      ensures r == Done ==> Load() <= old(Load())
      ensures r == Done ==> CarriedOut(old(issued), old(log), multiset{}, issued, log)
      ensures target <= old(irql) ==> Since(old(log), log, Runs(target))
      ensures r.QueueFull? ==> Stuck(r.item) && Outstanding(old(issued), old(log), multiset{}, issued, log, r.item)
      ensures r == Done ==> Lawful(old(log), log)
      ensures r == InvalidIrql ==> target > old(irql) || !Lawful(old(log), log)
      ensures target <= old(irql) && old(AllFit(deferred.Contents())) ==>
                r != InvalidIrql && (r == Done ==> AllFit(deferred.Contents()))
      ensures old(Load()) <= deferred.items.Length + 1 ==> !r.QueueFull?
      ensures target <= old(irql) && old(Below(target)) ==>
                r == Done && log == old(log) && issued == old(issued) && unchanged(deferred, deferred.items)
      decreases Work(), 5
    {
      if target > irql {
        return InvalidIrql;
      }
      r := Drain(target);
      if r == Done {
        irql := Runs(target);
      }
    }
  }
}
