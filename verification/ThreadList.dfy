/** Sequences of distinct elements, as the thread lists are. */
module Queues {
  import opened Basics

  ghost function IndexOf<T>(q: seq<T>, x: T): (i: nat)
    requires x in q
    ensures i < |q| && q[i] == x
  {
    var i: nat :| i < |q| && q[i] == x;
    i
  }

  /** The queue without x; the same queue when x is not on it. */
  ghost function Removed<T>(q: seq<T>, x: T): seq<T> {
    if x in q then RemoveAt(q, IndexOf(q, x)) else q
  }

  lemma RemovedIs<T>(q: seq<T>, x: T, i: nat)
    requires Distinct(q) && i < |q| && q[i] == x
    ensures Removed(q, x) == RemoveAt(q, i)
  {
  }

  lemma RemovedKeeps<T>(q: seq<T>, x: T)
    requires Distinct(q)
    ensures Distinct(Removed(q, x)) && x !in Removed(q, x)
    ensures forall y | y != x :: y in Removed(q, x) <==> y in q
  {
    if x in q {
      var i := IndexOf(q, x);
      RemoveAtElements(q, i);
      forall y | y != x ensures y in RemoveAt(q, i) <==> y in q {
        InRemoveAt(q, i, y);
      }
    }
  }
}

/**
Intrusive singly linked lists of threads (thread/threadlist.c). A thread has one link
per list index, so it can be on lists of different indices at once; a list of one
index never disturbs the links of another.
 */
module ThreadList {
  import opened Basics
  import opened Queues

  const LINKS := 3

  class Thread {
    var next: seq<Thread?>

    constructor ()
      ensures next == [null, null, null]
    {
      next := [null, null, null];
    }
  }

  class List {
    const index: nat
    var head: Thread?
    var tail: Thread?
    ghost var threads: seq<Thread>

    ghost predicate Valid()
      reads this, threads
    {
      && index < LINKS
      && Distinct(threads)
      && head == Link(0)
      && tail == (if threads == [] then null else threads[|threads| - 1])
      && forall i | 0 <= i < |threads| :: Linked(i)
    }

    /** The thread at a position, or null one past the end. */
    ghost function Link(i: nat): Thread?
      requires i <= |threads|
      reads this
    {
      if i < |threads| then threads[i] else null
    }

    ghost predicate Linked(i: nat)
      requires i < |threads| && index < LINKS
      reads this, threads
    {
      |threads[i].next| == LINKS && threads[i].next[index] == Link(i + 1)
    }

    /** The links of other indices are as they were. */
    twostate predicate OtherLinksKept(t: Thread)
      reads t
    {
      |t.next| == |old(t.next)| && forall j | 0 <= j < |t.next| && j != index :: t.next[j] == old(t.next[j])
    }

    constructor (index: nat)
      requires index < LINKS
      ensures Valid() && threads == [] && this.index == index
    {
      this.index := index;
      head, tail, threads := null, null, [];
    }

    method Insert(thread: Thread)
      requires Valid() && thread !in threads && |thread.next| == LINKS
      modifies this, threads, thread
      ensures Valid() && threads == old(threads) + [thread]
      ensures forall t | t in threads :: OtherLinksKept(t)
    {
      if tail == null {
        head := thread;
      } else {
        assert Linked(|threads| - 1);
        tail.next := tail.next[index := thread];
      }
      tail := thread;
      thread.next := thread.next[index := null];
      threads := threads + [thread];
      forall i | 0 <= i < |threads| ensures Linked(i) {
        assert i + 1 < |threads| ==> old(Linked(i));
      }
    }

    method GetIndex(thread: Thread) returns (k: int)
      requires Valid()
      ensures thread in threads ==> 0 <= k < |threads| && threads[k] == thread
      ensures thread !in threads ==> k == -1
    {
      var iter := head;
      k := 0;
      while iter != null
        invariant 0 <= k <= |threads| && iter == Link(k)
        invariant thread !in threads[..k]
        decreases |threads| - k
      {
        if iter == thread {
          return;
        }
        assert Linked(k);
        k := k + 1;
        iter := iter.next[index];
      }
      k := -1;
    }

    method Contains(thread: Thread) returns (found: bool)
      requires Valid()
      ensures found <==> thread in threads
    {
      var k := GetIndex(thread);
      found := k != -1;
    }

    /** Unlinks the thread at position k, whose predecessor is prev. */
    method ProperDelete(iter: Thread, prev: Thread?, ghost k: nat)
      requires Valid() && k < |threads| && iter == threads[k]
      requires if k == 0 then prev == null else prev == threads[k - 1]
      modifies this, threads
      ensures Valid() && threads == Removed(old(threads), iter)
      ensures forall t | t in old(threads) :: OtherLinksKept(t)
    {
      assert Linked(k);
      RemovedIs(threads, iter, k);
      RemovedKeeps(threads, iter);
      if iter == head {
        assert k == 0 by { assert threads[0] == threads[k]; }
        head := iter.next[index];
      } else {
        assert Linked(k - 1);
        prev.next := prev.next[index := iter.next[index]];
      }
      if iter == tail {
        tail := prev;
      }
      ghost var was := threads;
      threads := RemoveAt(was, k);
      forall i | 0 <= i < |threads| ensures Linked(i) {
        assert i < k ==> old(Linked(i));
        assert i >= k ==> old(Linked(i + 1));
      }
    }

    method DeleteIndex(position: nat)
      requires Valid() && position < |threads|
      modifies this, threads
      ensures Valid() && threads == Removed(old(threads), old(threads[position]))
      ensures forall t | t in old(threads) :: OtherLinksKept(t)
    {
      var iter := head;
      var prev: Thread? := null;
      var i := 0;
      while i < position
        invariant 0 <= i <= position && iter == threads[i]
        invariant if i == 0 then prev == null else prev == threads[i - 1]
        invariant Valid() && threads == old(threads)
        invariant forall t | t in threads :: t.next == old(t.next)
      {
        assert Linked(i);
        i := i + 1;
        prev := iter;
        iter := iter.next[index];
      }
      ProperDelete(iter, prev, position);
    }

    method Delete(thread: Thread)
      requires Valid() && thread in threads
      modifies this, threads
      ensures Valid() && threads == Removed(old(threads), thread)
      ensures forall t | t in old(threads) :: OtherLinksKept(t)
    {
      var k := GetIndex(thread);
      DeleteIndex(k);
    }

    method DeleteTop() returns (top: Thread)
      requires Valid() && threads != []
      modifies this
      ensures Valid() && [top] + threads == old(threads)
    {
      assert Linked(0);
      top := head;
      if head == tail {
        assert |threads| == 1 by { assert threads[0] == threads[|threads| - 1]; }
        tail := null;
      }
      head := top.next[index];
      threads := threads[1..];
      forall i | 0 <= i < |threads| ensures Linked(i) {
        assert old(Linked(i + 1));
      }
    }
  }
}
