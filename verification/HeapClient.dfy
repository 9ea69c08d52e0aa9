/**
Any client of the kernel heap, over any run: it asks for blocks, cleared or not, stores
into them and gives them back in any order, while the system refills the reserves now
and then. What the client finds in its blocks is always what it last stored there.
 */
module HeapClient {
  import opened HeapLayout
  import opened HeapService
  import opened KernelHeap

  datatype Word = Unknown | Known(value: nat)

  /** Blocks are named by the order in which they were handed out. */
  datatype Request =
    | Ask(bytes: nat, zero: bool)
    | Put(handle: nat, offset: nat, value: nat)
    | GiveBack(handle: nat)
    | Refill
    | LateRefill

  /** A handed-out block: where it starts, whether it is still held, and what the client believes it holds. */
  datatype Handle = Handle(block: nat, held: bool, data: seq<Word>)

  ghost predicate Agrees(h: Handle, c: map<nat, seq<nat>>) {
    h.held ==> h.block in c && Matches(h.data, c[h.block])
  }

  ghost predicate Matches(data: seq<Word>, words: seq<nat>) {
    |data| <= |words| && forall i | 0 <= i < |data| && data[i].Known? :: data[i].value == words[i]
  }

  ghost predicate Owned(hs: seq<Handle>, b: nat) {
    exists k :: 0 <= k < |hs| && hs[k].held && hs[k].block == b
  }

  ghost predicate HeldApart(hs: seq<Handle>) {
    forall j, k {:trigger hs[j], hs[k]} | 0 <= j < k < |hs| && hs[j].held && hs[k].held :: hs[j].block != hs[k].block
  }

  /** The held blocks are distinct, they are exactly the live ones, and each holds what the client believes. */
  ghost predicate View(hs: seq<Handle>, c: map<nat, seq<nat>>) {
    && HeldApart(hs)
    && (forall k {:trigger hs[k]} | 0 <= k < |hs| :: Agrees(hs[k], c))
    && (forall b {:trigger Owned(hs, b)} | b in c :: Owned(hs, b))
  }

  /** What a client knows of a new block of this many bytes. */
  function Fresh(bytes: nat, zero: bool): seq<Word> {
    seq(bytes / 4, _ => if zero then Known(0) else Unknown)
  }

  lemma AskKeepsView(hs: seq<Handle>, c: map<nat, seq<nat>>, c': map<nat, seq<nat>>, b: nat, bytes: nat, zero: bool)
    requires View(hs, c) && Allotted(c, c', b, bytes, zero)
    ensures View(hs + [Handle(b, true, Fresh(bytes, zero))], c')
  {
    var hs' := hs + [Handle(b, true, Fresh(bytes, zero))];
    assert Matches(Fresh(bytes, zero), c'[b]);
    forall k | 0 <= k < |hs'| ensures Agrees(hs'[k], c') {
      assert k < |hs| ==> hs'[k] == hs[k] && Agrees(hs[k], c);
    }
    forall d | d in c' ensures Owned(hs', d) {
      if d == b {
        assert hs'[|hs|].block == d;
      } else {
        assert Owned(hs, d);
        var k :| 0 <= k < |hs| && hs[k].held && hs[k].block == d;
        assert hs'[k] == hs[k];
      }
    }
  }

  /** Replacing one held handle by another for the same block. */
  lemma ReplaceOwned(hs: seq<Handle>, k: nat, h: Handle, d: nat)
    requires k < |hs| && Owned(hs, d) && h.block == hs[k].block
    requires h.held || d != hs[k].block
    ensures Owned(hs[k := h], d)
  {
    var hs' := hs[k := h];
    var j :| 0 <= j < |hs| && hs[j].held && hs[j].block == d;
    assert hs'[j].held && hs'[j].block == d;
  }

  lemma OthersElsewhere(hs: seq<Handle>, j: nat, k: nat)
    requires HeldApart(hs) && j < |hs| && k < |hs| && j != k && hs[j].held && hs[k].held
    ensures hs[j].block != hs[k].block
  {
  }

  lemma PutKeepsView(hs: seq<Handle>, c: map<nat, seq<nat>>, k: nat, offset: nat, v: nat, data: seq<Word>)
    requires View(hs, c) && k < |hs| && hs[k].held && offset < |hs[k].data|
    requires data == hs[k].data[offset := Known(v)]
    ensures Agrees(hs[k], c) && View(hs[k := hs[k].(data := data)], Poke(c, hs[k].block, offset, v))
  {
    assert Agrees(hs[k], c);
    var h := hs[k].(data := data);
    var hs', c' := hs[k := h], Poke(c, hs[k].block, offset, v);
    forall j | 0 <= j < |hs'| ensures Agrees(hs'[j], c') {
      assert Agrees(hs[j], c);
      if j == k {
        assert Matches(data, c'[h.block]);
      } else if hs[j].held {
        OthersElsewhere(hs, j, k);
      }
    }
    forall d | d in c' ensures Owned(hs', d) {
      assert Owned(hs, d);
      ReplaceOwned(hs, k, h, d);
    }
  }

  lemma GiveBackKeepsView(hs: seq<Handle>, c: map<nat, seq<nat>>, k: nat)
    requires View(hs, c) && k < |hs| && hs[k].held
    ensures Agrees(hs[k], c) && View(hs[k := hs[k].(held := false)], c - {hs[k].block})
  {
    assert Agrees(hs[k], c);
    var h := hs[k].(held := false);
    var hs', c' := hs[k := h], c - {hs[k].block};
    forall j | 0 <= j < |hs'| ensures Agrees(hs'[j], c') {
      assert Agrees(hs[j], c);
      if j != k && hs[j].held {
        OthersElsewhere(hs, j, k);
      }
    }
    forall d | d in c' ensures Owned(hs', d) {
      assert Owned(hs, d);
      ReplaceOwned(hs, k, h, d);
    }
  }

  /** What the client believes after a request; `b` is the block it was handed, if it asked for one. */
  function Believes(hs: seq<Handle>, q: Request, b: nat): seq<Handle> {
    match q
    case Ask(bytes, zero) => if bytes > 0 then hs + [Handle(b, true, Fresh(RoundUpSize(bytes), zero))] else hs
    case Put(k, offset, v) =>
      if k < |hs| && hs[k].held && offset < |hs[k].data| then hs[k := hs[k].(data := hs[k].data[offset := Known(v)])] else hs
    case GiveBack(k) => if k < |hs| && hs[k].held then hs[k := hs[k].(held := false)] else hs
    case Refill => hs
    case LateRefill => hs
  }

  /** The same after a whole script, given the block handed out for each request. */
  function Replay(script: seq<Request>, blocks: seq<nat>): seq<Handle>
    requires |blocks| == |script|
  {
    var n := |script|;
    if n == 0 then [] else Believes(Replay(script[..n - 1], blocks[..n - 1]), script[n - 1], blocks[n - 1])
  }

  lemma ReplayMore(script: seq<Request>, n: nat, blocks: seq<nat>, b: nat)
    requires n < |script| && |blocks| == n
    ensures Replay(script[..n + 1], blocks + [b]) == Believes(Replay(script[..n], blocks), script[n], b)
  {
    assert script[..n + 1][..n] == script[..n] && (blocks + [b])[..n] == blocks;
  }

  method ServeAsk(heap: Heap, bytes: nat, zero: bool, hs: seq<Handle>) returns (ok: bool, hs': seq<Handle>, b: nat)
    requires heap.Valid() && View(hs, heap.Contents()) && bytes > 0
    modifies heap, heap.memory, heap.heads, heap.reserve
    ensures ok <==> old(CanServe(heap.shape, heap.reserve[..], RoundUpSize(bytes)))
    ensures heap.Valid() && View(hs', heap.Contents())
    ensures ok ==> hs' == Believes(hs, Ask(bytes, zero), b)
    ensures !ok ==> hs' == hs && unchanged(heap, heap.memory, heap.heads, heap.reserve)
    ensures ok ==> Drawn(old(heap.shape), old(heap.reserve[..]), heap.reserve[..], RoundUpSize(bytes))
  {
    ghost var c := heap.Contents();
    var r := heap.AllocHeapEx(bytes, zero);
    if r.Stopped? {
      return false, hs, 0;
    }
    b := BlockOf(r.value);
    AskKeepsView(hs, c, heap.Contents(), b, RoundUpSize(bytes), zero);
    ok, hs' := true, hs + [Handle(b, true, Fresh(RoundUpSize(bytes), zero))];
  }

  method ServePut(heap: Heap, k: nat, offset: nat, v: nat, hs: seq<Handle>) returns (hs': seq<Handle>)
    requires heap.Valid() && View(hs, heap.Contents()) && k < |hs| && hs[k].held && offset < |hs[k].data|
    modifies heap.memory
    ensures heap.Valid() && View(hs', heap.Contents()) && hs' == Believes(hs, Put(k, offset, v), 0)
  {
    var data := hs[k].data[offset := Known(v)];
    PutKeepsView(hs, heap.Contents(), k, offset, v, data);
    heap.Store(hs[k].block, offset, v);
    hs' := hs[k := hs[k].(data := data)];
  }

  /** FreeHeap by block, not by pointer. */
  method GiveBlock(heap: Heap, b: nat)
    requires heap.Valid() && b in heap.Contents()
    modifies heap`shape, heap.memory, heap.heads
    ensures heap.Valid() && heap.Contents() == old(heap.Contents()) - {b}
  {
    var p := Ptr(b + 1);
    assert p % 4 == 0 && p / 4 - 1 == b;
    heap.FreeHeap(p);
  }

  method ServeGiveBack(heap: Heap, k: nat, hs: seq<Handle>) returns (hs': seq<Handle>)
    requires heap.Valid() && View(hs, heap.Contents()) && k < |hs| && hs[k].held
    modifies heap`shape, heap.memory, heap.heads
    ensures heap.Valid() && View(hs', heap.Contents()) && hs' == Believes(hs, GiveBack(k), 0)
  {
    ghost var c := heap.Contents();
    var b := hs[k].block;
    GiveBackKeepsView(hs, c, k);
    hs' := hs[k := hs[k].(held := false)];
    GiveBlock(heap, b);
  }

  /** Some reserve is whole, or every slot is in use. */
  ghost predicate Refilled(rs: seq<Reserve>) {
    CanSupply(rs, BOOTSTRAP_WORDS) || forall i | 0 <= i < |rs| :: rs[i].valid
  }

  /** A request for memory that the kernel has to find a block for. */
  predicate Asks(q: Request) {
    q.Ask? && q.bytes > 0
  }

  /**
  New memory for the reserves comes from above everything the heap ever had, as long as
  there is any. A late refill was decided on earlier, before other requests came in
  between: the heap's lock is not held while the pages are mapped.
   */
  method ServeRefill(heap: Heap, late: bool)
    requires heap.Valid()
    modifies heap`top, heap.reserve
    ensures heap.Valid() && heap.Contents() == old(heap.Contents())
    ensures old(heap.top) + BOOTSTRAP_WORDS <= heap.memory.Length ==> Refilled(heap.reserve[..])
  {
    if heap.top + BOOTSTRAP_WORDS <= heap.memory.Length {
      if late {
        var kept := heap.AddBlockToBackupHeap(heap.top);
      } else {
        var kept := heap.RefillReservePages(heap.top);
      }
    }
  }

  /** A request the heap cannot serve, which stops the kernel. */
  ghost predicate Unservable(q: Request, s: Shape, rs: seq<Reserve>) {
    Asks(q) && !CanServe(s, rs, RoundUpSize(q.bytes))
  }

  /** One request of the client; a request on a handle it no longer holds is not made. */
  method Serve(heap: Heap, q: Request, hs: seq<Handle>) returns (ok: bool, hs': seq<Handle>, b: nat)
    requires heap.Valid() && View(hs, heap.Contents())
    modifies heap, heap.memory, heap.heads, heap.reserve
    ensures ok <==> !old(Unservable(q, heap.shape, heap.reserve[..]))
    ensures heap.Valid() && View(hs', heap.Contents())
    ensures ok ==> hs' == Believes(hs, q, b)
    ensures !ok ==> hs' == hs && unchanged(heap, heap.memory, heap.heads, heap.reserve)
    ensures ok && Asks(q) ==> Drawn(old(heap.shape), old(heap.reserve[..]), heap.reserve[..], RoundUpSize(q.bytes))
    ensures !Asks(q) && !q.Refill? && !q.LateRefill? ==> unchanged(heap.reserve)
    ensures (q.Refill? || q.LateRefill?) && old(heap.top) + BOOTSTRAP_WORDS <= heap.memory.Length ==> Refilled(heap.reserve[..])
  {
    ok, hs', b := true, hs, 0;
    match q
    case Ask(bytes, zero) =>
      if bytes > 0 {
        ok, hs', b := ServeAsk(heap, bytes, zero, hs);
      }
    case Put(k, offset, v) =>
      if k < |hs| && hs[k].held && offset < |hs[k].data| {
        hs' := ServePut(heap, k, offset, v, hs);
      }
    case GiveBack(k) =>
      if k < |hs| && hs[k].held {
        hs' := ServeGiveBack(heap, k, hs);
      }
    case Refill => ServeRefill(heap, false);
    case LateRefill => ServeRefill(heap, true);
  }

  /**
  Every run from an empty heap: what the client believes, from its own requests alone, is
  what the heap holds. A run goes on until the script ends or until a request for memory
  that the heap as it then is cannot serve.
   */
  method Run(heap: Heap, script: seq<Request>) returns (done: nat, hs: seq<Handle>, blocks: seq<nat>)
    requires heap.Valid() && heap.Contents() == map[]
    modifies heap, heap.memory, heap.heads, heap.reserve
    ensures done <= |script| && |blocks| == done && hs == Replay(script[..done], blocks)
    ensures heap.Valid() && View(hs, heap.Contents())
    ensures done < |script| ==> Unservable(script[done], heap.shape, heap.reserve[..])
  {
    hs, done, blocks := [], 0, [];
    while done < |script|
      invariant done <= |script| && |blocks| == done && hs == Replay(script[..done], blocks)
      invariant heap.Valid() && View(hs, heap.Contents())
    {
      var ok, hs', b := Serve(heap, script[done], hs);
      if !ok {
        return;
      }
      ReplayMore(script, done, blocks, b);
      hs, blocks, done := hs', blocks + [b], done + 1;
    }
  }
}
