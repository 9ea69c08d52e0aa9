/**
The kernel heap: a boundary-tag allocator over raw memory words, with segregated
doubly linked free lists, fenceposts, splitting and two-sided coalescing.
 */
module KernelHeap {
  import opened Basics
  import opened HeapBuckets
  import opened HeapLayout
  import opened HeapLists
  import opened HeapTiling
  import opened HeapSteps
  import opened HeapMerging
  import opened HeapService

  class Heap {
    const memory: array<nat>
    const heads: array<nat>
    const reserve: array<Reserve>
    // the end of the memory that was ever given to the heap
    var top: nat
    ghost var shape: Shape

    /** The heap invariant, with the blocks an operation has in hand. */
    ghost predicate Holds(loose: set<nat>)
      reads this, memory, heads
    {
      && memory != heads
      && Inv(memory[..], heads[..], shape, loose)
    }

    ghost predicate TopOk()
      reads this
    {
      PAGE_WORDS <= top <= memory.Length && top % PAGE_WORDS == 0
    }

    /** The invariant between operations. */
    ghost predicate Valid()
      reads this, memory, heads, reserve
    {
      Holds({}) && ReservesOk(reserve[..], shape.tiles.arenas, top) && TopOk()
    }

    /** GetSize, whose check that both tags agree cannot fail. */
    method GetSize(b: nat) returns (n: nat)
      requires b in shape.tiles.blocks && Tags(memory[..], shape)
      ensures n == shape.tiles.blocks[b].size
    {
      assert Tagged(memory[..], b, shape.tiles.blocks[b].size, b !in shape.free);
      n := (memory[b] - memory[b] % 4) / 4;
      assert memory[b + n - 1] == 4 * n;
    }

    method SetSizeTags(b: nat, n: nat)
      requires 1 <= n && b + n <= memory.Length
      modifies memory
      ensures memory[..] == Retag(old(memory[..]), b, n)
    {
      memory[b] := memory[b] % 4 + 4 * n;
      memory[b + n - 1] := 4 * n;
    }

    /** RemoveBlock, on raw memory: the neighbours of x on its list are made to skip it. */
    method RemoveBlock(i: nat, x: nat, ghost l: seq<nat>, ghost k: nat)
      requires memory != heads && heads.Length == NUM_LISTS
      requires i < NUM_LISTS && k < |l| && l[k] == x
      requires Linked(memory[..], l, k) && heads[i] == HeadLink(l)
      requires PrevLink(l, k) == 0 <==> k == 0
      requires NextLink(l, k) == 0 <==> k + 1 == |l|
      requires k > 0 ==> l[k - 1] + 2 < memory.Length
      requires k + 1 < |l| ==> l[k + 1] + 2 < memory.Length
      requires 0 < k < |l| - 1 ==> l[k - 1] + 1 != l[k + 1] + 2
      modifies memory, heads
      ensures Bypassed(old(memory[..]), memory[..], l, k)
      ensures heads[..] == if k == 0 then old(heads[..])[i := NextLink(l, k)] else old(heads[..])
    {
      var next, prev := memory[x + 1], memory[x + 2];
      if prev == 0 && next == 0 {
        assert heads[i] == Ptr(x);
        heads[i] := 0;
      } else if prev == 0 {
        heads[i] := next;
        memory[next / 4 + 2] := 0;
      } else if next == 0 {
        memory[prev / 4 + 1] := 0;
      } else {
        memory[prev / 4 + 1] := next;
        memory[next / 4 + 2] := prev;
      }
    }

    /** RemoveBlock in a valid heap: x comes off its list and is in hand. */
    method Unlink(i: nat, x: nat, ghost loose: set<nat>, ghost k: nat)
      requires Holds(loose)
      requires i < NUM_LISTS && k < |shape.lists[i]| && shape.lists[i][k] == x
      modifies this`shape, memory, heads
      ensures Holds(loose + {x})
      ensures shape == old(shape).(lists := old(shape.lists)[i := RemoveAt(old(shape.lists)[i], k)])
      ensures Preserves(old(memory[..]), old(shape), loose, memory[..], shape, loose + {x})
      ensures Bypassed(old(memory[..]), memory[..], old(shape.lists)[i], k)
    {
      ghost var m, h, l := memory[..], heads[..], shape.lists[i];
      LinksOf(m, h, shape, loose, i, k);
      RemoveBlock(i, x, l, k);
      shape := shape.(lists := shape.lists[i := RemoveAt(l, k)]);
      UnlinkKeepsInv(m, h, old(shape), loose, i, k, memory[..], heads[..], shape);
      UnlinkPreserves(m, h, old(shape), loose, i, k, memory[..], shape);
    }

    /** The end of AddBlock, on raw memory: x is linked in front of list i and marked free. */
    method Push(i: nat, x: nat, ghost l: seq<nat>)
      requires memory != heads && heads.Length == NUM_LISTS && i < NUM_LISTS
      requires x + 2 < memory.Length && heads[i] == HeadLink(l)
      requires l != [] ==> 0 < l[0] && l[0] + 2 < memory.Length && l[0] + 2 !in {x, x + 1, x + 2}
      modifies memory, heads
      ensures Pushed(old(memory[..]), memory[..], l, x)
      ensures heads[..] == old(heads[..])[i := Ptr(x)]
    {
      memory[x + 2] := 0;
      memory[x + 1] := heads[i];
      if memory[x + 1] != 0 {
        memory[memory[x + 1] / 4 + 2] := 4 * x;
      }
      heads[i] := 4 * x;
      memory[x] := memory[x] - memory[x] % 2;
    }

    /** In a valid heap: the loose block x, with no free neighbour, goes on its list. */
    method File(i: nat, x: nat)
      requires Holds({x})
      requires x in shape.tiles.blocks && !IsFence(shape.tiles, x)
      requires FreeNeighbours(shape, x) == 0
      requires Files(PayloadBytes(shape.tiles.blocks[x].size), i)
      modifies this`shape, memory, heads
      ensures Holds({})
      ensures shape == old(shape).(free := old(shape.free) + {x}, lists := old(shape.lists)[i := [x] + old(shape.lists)[i]])
      ensures Preserves(old(memory[..]), old(shape), {x}, memory[..], shape, {})
    {
      ghost var m, h, l := memory[..], heads[..], shape.lists[i];
      FrontApart(m, h, shape, {x}, i, x);
      Push(i, x, l);
      shape := shape.(free := shape.free + {x}, lists := shape.lists[i := [x] + l]);
      assert {x} - {x} == {};
      PushKeepsInv(m, h, old(shape), {x}, i, x, memory[..], heads[..], shape);
      PushPreserves(m, h, old(shape), {x}, i, x, memory[..], shape);
    }

    /** The merging writes of AddBlock, on raw memory: b becomes a free block of n words. */
    method Absorb(b: nat, n: nat)
      requires MIN_BLOCK <= n && b + n <= memory.Length
      modifies memory
      ensures Merged(old(memory[..]), memory[..], b, n)
    {
      ghost var m := memory[..];
      SetSizeTags(b, n);
      RetagTags(m, b, n);
      FlagBit(memory[b], n);
      memory[b + 2] := 0;
      memory[b + 1] := 0;
      memory[b] := memory[b] - memory[b] % 2;
    }

    /** Takes the free block b, a neighbour of the loose ones, off its list. */
    method Claim(b: nat, ghost loose: set<nat>) returns (n: nat)
      requires Holds(loose)
      requires b in shape.free && b !in loose
      modifies this`shape, memory, heads
      ensures Holds(loose + {b})
      ensures shape.tiles == old(shape.tiles) && shape.free == old(shape.free)
      ensures b in shape.tiles.blocks && n == shape.tiles.blocks[b].size
      ensures Preserves(old(memory[..]), old(shape), loose, memory[..], shape, loose + {b})
    {
      n := GetSize(b);
      BodyCanBeFiled(shape.tiles, memory.Length, b);
      var r := InsertionIndex(4 * (n - TAGS));
      ghost var k := Locate(memory[..], heads[..], shape, loose, b, r.index);
      Unlink(r.index, b, loose, k);
    }

    /** The loose block b swallows its loose right neighbour; together they have n words. */
    method Swallow(b: nat, n: nat, ghost loose: set<nat>)
      requires Holds(loose)
      requires CanJoin(shape.tiles, memory.Length, b)
      requires b in loose && NextOf(shape.tiles, b) in loose
      requires n == shape.tiles.blocks[b].size + shape.tiles.blocks[NextOf(shape.tiles, b)].size
      modifies this`shape, memory
      ensures Joined(old(shape), b, shape)
      ensures Holds(loose - {NextOf(old(shape.tiles), b)})
      ensures Preserves(old(memory[..]), old(shape), loose, memory[..], shape, loose - {NextOf(old(shape.tiles), b)})
    {
      ghost var m, s := memory[..], shape;
      ghost var c := NextOf(shape.tiles, b);
      assert Tagged(m, c, s.tiles.blocks[c].size, c !in s.free);
      Absorb(b, n);
      JoinIsJoin(s.tiles, |m|, b);
      shape := s.(tiles := Join(s.tiles, |m|, b), free := s.free - {c} + {b});
      JoinKeepsInv(m, heads[..], s, loose, b, memory[..], shape);
    }

    /** The loose block b swallows the two loose blocks to its right; together they have n words. */
    method SwallowBoth(b: nat, n: nat, ghost loose: set<nat>)
      requires Holds(loose)
      requires CanJoin(shape.tiles, memory.Length, b)
      requires CanJoin(shape.tiles, memory.Length, NextOf(shape.tiles, b))
      requires b in loose && NextOf(shape.tiles, b) in loose && NextOf(shape.tiles, NextOf(shape.tiles, b)) in loose
      requires n == shape.tiles.blocks[b].size + shape.tiles.blocks[NextOf(shape.tiles, b)].size
                    + shape.tiles.blocks[NextOf(shape.tiles, NextOf(shape.tiles, b))].size
      modifies this`shape, memory
      ensures shape.tiles.arenas == old(shape.tiles.arenas)
      ensures var c := NextOf(old(shape.tiles), b);
              var d := NextOf(old(shape.tiles), c);
              && Holds(loose - {c} - {d})
              && Preserves(old(memory[..]), old(shape), loose, memory[..], shape, loose - {c} - {d})
              && shape.free == old(shape.free) - {c} + {b} - {d} + {b}
              && b in shape.tiles.blocks && shape.tiles.blocks[b].size == n
              && shape.tiles.blocks[b].home == old(shape.tiles.blocks[b].home)
              && shape.tiles.blocks[b].prev == old(shape.tiles.blocks[b].prev)
    {
      ghost var m, s := memory[..], shape;
      ghost var d := NextOf(s.tiles, NextOf(s.tiles, b));
      assert Tagged(m, d, s.tiles.blocks[d].size, d !in s.free);
      Absorb(b, n);
      ghost var s1 := JoinShape(s, |m|, b);
      JoinShapeJoins(s, |m|, b);
      JoinTwice(s, |m|, b, s1);
      shape := JoinShape(s1, |m|, b);
      JoinShapeJoins(s1, |m|, b);
      TripleJoin(m, heads[..], s, loose, b, memory[..], s1, shape);
    }

    /** AddBlock's second case: the free block to the right is merged into x. */
    method MergeRight(x: nat, size: nat)
      requires Holds({x})
      requires x in shape.tiles.blocks && !IsFence(shape.tiles, x) && size == shape.tiles.blocks[x].size
      requires shape.tiles.blocks[x].prev !in shape.free && x + size in shape.free
      modifies this`shape, memory, heads
      ensures Holds({x}) && ReadyToFile(shape, x)
      ensures shape.tiles.arenas == old(shape.tiles.arenas)
      ensures size <= shape.tiles.blocks[x].size
      ensures Preserves(old(memory[..]), old(shape), {x}, memory[..], shape, {x})
    {
      ghost var m0, s0, next := memory[..], shape, x + size;
      RightOf(m0, heads[..], shape, x);
      var n := Claim(x + size, {x});
      ghost var m1, s1 := memory[..], shape;
      Swallow(x, size + n, {x} + {next});
      assert {x} + {next} - {next} == {x};
      PreservesTrans(m0, s0, {x}, m1, s1, {x} + {next}, memory[..], shape, {x});
    }

    /** AddBlock's third case: x is merged into the free block to its left. */
    method MergeLeft(prev: nat, x: nat, size: nat)
      requires Holds({x})
      requires x in shape.tiles.blocks && !IsFence(shape.tiles, x) && size == shape.tiles.blocks[x].size
      requires prev == shape.tiles.blocks[x].prev && prev in shape.free && x + size !in shape.free
      modifies this`shape, memory, heads
      ensures Holds({prev}) && ReadyToFile(shape, prev)
      ensures shape.tiles.arenas == old(shape.tiles.arenas)
      ensures prev <= x && x + size <= prev + shape.tiles.blocks[prev].size
      ensures Preserves(old(memory[..]), old(shape), {x}, memory[..], shape, {prev})
    {
      ghost var m0, s0 := memory[..], shape;
      LeftOf(m0, heads[..], shape, x);
      var n := Claim(prev, {x});
      ghost var m1, s1 := memory[..], shape;
      Swallow(prev, size + n, {x} + {prev});
      assert {x} + {prev} - {x} == {prev};
      PreservesTrans(m0, s0, {x}, m1, s1, {x} + {prev}, memory[..], shape, {prev});
    }

    method ClaimBoth(b: nat, c: nat, ghost loose: set<nat>) returns (n: nat, n': nat)
      requires Holds(loose)
      requires b in shape.free && b !in loose && c in shape.free && c !in loose && b != c
      modifies this`shape, memory, heads
      ensures Holds(loose + {b} + {c})
      ensures shape.tiles == old(shape.tiles) && shape.free == old(shape.free)
      ensures b in shape.tiles.blocks && n == shape.tiles.blocks[b].size
      ensures c in shape.tiles.blocks && n' == shape.tiles.blocks[c].size
      ensures Preserves(old(memory[..]), old(shape), loose, memory[..], shape, loose + {b} + {c})
    {
      ghost var m0, s0 := memory[..], shape;
      n := Claim(b, loose);
      ghost var m1, s1 := memory[..], shape;
      n' := Claim(c, loose + {b});
      PreservesTrans(m0, s0, loose, m1, s1, loose + {b}, memory[..], shape, loose + {b} + {c});
    }

    /** AddBlock's last case: x and the free block to its right are merged into the one to its left. */
    method MergeBoth(prev: nat, x: nat, size: nat)
      requires Holds({x})
      requires x in shape.tiles.blocks && !IsFence(shape.tiles, x) && size == shape.tiles.blocks[x].size
      requires prev == shape.tiles.blocks[x].prev && prev in shape.free && x + size in shape.free
      modifies this`shape, memory, heads
      ensures Holds({prev}) && ReadyToFile(shape, prev)
      ensures shape.tiles.arenas == old(shape.tiles.arenas)
      ensures prev <= x && x + size <= prev + shape.tiles.blocks[prev].size
      ensures Preserves(old(memory[..]), old(shape), {x}, memory[..], shape, {prev})
    {
      ghost var m0, s0, next := memory[..], shape, x + size;
      LeftOf(m0, heads[..], shape, x);
      RightOf(m0, heads[..], shape, x);
      var n, n' := ClaimBoth(prev, x + size, {x});
      ghost var m1, s1, loose := memory[..], shape, {x} + {prev} + {next};
      assert NextOf(s1.tiles, prev) == x && NextOf(s1.tiles, x) == next;
      SwallowBoth(prev, size + n + n', loose);
      assert loose - {x} - {next} == {prev};
      PreservesTrans(m0, s0, {x}, m1, s1, loose, memory[..], shape, {prev});
    }

    /**
    AddBlock: the loose block x is merged with its free neighbours and filed. After
    a merge it calls itself once more, and then there is nothing left to merge.
     */
    method AddBlock(x: nat) returns (r: nat, ghost again: nat)
      requires Holds({x})
      requires x in shape.tiles.blocks && !IsFence(shape.tiles, x)
      modifies this`shape, memory, heads
      ensures Holds({})
      ensures Preserves(old(memory[..]), old(shape), {x}, memory[..], shape, {})
      ensures shape.tiles.arenas == old(shape.tiles.arenas)
      ensures r in shape.free && r in shape.tiles.blocks
      ensures r <= x && x + old(shape.tiles.blocks[x].size) <= r + shape.tiles.blocks[r].size
      ensures again == if old(FreeNeighbours(shape, x)) > 0 then 1 else 0
      decreases FreeNeighbours(shape, x)
    {
      ghost var m0, s0 := memory[..], shape;
      NeighboursOf(m0, heads[..], shape, {x}, x);
      BodyCanBeFiled(shape.tiles, memory.Length, x);
      var size := GetSize(x);
      var bucket := InsertionIndex(4 * (size - TAGS));
      var prev := x - memory[x - 1] / 4;
      var next := x + size;
      if memory[prev] % 2 == 1 && memory[next] % 2 == 1 {
        File(bucket.index, x);
        return x, 0;
      }
      var b;
      if memory[prev] % 2 == 1 {
        MergeRight(x, size);
        b := x;
      } else if memory[next] % 2 == 1 {
        MergeLeft(prev, x, size);
        b := prev;
      } else {
        MergeBoth(prev, x, size);
        b := prev;
      }
      ghost var m1, s1 := memory[..], shape;
      r, again := AddBlock(b);
      PreservesTrans(m0, s0, {x}, m1, s1, {b}, memory[..], shape, {});
      again := again + 1;
    }

    /** The search of AllocateFromReserveBlocks: a smallest reserve among those large enough, or -1. */
    method SmallestReserve(words: nat) returns (smallest: int)
      requires reserve.Length == MAX_RESERVES
      ensures -1 <= smallest < MAX_RESERVES
      ensures smallest == -1 <==> !CanSupply(reserve[..], words)
      ensures smallest >= 0 ==>
                && reserve[smallest].valid && words <= reserve[smallest].size
                && forall j | 0 <= j < MAX_RESERVES && reserve[j].valid && words <= reserve[j].size ::
                     reserve[smallest].size <= reserve[j].size
    {
      smallest := -1;
      for i := 0 to MAX_RESERVES
        invariant -1 <= smallest < i
        invariant smallest == -1 ==> forall j | 0 <= j < i :: !(reserve[j].valid && words <= reserve[j].size)
        invariant smallest >= 0 ==>
                    && reserve[smallest].valid && words <= reserve[smallest].size
                    && forall j | 0 <= j < i && reserve[j].valid && words <= reserve[j].size ::
                         reserve[smallest].size <= reserve[j].size
      {
        if reserve[i].valid && reserve[i].size >= words {
          if smallest == -1 || reserve[i].size < reserve[smallest].size {
            smallest := i;
          }
        }
      }
      assert smallest >= 0 ==> reserve[..][smallest].valid && words <= reserve[..][smallest].size;
    }

    /** AllocateFromReserveBlocks: the reserve chosen gives up its front. */
    method AllocateFromReserveBlocks(words: nat) returns (r: Outcome<nat>)
      requires ReservesOk(reserve[..], shape.tiles.arenas, top)
      requires 0 < words && words % PAGE_WORDS == 0
      modifies reserve
      ensures r.Stopped? <==> !CanSupply(old(reserve[..]), words)
      ensures r.Stopped? ==> r.why == NoReserve && unchanged(reserve)
      ensures r.Done? ==> SetAside(reserve[..], shape.tiles.arenas, top, r.value, words)
      ensures r.Done? ==> Carved(old(reserve[..]), reserve[..], words)
    {
      ghost var rs := reserve[..];
      var smallest := SmallestReserve(words);
      if smallest == -1 {
        return Stopped(NoReserve);
      }
      var chosen := reserve[smallest];
      var left := chosen.size - words;
      reserve[smallest] := Reserve(chosen.address + words, left, left >= PAGE_WORDS);
      CarveReserve(rs, shape.tiles.arenas, top, smallest, words, reserve[..]);
      assert CarvedAt(rs, reserve[..], words, smallest);
      r := Done(chosen.address);
    }

    /** The size tags of a new arena: two fences with one block in between. */
    method LayTags(lo: nat, words: nat)
      requires 2 * TAGS + MIN_BLOCK <= words && lo + words <= memory.Length
      modifies memory
      ensures ArenaSized(old(memory[..]), memory[..], lo, words)
    {
      ghost var m := memory[..];
      SetSizeTags(lo, TAGS);
      SetSizeTags(lo + TAGS, words - 2 * TAGS);
      SetSizeTags(lo + words - TAGS, TAGS);
      RetaggedThrice(m, lo, words);
    }

    /** The tag writes of RequestBlock, on raw memory. */
    method LayFences(lo: nat, words: nat)
      requires 2 * TAGS + MIN_BLOCK <= words && lo + words <= memory.Length
      modifies memory
      ensures ArenaTagged(old(memory[..]), memory[..], Arena(lo, lo + words))
      ensures memory[lo + TAGS + 1] == 0 && memory[lo + TAGS + 2] == 0
    {
      var body, right := lo + TAGS, lo + words - TAGS;
      LayTags(lo, words);
      memory[body + 2] := 0;
      memory[body + 1] := 0;
      FlagBit(memory[lo], TAGS);
      FlagBit(memory[right], TAGS);
      FlagBit(memory[body], words - 2 * TAGS);
      memory[lo] := memory[lo] - memory[lo] % 2 + 1;
      memory[right] := memory[right] - memory[right] % 2 + 1;
      memory[body] := memory[body] - memory[body] % 2;
    }

    /** The branch of AllocateBlock that hands out the whole block. */
    method TakeWhole(i: nat, x: nat)
      requires Holds({})
      requires i < NUM_LISTS && shape.lists[i] != [] && shape.lists[i][0] == x
      modifies this`shape, memory, heads
      ensures Holds({})
      ensures x in shape.tiles.blocks && shape.tiles == old(shape.tiles)
      ensures Taken(shape, {}) == Taken(old(shape), {}) + {x}
      ensures Keeps(old(memory[..]), old(shape), memory[..], shape, Taken(old(shape), {}))
    {
      ghost var m0, s0 := memory[..], shape;
      assert FiledAt(shape, {}, i, x);
      var n := GetSize(x);
      Unlink(i, x, {}, 0);
      ghost var m1, s1 := memory[..], shape;
      assert Tagged(m1, x, n, false);
      SetSizeTags(x, n);
      FlagBit(memory[x], n);
      memory[x] := memory[x] - memory[x] % 2 + 1;
      shape := shape.(free := shape.free - {x});
      assert {} + {x} - {x} == {};
      TakeKeepsInv(m1, heads[..], s1, {} + {x}, x, memory[..], shape);
      assert Keeps(m1, s1, memory[..], shape, Taken(s0, {}));
      KeepsTrans(m0, s0, m1, s1, memory[..], shape, Taken(s0, {}));
    }

    /** The tag writes of a split, on raw memory: x keeps k words, and the rest is taken. */
    method CutTags(x: nat, k: nat, n: nat)
      requires MIN_BLOCK <= k && k + MIN_BLOCK <= n && x + n <= memory.Length
      requires memory[x] % 2 == 0
      modifies memory
      ensures CutWords(old(memory[..]), memory[..], x, k, n)
    {
      ghost var m := memory[..];
      SetSizeTags(x, k);
      ghost var m1 := memory[..];
      RetagTags(m, x, k);
      SetSizeTags(x + k, n - k);
      RetagTags(m1, x + k, n - k);
      FlagBit(memory[x + k], n - k);
      FlagBit(memory[x], k);
      memory[x + k] := memory[x + k] - memory[x + k] % 2 + 1;
      memory[x] := memory[x] - memory[x] % 2;
    }

    /** In a valid heap: the loose free block x keeps its first k words, and the rest is taken. */
    method CutLoose(x: nat, k: nat, n: nat)
      requires Holds({x}) && x in shape.free
      requires x in shape.tiles.blocks && n == shape.tiles.blocks[x].size
      requires MIN_BLOCK <= k && k % 2 == 0 && k + MIN_BLOCK <= n
      modifies this`shape, memory
      ensures Holds({x})
      ensures x in shape.tiles.blocks && !IsFence(shape.tiles, x) && shape.tiles.blocks[x].size == k
      ensures x + k in shape.tiles.blocks && !IsFence(shape.tiles, x + k) && shape.tiles.blocks[x + k].size == n - k
      ensures shape.tiles.arenas == old(shape.tiles.arenas)
      ensures x + k !in old(shape.tiles.blocks)
      ensures Taken(shape, {x}) == Taken(old(shape), {x}) + {x + k}
      ensures Keeps(old(memory[..]), old(shape), memory[..], shape, Taken(old(shape), {x}))
    {
      ghost var m, s := memory[..], shape;
      assert !IsFence(s.tiles, x) && BlockFits(s.tiles, x);
      assert Tagged(m, x, n, false);
      CutTags(x, k, n);
      CutIsCut(s.tiles, |m|, x, k);
      shape := s.(tiles := Cut(s.tiles, |m|, x, k));
      CutKeepsInv(m, heads[..], s, {x}, x, k, memory[..], shape);
    }

    /** The front block of list i leaves it and is cut; its first k words are loose, the rest is taken. */
    method CutFront(i: nat, x: nat, k: nat, n: nat)
      requires Holds({})
      requires i < NUM_LISTS && shape.lists[i] != [] && shape.lists[i][0] == x
      requires x in shape.tiles.blocks && n == shape.tiles.blocks[x].size
      requires MIN_BLOCK <= k && k % 2 == 0 && k + MIN_BLOCK <= n
      modifies this`shape, memory, heads
      ensures Holds({x})
      ensures x in shape.tiles.blocks && !IsFence(shape.tiles, x) && shape.tiles.blocks[x].size == k
      ensures x + k in shape.tiles.blocks && !IsFence(shape.tiles, x + k) && shape.tiles.blocks[x + k].size == n - k
      ensures shape.tiles.arenas == old(shape.tiles.arenas)
      ensures x + k !in old(shape.tiles.blocks)
      ensures Taken(shape, {x}) == Taken(old(shape), {}) + {x + k}
      ensures Keeps(old(memory[..]), old(shape), memory[..], shape, Taken(old(shape), {}))
    {
      ghost var m0, s0 := memory[..], shape;
      assert FiledAt(shape, {}, i, x) && BlockFits(shape.tiles, x);
      Unlink(i, x, {}, 0);
      assert {} + {x} == {x};
      ghost var m1, s1 := memory[..], shape;
      CutLoose(x, k, n);
      KeepsTrans(m0, s0, m1, s1, memory[..], shape, Taken(s0, {}));
    }

    /** The branch of AllocateBlock that splits the block and files the leftover. */
    method TakePart(i: nat, x: nat, total: nat) returns (b: nat)
      requires Holds({})
      requires i < NUM_LISTS && shape.lists[i] != [] && shape.lists[i][0] == x
      requires x in shape.tiles.blocks && MIN_BLOCK <= total && total % 2 == 0
      requires total + MIN_BLOCK <= shape.tiles.blocks[x].size
      modifies this`shape, memory, heads
      ensures Holds({})
      ensures b in shape.tiles.blocks && !IsFence(shape.tiles, b) && shape.tiles.blocks[b].size == total
      ensures CutOff(old(shape.tiles), shape, x, b)
      ensures shape.tiles.arenas == old(shape.tiles.arenas)
      ensures b !in Taken(old(shape), {})
      ensures Taken(shape, {}) == Taken(old(shape), {}) + {b}
      ensures Keeps(old(memory[..]), old(shape), memory[..], shape, Taken(old(shape), {}))
    {
      ghost var m0, s0 := memory[..], shape;
      assert BlockFits(shape.tiles, x);
      assert FiledAt(shape, {}, i, x);
      var n := GetSize(x);
      b := x + n - total;
      EvenLeft(n, total);
      CutFront(i, x, n - total, n);
      FileRest(x, b, m0, s0);
    }

    /** The leftover x of a split is merged and filed; block b behind it stays the caller's. */
    method FileRest(x: nat, b: nat, ghost m0: Words, ghost s0: Shape)
      requires Holds({x}) && x in shape.tiles.blocks && !IsFence(shape.tiles, x)
      requires b in shape.tiles.blocks && !IsFence(shape.tiles, b) && b == NextOf(shape.tiles, x) && x < b
      requires Taken(shape, {x}) == Taken(s0, {}) + {b} && Keeps(m0, s0, memory[..], shape, Taken(s0, {}))
      modifies this`shape, memory, heads
      ensures Holds({}) && shape.tiles.arenas == old(shape.tiles.arenas)
      ensures Taken(shape, {}) == Taken(s0, {}) + {b} && Keeps(m0, s0, memory[..], shape, Taken(s0, {}))
      ensures b in shape.tiles.blocks && !IsFence(shape.tiles, b) && shape.tiles.blocks[b].size == old(shape.tiles.blocks[b].size)
      ensures var r := shape.tiles.blocks[b].prev; r in shape.free && r <= x && r in shape.tiles.blocks && NextOf(shape.tiles, r) == b
    {
      ghost var m, s := memory[..], shape;
      var r, _ := AddBlock(x);
      TakenStays(m0, s0, m, s, x, b, memory[..], shape);
      assert b in Taken(shape, {});
      LeftoverIsFree(memory[..], heads[..], shape, x, b, r);
    }

    /**
    AllocateBlock: the front block of list i is handed out, whole if less than a block would be
    left of it, and otherwise its end is, with the rest free again.
     */
    method AllocateBlock(i: nat, x: nat, bytes: nat) returns (b: nat)
      requires Holds({})
      requires i < NUM_LISTS && shape.lists[i] != [] && shape.lists[i][0] == x && x in shape.tiles.blocks
      requires 8 <= bytes && bytes % 8 == 0 && bytes <= PayloadBytes(shape.tiles.blocks[x].size)
      modifies this`shape, memory, heads
      ensures Holds({})
      ensures b in shape.tiles.blocks && !IsFence(shape.tiles, b)
      ensures bytes <= PayloadBytes(shape.tiles.blocks[b].size) <= bytes + 8
      ensures CutOff(old(shape.tiles), shape, x, b)
      ensures b !in Taken(old(shape), {})
      ensures Taken(shape, {}) == Taken(old(shape), {}) + {b}
      ensures shape.tiles.arenas == old(shape.tiles.arenas)
      ensures Keeps(old(memory[..]), old(shape), memory[..], shape, Taken(old(shape), {}))
    {
      assert FiledAt(shape, {}, i, x) && !IsFence(shape.tiles, x) && BlockFits(shape.tiles, x);
      var n := GetSize(x);
      var total := bytes / 4 + TAGS;
      TotalWords(bytes, n, total);
      if n - total < MIN_BLOCK {
        TakeWhole(i, x);
        b := x;
      } else {
        b := TakePart(i, x, total);
      }
    }

    /** Pages from a reserve, with the tags of an arena written into them. */
    method CarveArena(words: nat) returns (r: Outcome<nat>)
      requires Valid()
      requires 2 * TAGS + MIN_BLOCK <= words && words % PAGE_WORDS == 0
      modifies memory, reserve
      ensures r.Stopped? <==> !CanSupply(old(reserve[..]), words)
      ensures r.Stopped? ==> r.why == NoReserve && unchanged(memory, reserve)
      ensures r.Done? ==>
                && SetAside(reserve[..], shape.tiles.arenas, top, r.value, words) && Carved(old(reserve[..]), reserve[..], words)
                && ArenaTagged(old(memory[..]), memory[..], Arena(r.value, r.value + words))
                && r.value + TAGS + 2 < memory.Length && memory[r.value + TAGS] / 4 == words - 2 * TAGS
                && memory[r.value + TAGS + 1] == 0 && memory[r.value + TAGS + 2] == 0
    {
      r := AllocateFromReserveBlocks(words);
      if r.Done? {
        assert memory[..] == old(memory[..]);
        LayFences(r.value, words);
      }
    }

    /** A new arena whose one block x, of n words, is in hand; m and s are what was before it. */
    ghost predicate NewBlock(m: Words, s: Shape, x: nat, n: nat)
      reads this, memory, heads, reserve
    {
      && Holds({x}) && ReservesOk(reserve[..], shape.tiles.arenas, top) && TopOk()
      && ArenaInHand(m, s, memory[..], shape, x, n)
      && ArenaAdded(s, shape, x, n + 2 * TAGS)
      && x + 2 < memory.Length && memory[x] / 4 == n && memory[x + 1] == 0 && memory[x + 2] == 0
    }

    /** RequestBlock past its rounding: an arena from the reserves, fenced, with its one block in hand. */
    method RequestArena(words: nat) returns (r: Outcome<nat>)
      requires Valid()
      requires 2 * TAGS + MIN_BLOCK <= words && words % PAGE_WORDS == 0
      modifies this`shape, memory, reserve
      ensures r.Stopped? <==> !CanSupply(old(reserve[..]), words)
      ensures r.Stopped? ==> r.why == NoReserve && unchanged(this, memory, reserve)
      ensures r.Done? ==> Carved(old(reserve[..]), reserve[..], words)
      ensures r.Done? ==> words <= BOOTSTRAP_WORDS && NewBlock(old(memory[..]), old(shape), r.value, words - 2 * TAGS)
    {
      ghost var m, h, s := memory[..], heads[..], shape;
      r := CarveArena(words);
      if r.Stopped? {
        return;
      }
      var lo := r.value;
      assert heads[..] == h && shape == s && Inv(m, h, s, {});
      Adopt(lo, words, m);
      assert NewBlock(m, s, lo + TAGS, words - 2 * TAGS);
      r := Done(lo + TAGS);
    }

    /** A new arena, its tags written, becomes part of the heap; its block is in hand. */
    method Adopt(lo: nat, words: nat, ghost m: Words)
      requires Inv(m, heads[..], shape, {}) && memory != heads && TopOk()
      requires lo + TAGS + 2 < memory.Length && memory[lo + TAGS] / 4 == words - 2 * TAGS
      requires memory[lo + TAGS + 1] == 0 && memory[lo + TAGS + 2] == 0
      requires SetAside(reserve[..], shape.tiles.arenas, top, lo, words) && words % PAGE_WORDS == 0
      requires ArenaTagged(m, memory[..], Arena(lo, lo + words))
      requires 2 * TAGS + MIN_BLOCK <= words
      modifies this`shape
      ensures NewBlock(m, old(shape), lo + TAGS, words - 2 * TAGS)
    {
      ghost var s := shape;
      PagesAreEven(lo, words);
      ghost var m', h, rs := memory[..], heads[..], reserve[..];
      shape := NewArenaInHand(m, h, s, lo, words, m');
      NewArenaIsNew(m, h, s, Arena(lo, lo + words));
      assert ArenaAdded(s, shape, lo + TAGS, words);
      assert memory[..] == m' && heads[..] == h && reserve[..] == rs;
      NewArenaKeepsReserves(rs, s.tiles.arenas, top, Arena(lo, lo + words));
    }

    /** RequestBlock, asked for the payload of the rung above list i. */
    method RequestBlock(total: nat, ghost i: nat) returns (r: Outcome<nat>)
      requires Valid()
      requires i + 1 < NUM_LISTS && total == Rung(i + 1) + 8
      modifies this`shape, memory, reserve
      ensures r.Stopped? <==> !CanSupply(old(reserve[..]), SystemWords(i))
      ensures r.Stopped? ==> r.why == NoReserve && unchanged(this, memory, reserve)
      ensures r.Done? ==> Carved(old(reserve[..]), reserve[..], SystemWords(i))
      ensures r.Done? ==> 2 * TAGS <= SystemWords(i) <= BOOTSTRAP_WORDS
      ensures r.Done? ==> NewBlock(old(memory[..]), old(shape), r.value, SystemWords(i) - 2 * TAGS)
    {
      SystemWordsFit(i);
      SystemPagesRound(i);
      r := RequestArena((total + 16 + 4095) / 4096 * PAGE_WORDS);
    }

    /** FindBlock's hand-made list: the lone block of a new arena becomes the front of an empty list. */
    method FileLone(i: nat, x: nat, ghost n: nat, ghost m0: Words, ghost s0: Shape)
      requires Holds({x}) && ArenaInHand(m0, s0, memory[..], shape, x, n)
      requires Files(PayloadBytes(n), i) && shape.lists[i] == []
      requires x + 2 < memory.Length && memory[x + 1] == 0 && memory[x + 2] == 0
      modifies this`shape, heads
      ensures Holds({}) && Grown(m0, s0, memory[..], shape, i, x, n)
      ensures shape.tiles.arenas == old(shape.tiles.arenas)
    {
      ghost var m, h, s := memory[..], heads[..], shape;
      NeighboursOf(m, h, s, {x}, x);
      assert Tagged(m, x, n, false);
      heads[i] := 4 * x;
      ghost var h', s' := heads[..], s.(lists := s.lists[i := [x]]);
      assert [x] + [] == [x] && {x} - {x} == {} && s.free + {x} == s.free;
      PushKeepsInv(m, h, s, {x}, i, x, m, h', s');
      KeepsIgnoresLists(m0, s0, m, s, s', Taken(s0, {}));
      shape := s';
      assert memory[..] == m && heads[..] == h';
    }

    /** A new arena's block of n words is put on its list; the search for that list never panics. */
    method PlaceLone(x: nat, n: nat, ghost i: nat, ghost bytes: nat, ghost m0: Words, ghost s0: Shape) returns (index: nat)
      requires Serves(bytes, i) && !ListedFrom(s0, i) && i + 1 < NUM_LISTS
      requires MIN_BLOCK <= n && Rung(i + 1) <= PayloadBytes(n) <= MAX_FILED
      requires Holds({x}) && ArenaInHand(m0, s0, memory[..], shape, x, n)
      requires x + 2 < memory.Length && memory[x + 1] == 0 && memory[x + 2] == 0
      modifies this`shape, heads
      ensures Holds({}) && Grown(m0, s0, memory[..], shape, index, x, n)
      ensures shape.tiles.arenas == old(shape.tiles.arenas)
    {
      var r := InsertionIndex(4 * (n - TAGS));
      assert r.Filed?;
      index := r.index;
      SystemBlockIsSearched(bytes, i, 4 * (n - TAGS), index);
      assert shape.lists[index] == [];
      FileLone(index, x, n, m0, s0);
    }

    /** FindBlock when no list holds a fitting block: memory is requested from the system. */
    method Grow(i: nat, ghost bytes: nat) returns (r: Outcome<(nat, nat)>)
      requires Valid()
      requires Serves(bytes, i) && !ListedFrom(shape, i)
      modifies this`shape, memory, heads, reserve
      ensures r.Done? <==> i + 1 < NUM_LISTS && CanSupply(old(reserve[..]), SystemWords(i))
      ensures r.Stopped? ==> r.why == StopFor(bytes) && unchanged(this, memory, heads, reserve)
      ensures r.Done? ==> Carved(old(reserve[..]), reserve[..], SystemWords(i))
      ensures r.Done? ==>
                && Valid()
                && Grown(old(memory[..]), old(shape), memory[..], shape, r.value.0, r.value.1, SystemWords(i) - 2 * TAGS)
                && bytes <= PayloadBytes(SystemWords(i) - 2 * TAGS)
                && ArenaAdded(old(shape), shape, r.value.1, SystemWords(i))
    {
      StopForIs(bytes, i);
      if i + 1 == NUM_LISTS {
        return Stopped(PastTable);
      }
      r := GrowByRung(i, bytes);
    }

    method GrowByRung(i: nat, ghost bytes: nat) returns (r: Outcome<(nat, nat)>)
      requires Valid()
      requires Serves(bytes, i) && !ListedFrom(shape, i) && i + 1 < NUM_LISTS
      modifies this`shape, memory, heads, reserve
      ensures r.Done? <==> CanSupply(old(reserve[..]), SystemWords(i))
      ensures r.Stopped? ==> r.why == NoReserve && unchanged(this, memory, heads, reserve)
      ensures r.Done? ==> Carved(old(reserve[..]), reserve[..], SystemWords(i))
      ensures r.Done? ==>
                && Valid()
                && Grown(old(memory[..]), old(shape), memory[..], shape, r.value.0, r.value.1, SystemWords(i) - 2 * TAGS)
                && bytes <= PayloadBytes(SystemWords(i) - 2 * TAGS)
                && ArenaAdded(old(shape), shape, r.value.1, SystemWords(i))
    {
      ghost var m0, s0 := memory[..], shape;
      SystemWordsFit(i);
      RungStep(i);
      var rung := ListSize(i + 1);
      var block := RequestBlock(rung + 8, i);
      if block.Stopped? {
        return Stopped(block.why);
      }
      var x := block.value;
      ghost var m1, rs1 := memory[..], reserve[..];
      var index := PlaceNew(x, i, bytes, m0, s0);
      assert memory[..] == m1 && reserve[..] == rs1;
      r := Done((index, x));
    }

    /** A new arena's block in hand is put on its list. */
    method PlaceNew(x: nat, ghost i: nat, ghost bytes: nat, ghost m0: Words, ghost s0: Shape) returns (index: nat)
      requires Serves(bytes, i) && !ListedFrom(s0, i) && i + 1 < NUM_LISTS && 2 * TAGS <= SystemWords(i) <= BOOTSTRAP_WORDS
      requires NewBlock(m0, s0, x, SystemWords(i) - 2 * TAGS)
      modifies this`shape, heads
      ensures Valid() && Grown(m0, s0, memory[..], shape, index, x, SystemWords(i) - 2 * TAGS)
      ensures shape.tiles.arenas == old(shape.tiles.arenas)
    {
      SystemWordsFit(i);
      ghost var rs := reserve[..];
      var n := memory[x] / 4;
      index := PlaceLone(x, n, i, bytes, m0, s0);
      assert reserve[..] == rs;
    }

    /** FindBlock's search: the first non-empty list at or above `min`. */
    method FirstListed(min: nat) returns (j: nat)
      requires Holds({}) && min < NUM_LISTS
      ensures min <= j <= NUM_LISTS
      ensures j == NUM_LISTS <==> !ListedFrom(shape, min)
      ensures j < NUM_LISTS ==> FirstFrom(shape, min, j)
    {
      j := min;
      while j < NUM_LISTS && heads[j] == 0
        invariant min <= j <= NUM_LISTS
        invariant forall k | min <= k < j :: shape.lists[k] == []
      {
        ListHeadOf(memory[..], heads[..], shape, j);
        j := j + 1;
      }
      if j < NUM_LISTS {
        ListHeadOf(memory[..], heads[..], shape, j);
      }
    }

    /** FindBlock on a list that holds a fitting block, or on the list a new arena was put on. */
    method TakeFrom(j: nat, x: nat, bytes: nat) returns (b: nat)
      requires Valid()
      requires j < NUM_LISTS && shape.lists[j] != [] && shape.lists[j][0] == x && x in shape.tiles.blocks
      requires 8 <= bytes && bytes % 8 == 0 && bytes <= PayloadBytes(shape.tiles.blocks[x].size)
      modifies this`shape, memory, heads
      ensures Valid()
      ensures Served(old(memory[..]), old(shape), memory[..], shape, b, bytes)
      ensures CutOff(old(shape.tiles), shape, x, b) && shape.tiles.arenas == old(shape.tiles.arenas)
    {
      ghost var m, s := memory[..], shape;
      b := AllocateBlock(j, x, bytes);
      LiveAfter(m, s, memory[..], shape, {b});
      KeepsLess(m, s, memory[..], shape, Taken(s, {}), Live(s));
    }

    /** FindBlock on new memory. */
    method TakeNew(i: nat, bytes: nat) returns (r: Outcome<nat>)
      requires Valid()
      requires 8 <= bytes && bytes % 8 == 0 && Serves(bytes, i) && !ListedFrom(shape, i)
      modifies this`shape, memory, heads, reserve
      ensures r.Done? <==> i + 1 < NUM_LISTS && CanSupply(old(reserve[..]), SystemWords(i))
      ensures r.Stopped? ==> r.why == StopFor(bytes) && unchanged(this, memory, heads, reserve)
      ensures r.Done? ==> Carved(old(reserve[..]), reserve[..], SystemWords(i))
      ensures r.Done? ==> FromSystem(old(shape), shape, i, r.value)
      ensures r.Done? ==> Valid() && Served(old(memory[..]), old(shape), memory[..], shape, r.value, bytes)
    {
      ghost var m0, s0 := memory[..], shape;
      var g := Grow(i, bytes);
      if g.Stopped? {
        return Stopped(g.why);
      }
      var j, x := g.value.0, g.value.1;
      ghost var m1, s1, rs1 := memory[..], shape, reserve[..];
      GrownLive(m0, s0, m1, s1, j, x, SystemWords(i) - 2 * TAGS);
      var b := TakeFrom(j, x, bytes);
      assert reserve[..] == rs1;
      ServedAfter(m0, s0, m1, s1, memory[..], shape, b, bytes);
      CutFromNew(s0, s1, shape, i, x, b);
      r := Done(b);
    }

    /** FindBlock: the first non-empty list from the fitting one up, or else new memory. */
    method FindBlock(bytes: nat) returns (r: Outcome<nat>)
      requires Valid()
      requires 8 <= bytes && bytes % 8 == 0
      modifies this`shape, memory, heads, reserve
      ensures r.Done? <==> CanServe(old(shape), old(reserve[..]), bytes)
      ensures r.Stopped? ==> r.why == StopFor(bytes) && unchanged(this, memory, heads, reserve)
      ensures r.Done? ==> Drawn(old(shape), old(reserve[..]), reserve[..], bytes) && Chosen(old(shape), shape, r.value, bytes)
      ensures r.Done? ==> Valid() && Served(old(memory[..]), old(shape), memory[..], shape, r.value, bytes)
    {
      var min := SmallestListThatFits(bytes);
      if min == NUM_LISTS {
        NothingServes(bytes);
        return Stopped(PastTable);
      }
      CanServeFrom(shape, reserve[..], bytes, min);
      var j := FirstListed(min);
      if j < NUM_LISTS {
        ListHeadOf(memory[..], heads[..], shape, j);
        FrontIsBlock(memory[..], heads[..], shape, j);
        var x := heads[j] / 4;
        FoundBlockFits(bytes, min, PayloadBytes(shape.tiles.blocks[x].size), j);
        var b := TakeFrom(j, x, bytes);
        return Done(b);
      }
      r := TakeNew(min, bytes);
    }

    /** What every live block holds, by the block's first word. */
    ghost function Contents(): map<nat, seq<nat>>
      reads this, memory, heads, reserve
      requires Valid()
    {
      InvIsReadable(memory[..], heads[..], shape);
      ContentsOf(memory[..], shape)
    }

    /** The caller stores a word in a block it holds. */
    method Store(b: nat, offset: nat, v: nat)
      requires Valid()
      requires b in Contents() && offset < |Contents()[b]|
      modifies memory
      ensures Valid()
      ensures Contents() == Poke(old(Contents()), b, offset, v)
    {
      ghost var m, h := memory[..], heads[..];
      InvIsReadable(m, h, shape);
      StoreKeepsInv(m, h, shape, b, offset, v);
      memory[b + 1 + offset] := v;
      assert memory[..] == m[b + 1 + offset := v] && heads[..] == h;
    }

    /** AllocHeapEx without clearing: the block's first word, for a request of at least one byte. */
    method Allocate(bytes: nat) returns (r: Outcome<nat>)
      requires Valid() && 8 <= bytes && bytes % 8 == 0
      modifies this`shape, memory, heads, reserve
      ensures r.Done? <==> CanServe(old(shape), old(reserve[..]), bytes)
      ensures r.Stopped? ==> r.why == StopFor(bytes) && unchanged(this, memory, heads, reserve)
      ensures r.Done? ==> Drawn(old(shape), old(reserve[..]), reserve[..], bytes) && Chosen(old(shape), shape, r.value, bytes)
      ensures r.Done? ==>
                Valid() && Allotted(old(Contents()), Contents(), r.value, bytes, false)
    {
      ghost var m, h, s := memory[..], heads[..], shape;
      r := FindBlock(bytes);
      if r.Done? {
        ServedContents(m, h, s, memory[..], heads[..], shape, r.value, bytes);
      }
    }

    /** The first n words of block b are cleared. */
    method Clear(b: nat, n: nat)
      requires Valid() && b in Contents() && n <= |Contents()[b]|
      modifies memory
      ensures Valid() && Contents() == Cleared(old(Contents()), b, n)
    {
      ghost var c := Contents();
      NothingCleared(c, b);
      for i := 0 to n
        invariant Valid() && Contents() == Cleared(c, b, i)
      {
        Store(b, i, 0);
        PokeClears(c, b, i);
      }
    }

    /** AllocHeapEx past its rounding: a block, cleared if asked. */
    method AllocateCleared(size: nat, zero: bool) returns (r: Outcome<nat>)
      requires Valid() && 8 <= size && size % 8 == 0
      modifies this`shape, memory, heads, reserve
      ensures r.Done? <==> CanServe(old(shape), old(reserve[..]), size)
      ensures r.Stopped? ==> r.why == StopFor(size) && unchanged(this, memory, heads, reserve)
      ensures r.Done? ==> Drawn(old(shape), old(reserve[..]), reserve[..], size) && Chosen(old(shape), shape, r.value, size)
      ensures r.Done? ==> Valid() && Allotted(old(Contents()), Contents(), r.value, size, zero)
    {
      ghost var c := Contents();
      r := Allocate(size);
      if r.Done? && zero {
        ClearedAllotted(c, Contents(), r.value, size);
        Clear(r.value, size / 4);
      }
    }

    /**
    AllocHeapEx: a pointer to a new block whose header is 8-aligned and whose payload holds the
    rounded request, or NULL for a request of no bytes. It stops exactly when it cannot serve, and
    then it has changed nothing.
     */
    method AllocHeapEx(bytes: nat, zero: bool) returns (r: Outcome<nat>)
      requires Valid()
      modifies this`shape, memory, heads, reserve
      ensures bytes == 0 ==> r == Done(0) && Valid() && Contents() == old(Contents())
      ensures bytes > 0 ==> (r.Done? <==> CanServe(old(shape), old(reserve[..]), RoundUpSize(bytes)))
      ensures bytes > 0 && r.Stopped? ==> r.why == StopFor(RoundUpSize(bytes)) && unchanged(this, memory, heads, reserve)
      ensures bytes > 2 * MAX_SYSTEM_REQUEST ==> r.Stopped?
      ensures bytes > 0 && r.Done? ==> Drawn(old(shape), old(reserve[..]), reserve[..], RoundUpSize(bytes))
      ensures bytes > 0 && r.Done? ==>
                && Valid() && 4 <= r.value && r.value == Ptr(BlockOf(r.value) + 1)
                && Allotted(old(Contents()), Contents(), BlockOf(r.value), RoundUpSize(bytes), zero)
                && Chosen(old(shape), shape, BlockOf(r.value), RoundUpSize(bytes))
    {
      if bytes == 0 {
        return Done(0);
      }
      var size := RoundUpSize(bytes);
      if size > 2 * MAX_SYSTEM_REQUEST {
        LargeRequestsStop(memory[..], heads[..], shape, reserve[..], top, size);
      }
      r := AllocateCleared(size, zero);
      if r.Done? {
        var b := r.value;
        r := Done(4 * (b + 1));
        assert BlockOf(r.value) == b;
      }
    }

    /** FreeHeap: the block is gone from the contents, and no other block is touched. */
    method FreeHeap(ptr: nat)
      requires Valid()
      requires ptr != 0 ==> 4 <= ptr && ptr % 4 == 0 && ptr / 4 - 1 in Contents()
      modifies this`shape, memory, heads
      ensures Valid()
      ensures ptr == 0 ==> Contents() == old(Contents())
      ensures ptr != 0 ==> Contents() == old(Contents()) - {ptr / 4 - 1}
    {
      if ptr == 0 {
        return;
      }
      var x := ptr / 4 - 1;
      ghost var m, h, s, rs := memory[..], heads[..], shape, reserve[..];
      Release(x);
      assert reserve[..] == rs;
      FreedContents(m, h, s, memory[..], heads[..], shape, x);
    }

    /** FreeHeap past its NULL check. */
    method Release(x: nat)
      requires Holds({}) && x in Live(shape)
      modifies this`shape, memory, heads
      ensures Holds({})
      ensures shape.tiles.arenas == old(shape.tiles.arenas)
      ensures Taken(shape, {}) == Taken(old(shape), {}) - {x}
      ensures Keeps(old(memory[..]), old(shape), memory[..], shape, Taken(old(shape), {}) - {x})
    {
      ghost var m, h, s := memory[..], heads[..], shape;
      assert BlockFits(s.tiles, x);
      assert Tagged(m, x, s.tiles.blocks[x].size, true);
      memory[x + 2] := 0;
      memory[x + 1] := 0;
      ghost var m1 := memory[..];
      PickUpWords(m, h, s, x, m1);
      var _, _ := AddBlock(x);
      KeepsTrans(m, s, m1, s, memory[..], shape, Taken(s, {}) - {x});
    }

    /** Fresh pages, apart from all that the heap has, for one more reserve. */
    ghost predicate Spare(address: nat)
      reads this, reserve
    {
      && PAGE_WORDS <= address && address % PAGE_WORDS == 0 && address + BOOTSTRAP_WORDS <= memory.Length
      && (forall a | a in shape.tiles.arenas :: Apart(Arena(address, address + BOOTSTRAP_WORDS), a))
      && (forall i | 0 <= i < reserve.Length && reserve[i].valid :: Apart(Arena(address, address + BOOTSTRAP_WORDS), Region(reserve[i])))
    }

    /** AddBlockToBackupHeap: a fresh mapping takes the first unused slot; if all slots are in use, it is given back. */
    method AddBlockToBackupHeap(address: nat) returns (kept: bool)
      requires Valid() && Spare(address)
      modifies reserve, this`top
      ensures Valid() && Contents() == old(Contents())
      ensures kept <==> exists i :: 0 <= i < reserve.Length && !old(reserve[i]).valid
      ensures kept ==> CanSupply(reserve[..], BOOTSTRAP_WORDS)
      ensures !kept ==> unchanged(this, reserve)
    {
      ghost var rs := reserve[..];
      var k := 0;
      while k < MAX_RESERVES && reserve[k].valid
        invariant 0 <= k <= MAX_RESERVES
        invariant forall j | 0 <= j < k :: rs[j].valid
      {
        k := k + 1;
      }
      if k == MAX_RESERVES {
        return false;
      }
      reserve[k] := Reserve(address, BOOTSTRAP_WORDS, true);
      top := if top < address + BOOTSTRAP_WORDS then address + BOOTSTRAP_WORDS else top;
      AddReserve(rs, shape.tiles.arenas, top, k, address);
      assert reserve[..] == rs[k := Reserve(address, BOOTSTRAP_WORDS, true)];
      kept := true;
    }

    /** The test of RefillReservePages: is there no whole reserve? */
    method RunsLow() returns (low: bool)
      requires Valid()
      ensures low <==> !CanSupply(reserve[..], BOOTSTRAP_WORDS)
    {
      ghost var rs := reserve[..];
      var largest := 0;
      for i := 0 to MAX_RESERVES
        invariant forall j | 0 <= j < i && rs[j].valid :: rs[j].size <= largest
        invariant largest > 0 ==> exists j :: 0 <= j < i && rs[j].valid && rs[j].size == largest
      {
        if reserve[i].valid && reserve[i].size > largest {
          largest := reserve[i].size;
        }
      }
      low := largest < BOOTSTRAP_WORDS;
    }

    /** RefillReservePages when nobody comes in between while it maps the pages. */
    method RefillReservePages(address: nat) returns (kept: bool)
      requires Valid() && Spare(address)
      modifies reserve, this`top
      ensures Valid() && Contents() == old(Contents())
      ensures kept <==> !old(CanSupply(reserve[..], BOOTSTRAP_WORDS)) && exists i :: 0 <= i < reserve.Length && !old(reserve[i]).valid
      ensures kept ==> CanSupply(reserve[..], BOOTSTRAP_WORDS)
      ensures !kept ==> unchanged(this, reserve)
      ensures !kept ==> CanSupply(reserve[..], BOOTSTRAP_WORDS) || forall i | 0 <= i < reserve.Length :: reserve[i].valid
    {
      kept := RunsLow();
      if kept {
        kept := AddBlockToBackupHeap(address);
      }
    }

    /** The heap before its first request: one reserve, the bootstrap area, and memory holding anything. */
    constructor (words: nat, bootstrap: nat)
      requires PAGE_WORDS <= bootstrap && bootstrap % PAGE_WORDS == 0 && bootstrap + BOOTSTRAP_WORDS <= words
      ensures Valid() && Contents() == map[]
      ensures fresh(memory) && fresh(heads) && fresh(reserve) && memory.Length == words
      ensures reserve[..] == [Reserve(bootstrap, BOOTSTRAP_WORDS, true)] + seq(MAX_RESERVES - 1, _ => Reserve(0, 0, false))
    {
      memory := new nat[words];
      heads := new nat[NUM_LISTS](_ => 0);
      var slots := new Reserve[MAX_RESERVES](_ => Reserve(0, 0, false));
      slots[0] := Reserve(bootstrap, BOOTSTRAP_WORDS, true);
      reserve := slots;
      top := bootstrap + BOOTSTRAP_WORDS;
      shape := Shape(Tiling({}, map[]), {}, seq(NUM_LISTS, _ => []));
      new;
      assert Live(shape) == {};
    }
  }
}
