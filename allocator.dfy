/**
 * The allocator itself: the arena `memory` with one header slot per offset,
 * and the free-list heads `freelist`, one per order 0..N. Every method does
 * what its C counterpart does to these two arrays, step by step, and keeps a
 * ghost pool that the arrays implement; its contract ties the new pool to the
 * specification functions of the allocator.
 */
module Allocator {
  import opened Bits
  import opened Options
  import opened Orders
  import opened Layout
  import opened FreeLists
  import opened Pools
  import opened AllocatorSpec
  import opened Coalescing
  import opened Handouts

  class BuddyAllocator {
    /** The arena has 2^N bytes; N is also the largest order. */
    const N: nat
    /** sizeof(header_t): the bytes a block's header takes in front of the caller's memory. */
    const HeaderSize: nat
    /** The header found at each offset of the arena. */
    const memory: array<Header>
    /** The head of the free list of each order, Nil when the list is empty. */
    const freelist: array<int>
    /** The pool that memory and freelist implement. */
    ghost var pool: Pool

    /** The arrays implement the pool, with the block t (Nil for none) in transit. */
    ghost predicate ValidExcept(t: int)
      reads this, memory, freelist
    {
      N >= 1 && 1 <= HeaderSize < Pow2(N) &&
      memory.Length == Pow2(N) && freelist.Length == N + 1 && |pool.lists| == N + 1 &&
      Sound(pool, memory[..], freelist[..], N, t)
    }

    /**
     * The state between two calls: every header accurate, no block in
     * transit, and no free block left beside a free buddy of its order.
     */
    ghost predicate Valid()
      reads this, memory, freelist
    {
      ValidExcept(Nil) && Coalesced(pool, N)
    }

    /**
     * The globals before `init_mem`: a zero-filled arena, whose headers read
     * as unused, of order 0, with null links, and null list heads.
     */
    constructor (n: nat, hs: nat)
      requires 1 <= hs < Pow2(n)
      ensures N == n && HeaderSize == hs
      ensures memory.Length == Pow2(n) && freelist.Length == n + 1
      ensures forall p :: 0 <= p < memory.Length ==> memory[p] == Header(false, 0, Nil, Nil)
      ensures forall k :: 0 <= k < freelist.Length ==> freelist[k] == Nil
      ensures fresh(memory) && fresh(freelist)
    {
      N := n;
      HeaderSize := hs;
      memory := new Header[Pow2(n)](_ => Header(false, 0, Nil, Nil));
      freelist := new int[n + 1](_ => Nil);
      pool := Pool(map[], []);
    }

    /**
     * `init_mem`: every list head null, then the whole arena becomes one
     * free block of order N at offset 0, alone on the list of order N.
     */
    method InitMem()
      requires N >= 1 && 1 <= HeaderSize < Pow2(N)
      requires memory.Length == Pow2(N) && freelist.Length == N + 1
      modifies this, memory, freelist
      ensures Valid() && pool == InitPool(N)
      ensures freelist[..] == InitHeads(N)
      ensures memory[..] == old(memory[..])[0 := InitHeader(N)]
    {
      var i := 0;
      while i <= N
        invariant 0 <= i <= N + 1
        invariant forall k :: 0 <= k < i ==> freelist[k] == Nil
        invariant memory[..] == old(memory[..])
      {
        freelist[i] := Nil;
        i := i + 1;
      }
      freelist[N] := 0;
      memory[0] := InitHeader(N);
      pool := InitPool(N);
      assert freelist[..] == InitHeads(N);
      InitSound(old(memory[..]), N);
      InitCoalesced(N);
    }

    /**
     * `add_free_block(order, h)`: h's header becomes a free header of that
     * order at the front of the list, and the old front points back at h.
     */
    method AddFreeBlock(order: nat, h: nat)
      requires order < freelist.Length && h < memory.Length
      requires freelist[order] == Nil || 0 <= freelist[order] < memory.Length
      modifies memory, freelist
      ensures memory[..] == Pushed(old(memory[..]), old(freelist[..])[order], h, order)
      ensures freelist[..] == old(freelist[..])[order := h]
    {
      var head := freelist[order];
      memory[h] := Header(false, order, head, Nil);
      if head != Nil {
        memory[head] := memory[head].(prev := h);
      }
      freelist[order] := h;
    }

    /**
     * `remove_free_block(order, h)`: h's neighbours are linked to each other,
     * and when h had no predecessor the list head moves to h's successor.
     * h's own header is left as it was.
     */
    method RemoveFreeBlock(order: nat, h: nat)
      requires order < freelist.Length && h < memory.Length
      requires memory[h].prev == Nil || 0 <= memory[h].prev < memory.Length
      requires memory[h].next == Nil || 0 <= memory[h].next < memory.Length
      modifies memory, freelist
      ensures memory[..] == Spliced(old(memory[..]), h)
      ensures freelist[..] == old(freelist[..])[order := SplicedHead(old(freelist[..])[order], old(memory[..]), h)]
    {
      var pr := memory[h].prev;
      var nx := memory[h].next;
      if pr != Nil {
        memory[pr] := memory[pr].(next := nx);
      } else {
        freelist[order] := nx;
      }
      if nx != Nil {
        memory[nx] := memory[nx].(prev := pr);
      }
    }

    /**
     * One round of `split_free_block`'s loop: the upper half of order c of the
     * block at h goes on the list of order c, and h's header records order c.
     */
    method Halve(h: nat, c: nat)
      requires c < freelist.Length && h < memory.Length && h + Pow2(c) < memory.Length
      requires freelist[c] == Nil || 0 <= freelist[c] < memory.Length
      modifies memory, freelist
      ensures memory[..] == SplitWrite(old(memory[..]), old(freelist[..])[c], h, c)
      ensures freelist[..] == old(freelist[..])[c := h + Pow2(c)]
    {
      AddFreeBlock(c, h + Pow2(c));
      memory[h] := memory[h].(order := c);
    }

    /**
     * `split_free_block(h, order)`: h leaves its list, then is halved until
     * it has the order asked for, each upper half going on the list of its
     * order. The block returned is h, in transit: on no list, its header
     * recording its order but not yet marked used.
     */
    method SplitFreeBlock(h: nat, order: nat) returns (r: nat)
      requires Valid() && h < memory.Length && Listed(pool.lists, h) && order <= memory[h].order
      modifies this, memory, freelist
      ensures r == h && ValidExcept(h) && memory[h].order == order
      ensures old(memory[h].order) < |old(pool).lists|
      ensures pool == SplitDown(Unlist(old(pool), old(memory[h].order), h), h, old(memory[h].order), order)
    {
      ListedAt(pool, memory[..], freelist[..], N, h);
      var k0 := memory[h].order;
      ghost var start := Unlist(pool, k0, h);
      UnlistSound(pool, memory[..], freelist[..], N, k0, h);
      RemoveFreeBlock(k0, h);
      pool := start;
      while memory[h].order != order
        invariant ValidExcept(h) && h < memory.Length
        invariant h in pool.blocks && pool.blocks[h] == memory[h].order
        invariant order <= memory[h].order <= N
        invariant SplitDown(pool, h, memory[h].order, order) == SplitDown(start, h, k0, order)
        decreases memory[h].order
      {
        ghost var P0, o0, s0, f0 := pool, memory[h].order, memory[..], freelist[..];
        var neworder := memory[h].order - 1;
        SplitRoom(pool, N, h, neworder);
        HeadsMatch(pool, memory[..], freelist[..], N, h, neworder);
        Halve(h, neworder);
        pool := SplitStep(pool, h, neworder);
        SplitSoundAt(P0, s0, f0, N, h, neworder, pool, memory[..], freelist[..]);
        SplitDownStep(P0, h, o0, order, pool, neworder);
      }
      r := h;
    }

    /**
     * `get_free_block(order)`: the head of the list of that order, or else
     * the head of the first non-empty list above it, split down; Nil (NULL)
     * when there is neither, and then nothing changes.
     */
    method GetFreeBlock(order: nat) returns (r: int)
      requires Valid() && order <= N
      modifies this, memory, freelist
      ensures r == Nil <==> Acquire(old(pool), order).None?
      ensures r == Nil ==> pool == old(pool) && memory[..] == old(memory[..]) && freelist[..] == old(freelist[..])
      ensures r == Nil || 0 <= r
      ensures r != Nil ==> Acquire(old(pool), order).Some? && Acquire(old(pool), order).value.0 == r &&
                           Acquire(old(pool), order).value.1 == pool && ValidExcept(r)
    {
      HeadsMatch(pool, memory[..], freelist[..], N, Nil, order);
      var h := freelist[order];
      if h != Nil {
        UnlistSound(pool, memory[..], freelist[..], N, order, h);
        RemoveFreeBlock(order, h);
        pool := Unlist(pool, order, h);
      } else {
        var i := order + 1;
        while h == Nil && i <= N
          invariant order + 1 <= i <= N + 1 && (h == Nil || 0 <= h)
          invariant h == Nil ==> Valid() && pool == old(pool) && memory[..] == old(memory[..]) &&
                                 freelist[..] == old(freelist[..]) &&
                                 forall j :: order <= j < i ==> old(pool).lists[j] == []
          invariant h != Nil ==> Acquire(old(pool), order).Some? && Acquire(old(pool), order).value.0 == h &&
                                 Acquire(old(pool), order).value.1 == pool && ValidExcept(h)
          decreases N + 1 - i, if h == Nil then 1 else 0
        {
          HeadsMatch(pool, memory[..], freelist[..], N, Nil, i);
          if freelist[i] != Nil {
            AcquireAt(pool, order, i);
            h := SplitFreeBlock(freelist[i], order);
          }
          i := i + 1;
        }
      }
      r := h;
    }

    /**
     * The header of the block at h after `my_alloc` hands it out: used, of
     * the order served. When h is the block in transit and has that order,
     * the arrays then implement the pool with no block in transit.
     */
    method MarkUsed(h: nat, order: nat)
      requires h < memory.Length
      modifies memory
      ensures memory[..] == old(memory[..])[h := old(memory[..])[h].(used := true, order := order)]
      ensures old(ValidExcept(h)) && h in pool.blocks && pool.blocks[h] == order ==> ValidExcept(Nil)
    {
      if ValidExcept(h) && h in pool.blocks && pool.blocks[h] == order {
        ClaimSound(pool, memory[..], freelist[..], N, h, order);
      }
      memory[h] := memory[h].(used := true, order := order);
    }

    /**
     * `my_alloc(n)`: None (NULL) for a zero-byte request, for one whose block
     * would exceed the arena, and when no block is free; otherwise the block
     * is marked used and the caller gets the offset just past its header.
     */
    method Alloc(n: nat) returns (p: Option<nat>)
      requires Valid()
      modifies this, memory, freelist
      ensures Valid() && pool == Allocate(old(pool), n, HeaderSize, N).1
      ensures p.None? == Allocate(old(pool), n, HeaderSize, N).0.None?
      ensures p.Some? ==> p.value == Allocate(old(pool), n, HeaderSize, N).0.value
      ensures p.Some? ==> p.value - HeaderSize in pool.blocks && !Listed(pool.lists, p.value - HeaderSize)
      ensures p.Some? ==> memory[p.value - HeaderSize].used && pool.blocks[p.value - HeaderSize] == OrderFor(n + HeaderSize)
      ensures p.Some? ==> p.value - HeaderSize !in Outstanding(old(pool)) &&
                          Outstanding(pool) == Outstanding(old(pool)) + {p.value - HeaderSize}
      ensures p.None? ==> memory[..] == old(memory[..]) && freelist[..] == old(freelist[..])
      ensures OrdersKept(old(pool), pool, {})
    {
      p := None;
      AllocateCoalesced(pool, n, HeaderSize, N);
      if n != 0 {
        var order := BlockOrder(n + HeaderSize);
        RequestOrderOf(n, HeaderSize, N, order);
        if order <= N {
          ghost var P0, s0, f0 := pool, memory[..], freelist[..];
          var h := GetFreeBlock(order);
          if h == Nil {
            AllocateRefused(P0, n, HeaderSize, N, order);
          } else {
            AcquireOrder(P0, s0, f0, N, order, h, pool);
            AcquireOutstanding(P0, s0, f0, N, order);
            assert h !in Outstanding(P0) && Outstanding(pool) == Outstanding(P0) + {h} && OrdersKept(P0, pool, {});
            AllocateServed(P0, n, HeaderSize, N, order, h, pool);
            MarkUsed(h, order);
            p := Some(h + HeaderSize);
            assert p.value - HeaderSize == h && memory[h].used;
            assert h in pool.blocks && pool.blocks[h] == order == OrderFor(n + HeaderSize) && !Listed(pool.lists, h);
          }
        }
      }
    }

    /**
     * `my_free(p)` for a block the caller got from `my_alloc` and has not
     * freed: while the block is smaller than the arena and its buddy, at
     * offset `pos ^ (1 << order)`, is free with the same order, the buddy
     * leaves its list and the two merge into the lower one; then the block
     * goes on the list of its order. The guard at order N and the unlinking
     * of the buddy itself, rather than of the higher of the two blocks,
     * depart from the C text (see README).
     */
    method Free(p: nat)
      requires Valid() && p >= HeaderSize
      requires p - HeaderSize in pool.blocks && !Listed(pool.lists, p - HeaderSize)
      modifies this, memory, freelist
      ensures Valid() && old(pool).blocks[p - HeaderSize] <= N
      ensures pool == Release(old(pool), p - HeaderSize, old(pool).blocks[p - HeaderSize])
      ensures Outstanding(pool) == Outstanding(old(pool)) - {p - HeaderSize}
      ensures OrdersKept(old(pool), pool, {p - HeaderSize})
    {
      var h: nat := p - HeaderSize;
      ReleaseCoalesced(pool, N, h, pool.blocks[h]);
      ReleaseOutstanding(pool, N, h, pool.blocks[h]);
      ghost var done := Release(pool, h, pool.blocks[h]);
      OrderBound(pool.blocks, N, h);
      var order := memory[h].order;
      while true
        invariant ValidExcept(h) && h in pool.blocks && pool.blocks[h] == order && order <= N
        invariant Release(pool, h, order) == done
        decreases N - order
      {
        if order == N {
          ReleaseStops(pool, h, order);
          break;
        }
        var buddy := Buddy(h, order);
        BuddyCheck(pool, memory[..], freelist[..], N, h);
        if memory[buddy].used || memory[buddy].order != order {
          ReleaseStops(pool, h, order);
          break;
        }
        ghost var P0, h0, o0 := pool, h, order;
        MergeSound(pool, memory[..], freelist[..], N, h, order);
        RemoveFreeBlock(order, buddy);
        pool := MergeStep(pool, h, order);
        if h > buddy {
          h := buddy;
        }
        order := order + 1;
        ReleaseMerges(P0, h0, o0, pool, h, order);
      }
      InsertSound(pool, memory[..], freelist[..], N, h, order);
      AddFreeBlock(order, h);
      pool := Insert(pool, h, order);
    }
  }

  /**
   * Once every block handed out has been freed, so that no block's header is
   * marked used, the arena is as `init_mem` left it: one free block of order
   * N at offset 0, alone on the list of order N, every other list empty.
   */
  lemma AllFreed(a: BuddyAllocator)
    requires a.Valid()
    requires forall p :: 0 <= p < a.memory.Length && p in a.pool.blocks ==> !a.memory[p].used
    ensures a.pool == InitPool(a.N) && a.freelist[..] == InitHeads(a.N) && a.memory[0] == InitHeader(a.N)
  {
    forall p | p in a.pool.blocks
      ensures Listed(a.pool.lists, p)
    {
      assert p < a.memory.Length;
    }
    AllFreeIsInitial(a.pool, a.memory[..], a.freelist[..], a.N);
  }

  /** `init_mem` is idempotent: a second call leaves the state the first one left. */
  method InitMemTwice(a: BuddyAllocator)
    requires a.N >= 1 && 1 <= a.HeaderSize < Pow2(a.N)
    requires a.memory.Length == Pow2(a.N) && a.freelist.Length == a.N + 1
    modifies a, a.memory, a.freelist
    ensures a.Valid() && a.pool == InitPool(a.N) && a.freelist[..] == InitHeads(a.N)
    ensures a.memory[..] == old(a.memory[..])[0 := InitHeader(a.N)]
  {
    a.InitMem();
    a.InitMem();
  }

  /**
   * What the program's `main` does, less the payload write and the print:
   * after `init_mem`, allocating one int and freeing it again leaves the
   * arena as `init_mem` left it.
   */
  method AllocFreeAfterInit(a: BuddyAllocator, intSize: nat)
    requires a.N >= 1 && 1 <= a.HeaderSize < Pow2(a.N)
    requires a.memory.Length == Pow2(a.N) && a.freelist.Length == a.N + 1
    modifies a, a.memory, a.freelist
    ensures a.Valid() && a.pool == InitPool(a.N)
    ensures a.freelist[..] == InitHeads(a.N) && a.memory[0] == InitHeader(a.N)
  {
    a.InitMem();
    InitOutstanding(a.N);
    var p := AllocHanded(a, intSize);
    FreeHanded(a, p);
    NothingOutstanding(a.pool, a.memory[..], a.freelist[..], a.N);
  }

  /** The block behind memory p that `my_alloc` returned, none for NULL. */
  function Handed(p: Option<nat>, hs: nat): set<nat> {
    if p.Some? && p.value >= hs then {p.value - hs} else {}
  }

  /** `my_free(p)` for a p that `my_alloc` returned, nothing for NULL: the block behind p is handed back. */
  method FreeHanded(a: BuddyAllocator, p: Option<nat>)
    requires a.Valid() && (p.Some? ==> p.value >= a.HeaderSize)
    requires Handed(p, a.HeaderSize) <= Outstanding(a.pool)
    modifies a, a.memory, a.freelist
    ensures a.Valid() && Outstanding(a.pool) == old(Outstanding(a.pool)) - Handed(p, a.HeaderSize)
  {
    if p.Some? {
      assert p.value - a.HeaderSize in Outstanding(a.pool);
      a.Free(p.value);
    }
  }

  /** `my_alloc(n)`, in terms of the blocks handed out: the one behind the memory returned is added. */
  method AllocHanded(a: BuddyAllocator, n: nat) returns (p: Option<nat>)
    requires a.Valid()
    modifies a, a.memory, a.freelist
    ensures a.Valid() && (p.Some? ==> p.value >= a.HeaderSize)
    ensures Handed(p, a.HeaderSize) !! old(Outstanding(a.pool))
    ensures Outstanding(a.pool) == old(Outstanding(a.pool)) + Handed(p, a.HeaderSize)
  {
    p := a.Alloc(n);
  }

  /**
   * Two allocations after `init_mem`, freed in either order (the first
   * first when `inOrder`, else the second first; a request refused needs no
   * free): the arena is again as `init_mem` left it. The second block is
   * never the first, and freeing one leaves the other free-able.
   */
  method TwoAllocsFreed(a: BuddyAllocator, n1: nat, n2: nat, inOrder: bool)
    requires a.N >= 1 && 1 <= a.HeaderSize < Pow2(a.N)
    requires a.memory.Length == Pow2(a.N) && a.freelist.Length == a.N + 1
    modifies a, a.memory, a.freelist
    ensures a.Valid() && a.pool == InitPool(a.N)
    ensures a.freelist[..] == InitHeads(a.N) && a.memory[0] == InitHeader(a.N)
  {
    a.InitMem();
    InitOutstanding(a.N);
    var p := AllocHanded(a, n1);
    var q := AllocHanded(a, n2);
    if inOrder {
      FreeHanded(a, p);
      FreeHanded(a, q);
    } else {
      FreeHanded(a, q);
      FreeHanded(a, p);
    }
    assert Outstanding(a.pool) == {};
    NothingOutstanding(a.pool, a.memory[..], a.freelist[..], a.N);
  }
}
