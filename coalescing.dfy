/**
 * Coalescing: `my_free` merges a freed block with its buddy whenever the
 * buddy is free with the same order, so no two free buddies of an order below
 * the arena's are ever left side by side. This invariant holds after
 * `init_mem`, survives every allocation and every free, and is what makes
 * freeing everything give the arena back as one block: a pool in which every
 * block is free and no merge is left to make is the pool `init_mem` builds.
 */
module Coalescing {
  import opened Bits
  import opened Options
  import opened Orders
  import opened Layout
  import opened FreeLists
  import opened Pools
  import opened AllocatorSpec

  /** No free block of an order below n has its buddy on the same free list. */
  ghost predicate Coalesced(P: Pool, n: nat) {
    forall k, x :: 0 <= k < n && k < |P.lists| && x in P.lists[k] ==> Buddy(x, k) !in P.lists[k]
  }

  /** Every listed offset is aligned to the order of its list. */
  ghost predicate ListedAligned(P: Pool) {
    forall k, x :: 0 <= k < |P.lists| && x in P.lists[k] ==> Aligned(x, k)
  }

  /** In a tiled, filed pool every listed block is aligned to its size. */
  lemma FiledAligned(P: Pool, n: nat)
    requires Inside(P.blocks, n) && Filed(P)
    ensures ListedAligned(P)
  {
    forall k, x | 0 <= k < |P.lists| && x in P.lists[k]
      ensures Aligned(x, k)
    {
      assert x in P.blocks && P.blocks[x] == k;
    }
  }

  /** After `init_mem` the only free block has order n, so there is nothing to merge. */
  lemma InitCoalesced(n: nat)
    ensures Coalesced(InitPool(n), n)
  {
  }

  /** Taking one offset off one list leaves no new pair of listed buddies. */
  lemma UnlistCoalesced(P: Pool, n: nat, k: nat, h: nat)
    requires k < |P.lists| && Coalesced(P, n)
    ensures Coalesced(Unlist(P, k, h), n)
  {
    var P' := Unlist(P, k, h);
    forall j, x | 0 <= j < n && j < |P'.lists| && x in P'.lists[j]
      ensures Buddy(x, j) !in P'.lists[j]
    {
      assert x in P.lists[j];
    }
  }

  /**
   * Pushing h on the list of order o, when the buddy of h is not on that list
   * (or o is the arena's order), leaves no pair of listed buddies.
   */
  lemma InsertCoalesced(P: Pool, n: nat, h: nat, o: nat)
    requires o < |P.lists| && Coalesced(P, n) && ListedAligned(P) && Aligned(h, o)
    requires o >= n || Buddy(h, o) !in P.lists[o]
    ensures Coalesced(Insert(P, h, o), n)
  {
    var P' := Insert(P, h, o);
    forall j, x | 0 <= j < n && j < |P'.lists| && x in P'.lists[j]
      ensures Buddy(x, j) !in P'.lists[j]
    {
      if j == o {
        BuddySymmetric(h, o);
        if x != h {
          BuddySymmetric(x, o);
        }
      }
    }
  }

  /**
   * Pushing the upper half of order j of h on a list of order j where no
   * entry's buddy is listed, and h is not: the upper half's buddy is h, and
   * it is the buddy of no entry already there.
   */
  lemma UpperHalfCoalesced(L: seq<nat>, h: nat, j: nat)
    requires Aligned(h, j + 1) && h !in L
    requires forall x :: x in L ==> Aligned(x, j) && Buddy(x, j) !in L
    ensures forall x :: x in [Upper(h, j)] + L ==> Buddy(x, j) !in [Upper(h, j)] + L
  {
    var u := Upper(h, j);
    AlignedDown(h, j, j + 1);
    BuddySymmetric(h, j);
    assert Buddy(u, j) == h;
    forall x | x in [u] + L
      ensures Buddy(x, j) !in [u] + L
    {
      if x != u {
        BuddySymmetric(x, j);
      }
    }
  }

  /**
   * Splitting h, aligned to order o and on no list, down to order k: each
   * upper half pushed on list j has h as its buddy, which is on no list, and
   * is the buddy of no block listed before.
   */
  lemma SplitDownCoalesced(P: Pool, n: nat, h: nat, o: nat, k: nat)
    requires k <= o < |P.lists| && Coalesced(P, n) && ListedAligned(P)
    requires Aligned(h, o) && !Listed(P.lists, h)
    ensures Coalesced(SplitDown(P, h, o, k), n)
  {
    var P' := SplitDown(P, h, o, k);
    forall j | 0 <= j < n && k <= j < o
      ensures forall x :: x in P'.lists[j] ==> Buddy(x, j) !in P'.lists[j]
    {
      AlignedDown(h, j + 1, o);
      assert h !in P.lists[j];
      UpperHalfCoalesced(P.lists[j], h, j);
    }
  }

  /** `get_free_block` keeps the pool coalesced. */
  lemma AcquireCoalesced(P: Pool, n: nat, k: nat)
    requires Tiling(P.blocks, n) && Filed(P) && |P.lists| == n + 1 && k <= n && Coalesced(P, n)
    ensures Acquire(P, k).Some? ==> Coalesced(Acquire(P, k).value.1, n)
  {
    if P.lists[k] != [] {
      UnlistCoalesced(P, n, k, P.lists[k][0]);
    } else if FirstFrom(P.lists, k + 1).Some? {
      var i := FirstFrom(P.lists, k + 1).value;
      var h := P.lists[i][0];
      var U := Unlist(P, i, h);
      assert h in P.lists[i];
      assert h in P.blocks && P.blocks[h] == i;
      forall j | 0 <= j < |P.lists| && j != i
        ensures h !in P.lists[j]
      {
      }
      RemoveListed(P.lists, i, h, h);
      UnlistCoalesced(P, n, i, h);
      UnlistFiled(P, i, h);
      FiledAligned(U, n);
      SplitDownCoalesced(U, n, h, i, k);
    }
  }

  /** `my_alloc` keeps the pool coalesced, whether it serves the request or refuses it. */
  lemma AllocateCoalesced(P: Pool, req: nat, hs: nat, top: nat)
    requires top >= 1 && Tiling(P.blocks, top) && Filed(P) && |P.lists| == top + 1 && Coalesced(P, top)
    ensures Coalesced(Allocate(P, req, hs, top).1, top)
  {
    var k := RequestOrder(req, hs, top);
    if k.Some? {
      AcquireCoalesced(P, top, k.value);
    }
  }

  /**
   * `my_free` keeps the pool coalesced: each merge only takes a block off a
   * list, and the loop stops only at the arena's order or when the buddy is
   * not listed with the block's order, so the block pushed at the end has no
   * listed buddy.
   */
  lemma {:induction false} ReleaseCoalesced(P: Pool, n: nat, h: nat, o: nat)
    requires Tiling(P.blocks, n) && Filed(P) && |P.lists| == n + 1 && Coalesced(P, n)
    requires h in P.blocks && P.blocks[h] == o && !Listed(P.lists, h)
    ensures o <= n && Coalesced(Release(P, h, o), n)
    decreases n - o
  {
    OrderBound(P.blocks, n, h);
    if o < n && Buddy(h, o) in P.lists[o] {
      MergeKeeps(P, n, h, o);
      UnlistCoalesced(P, n, o, Buddy(h, o));
      ReleaseMerges(P, h, o, MergeStep(P, h, o), Survivor(h, o), o + 1);
      ReleaseCoalesced(MergeStep(P, h, o), n, Survivor(h, o), o + 1);
    } else {
      ReleaseStops(P, h, o);
      FiledAligned(P, n);
      InsertCoalesced(P, n, h, o);
    }
  }

  /**
   * Below order o there is no block: if there were one of order j < o, its
   * buddy would be a block no larger, so, the order j being the least there
   * is, a block of the same order; with both free, both would be on the list
   * of order j, which coalescing rules out.
   */
  lemma {:induction false} OrdersAtLeast(P: Pool, n: nat, o: nat)
    requires Tiling(P.blocks, n) && Filed(P) && |P.lists| == n + 1 && Coalesced(P, n)
    requires forall p :: p in P.blocks ==> Listed(P.lists, p)
    requires o <= n
    ensures forall p :: p in P.blocks ==> P.blocks[p] >= o
    decreases o
  {
    if o > 0 {
      OrdersAtLeast(P, n, o - 1);
      forall p | p in P.blocks
        ensures P.blocks[p] >= o
      {
        if P.blocks[p] == o - 1 {
          BuddyIsBlock(P.blocks, n, p);
          assert false;
        }
      }
    }
  }

  /** The head of a non-empty list is on it. */
  lemma HeadListed(L: seq<nat>)
    requires L != []
    ensures L[0] in L
  {
  }

  /**
   * Freeing everything gives the arena back: a sound, coalesced pool in
   * which every block is free is the pool `init_mem` builds, one free block
   * of order n at offset 0, alone on its list, with the list heads and the
   * header at offset 0 that `init_mem` writes.
   */
  lemma AllFreeIsInitial(P: Pool, s: seq<Header>, heads: seq<int>, n: nat)
    requires Sound(P, s, heads, n, Nil) && Coalesced(P, n)
    requires forall p :: p in P.blocks ==> Listed(P.lists, p)
    ensures P == InitPool(n) && heads == InitHeads(n) && s[0] == InitHeader(n)
  {
    OrdersAtLeast(P, n, n);
    forall p | p in P.blocks
      ensures p == 0 && P.blocks[p] == n
    {
      OrderBound(P.blocks, n, p);
    }
    assert P.blocks == map[0 := n];
    forall k, x | 0 <= k < |P.lists| && x in P.lists[k]
      ensures k == n && x == 0
    {
      assert x in P.blocks && P.blocks[x] == k;
    }
    forall k | 0 <= k < n
      ensures P.lists[k] == []
    {
      if P.lists[k] != [] {
        HeadListed(P.lists[k]);
      }
    }
    var L := P.lists[n];
    var i :| 0 <= i < |P.lists| && 0 in P.lists[i];
    assert i == n;
    assert LinkedList(L, heads[n], s, n);
    forall x | x in L
      ensures x == 0
    {
    }
    assert L == [0];
    assert P.lists == InitPool(n).lists;
    forall k | 0 <= k <= n
      ensures heads[k] == InitHeads(n)[k]
    {
      assert LinkedList(P.lists[k], heads[k], s, k);
    }
  }
}
