/**
 * The allocator's state seen abstractly: the block partition and the contents
 * of each free list. `Sound` ties it to the headers in the arena and to the
 * list heads; the step lemmas here show that each thing the allocator does to
 * its headers keeps that tie, and the specification functions (Acquire,
 * Release) say what allocating and freeing do to the abstract state.
 */
module Pools {
  import opened Bits
  import opened Options
  import opened Layout
  import opened FreeLists

  /** The block partition (start offset to order) and the free list of each order, head first. */
  datatype Pool = Pool(blocks: map<nat, nat>, lists: seq<seq<nat>>)

  /** Every listed offset starts a block whose order is the list's order. */
  ghost predicate Filed(P: Pool) {
    forall k, x :: 0 <= k < |P.lists| && x in P.lists[k] ==> x in P.blocks && P.blocks[x] == k
  }

  /**
   * The header at the start of every block other than t records the block's
   * order, and is marked used exactly when the block is on no free list.
   */
  ghost predicate Headers(P: Pool, s: seq<Header>, t: int) {
    forall p :: p in P.blocks && p != t ==>
      p < |s| && s[p].order == P.blocks[p] && s[p].used == !Listed(P.lists, p)
  }

  /**
   * The arena s of 2^n header slots and the list heads implement the pool:
   * the blocks tile the arena, the lists are threaded through the headers,
   * each free block is filed under its order, and every header is accurate,
   * except that of the block t (Nil for none) that an operation is in the
   * middle of splitting or merging; t is on no list.
   */
  ghost predicate Sound(P: Pool, s: seq<Header>, heads: seq<int>, n: nat, t: int) {
    |s| == Pow2(n) && |P.lists| == n + 1 &&
    Tiling(P.blocks, n) &&
    Registry(P.lists, heads, s) &&
    Filed(P) &&
    (t != Nil ==> t >= 0 && t in P.blocks && !Listed(P.lists, t)) &&
    Headers(P, s, t)
  }

  /** The pool after `init_mem`: one free block of order n at offset 0. */
  function InitPool(n: nat): Pool {
    Pool(map[0 := n], seq(n + 1, k => if k == n then [0] else []))
  }

  /** The list heads after `init_mem`. */
  function InitHeads(n: nat): seq<int> {
    seq(n + 1, k => if k == n then 0 else Nil)
  }

  /** The header `init_mem` writes at offset 0. */
  function InitHeader(n: nat): Header {
    Header(false, n, Nil, Nil)
  }

  /** The pool with h taken off the list of order k. */
  function Unlist(P: Pool, k: nat, h: nat): Pool
    requires k < |P.lists|
  {
    Pool(P.blocks, P.lists[k := Remove(P.lists[k], h)])
  }

  /** The pool with h pushed on the list of order k. */
  function Insert(P: Pool, h: nat, k: nat): Pool
    requires k < |P.lists|
  {
    Pool(P.blocks, P.lists[k := [h] + P.lists[k]])
  }

  /** One round of `split_free_block`: h is halved to order c and its upper half is listed. */
  function SplitStep(P: Pool, h: nat, c: nat): Pool
    requires c < |P.lists|
  {
    Pool(Split(P.blocks, h, c), P.lists[c := [h + Pow2(c)] + P.lists[c]])
  }

  /** One round of `my_free`: h, of order o, merges with its listed buddy, which leaves its list. */
  function MergeStep(P: Pool, h: nat, o: nat): Pool
    requires o < |P.lists|
  {
    Pool(Merge(P.blocks, h, o), P.lists[o := Remove(P.lists[o], Buddy(h, o))])
  }

  /** Taking y off the list of order k changes whether x is listed only for x == y. */
  lemma RemoveListed(lists: seq<seq<nat>>, k: nat, y: nat, x: nat)
    requires k < |lists|
    ensures x != y ==> (Listed(lists[k := Remove(lists[k], y)], x) <==> Listed(lists, x))
    ensures (forall j :: 0 <= j < |lists| && j != k ==> y !in lists[j]) ==>
              !Listed(lists[k := Remove(lists[k], y)], y)
  {
    var lists' := lists[k := Remove(lists[k], y)];
    if Listed(lists, x) && x != y {
      var j :| 0 <= j < |lists| && x in lists[j];
      assert x in lists'[j];
    }
    if Listed(lists', x) {
      var j :| 0 <= j < |lists'| && x in lists'[j];
      assert x in lists[j];
    }
  }

  /** Pushing y on a list makes y listed and changes nothing else. */
  lemma PushListed(lists: seq<seq<nat>>, k: nat, y: nat, x: nat)
    requires k < |lists|
    ensures Listed(lists[k := [y] + lists[k]], x) <==> Listed(lists, x) || x == y
  {
    var lists' := lists[k := [y] + lists[k]];
    if Listed(lists, x) {
      var j :| 0 <= j < |lists| && x in lists[j];
      assert x in lists'[j];
    }
    if Listed(lists', x) {
      var j :| 0 <= j < |lists'| && x in lists'[j];
      assert x in lists[j] || x == y;
    }
    if x == y {
      assert x in lists'[k];
    }
  }

  /** In a sound state a block's order fixes the only list it can be on. */
  lemma OnlyList(P: Pool, s: seq<Header>, heads: seq<int>, n: nat, t: int, y: nat, k: nat)
    requires Sound(P, s, heads, n, t) && y in P.blocks && P.blocks[y] == k
    ensures forall j :: 0 <= j < |P.lists| && j != k ==> y !in P.lists[j]
  {
  }

  /**
   * The headers after one round of `split_free_block`: the upper half of h,
   * at h + 2^c, is pushed on the list of order c, then h's header records order c.
   */
  function SplitWrite(s: seq<Header>, head: int, h: nat, c: nat): (r: seq<Header>)
    requires h < |s| && h + Pow2(c) < |s| && (head == Nil || 0 <= head < |s|)
    ensures |r| == |s| && r[h].order == c && r[h].used == s[h].used && r[h].next == s[h].next
    ensures head != h ==> r[h].prev == s[h].prev
    ensures head != h + Pow2(c) ==> r[h + Pow2(c)] == Header(false, c, head, Nil)
    ensures head != Nil && head != h && head != h + Pow2(c) ==> r[head] == s[head].(prev := h + Pow2(c))
    ensures forall p :: 0 <= p < |s| && p != h && p != h + Pow2(c) && p != head ==> r[p] == s[p]
  {
    var s1 := Pushed(s, head, h + Pow2(c), c);
    s1[h := s1[h].(order := c)]
  }

  /** A listed block is filed under the order its header records. */
  lemma ListedAt(P: Pool, s: seq<Header>, heads: seq<int>, n: nat, h: nat)
    requires Sound(P, s, heads, n, Nil) && Listed(P.lists, h)
    ensures h < |s| && s[h].order <= n && h in P.lists[s[h].order]
  {
    var k :| 0 <= k < |P.lists| && h in P.lists[k];
  }

  /** The head of the list of order k is Nil exactly when that list is empty, and its first block otherwise. */
  lemma HeadsMatch(P: Pool, s: seq<Header>, heads: seq<int>, n: nat, t: int, k: nat)
    requires Sound(P, s, heads, n, t) && k <= n
    ensures k < |heads| && (heads[k] == Nil <==> P.lists[k] == [])
    ensures P.lists[k] != [] ==> heads[k] == P.lists[k][0] && 0 <= heads[k] < |s| &&
                                 s[heads[k]].order == k && Listed(P.lists, heads[k])
  {
    assert LinkedList(P.lists[k], heads[k], s, k);
    if P.lists[k] != [] {
      assert heads[k] in P.lists[k];
    }
  }

  /** `init_mem` leaves the arena sound, whatever the headers held before. */
  lemma InitSound(s: seq<Header>, n: nat)
    requires |s| == Pow2(n)
    ensures Sound(InitPool(n), s[0 := InitHeader(n)], InitHeads(n), n, Nil)
  {
    var P := InitPool(n);
    var s' := s[0 := InitHeader(n)];
    InitialTiling(n);
    forall k | 0 <= k < |P.lists|
      ensures LinkedList(P.lists[k], InitHeads(n)[k], s', k)
    {
    }
    assert Listed(P.lists, 0) by {
      assert 0 in P.lists[n];
    }
  }

  /**
   * A sound state whose pool is the initial pool has exactly the list heads
   * and the header at offset 0 that `init_mem` writes.
   */
  lemma InitialState(s: seq<Header>, heads: seq<int>, n: nat)
    requires Sound(InitPool(n), s, heads, n, Nil)
    ensures heads == InitHeads(n) && s[0] == InitHeader(n)
  {
    var P := InitPool(n);
    forall k | 0 <= k <= n
      ensures heads[k] == InitHeads(n)[k]
    {
      assert LinkedList(P.lists[k], heads[k], s, k);
    }
    LinkAt(P.lists[n], heads[n], s, n, 0);
    assert Listed(P.lists, 0) by {
      assert 0 in P.lists[n];
    }
    assert !s[0].used;
  }

  /** `remove_free_block` on a listed block h makes h the block in transit, on no list. */
  lemma UnlistSound(P: Pool, s: seq<Header>, heads: seq<int>, n: nat, k: nat, h: nat)
    requires Sound(P, s, heads, n, Nil) && k <= n && h in P.lists[k]
    ensures h < |s|
    ensures s[h].prev == Nil || 0 <= s[h].prev < |s|
    ensures s[h].next == Nil || 0 <= s[h].next < |s|
    ensures Sound(Unlist(P, k, h), Spliced(s, h), heads[k := SplicedHead(heads[k], s, h)], n, h)
  {
    SpliceKeepsRegistry(P.lists, heads, s, k, h);
    OnlyList(P, s, heads, n, Nil, h, k);
    RemoveListed(P.lists, k, h, h);
    UnlistFiled(P, k, h);
    UnlistHeaders(P, s, k, h);
  }

  lemma UnlistFiled(P: Pool, k: nat, h: nat)
    requires Filed(P) && k < |P.lists|
    ensures Filed(Unlist(P, k, h))
  {
    var P' := Unlist(P, k, h);
    forall j, x | 0 <= j < |P'.lists| && x in P'.lists[j]
      ensures x in P'.blocks && P'.blocks[x] == j
    {
      assert x in P.lists[j];
    }
  }

  lemma UnlistHeaders(P: Pool, s: seq<Header>, k: nat, h: nat)
    requires Headers(P, s, Nil) && k < |P.lists| && h < |s|
    requires s[h].prev == Nil || 0 <= s[h].prev < |s|
    requires s[h].next == Nil || 0 <= s[h].next < |s|
    ensures Headers(Unlist(P, k, h), Spliced(s, h), h)
  {
    var P' := Unlist(P, k, h);
    var s' := Spliced(s, h);
    forall p | p in P'.blocks && p != h
      ensures p < |s'| && s'[p].order == P'.blocks[p] && s'[p].used == !Listed(P'.lists, p)
    {
      SplicedFields(s, h, p);
      RemoveListed(P.lists, k, h, p);
    }
  }

  /**
   * One round of `split_free_block` (list the upper half with `add_free_block`,
   * then lower the order in h's header) keeps the state sound, h still in transit.
   */
  lemma SplitSound(P: Pool, s: seq<Header>, heads: seq<int>, n: nat, h: nat, c: nat)
    requires Sound(P, s, heads, n, h) && P.blocks[h] == c + 1
    ensures c < n && h < h + Pow2(c) < |s| && (heads[c] == Nil || 0 <= heads[c] < |s|)
    ensures h + Pow2(c) !in P.blocks && h in SplitStep(P, h, c).blocks && SplitStep(P, h, c).blocks[h] == c
    ensures Sound(SplitStep(P, h, c), SplitWrite(s, heads[c], h, c), heads[c := h + Pow2(c)], n, h)
  {
    SplitRoom(P, n, h, c);
    SplitUnlisted(P, n, h, c);
    SplitRegistry(P, heads, s, h, c);
    SplitFiled(P, n, h, c);
    SplitHeaders(P, s, heads[c], n, h, c);
  }

  /** SplitSound, stated for a given new state. */
  lemma SplitSoundAt(P: Pool, s: seq<Header>, heads: seq<int>, n: nat, h: nat, c: nat,
                     P': Pool, s': seq<Header>, heads': seq<int>)
    requires Sound(P, s, heads, n, h) && P.blocks[h] == c + 1
    requires c < n && h + Pow2(c) < |s| && (heads[c] == Nil || 0 <= heads[c] < |s|)
    requires P' == SplitStep(P, h, c) && s' == SplitWrite(s, heads[c], h, c) && heads' == heads[c := h + Pow2(c)]
    ensures Sound(P', s', heads', n, h) && h in P'.blocks && P'.blocks[h] == c
  {
    SplitSound(P, s, heads, n, h, c);
  }

  /** The upper half of a block being split lies in the arena and starts no block yet. */
  lemma SplitRoom(P: Pool, n: nat, h: nat, c: nat)
    requires Tiling(P.blocks, n) && h in P.blocks && P.blocks[h] == c + 1
    ensures c < n && h < h + Pow2(c) < Pow2(n) && h + Pow2(c) !in P.blocks
    ensures c < |P.lists| ==> Tiling(SplitStep(P, h, c).blocks, n)
  {
    OrderBound(P.blocks, n, h);
    SplitKeepsTiling(P.blocks, n, h, c);
    Pow2Monotone(c, c + 1);
  }

  /** Nor is the upper half of a block being split on any list. */
  lemma SplitUnlisted(P: Pool, n: nat, h: nat, c: nat)
    requires Tiling(P.blocks, n) && Filed(P) && h in P.blocks && P.blocks[h] == c + 1
    ensures !Listed(P.lists, h + Pow2(c))
  {
    SplitRoom(P, n, h, c);
    Unfiled(P, h + Pow2(c));
  }

  /** An offset that starts no block is on no list. */
  lemma Unfiled(P: Pool, x: nat)
    requires Filed(P) && x !in P.blocks
    ensures !Listed(P.lists, x)
  {
  }

  /** The headers a split round writes keep every list well linked, with the upper half at the head of its list. */
  lemma SplitRegistry(P: Pool, heads: seq<int>, s: seq<Header>, h: nat, c: nat)
    requires Registry(P.lists, heads, s) && c < |P.lists| && h < |s| && h + Pow2(c) < |s|
    requires !Listed(P.lists, h + Pow2(c)) && !Listed(P.lists, h)
    ensures heads[c] == Nil || 0 <= heads[c] < |s|
    ensures Registry(SplitStep(P, h, c).lists, heads[c := h + Pow2(c)], SplitWrite(s, heads[c], h, c))
  {
    var q := h + Pow2(c);
    PushKeepsRegistry(P.lists, heads, s, c, q);
    PushListed(P.lists, c, q, h);
    var s1 := Pushed(s, heads[c], q, c);
    WriteOutsideKeepsRegistry(P.lists[c := [q] + P.lists[c]], heads[c := q], s1, h, s1[h].(order := c));
  }

  lemma SplitFiled(P: Pool, n: nat, h: nat, c: nat)
    requires Filed(P) && c < |P.lists| && h in P.blocks && P.blocks[h] == c + 1 && !Listed(P.lists, h)
    requires h + Pow2(c) !in P.blocks
    ensures Filed(SplitStep(P, h, c)) && !Listed(SplitStep(P, h, c).lists, h)
  {
    var P' := SplitStep(P, h, c);
    PushListed(P.lists, c, h + Pow2(c), h);
    forall k, x | 0 <= k < |P'.lists| && x in P'.lists[k]
      ensures x in P'.blocks && P'.blocks[x] == k
    {
      if x != h + Pow2(c) {
        assert x in P.lists[k];
      }
    }
  }

  lemma SplitHeaders(P: Pool, s: seq<Header>, head: int, n: nat, h: nat, c: nat)
    requires Headers(P, s, h) && c < |P.lists| && h in P.blocks && P.blocks[h] == c + 1
    requires h + Pow2(c) !in P.blocks && h + Pow2(c) < |s| && (head == Nil || 0 <= head < |s|)
    ensures Headers(SplitStep(P, h, c), SplitWrite(s, head, h, c), h)
  {
    var q := h + Pow2(c);
    var P' := SplitStep(P, h, c);
    var s2 := SplitWrite(s, head, h, c);
    forall p | p in P'.blocks && p != h
      ensures p < |s2| && s2[p].order == P'.blocks[p] && s2[p].used == !Listed(P'.lists, p)
    {
      PushListed(P.lists, c, q, p);
      if p != q {
        PushedFields(s, head, q, c, p);
      }
    }
  }

  /** The buddy test of `my_free`: the buddy's header reads unused with the same order exactly when the buddy is on that order's list. */
  lemma BuddyCheck(P: Pool, s: seq<Header>, heads: seq<int>, n: nat, h: nat)
    requires Sound(P, s, heads, n, h) && P.blocks[h] < n
    ensures Buddy(h, P.blocks[h]) < |s| && Buddy(h, P.blocks[h]) != h
    ensures var b := Buddy(h, P.blocks[h]);
            (!s[b].used && s[b].order == P.blocks[h]) <==> b in P.lists[P.blocks[h]]
  {
    var o := P.blocks[h];
    var b := Buddy(h, o);
    BuddyIsBlock(P.blocks, n, h);
    if !s[b].used && s[b].order == o {
      var k :| 0 <= k < |P.lists| && b in P.lists[k];
    }
    if b in P.lists[o] {
      assert Listed(P.lists, b);
    }
  }

  /**
   * The list heads and headers after one merge round of `my_free` as the C
   * text writes it: once the swap has left h on the lower of the two offsets,
   * `buddy` names the higher one, and that is the block unlinked, whether or
   * not it is the one on the list.
   */
  function MergeUnlinkAsWritten(heads: seq<int>, s: seq<Header>, h: nat, o: nat): (r: (seq<int>, seq<Header>))
    requires o < |heads| && h < |s| && Buddy(h, o) < |s|
    requires var g := if h > Buddy(h, o) then h else Buddy(h, o);
             (s[g].prev == Nil || 0 <= s[g].prev < |s|) && (s[g].next == Nil || 0 <= s[g].next < |s|)
    ensures |r.0| == |heads| && |r.1| == |s|
    ensures forall k :: 0 <= k < |heads| && k != o ==> r.0[k] == heads[k]
  {
    var g := if h > Buddy(h, o) then h else Buddy(h, o);
    (heads[o := SplicedHead(heads[o], s, g)], Spliced(s, g))
  }

  /** An arena of 16 header slots: blocks of order 2 at 0, 4, 8 and 12; 0 and 12 are free, listed 0 then 12. */
  function ExampleArena(): seq<Header> {
    seq(16, i => if i == 0 then Header(false, 2, 12, Nil)
                 else if i == 4 || i == 8 then Header(true, 2, Nil, Nil)
                 else if i == 12 then Header(false, 2, Nil, 0)
                 else Header(false, 0, Nil, Nil))
  }

  function ExamplePool(): Pool {
    Pool(map[0 := 2, 4 := 2, 8 := 2, 12 := 2], [[], [], [0, 12], [], []])
  }

  /**
   * Freeing the block at 4 in the arena above: its buddy, at 0, is free, so
   * the C text swaps the two and unlinks the block at 4, which is on no list.
   * The list of order 2 is left empty though the block at 12 is still free
   * there, and the buddy at 0 stays linked; unlinking the buddy instead, as
   * MergeSound does, leaves 12 at the head.
   */
  lemma FreeAsWrittenLosesBlock()
    ensures Sound(ExamplePool(), ExampleArena(), [Nil, Nil, 0, Nil, Nil], 4, 4)
    ensures Buddy(4, 2) == 0 && 0 in ExamplePool().lists[2] && 12 in ExamplePool().lists[2]
    ensures MergeUnlinkAsWritten([Nil, Nil, 0, Nil, Nil], ExampleArena(), 4, 2).0[2] == Nil
    ensures SplicedHead(0, ExampleArena(), Buddy(4, 2)) == 12
  {
    var P, s, heads := ExamplePool(), ExampleArena(), [Nil, Nil, 0, Nil, Nil];
    assert Pow2(2) == 4 && Pow2(4) == 16;
    assert Buddy(4, 2) == 0 by {
      assert Xor(4, 4) == 2 * Xor(2, 2) && Xor(2, 2) == 2 * Xor(1, 1) && Xor(1, 1) == 2 * Xor(0, 0);
    }
    ExampleTiling();
    ExampleRegistry();
    ExampleListed();
  }

  lemma ExampleTiling()
    ensures Tiling(ExamplePool().blocks, 4)
  {
    var b := ExamplePool().blocks;
    assert Pow2(2) == 4 && Pow2(4) == 16;
    assert Aligned(0, 2) && Aligned(4, 2) && Aligned(8, 2) && Aligned(12, 2);
    assert forall p :: p in b <==> p == 0 || p == 4 || p == 8 || p == 12;
  }

  lemma ExampleRegistry()
    ensures Registry(ExamplePool().lists, [Nil, Nil, 0, Nil, Nil], ExampleArena())
  {
    var L, heads, s := ExamplePool().lists, [Nil, Nil, 0, Nil, Nil], ExampleArena();
    assert s[0] == Header(false, 2, 12, Nil) && s[12] == Header(false, 2, Nil, 0);
    forall k | 0 <= k < |L|
      ensures LinkedList(L[k], heads[k], s, k)
    {
      if k == 2 {
        assert L[k] == [0, 12];
      } else {
        assert L[k] == [];
      }
    }
  }

  lemma ExampleListed()
    ensures Filed(ExamplePool()) && !Listed(ExamplePool().lists, 4)
    ensures Headers(ExamplePool(), ExampleArena(), 4)
  {
    var P, s := ExamplePool(), ExampleArena();
    assert forall k, x :: 0 <= k < |P.lists| && x in P.lists[k] ==> k == 2 && (x == 0 || x == 12);
    assert 0 in P.lists[2] && 12 in P.lists[2];
    assert s[0].order == 2 && !s[0].used && s[8].used && s[8].order == 2 && s[12].order == 2 && !s[12].used;
  }

  /**
   * One round of `my_free` that unlinks the listed buddy of h and merges the
   * two halves keeps the state sound; the merged block, at the lower offset,
   * is the new block in transit.
   */
  lemma MergeSound(P: Pool, s: seq<Header>, heads: seq<int>, n: nat, h: nat, o: nat)
    requires Sound(P, s, heads, n, h) && P.blocks[h] == o && o < n
    requires Buddy(h, o) in P.lists[o]
    ensures Buddy(h, o) < |s| && (s[Buddy(h, o)].prev == Nil || 0 <= s[Buddy(h, o)].prev < |s|) &&
            (s[Buddy(h, o)].next == Nil || 0 <= s[Buddy(h, o)].next < |s|)
    ensures Survivor(h, o) in MergeStep(P, h, o).blocks && MergeStep(P, h, o).blocks[Survivor(h, o)] == o + 1
    ensures Sound(MergeStep(P, h, o), Spliced(s, Buddy(h, o)), heads[o := SplicedHead(heads[o], s, Buddy(h, o))], n, Survivor(h, o))
  {
    var b := Buddy(h, o);
    BuddyIsBlock(P.blocks, n, h);
    MergeKeepsTiling(P.blocks, n, h);
    SpliceKeepsRegistry(P.lists, heads, s, o, b);
    OnlyList(P, s, heads, n, h, b, o);
    RemoveListed(P.lists, o, b, b);
    RemoveListed(P.lists, o, b, h);
    MergeFiled(P, n, h);
    MergeHeaders(P, s, n, h);
  }

  /** After a merge every listed block is still a block of the list's order. */
  lemma MergeFiled(P: Pool, n: nat, h: nat)
    requires Tiling(P.blocks, n) && Filed(P) && |P.lists| == n + 1
    requires h in P.blocks && !Listed(P.lists, h) && P.blocks[h] < n
    requires Buddy(h, P.blocks[h]) in P.lists[P.blocks[h]]
    ensures Filed(MergeStep(P, h, P.blocks[h]))
  {
    var o := P.blocks[h];
    var b := Buddy(h, o);
    var lo := Survivor(h, o);
    var P' := MergeStep(P, h, o);
    assert lo == h || lo == b;
    assert lo + Pow2(o) == h || lo + Pow2(o) == b;
    assert P.blocks[b] == o;
    forall k, x | 0 <= k < |P'.lists| && x in P'.lists[k]
      ensures x in P'.blocks && P'.blocks[x] == k
    {
      assert x in P.lists[k];
      assert x != h;
      assert x != b;
    }
  }

  lemma MergeHeaders(P: Pool, s: seq<Header>, n: nat, h: nat)
    requires Tiling(P.blocks, n) && Headers(P, s, h) && |P.lists| == n + 1
    requires h in P.blocks && P.blocks[h] < n
    requires var b := Buddy(h, P.blocks[h]);
             b < |s| && (s[b].prev == Nil || 0 <= s[b].prev < |s|) && (s[b].next == Nil || 0 <= s[b].next < |s|)
    ensures var o := P.blocks[h];
            Headers(MergeStep(P, h, o), Spliced(s, Buddy(h, o)), Survivor(h, o))
  {
    var o := P.blocks[h];
    var b := Buddy(h, o);
    var lo := Survivor(h, o);
    var P' := MergeStep(P, h, o);
    var s' := Spliced(s, b);
    assert lo == h || lo == b;
    assert lo + Pow2(o) == h || lo + Pow2(o) == b;
    forall p | p in P'.blocks && p != lo
      ensures p < |s'| && s'[p].order == P'.blocks[p] && s'[p].used == !Listed(P'.lists, p)
    {
      SplicedFields(s, b, p);
      RemoveListed(P.lists, o, b, p);
    }
  }

  /** `add_free_block` of the block in transit, with the order of its block, makes the state fully sound. */
  lemma InsertSound(P: Pool, s: seq<Header>, heads: seq<int>, n: nat, h: nat, o: nat)
    requires Sound(P, s, heads, n, h) && P.blocks[h] == o
    ensures o <= n && (heads[o] == Nil || 0 <= heads[o] < |s|) && h < |s|
    ensures Sound(Insert(P, h, o), Pushed(s, heads[o], h, o), heads[o := h], n, Nil)
  {
    OrderBound(P.blocks, n, h);
    forall j | 0 <= j < |P.lists|
      ensures h !in P.lists[j]
    {
    }
    PushKeepsRegistry(P.lists, heads, s, o, h);
    assert heads[o] != h by {
      assert LinkedList(P.lists[o], heads[o], s, o);
    }
    InsertFiled(P, h);
    InsertHeaders(P, s, heads[o], h);
  }

  lemma InsertFiled(P: Pool, h: nat)
    requires Filed(P) && h in P.blocks && P.blocks[h] < |P.lists|
    ensures Filed(Insert(P, h, P.blocks[h]))
  {
    var P' := Insert(P, h, P.blocks[h]);
    forall k, x | 0 <= k < |P'.lists| && x in P'.lists[k]
      ensures x in P'.blocks && P'.blocks[x] == k
    {
      if x != h {
        assert x in P.lists[k];
      }
    }
  }

  lemma InsertHeaders(P: Pool, s: seq<Header>, head: int, h: nat)
    requires Headers(P, s, h) && h in P.blocks && P.blocks[h] < |P.lists| && h < |s|
    requires head != h && (head == Nil || 0 <= head < |s|)
    ensures Headers(Insert(P, h, P.blocks[h]), Pushed(s, head, h, P.blocks[h]), Nil)
  {
    var o := P.blocks[h];
    var P' := Insert(P, h, o);
    var s' := Pushed(s, head, h, o);
    forall p | p in P'.blocks
      ensures p < |s'| && s'[p].order == P'.blocks[p] && s'[p].used == !Listed(P'.lists, p)
    {
      PushListed(P.lists, o, h, p);
      if p != h {
        PushedFields(s, head, h, o, p);
      }
    }
  }

  /** `my_alloc` marking the block in transit used, with its order, makes the state fully sound. */
  lemma ClaimSound(P: Pool, s: seq<Header>, heads: seq<int>, n: nat, h: nat, o: nat)
    requires Sound(P, s, heads, n, h) && P.blocks[h] == o
    ensures h < |s| && Sound(P, s[h := s[h].(used := true, order := o)], heads, n, Nil)
  {
    WriteOutsideKeepsRegistry(P.lists, heads, s, h, s[h].(used := true, order := o));
  }
}
