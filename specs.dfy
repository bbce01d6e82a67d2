/**
 * What the allocator's public operations do to the abstract pool: taking a
 * block of a given order (`get_free_block`, split as needed), serving a
 * request (`my_alloc`) and giving a block back (`my_free`, merging with free
 * buddies). The lemmas here relate these to each other: a refusal happens
 * exactly when the lists are empty, the block handed out has the order asked
 * for and is on no list, and freeing the one block allocated after
 * `init_mem` gives back the initial pool.
 */
module AllocatorSpec {
  import opened Bits
  import opened Options
  import opened Orders
  import opened Layout
  import opened FreeLists
  import opened Pools

  /** The first order from i on whose free list is non-empty, if any. */
  function FirstFrom(lists: seq<seq<nat>>, i: nat): (r: Option<nat>)
    ensures r.Some? ==> i <= r.value < |lists| && lists[r.value] != [] &&
                        forall m :: i <= m < r.value ==> lists[m] == []
    ensures r.None? <==> forall m :: i <= m < |lists| ==> lists[m] == []
    decreases |lists| - i
  {
    if i >= |lists| then None
    else if lists[i] != [] then Some(i)
    else FirstFrom(lists, i + 1)
  }

  /** The offset of the upper half of order j split off from the block at h. */
  function Upper(h: nat, j: nat): nat { h + Pow2(j) }

  /**
   * `split_free_block` after h, a block of order o, is off its list: h is
   * halved until it has order k, and each upper half, one per order j from
   * o - 1 down to k, is pushed on the list of order j.
   */
  function SplitDown(P: Pool, h: nat, o: nat, k: nat): (r: Pool)
    requires k <= o < |P.lists|
    ensures |r.lists| == |P.lists|
    ensures forall j {:trigger r.lists[j]} :: 0 <= j < |P.lists| ==>
              r.lists[j] == if k <= j < o then [Upper(h, j)] + P.lists[j] else P.lists[j]
    decreases o
  {
    if o == k then P else SplitDown(SplitStep(P, h, o - 1), h, o - 1, k)
  }

  /** One round of SplitDown: halving h from order o to c = o - 1 leaves the rest of the split to do from c. */
  lemma SplitDownStep(P: Pool, h: nat, o: nat, k: nat, P': Pool, c: nat)
    requires k < o < |P.lists| && c + 1 == o && P' == SplitStep(P, h, c)
    ensures SplitDown(P, h, o, k) == SplitDown(P', h, c, k)
  {
  }

  /**
   * `get_free_block(k)`: the head of the list of order k if there is one,
   * otherwise the head of the first non-empty list above k, split down to
   * order k; None when every list from k up is empty.
   */
  function Acquire(P: Pool, k: nat): (r: Option<(nat, Pool)>)
    requires k < |P.lists|
    ensures r.None? <==> forall j :: k <= j < |P.lists| ==> P.lists[j] == []
  {
    if P.lists[k] != [] then
      var h := P.lists[k][0];
      Some((h, Unlist(P, k, h)))
    else
      match FirstFrom(P.lists, k + 1)
      case None => None
      case Some(i) =>
        var h := P.lists[i][0];
        Some((h, SplitDown(Unlist(P, i, h), h, i, k)))
  }

  /**
   * When the lists of orders k to i - 1 are empty and that of order i is not,
   * Acquire splits the head of list i down to order k; for i == k that is the
   * head of list k, taken as it is.
   */
  lemma AcquireAt(P: Pool, k: nat, i: nat)
    requires k <= i < |P.lists| && P.lists[i] != [] && forall j :: k <= j < i ==> P.lists[j] == []
    ensures Acquire(P, k).Some? && Acquire(P, k).value.0 == P.lists[i][0]
    ensures Acquire(P, k).value.1 == SplitDown(Unlist(P, i, P.lists[i][0]), P.lists[i][0], i, k)
  {
    if k < i {
      assert FirstFrom(P.lists, k + 1) == Some(i);
    }
  }

  /**
   * `my_alloc(n)` on an arena of order top whose headers take hs bytes: the
   * offset handed to the caller (the block's start plus hs) and the new pool.
   * A refused request leaves the pool as it was.
   */
  function Allocate(P: Pool, n: nat, hs: nat, top: nat): (r: (Option<nat>, Pool))
    requires top >= 1 && |P.lists| == top + 1
    ensures n == 0 || n + hs >= Pow2(top) ==> r.0.None? && r.1 == P
    ensures r.0.None? ==> r.1 == P
    ensures r.0.Some? ==> r.0.value >= hs
  {
    match RequestOrder(n, hs, top)
    case None => (None, P)
    case Some(k) =>
      match Acquire(P, k)
      case None => (None, P)
      case Some((h, P')) => (Some(h + hs), P')
  }

  /** A request of order k that Acquire serves with the block at h hands out h + hs. */
  lemma AllocateServed(P: Pool, n: nat, hs: nat, top: nat, k: nat, h: nat, P': Pool)
    requires top >= 1 && |P.lists| == top + 1 && k < |P.lists|
    requires RequestOrder(n, hs, top).Some? && RequestOrder(n, hs, top).value == k
    requires Acquire(P, k).Some? && Acquire(P, k).value.0 == h && Acquire(P, k).value.1 == P'
    ensures Allocate(P, n, hs, top).0.Some? && Allocate(P, n, hs, top).0.value == h + hs
    ensures Allocate(P, n, hs, top).1 == P'
  {
  }

  /** A request of order k that Acquire cannot serve is refused. */
  lemma AllocateRefused(P: Pool, n: nat, hs: nat, top: nat, k: nat)
    requires top >= 1 && |P.lists| == top + 1 && k < |P.lists|
    requires RequestOrder(n, hs, top).Some? && RequestOrder(n, hs, top).value == k && Acquire(P, k).None?
    ensures Allocate(P, n, hs, top).0.None? && Allocate(P, n, hs, top).1 == P
  {
  }

  /**
   * `my_alloc` returns NULL exactly for a zero-byte request, for one whose
   * block would not fit the arena, and when every list from the order asked
   * for up to the top is empty.
   */
  lemma AllocateNull(P: Pool, n: nat, hs: nat, top: nat)
    requires top >= 1 && |P.lists| == top + 1
    ensures Allocate(P, n, hs, top).0.None? <==>
              n == 0 || n + hs >= Pow2(top) || forall j :: OrderFor(n + hs) <= j <= top ==> P.lists[j] == []
  {
    if n > 0 && n + hs < Pow2(top) {
      var k := OrderFor(n + hs);
      RequestOrderOf(n, hs, top, k);
    }
  }

  /**
   * A served request gets a block of order OrderFor(n + hs), which holds the
   * request and its header, is on no list, and the arena stays tiled.
   */
  lemma AllocateYields(P: Pool, s: seq<Header>, heads: seq<int>, n: nat, hs: nat, top: nat)
    requires Sound(P, s, heads, top, Nil) && top >= 1
    ensures Allocate(P, n, hs, top).0.Some? ==>
              var h := Allocate(P, n, hs, top).0.value - hs;
              var P' := Allocate(P, n, hs, top).1;
              h in P'.blocks && P'.blocks[h] == OrderFor(n + hs) && n + hs < Pow2(P'.blocks[h]) &&
              !Listed(P'.lists, h) && Tiling(P'.blocks, top)
  {
    if n > 0 && n + hs < Pow2(top) {
      var k := OrderFor(n + hs);
      RequestOrderOf(n, hs, top, k);
      AcquireYields(P, s, heads, top, k);
    }
  }

  /** A block whose buddy is listed with its order merges with it, and Release goes on from the merged block. */
  lemma ReleaseMerges(P: Pool, h: nat, o: nat, P': Pool, h': nat, o': nat)
    requires o + 1 < |P.lists| && Buddy(h, o) in P.lists[o]
    requires P' == MergeStep(P, h, o) && h' == Survivor(h, o) && o' == o + 1
    ensures Release(P, h, o) == Release(P', h', o')
  {
  }

  /** A block at the top order, or whose buddy is not listed with its order, is pushed on its list. */
  lemma ReleaseStops(P: Pool, h: nat, o: nat)
    requires o < |P.lists| && (o + 1 == |P.lists| || Buddy(h, o) !in P.lists[o])
    ensures Release(P, h, o) == Insert(P, h, o)
  {
  }

  /**
   * `my_free` of the block at h, of order o, with the guard o < n that stops
   * at the whole arena: while the buddy is on the list of order o, take it
   * off and merge, continuing from the lower half with order o + 1; then push
   * the block on the list of its order.
   */
  function Release(P: Pool, h: nat, o: nat): (r: Pool)
    requires o < |P.lists|
    ensures |r.lists| == |P.lists|
    decreases |P.lists| - o
  {
    if o + 1 < |P.lists| && Buddy(h, o) in P.lists[o] then
      Release(MergeStep(P, h, o), Survivor(h, o), o + 1)
    else
      Insert(P, h, o)
  }

  /**
   * What `my_free` leaves behind: freeing a block h of order o that is on no
   * list of a tiled pool pushes one block h' of some order o' >= o, which is
   * aligned to its size and contains the freed block, on the list of order o';
   * the arena is still tiled and every listed block is still filed.
   */
  lemma {:induction false} ReleasePushes(P: Pool, n: nat, h: nat, o: nat) returns (h': nat, o': nat)
    requires Tiling(P.blocks, n) && Filed(P) && |P.lists| == n + 1
    requires h in P.blocks && P.blocks[h] == o && !Listed(P.lists, h)
    ensures o <= o' <= n && Aligned(h', o') && h' <= h && h + Pow2(o) <= h' + Pow2(o')
    ensures var R := Release(P, h, o);
            h' in R.blocks && R.blocks[h'] == o' && h' in R.lists[o'] &&
            Tiling(R.blocks, n) && Filed(R)
    decreases n - o, 1
  {
    OrderBound(P.blocks, n, h);
    if o < n && Buddy(h, o) in P.lists[o] {
      h', o' := ReleasePushesMerging(P, n, h, o);
    } else {
      ReleasePushesStopping(P, n, h, o);
      h', o' := h, o;
    }
  }

  /** ReleasePushes when the buddy is listed: merge once and go on from the merged block. */
  lemma {:induction false} ReleasePushesMerging(P: Pool, n: nat, h: nat, o: nat) returns (h': nat, o': nat)
    requires Tiling(P.blocks, n) && Filed(P) && |P.lists| == n + 1
    requires h in P.blocks && P.blocks[h] == o && !Listed(P.lists, h)
    requires o < n && Buddy(h, o) in P.lists[o]
    ensures o <= o' <= n && Aligned(h', o') && h' <= h && h + Pow2(o) <= h' + Pow2(o')
    ensures var R := Release(P, h, o);
            h' in R.blocks && R.blocks[h'] == o' && h' in R.lists[o'] &&
            Tiling(R.blocks, n) && Filed(R)
    decreases n - o, 0
  {
    MergeKeeps(P, n, h, o);
    ReleaseMerges(P, h, o, MergeStep(P, h, o), Survivor(h, o), o + 1);
    h', o' := ReleasePushes(MergeStep(P, h, o), n, Survivor(h, o), o + 1);
  }

  /** ReleasePushes when the block is pushed as it is. */
  lemma ReleasePushesStopping(P: Pool, n: nat, h: nat, o: nat)
    requires Tiling(P.blocks, n) && Filed(P) && |P.lists| == n + 1
    requires h in P.blocks && P.blocks[h] == o && o <= n
    requires o == n || Buddy(h, o) !in P.lists[o]
    ensures Aligned(h, o)
    ensures var R := Release(P, h, o);
            h in R.blocks && R.blocks[h] == o && h in R.lists[o] &&
            Tiling(R.blocks, n) && Filed(R)
  {
    ReleaseStops(P, h, o);
    InsertFiled(P, h);
    assert h in Insert(P, h, o).lists[o];
  }

  /**
   * One merge round on a tiled, filed pool: the merged block starts at the
   * lower offset, has the next order, covers the freed block and is on no
   * list; the pool stays tiled and filed.
   */
  lemma MergeKeeps(P: Pool, n: nat, h: nat, o: nat)
    requires Tiling(P.blocks, n) && Filed(P) && |P.lists| == n + 1
    requires h in P.blocks && P.blocks[h] == o && !Listed(P.lists, h)
    requires o < n && Buddy(h, o) in P.lists[o]
    ensures Survivor(h, o) <= h && h + Pow2(o) <= Survivor(h, o) + Pow2(o + 1)
    ensures Survivor(h, o) in MergeStep(P, h, o).blocks && MergeStep(P, h, o).blocks[Survivor(h, o)] == o + 1
    ensures !Listed(MergeStep(P, h, o).lists, Survivor(h, o))
    ensures Tiling(MergeStep(P, h, o).blocks, n) && Filed(MergeStep(P, h, o))
  {
    var b: nat := Buddy(h, o);
    var lo: nat := Survivor(h, o);
    BuddyIsBlock(P.blocks, n, h);
    MergeKeepsTiling(P.blocks, n, h);
    MergeFiled(P, n, h);
    forall j | 0 <= j < |P.lists| && j != o
      ensures b !in P.lists[j]
    {
    }
    RemoveListed(P.lists, o, b, h);
    assert lo == h || lo == b;
    assert lo + Pow2(o) == h || lo + Pow2(o) == b;
  }

  /** Splitting h down to order k leaves h a block of order k and keeps the arena tiled. */
  lemma {:induction false} SplitDownTiling(P: Pool, n: nat, h: nat, o: nat, k: nat)
    requires k <= o < |P.lists| && Tiling(P.blocks, n) && h in P.blocks && P.blocks[h] == o
    ensures h in SplitDown(P, h, o, k).blocks && SplitDown(P, h, o, k).blocks[h] == k
    ensures Tiling(SplitDown(P, h, o, k).blocks, n)
    decreases o
  {
    if o != k {
      SplitKeepsTiling(P.blocks, n, h, o - 1);
      SplitDownTiling(SplitStep(P, h, o - 1), n, h, o - 1, k);
    }
  }

  /** In a tiling, no offset strictly inside the block at h starts a block, in particular no upper half. */
  lemma UpperHalvesFree(blocks: map<nat, nat>, n: nat, h: nat, o: nat)
    requires Tiling(blocks, n) && h in blocks && blocks[h] == o
    ensures forall j: nat :: j < o ==> Upper(h, j) !in blocks
  {
    forall j: nat | j < o
      ensures Upper(h, j) !in blocks
    {
      Pow2Monotone(j, o);
    }
  }

  /**
   * Splitting h down to order k adds one block of order j at h + 2^j for each
   * j from k to o - 1 and keeps every other block, provided none of these
   * offsets started a block beforehand.
   */
  lemma {:induction false} SplitDownHalves(P: Pool, h: nat, o: nat, k: nat)
    requires k <= o < |P.lists| && h in P.blocks
    requires forall j :: k <= j < o ==> Upper(h, j) !in P.blocks
    ensures forall j :: k <= j < o ==>
              Upper(h, j) in SplitDown(P, h, o, k).blocks && SplitDown(P, h, o, k).blocks[Upper(h, j)] == j
    ensures forall p :: p in P.blocks && p != h ==>
              p in SplitDown(P, h, o, k).blocks && SplitDown(P, h, o, k).blocks[p] == P.blocks[p]
    decreases o
  {
    if o != k {
      var P' := SplitStep(P, h, o - 1);
      forall j | k <= j < o - 1
        ensures Upper(h, j) !in P'.blocks
      {
        Pow2Monotone(j, o - 1);
      }
      SplitDownHalves(P', h, o - 1, k);
      var r := SplitDown(P, h, o, k);
      assert r == SplitDown(P', h, o - 1, k);
      var q := h + Pow2(o - 1);
      assert q == Upper(h, o - 1) && q !in P.blocks;
      assert q in P'.blocks && q != h && P'.blocks[q] == o - 1;
      forall j | k <= j < o
        ensures Upper(h, j) in r.blocks && r.blocks[Upper(h, j)] == j
      {
        if j == o - 1 {
          assert q in r.blocks && r.blocks[q] == o - 1;
        }
      }
      forall p | p in P.blocks && p != h
        ensures p in r.blocks && r.blocks[p] == P.blocks[p]
      {
        assert p in P'.blocks && P'.blocks[p] == P.blocks[p];
      }
    }
  }

  /**
   * In a tiled arena the split of h from order o down to k creates exactly one
   * block of each order j from k to o - 1, at h + 2^j, and keeps every other
   * block.
   */
  lemma SplitDownCreates(P: Pool, n: nat, h: nat, o: nat, k: nat)
    requires k <= o < |P.lists| && Tiling(P.blocks, n) && h in P.blocks && P.blocks[h] == o
    ensures forall j :: k <= j < o ==>
              Upper(h, j) in SplitDown(P, h, o, k).blocks && SplitDown(P, h, o, k).blocks[Upper(h, j)] == j
    ensures forall p :: p in P.blocks && p != h ==>
              p in SplitDown(P, h, o, k).blocks && SplitDown(P, h, o, k).blocks[p] == P.blocks[p]
  {
    UpperHalvesFree(P.blocks, n, h, o);
    SplitDownHalves(P, h, o, k);
  }

  /**
   * The block `get_free_block` hands out has the order asked for, is a block
   * of the new partition and is on none of its lists, and the partition still
   * tiles the arena.
   */
  lemma AcquireYields(P: Pool, s: seq<Header>, heads: seq<int>, n: nat, k: nat)
    requires Sound(P, s, heads, n, Nil) && k <= n
    ensures match Acquire(P, k)
            case None => true
            case Some((h, P')) =>
              h in P'.blocks && P'.blocks[h] == k && !Listed(P'.lists, h) &&
              Tiling(P'.blocks, n) && |P'.lists| == n + 1
  {
    match Acquire(P, k)
    case None =>
    case Some((h, P')) =>
      if P.lists[k] != [] {
        AcquireDirect(P, s, heads, n, k);
      } else {
        var i := FirstFrom(P.lists, k + 1).value;
        AcquireBySplit(P, s, heads, n, k, i);
      }
  }

  /** The block Acquire hands out has the order asked for. */
  lemma AcquireOrder(P: Pool, s: seq<Header>, heads: seq<int>, n: nat, k: nat, h: nat, P': Pool)
    requires Sound(P, s, heads, n, Nil) && k <= n
    requires Acquire(P, k).Some? && Acquire(P, k).value.0 == h && Acquire(P, k).value.1 == P'
    ensures h in P'.blocks && P'.blocks[h] == k && !Listed(P'.lists, h)
  {
    AcquireYields(P, s, heads, n, k);
  }

  lemma AcquireDirect(P: Pool, s: seq<Header>, heads: seq<int>, n: nat, k: nat)
    requires Sound(P, s, heads, n, Nil) && k <= n && P.lists[k] != []
    ensures var h := P.lists[k][0];
            var P' := Unlist(P, k, h);
            h in P'.blocks && P'.blocks[h] == k && !Listed(P'.lists, h) && Tiling(P'.blocks, n)
  {
    var h := P.lists[k][0];
    OnlyList(P, s, heads, n, Nil, h, k);
    RemoveListed(P.lists, k, h, h);
  }

  lemma AcquireBySplit(P: Pool, s: seq<Header>, heads: seq<int>, n: nat, k: nat, i: nat)
    requires Sound(P, s, heads, n, Nil) && k < i <= n && P.lists[i] != []
    ensures var h := P.lists[i][0];
            var P' := SplitDown(Unlist(P, i, h), h, i, k);
            h in P'.blocks && P'.blocks[h] == k && !Listed(P'.lists, h) && Tiling(P'.blocks, n)
  {
    var h := P.lists[i][0];
    var U := Unlist(P, i, h);
    OnlyList(P, s, heads, n, Nil, h, i);
    RemoveListed(P.lists, i, h, h);
    SplitDownTiling(U, n, h, i, k);
    SplitDownUnlisted(U, h, i, k);
  }

  /** The upper halves pushed while splitting h are never h itself. */
  lemma SplitDownUnlisted(U: Pool, h: nat, i: nat, k: nat)
    requires k <= i < |U.lists| && !Listed(U.lists, h)
    ensures !Listed(SplitDown(U, h, i, k).lists, h)
  {
    var L := SplitDown(U, h, i, k).lists;
    forall j | 0 <= j < |L|
      ensures h !in L[j]
    {
      assert h !in U.lists[j];
      if k <= j < i {
        assert h != Upper(h, j);
      }
    }
  }

  /** The blocks at 2^j, 2^(j+1), ..., 2^(n-1), block 2^m having order m. */
  function Halves(j: nat, n: nat): (m: map<nat, nat>)
    ensures forall x :: x in m ==> Pow2(j) <= x
    decreases n - j
  {
    if j >= n then map[] else Halves(j + 1, n)[Pow2(j) := j]
  }

  /**
   * The pool right after a block of order k was carved out of the whole
   * arena of order n at offset 0: that block, and one free block of each
   * order j from k to n - 1, at 2^j.
   */
  function SplitPool(k: nat, n: nat): Pool {
    Pool(Halves(k, n)[0 := k], seq(n + 1, i => if k <= i < n then [Pow2(i)] else []))
  }

  lemma SplitPoolStep(j: nat, n: nat)
    requires 1 <= j <= n
    ensures SplitStep(SplitPool(j, n), 0, j - 1) == SplitPool(j - 1, n)
  {
    var P := SplitPool(j, n);
    var Q := SplitPool(j - 1, n);
    assert Halves(j - 1, n) == Halves(j, n)[Pow2(j - 1) := j - 1];
    assert SplitStep(P, 0, j - 1).blocks == Q.blocks;
    forall i | 0 <= i <= n
      ensures SplitStep(P, 0, j - 1).lists[i] == Q.lists[i]
    {
      if i == j - 1 {
        assert [0 + Pow2(j - 1)] + [] == [Pow2(j - 1)];
      }
    }
    assert SplitStep(P, 0, j - 1).lists == Q.lists;
  }

  lemma {:induction false} SplitDownFromTop(j: nat, k: nat, n: nat)
    requires k <= j <= n
    ensures SplitDown(SplitPool(j, n), 0, j, k) == SplitPool(k, n)
    decreases j
  {
    if j != k {
      SplitPoolStep(j, n);
      SplitDownFromTop(j - 1, k, n);
    }
  }

  lemma MergePoolStep(j: nat, n: nat)
    requires j < n
    ensures Buddy(0, j) == Pow2(j) && Survivor(0, j) == 0
    ensures Buddy(0, j) in SplitPool(j, n).lists[j]
    ensures MergeStep(SplitPool(j, n), 0, j) == SplitPool(j + 1, n)
  {
    AlignedZero(j + 1);
    var P := SplitPool(j, n);
    var Q := SplitPool(j + 1, n);
    assert Pow2(j) !in Halves(j + 1, n) by {
      Pow2Monotone(j, j + 1);
    }
    assert Remove([Pow2(j)], Pow2(j)) == [];
    assert MergeStep(P, 0, j).blocks == Q.blocks;
    assert MergeStep(P, 0, j).lists == Q.lists;
  }

  /** Freeing block 0 of order j in SplitPool(j, n) merges all the way up and restores the initial pool. */
  lemma {:induction false} ReleaseToInit(j: nat, n: nat)
    requires j <= n
    ensures Release(SplitPool(j, n), 0, j) == InitPool(n)
    decreases n - j
  {
    if j < n {
      MergePoolStep(j, n);
      ReleaseToInit(j + 1, n);
    } else {
      assert [0] + [] == [0];
      assert Insert(SplitPool(n, n), 0, n).lists == InitPool(n).lists;
    }
  }

  /** From the initial pool, `get_free_block(k)` hands out block 0, split down to order k. */
  lemma AcquireFromInit(k: nat, n: nat)
    requires k <= n
    ensures Acquire(InitPool(n), k) == Some((0, SplitPool(k, n)))
  {
    var P := InitPool(n);
    assert Unlist(P, n, 0) == SplitPool(n, n) by {
      assert Remove([0], 0) == [];
      assert Unlist(P, n, 0).lists == SplitPool(n, n).lists;
    }
    if k < n {
      assert P.lists[n] != [];
      var i := FirstFrom(P.lists, k + 1);
      assert i == Some(n);
      SplitDownFromTop(n, k, n);
    }
  }

  /**
   * After `init_mem`, a request that can be served gets the block at offset
   * 0, and freeing that block restores the initial pool: one free block of
   * order n.
   */
  lemma AllocFreeRoundTrip(req: nat, hs: nat, n: nat)
    requires n >= 1 && req > 0 && req + hs < Pow2(n)
    ensures Allocate(InitPool(n), req, hs, n).0.Some? && Allocate(InitPool(n), req, hs, n).0.value == hs
    ensures var P1 := Allocate(InitPool(n), req, hs, n).1;
            0 in P1.blocks && P1.blocks[0] == OrderFor(req + hs) && Release(P1, 0, P1.blocks[0]) == InitPool(n)
  {
    var k := OrderFor(req + hs);
    RequestOrderOf(req, hs, n, k);
    AcquireFromInit(k, n);
    ReleaseToInit(k, n);
  }
}
