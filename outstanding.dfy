/**
 * The blocks handed out: a block of the partition that is on no free list
 * belongs to a caller of `my_alloc`. `my_alloc` adds exactly the block it
 * serves to them and `my_free` takes away exactly the block it is given;
 * every other block handed out stays a block, of the same order, on no list,
 * so the caller may free it later.
 */
module Handouts {
  import opened Bits
  import opened Options
  import opened Orders
  import opened Layout
  import opened FreeLists
  import opened Pools
  import opened AllocatorSpec
  import opened Coalescing

  /** The blocks of the partition that are on no free list: those handed out. */
  ghost function Outstanding(P: Pool): set<nat> {
    set p | p in P.blocks && !Listed(P.lists, p)
  }

  /** `init_mem` hands nothing out: its one block is on the list of order n. */
  lemma InitOutstanding(n: nat)
    ensures Outstanding(InitPool(n)) == {}
  {
    var P := InitPool(n);
    forall p | p in P.blocks
      ensures Listed(P.lists, p)
    {
      assert p in P.lists[n];
    }
  }

  /** Every block outside `except` keeps its order. */
  ghost predicate OrdersKept(P: Pool, R: Pool, except: set<nat>) {
    forall x :: x in Outstanding(P) && x !in except ==> x in R.blocks && R.blocks[x] == P.blocks[x]
  }

  /** The two halves of a merge are h and its buddy, the survivor being the lower one. */
  lemma SurvivorPair(h: nat, o: nat)
    requires Aligned(h, o)
    ensures var lo, b := Survivor(h, o), Buddy(h, o);
            (lo == h && lo + Pow2(o) == b) || (lo == b && lo + Pow2(o) == h)
  {
  }

  /** A merge of h with its buddy leaves every other offset's block and listing as they were. */
  lemma MergeElsewhere(P: Pool, h: nat, o: nat, y: nat)
    requires o < |P.lists| && Aligned(h, o) && y != h && y != Buddy(h, o)
    ensures y in MergeStep(P, h, o).blocks <==> y in P.blocks
    ensures y in P.blocks ==> MergeStep(P, h, o).blocks[y] == P.blocks[y]
    ensures Listed(MergeStep(P, h, o).lists, y) <==> Listed(P.lists, y)
  {
    SurvivorPair(h, o);
    RemoveListed(P.lists, o, Buddy(h, o), y);
  }

  /** After a merge, the higher of the two halves starts no block. */
  lemma MergeDropsUpper(blocks: map<nat, nat>, h: nat, o: nat)
    ensures Survivor(h, o) + Pow2(o) !in Merge(blocks, h, o)
  {
  }

  /**
   * One merge of `my_free`: the freed block h and its listed buddy become one
   * block at the lower of the two, on no list; every other block handed out
   * is untouched.
   */
  lemma MergeOutstanding(P: Pool, h: nat, o: nat)
    requires o < |P.lists| && Aligned(h, o) && Buddy(h, o) in P.lists[o]
    ensures Outstanding(MergeStep(P, h, o)) - {Survivor(h, o)} == Outstanding(P) - {h}
    ensures OrdersKept(P, MergeStep(P, h, o), {h})
  {
    var P' := MergeStep(P, h, o);
    var b := Buddy(h, o);
    var lo := Survivor(h, o);
    SurvivorPair(h, o);
    MergeDropsUpper(P.blocks, h, o);
    assert Listed(P.lists, b);
    forall y | y in Outstanding(P') - {lo}
      ensures y in Outstanding(P) - {h}
    {
      MergeElsewhere(P, h, o, y);
    }
    forall y | y in Outstanding(P) - {h}
      ensures y in Outstanding(P') - {lo} && P'.blocks[y] == P.blocks[y]
    {
      MergeElsewhere(P, h, o, y);
    }
  }

  /**
   * `my_free` hands the block h back and nothing else: afterwards the blocks
   * handed out are those before less h, each with the order it had.
   */
  lemma {:induction false} ReleaseOutstanding(P: Pool, n: nat, h: nat, o: nat)
    requires Tiling(P.blocks, n) && Filed(P) && |P.lists| == n + 1
    requires h in P.blocks && P.blocks[h] == o && !Listed(P.lists, h)
    ensures o <= n
    ensures Outstanding(Release(P, h, o)) == Outstanding(P) - {h}
    ensures OrdersKept(P, Release(P, h, o), {h})
    decreases n - o
  {
    OrderBound(P.blocks, n, h);
    if o < n && Buddy(h, o) in P.lists[o] {
      var P' := MergeStep(P, h, o);
      var lo := Survivor(h, o);
      MergeKeeps(P, n, h, o);
      MergeOutstanding(P, h, o);
      ReleaseMerges(P, h, o, P', lo, o + 1);
      ReleaseOutstanding(P', n, lo, o + 1);
    } else {
      ReleaseStops(P, h, o);
      var R := Insert(P, h, o);
      forall y
        ensures Listed(R.lists, y) <==> Listed(P.lists, y) || y == h
      {
        PushListed(P.lists, o, h, y);
      }
    }
  }

  /**
   * Splitting h makes no block but h itself and the upper halves: every
   * block after the split was one before or is h + 2^j for some j from k to
   * o - 1.
   */
  lemma {:induction false} SplitDownKeys(P: Pool, h: nat, o: nat, k: nat)
    requires k <= o < |P.lists| && h in P.blocks
    ensures forall p :: p in SplitDown(P, h, o, k).blocks ==>
              p in P.blocks || exists j :: k <= j < o && p == Upper(h, j)
    decreases o
  {
    if o != k {
      var P' := SplitStep(P, h, o - 1);
      SplitDownKeys(P', h, o - 1, k);
      forall p | p in SplitDown(P, h, o, k).blocks
        ensures p in P.blocks || exists j :: k <= j < o && p == Upper(h, j)
      {
        assert p in SplitDown(P', h, o - 1, k).blocks;
        if p !in P.blocks && p !in P'.blocks {
          var j :| k <= j < o - 1 && p == Upper(h, j);
          assert k <= j < o;
        } else if p !in P.blocks {
          assert p == Upper(h, o - 1);
        }
      }
    }
  }

  /** After splitting h, an offset is listed exactly when it was before or is one of the upper halves. */
  lemma SplitDownListed(U: Pool, h: nat, i: nat, k: nat, x: nat)
    requires k <= i < |U.lists|
    ensures Listed(SplitDown(U, h, i, k).lists, x) <==> Listed(U.lists, x) || exists j :: k <= j < i && x == Upper(h, j)
  {
    var L := SplitDown(U, h, i, k).lists;
    if Listed(U.lists, x) {
      var j :| 0 <= j < |U.lists| && x in U.lists[j];
      assert x in L[j];
    }
    if exists j :: k <= j < i && x == Upper(h, j) {
      var j :| k <= j < i && x == Upper(h, j);
      assert x in L[j];
    }
    if Listed(L, x) {
      var j :| 0 <= j < |L| && x in L[j];
      if !(k <= j < i && x == Upper(h, j)) {
        assert x in U.lists[j];
      }
    }
  }

  /**
   * `split_free_block` on a block h taken off its list hands nothing out:
   * the upper halves it makes are all listed, so the blocks on no list are
   * those before, each with the order it had unless it is h.
   */
  lemma SplitDownOutstanding(U: Pool, n: nat, h: nat, i: nat, k: nat)
    requires k <= i < |U.lists| && Tiling(U.blocks, n) && h in U.blocks && U.blocks[h] == i
    ensures Outstanding(SplitDown(U, h, i, k)) == Outstanding(U)
    ensures OrdersKept(U, SplitDown(U, h, i, k), {h})
  {
    var R := SplitDown(U, h, i, k);
    SplitDownKeys(U, h, i, k);
    SplitDownCreates(U, n, h, i, k);
    SplitDownTiling(U, n, h, i, k);
    UpperHalvesFree(U.blocks, n, h, i);
    forall y | y in Outstanding(R)
      ensures y in Outstanding(U)
    {
      SplitDownListed(U, h, i, k, y);
    }
    forall y | y in Outstanding(U)
      ensures y in Outstanding(R)
    {
      SplitDownListed(U, h, i, k, y);
    }
  }

  /**
   * `get_free_block` hands out exactly the block it returns, which was not
   * handed out before; every block already handed out keeps its order.
   */
  lemma AcquireOutstanding(P: Pool, s: seq<Header>, heads: seq<int>, n: nat, k: nat)
    requires Sound(P, s, heads, n, Nil) && k <= n
    ensures match Acquire(P, k)
            case None => true
            case Some((h, P')) =>
              h !in Outstanding(P) && Outstanding(P') == Outstanding(P) + {h} && OrdersKept(P, P', {})
  {
    match Acquire(P, k)
    case None =>
    case Some((h, P')) =>
      var i := if P.lists[k] != [] then k else FirstFrom(P.lists, k + 1).value;
      assert h == P.lists[i][0] && h in P.lists[i];
      var U := Unlist(P, i, h);
      OnlyList(P, s, heads, n, Nil, h, i);
      forall y
        ensures y != h ==> (Listed(U.lists, y) <==> Listed(P.lists, y))
        ensures !Listed(U.lists, h)
      {
        RemoveListed(P.lists, i, h, y);
      }
      assert Outstanding(U) == Outstanding(P) + {h};
      if i != k {
        SplitDownOutstanding(U, n, h, i, k);
      }
  }

  /**
   * `my_alloc` hands out exactly the block whose memory it returns, which was
   * not handed out before, and keeps the order of every block already handed
   * out; when it returns NULL, nothing changes.
   */
  lemma AllocateOutstanding(P: Pool, s: seq<Header>, heads: seq<int>, req: nat, hs: nat, top: nat)
    requires top >= 1 && Sound(P, s, heads, top, Nil)
    ensures var (q, P') := Allocate(P, req, hs, top);
            match q
            case None => P' == P
            case Some(a) =>
              a - hs !in Outstanding(P) && Outstanding(P') == Outstanding(P) + {a - hs} && OrdersKept(P, P', {})
  {
    var k := RequestOrder(req, hs, top);
    if k.Some? {
      AcquireOutstanding(P, s, heads, top, k.value);
    }
  }

  /**
   * Once nothing is handed out any more, whatever the order of the frees,
   * the pool is the one `init_mem` builds, with its list heads and header.
   */
  lemma NothingOutstanding(P: Pool, s: seq<Header>, heads: seq<int>, n: nat)
    requires Sound(P, s, heads, n, Nil) && Coalesced(P, n) && Outstanding(P) == {}
    ensures P == InitPool(n) && heads == InitHeads(n) && s[0] == InitHeader(n)
  {
    forall p | p in P.blocks
      ensures Listed(P.lists, p)
    {
      assert p !in Outstanding(P);
    }
    AllFreeIsInitial(P, s, heads, n);
  }
}
