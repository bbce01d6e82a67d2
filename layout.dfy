/**
 * The block partition of the arena [0, 2^n): a map from the offset where a
 * block starts to the block's order. Splitting a block and merging two buddies
 * are operations on this map; the lemmas here show both keep the arena tiled.
 */
module Layout {
  import opened Bits

  /** Each block is aligned to its own size and lies inside the arena [0, 2^n). */
  ghost predicate Inside(blocks: map<nat, nat>, n: nat) {
    forall p :: p in blocks ==> Aligned(p, blocks[p]) && p + Pow2(blocks[p]) <= Pow2(n)
  }

  /** The offset just past the block that starts at p. */
  function Next(blocks: map<nat, nat>, p: nat): nat
    requires p in blocks
  {
    p + Pow2(blocks[p])
  }

  /** A block that ends before the end of the arena is followed by another block. */
  ghost predicate Contiguous(blocks: map<nat, nat>, n: nat) {
    forall p {:trigger Next(blocks, p)} :: p in blocks && Next(blocks, p) < Pow2(n) ==> Next(blocks, p) in blocks
  }

  /** No two blocks overlap. */
  ghost predicate Disjoint(blocks: map<nat, nat>) {
    forall p, q :: p in blocks && q in blocks && p < q ==> p + Pow2(blocks[p]) <= q
  }

  /**
   * The blocks tile the arena: the first starts at offset 0, each is aligned to
   * its own size and lies inside the arena, the next block starts where a block
   * ends, and no two blocks overlap.
   */
  ghost predicate Tiling(blocks: map<nat, nat>, n: nat) {
    0 in blocks && Inside(blocks, n) && Contiguous(blocks, n) && Disjoint(blocks)
  }

  /** The arena before any request: one block of order n at offset 0. */
  lemma InitialTiling(n: nat)
    ensures Tiling(map[0 := n], n)
  {
    AlignedZero(n);
  }

  /** No block is larger than the arena. */
  lemma OrderBound(blocks: map<nat, nat>, n: nat, p: nat)
    requires Tiling(blocks, n) && p in blocks
    ensures blocks[p] <= n
  {
    if blocks[p] > n {
      Pow2Monotone(n, blocks[p]);
    }
  }

  lemma MaxOf(s: set<nat>) returns (m: nat)
    requires s != {}
    ensures m in s && forall t :: t in s ==> t <= m
    decreases s
  {
    var y :| y in s;
    if s == {y} {
      m := y;
    } else {
      var m' := MaxOf(s - {y});
      m := if y < m' then m' else y;
      forall t | t in s
        ensures t <= m
      {
        if t != y {
          assert t in s - {y};
        }
      }
    }
  }

  /** Every byte of the arena lies in some block: the tiling leaves no gap. */
  lemma Covers(blocks: map<nat, nat>, n: nat, x: nat) returns (s: nat)
    requires Tiling(blocks, n) && x < Pow2(n)
    ensures s in blocks && s <= x < s + Pow2(blocks[s])
  {
    var below := set t | t in blocks && t <= x;
    assert 0 in below;
    s := MaxOf(below);
    assert forall t :: t in blocks && t <= x ==> t in below;
    assert x < Next(blocks, s);
  }

  /**
   * The offset of the buddy of the block at pos with the given order:
   * `pos ^ (1 << order)`. For an aligned block it is the other half of the
   * block of order + 1 that contains it.
   */
  function Buddy(pos: nat, order: nat): (b: nat)
    ensures Aligned(pos, order) && Aligned(pos, order + 1) ==> b == pos + Pow2(order)
    ensures Aligned(pos, order) && !Aligned(pos, order + 1) ==>
              b + Pow2(order) == pos && Aligned(b, order + 1)
  {
    if Aligned(pos, order) then XorPow2(pos, order); Xor(pos, Pow2(order))
    else Xor(pos, Pow2(order))
  }

  /** The block two buddies merge into starts at the lower of the two offsets. */
  function Survivor(pos: nat, order: nat): (r: nat)
    ensures Aligned(pos, order) ==>
              Aligned(r, order + 1) && (r == pos || r + Pow2(order) == pos) &&
              {r, r + Pow2(order)} == {pos, Buddy(pos, order)}
  {
    var b := Buddy(pos, order);
    if pos < b then pos else b
  }

  /** Being buddies is symmetric: the buddy of an aligned block is aligned, and its buddy is the block. */
  lemma BuddySymmetric(pos: nat, order: nat)
    requires Aligned(pos, order)
    ensures Aligned(Buddy(pos, order), order) && Buddy(Buddy(pos, order), order) == pos
  {
    var b := Buddy(pos, order);
    if Aligned(pos, order + 1) {
      AlignedPow2(order, order);
      AlignedAdd(pos, Pow2(order), order);
      if Aligned(b, order + 1) {
        AlignedGap(pos, b, order + 1);
        assert false;
      }
    } else {
      AlignedDown(b, order, order + 1);
    }
  }

  /**
   * The buddy of a block smaller than the arena always starts a block of the
   * partition, and that block is no larger. Its header is therefore a live
   * header, never one left behind inside a merged block.
   */
  lemma BuddyIsBlock(blocks: map<nat, nat>, n: nat, h: nat)
    requires Tiling(blocks, n) && h in blocks && blocks[h] < n
    ensures Buddy(h, blocks[h]) in blocks
    ensures Buddy(h, blocks[h]) != h
    ensures blocks[Buddy(h, blocks[h])] <= blocks[h]
  {
    if Aligned(h, blocks[h] + 1) {
      BuddyAbove(blocks, n, h, blocks[h]);
    } else {
      BuddyBelow(blocks, n, h, blocks[h]);
    }
  }

  /** The buddy of a lower half is the block that follows it. */
  lemma BuddyAbove(blocks: map<nat, nat>, n: nat, h: nat, o: nat)
    requires Tiling(blocks, n) && h in blocks && blocks[h] == o && o < n && Aligned(h, o + 1)
    ensures Buddy(h, o) in blocks && Buddy(h, o) != h && blocks[Buddy(h, o)] <= o
  {
    var b := Buddy(h, o);
    AlignedPow2(n, o + 1);
    AlignedGap(h, Pow2(n), o + 1);
    assert b == Next(blocks, h);
    if blocks[b] > o {
      AlignedDown(b, o + 1, blocks[b]);
      AlignedGap(h, b, o + 1);
    }
  }

  /** The buddy of an upper half starts the block that covers the offset just below it. */
  lemma BuddyBelow(blocks: map<nat, nat>, n: nat, h: nat, o: nat)
    requires Tiling(blocks, n) && h in blocks && blocks[h] == o && o < n && !Aligned(h, o + 1)
    ensures Buddy(h, o) in blocks && Buddy(h, o) != h && blocks[Buddy(h, o)] <= o
  {
    var b := Buddy(h, o);
    var s := Covers(blocks, n, b);
    var j := blocks[s];
    if s < b {
      if j <= o {
        AlignedDown(b, j, o + 1);
        AlignedGap(s, b, j);
      } else {
        AlignedDown(s, o + 1, j);
        AlignedPow2(j, o + 1);
        AlignedAdd(s, Pow2(j), o + 1);
        AlignedGap(b, s + Pow2(j), o + 1);
      }
    }
    assert s == b;
    if blocks[b] > o {
      Pow2Monotone(o, blocks[b]);
    }
  }

  /** The partition after the block at h, of order c + 1, is split into two halves of order c. */
  function Split(blocks: map<nat, nat>, h: nat, c: nat): map<nat, nat> {
    blocks[h := c][h + Pow2(c) := c]
  }

  /** Splitting a block in two halves keeps the arena tiled; the upper half starts no block before. */
  lemma SplitKeepsTiling(blocks: map<nat, nat>, n: nat, h: nat, c: nat)
    requires Tiling(blocks, n) && h in blocks && blocks[h] == c + 1
    ensures h + Pow2(c) !in blocks
    ensures Tiling(Split(blocks, h, c), n)
  {
    SplitInside(blocks, n, h, c);
    SplitContiguous(blocks, n, h, c);
    SplitDisjoint(blocks, n, h, c);
  }

  lemma SplitInside(blocks: map<nat, nat>, n: nat, h: nat, c: nat)
    requires Tiling(blocks, n) && h in blocks && blocks[h] == c + 1
    ensures Inside(Split(blocks, h, c), n)
  {
    var q: nat := h + Pow2(c);
    var b' := Split(blocks, h, c);
    AlignedDown(h, c, c + 1);
    AlignedPow2(c, c);
    AlignedAdd(h, Pow2(c), c);
    forall p | p in b'
      ensures Aligned(p, b'[p]) && p + Pow2(b'[p]) <= Pow2(n)
    {
      if p != h && p != q {
        assert b'[p] == blocks[p];
      }
    }
  }

  lemma SplitContiguous(blocks: map<nat, nat>, n: nat, h: nat, c: nat)
    requires Tiling(blocks, n) && h in blocks && blocks[h] == c + 1
    ensures Contiguous(Split(blocks, h, c), n)
  {
    var q: nat := h + Pow2(c);
    var b' := Split(blocks, h, c);
    forall p | p in b' && Next(b', p) < Pow2(n)
      ensures Next(b', p) in b'
    {
      if p == q {
        assert Next(b', p) == Next(blocks, h);
      } else if p != h {
        assert Next(b', p) == Next(blocks, p);
      }
    }
  }

  lemma SplitDisjoint(blocks: map<nat, nat>, n: nat, h: nat, c: nat)
    requires Tiling(blocks, n) && h in blocks && blocks[h] == c + 1
    ensures Disjoint(Split(blocks, h, c))
  {
    var q: nat := h + Pow2(c);
    var b' := Split(blocks, h, c);
    forall p, r | p in b' && r in b' && p < r
      ensures p + Pow2(b'[p]) <= r
    {
      if p == h {
        if r != q {
          assert h + Pow2(blocks[h]) <= r;
        }
      } else if p == q {
        assert r in blocks && h < r;
        assert h + Pow2(blocks[h]) <= r;
      } else {
        assert p in blocks && b'[p] == blocks[p];
        if r == q {
          assert p < h;
        }
      }
    }
  }

  /** The partition after the block at h, of order o, merges with its buddy. */
  function Merge(blocks: map<nat, nat>, h: nat, o: nat): map<nat, nat> {
    var lo := Survivor(h, o);
    (blocks - {lo + Pow2(o)})[lo := o + 1]
  }

  /** Merging a block with a free buddy of the same order keeps the arena tiled. */
  lemma MergeKeepsTiling(blocks: map<nat, nat>, n: nat, h: nat)
    requires Tiling(blocks, n) && h in blocks && blocks[h] < n
    requires Buddy(h, blocks[h]) in blocks && blocks[Buddy(h, blocks[h])] == blocks[h]
    ensures Tiling(Merge(blocks, h, blocks[h]), n)
  {
    var o := blocks[h];
    var lo := Survivor(h, o);
    var hi: nat := lo + Pow2(o);
    assert lo in blocks && hi in blocks && blocks[lo] == o && blocks[hi] == o;
    assert 0 != hi;
    MergeInside(blocks, n, lo, o);
    MergeContiguous(blocks, n, lo, o);
    MergeDisjoint(blocks, n, lo, o);
  }

  lemma MergeInside(blocks: map<nat, nat>, n: nat, lo: nat, o: nat)
    requires Tiling(blocks, n) && lo in blocks && lo + Pow2(o) in blocks
    requires blocks[lo] == o && blocks[lo + Pow2(o)] == o && Aligned(lo, o + 1)
    ensures Inside((blocks - {lo + Pow2(o)})[lo := o + 1], n)
  {
  }

  lemma MergeContiguous(blocks: map<nat, nat>, n: nat, lo: nat, o: nat)
    requires Tiling(blocks, n) && lo in blocks && lo + Pow2(o) in blocks
    requires blocks[lo] == o && blocks[lo + Pow2(o)] == o
    ensures Contiguous((blocks - {lo + Pow2(o)})[lo := o + 1], n)
  {
    var hi: nat := lo + Pow2(o);
    var b' := (blocks - {hi})[lo := o + 1];
    forall p | p in b' && Next(b', p) < Pow2(n)
      ensures Next(b', p) in b'
    {
      if p == lo {
        assert Next(b', p) == Next(blocks, hi);
      } else {
        assert p in blocks && p != hi && b'[p] == blocks[p];
        var e := Next(blocks, p);
        assert e in blocks;
        if p < lo {
          assert e <= lo;
        } else {
          assert lo + Pow2(blocks[lo]) <= p;
        }
      }
    }
  }

  lemma MergeDisjoint(blocks: map<nat, nat>, n: nat, lo: nat, o: nat)
    requires Tiling(blocks, n) && lo in blocks && lo + Pow2(o) in blocks
    requires blocks[lo] == o && blocks[lo + Pow2(o)] == o
    ensures Disjoint((blocks - {lo + Pow2(o)})[lo := o + 1])
  {
    var hi: nat := lo + Pow2(o);
    var b' := (blocks - {hi})[lo := o + 1];
    forall p, r | p in b' && r in b' && p < r
      ensures p + Pow2(b'[p]) <= r
    {
      assert r in blocks;
      if p == lo {
        assert hi < r;
        assert hi + Pow2(blocks[hi]) <= r;
        assert Pow2(o + 1) == 2 * Pow2(o);
      } else {
        assert p in blocks && b'[p] == blocks[p];
      }
    }
  }

  /**
   * Once merging reaches the whole arena, the only block starts at 0 and the
   * buddy offset computed from it is 2^n, one past the end of the arena.
   */
  lemma WholeArenaBuddyOutside(blocks: map<nat, nat>, n: nat, h: nat)
    requires Tiling(blocks, n) && h in blocks && blocks[h] == n
    ensures h == 0 && Buddy(h, n) == Pow2(n)
  {
  }
}
