/**
 * Address arithmetic of the arena: powers of two, alignment of an offset to a
 * block size, and the bitwise exclusive-or that locates a block's buddy.
 *
 * Alignment is stated on the low bits of an offset (halving by 2 at each step)
 * so that every proof here stays within linear arithmetic.
 */
module Bits {

  /** 2^k, the size in bytes of a block of order k. */
  function Pow2(k: nat): (r: nat)
    ensures r >= 1
  {
    if k == 0 then 1 else 2 * Pow2(k - 1)
  }

  lemma {:induction false} Pow2Monotone(i: nat, j: nat)
    requires i <= j
    ensures Pow2(i) <= Pow2(j)
    ensures i < j ==> 2 * Pow2(i) <= Pow2(j)
    decreases j
  {
    if i < j {
      Pow2Monotone(i, j - 1);
    }
  }

  /** The offset p is a multiple of 2^k: its k lowest bits are zero. */
  predicate Aligned(p: nat, k: nat)
    decreases k
  {
    k == 0 || (p % 2 == 0 && Aligned(p / 2, k - 1))
  }

  lemma AlignedZero(k: nat)
    ensures Aligned(0, k)
  {
  }

  /** Alignment to a larger block size implies alignment to every smaller one. */
  lemma {:induction false} AlignedDown(p: nat, j: nat, k: nat)
    requires j <= k && Aligned(p, k)
    ensures Aligned(p, j)
    decreases j
  {
    if j > 0 {
      AlignedDown(p / 2, j - 1, k - 1);
    }
  }

  /** 2^j is aligned to every order up to j. */
  lemma {:induction false} AlignedPow2(j: nat, k: nat)
    requires k <= j
    ensures Aligned(Pow2(j), k)
    decreases k
  {
    if k > 0 {
      AlignedPow2(j - 1, k - 1);
      assert Pow2(j) == 2 * Pow2(j - 1);
    }
  }

  lemma {:induction false} AlignedAdd(p: nat, q: nat, k: nat)
    requires Aligned(p, k) && Aligned(q, k)
    ensures Aligned(p + q, k)
    decreases k
  {
    if k > 0 {
      AlignedAdd(p / 2, q / 2, k - 1);
      assert (p + q) / 2 == p / 2 + q / 2;
    }
  }

  /**
   * Two distinct offsets aligned to 2^k are at least 2^k apart: blocks of
   * order k starting at aligned offsets never overlap.
   */
  lemma {:induction false} AlignedGap(p: nat, q: nat, k: nat)
    requires Aligned(p, k) && Aligned(q, k) && p < q
    ensures p + Pow2(k) <= q
    decreases k
  {
    if k > 0 {
      AlignedGap(p / 2, q / 2, k - 1);
    }
  }

  /**
   * Bitwise exclusive-or of two naturals, bit by bit from the lowest: it is
   * zero exactly for equal operands.
   */
  function Xor(a: nat, b: nat): (r: nat)
    ensures r == 0 <==> a == b
    decreases a + b
  {
    if a == 0 then b
    else if b == 0 then a
    else
      var x := Xor(a / 2, b / 2);
      var d := if a % 2 == b % 2 then 0 else 1;
      assert a == 2 * (a / 2) + a % 2 && b == 2 * (b / 2) + b % 2;
      2 * x + d
  }

  /**
   * For an offset aligned to 2^o, flipping bit o either moves up by 2^o (the
   * offset is the lower half of a block of order o + 1) or down by 2^o (it is
   * the upper half, and the result is the aligned lower half).
   */
  lemma {:induction false} XorPow2(p: nat, o: nat)
    requires Aligned(p, o)
    ensures Aligned(p, o + 1) ==> Xor(p, Pow2(o)) == p + Pow2(o)
    ensures !Aligned(p, o + 1) ==>
              p >= Pow2(o) && Xor(p, Pow2(o)) == p - Pow2(o) && Aligned(p - Pow2(o), o + 1)
    decreases o
  {
    if o == 0 {
      if p > 0 {
        assert Xor(p / 2, 0) == p / 2;
      }
    } else if p == 0 {
      AlignedZero(o + 1);
    } else {
      assert Pow2(o) / 2 == Pow2(o - 1) && Pow2(o) % 2 == 0;
      XorPow2(p / 2, o - 1);
      if !Aligned(p, o + 1) {
        assert (p - Pow2(o)) / 2 == p / 2 - Pow2(o - 1);
      }
    }
  }
}
