/**
 * The order calculator: the size class a request falls into, as the
 * allocator's `block_order` loop computes it.
 */
module Orders {
  import opened Bits
  import opened Options

  /**
   * The least order k >= 1 whose block size exceeds n (n <= 2^k - 1).
   * The comparison is strict: a request of exactly 2^k bytes gets order k + 1.
   */
  function OrderFor(n: nat): (k: nat)
    ensures k >= 1 && n < Pow2(k)
    ensures k == 1 || Pow2(k - 1) <= n
  {
    if n <= 1 then 1 else 1 + OrderFor(n / 2)
  }

  /** OrderFor(n) is below every order k >= 1 whose block size exceeds n. */
  lemma OrderForLeast(n: nat, k: nat)
    requires k >= 1 && n < Pow2(k)
    ensures OrderFor(n) <= k
  {
  }

  /** The two contract clauses of OrderFor single out one order. */
  lemma OrderForUnique(n: nat, k: nat)
    requires k >= 1 && n < Pow2(k)
    requires k == 1 || Pow2(k - 1) <= n
    ensures k == OrderFor(n)
  {
    var m := OrderFor(n);
    OrderForLeast(n, k);
    if m < k {
      Pow2Monotone(m, k - 1);
    }
  }

  /** A larger request never gets a smaller order. */
  lemma OrderForMonotone(x: nat, y: nat)
    requires x <= y
    ensures OrderFor(x) <= OrderFor(y)
  {
    OrderForLeast(x, OrderFor(y));
  }

  /** A request fits an arena of order top exactly when it is smaller than 2^top. */
  lemma OrderForFits(n: nat, top: nat)
    requires top >= 1
    ensures OrderFor(n) <= top <==> n < Pow2(top)
  {
    if n < Pow2(top) {
      OrderForLeast(n, top);
    } else if OrderFor(n) <= top {
      Pow2Monotone(OrderFor(n), top);
    }
  }

  /**
   * The loop of `block_order`: acc runs through 2^order - 1 and the loop stops
   * at the first order with n <= acc. `(acc << 1) | 1` is 2 * acc + 1; for a
   * size_t argument acc never exceeds 2^64 - 1, so it does not wrap.
   */
  method BlockOrder(n: nat) returns (order: nat)
    ensures order >= 1 && n <= Pow2(order) - 1
    ensures order == 1 || Pow2(order - 1) <= n
    ensures order == OrderFor(n)
  {
    order := 1;
    var acc: nat := 1;
    while n > acc
      invariant order >= 1 && acc == Pow2(order) - 1
      invariant order == 1 || Pow2(order - 1) <= n
      decreases n - acc
    {
      acc := 2 * acc + 1;
      order := order + 1;
    }
    OrderForUnique(n, order);
  }

  /**
   * The order `my_alloc` asks for when the caller requests n bytes and every
   * block carries a header of hs bytes, or None when the request is refused:
   * a zero-byte request, or one whose block would not fit an arena of order top.
   */
  function RequestOrder(n: nat, hs: nat, top: nat): (r: Option<nat>)
    requires top >= 1
    ensures r.None? <==> n == 0 || n + hs >= Pow2(top)
    ensures r.Some? ==> r.value <= top && n + hs < Pow2(r.value)
  {
    OrderForFits(n + hs, top);
    if n == 0 then None
    else
      var k := OrderFor(n + hs);
      if k > top then None else Some(k)
  }

  /** A non-zero request is served at the order OrderFor gives it when that order fits, and refused otherwise. */
  lemma RequestOrderOf(n: nat, hs: nat, top: nat, k: nat)
    requires top >= 1 && n > 0 && k == OrderFor(n + hs)
    ensures k > top ==> RequestOrder(n, hs, top).None?
    ensures k <= top ==> RequestOrder(n, hs, top).Some? && RequestOrder(n, hs, top).value == k
  {
  }

  /** size_t is 64 bits wide: its arithmetic is modulo 2^64. */
  const SIZE_MODULUS: nat := 0x1_0000_0000_0000_0000
  const SIZE_MAX: nat := SIZE_MODULUS - 1

  /** The order `my_alloc` computes as written: n + sizeof(header_t) is a size_t sum and wraps. */
  function RequestOrderAsWritten(n: nat, hs: nat): (r: nat)
    requires n <= SIZE_MAX && hs <= SIZE_MAX
    ensures n + hs < SIZE_MODULUS ==> r == OrderFor(n + hs)
    ensures n + hs >= SIZE_MODULUS ==> r == OrderFor(n + hs - SIZE_MODULUS) && Pow2(r) <= 2 * (n + hs - SIZE_MODULUS) + 2
  {
    var w := (n + hs) % SIZE_MODULUS;
    assert w == if n + hs < SIZE_MODULUS then n + hs else n + hs - SIZE_MODULUS;
    OrderFor(w)
  }

  /**
   * The wrap-around makes the largest request get a block smaller than the
   * request: for SIZE_MAX bytes and any header size below 2^63, the sum wraps to
   * hs - 1 and the order chosen gives a block of at most 2 * hs bytes.
   */
  lemma WrappedRequestUndersized(hs: nat)
    requires 1 <= hs < SIZE_MODULUS / 2
    ensures RequestOrderAsWritten(SIZE_MAX, hs) == OrderFor(hs - 1)
    ensures Pow2(RequestOrderAsWritten(SIZE_MAX, hs)) <= 2 * hs < SIZE_MAX + hs
  {
    assert (SIZE_MAX + hs) % SIZE_MODULUS == hs - 1;
  }
}
