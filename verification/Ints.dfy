/** Fixed-width integers of the trading ledger.
    Prices, holdings and money spent are `u32`, returns are `i64`. A release
    build wraps on overflow; these helpers state that wrap explicitly. */
module Ints {

  const U32_MOD: int := 0x1_0000_0000
  const I64_MOD: int := 0x1_0000_0000_0000_0000
  const I64_MIN: int := -0x8000_0000_0000_0000
  const I64_MAX: int := 0x7FFF_FFFF_FFFF_FFFF

  type U32 = x: int | 0 <= x < U32_MOD
  type I64 = x: int | I64_MIN <= x <= I64_MAX

  /** The `u32` a wrapping `+` or `*` leaves for the exact result `x`. */
  function WrapU32(x: int): (r: U32)
    ensures 0 <= x < U32_MOD ==> r == x
    ensures (x - r) % U32_MOD == 0
  {
    x % U32_MOD
  }

  /** The `i64` a wrapping `+` leaves for the exact result `x`. */
  function WrapI64(x: int): (r: I64)
    ensures I64_MIN <= x <= I64_MAX ==> r == x
    ensures (x - r) % I64_MOD == 0
  {
    (x - I64_MIN) % I64_MOD + I64_MIN
  }

  /** Wrapping an addend first wraps to the same sum. */
  lemma WrapU32Sum(a: int, b: int)
    ensures WrapU32(a + WrapU32(b)) == WrapU32(a + b)
  {
    var m := U32_MOD;
    assert b == (b / m) * m + b % m;
    assert a + b == (a + b % m) + (b / m) * m;
    ModAddMultiple(a + b % m, b / m);
  }

  /** Wrapping a factor first wraps to the same product. */
  lemma WrapU32Product(a: int, b: int)
    ensures WrapU32(WrapU32(a) * b) == WrapU32(a * b)
  {
    var m := U32_MOD;
    var q, r := a / m, a % m;
    assert a == q * m + r;
    MulDistributes(q * m, r, b);
    assert (q * m) * b == (q * b) * m;
    ModAddMultiple(r * b, q * b);
  }

  lemma MulDistributes(x: int, y: int, b: int)
    ensures (x + y) * b == x * b + y * b
  {
  }

  lemma MulNonNegative(a: nat, b: nat)
    ensures 0 <= a * b
  {
  }

  lemma ModAddMultiple(x: int, k: int)
    ensures (x + k * U32_MOD) % U32_MOD == x % U32_MOD
  {
    var m := U32_MOD;
    var q, r := x / m, x % m;
    assert x + k * m == (q + k) * m + r;
  }

  /** One more unit, and one more `p`, on top of wrapped counts. */
  lemma WrapU32Succ(n: nat, p: int)
    requires n > 0
    ensures WrapU32(WrapU32(n - 1) + 1) == WrapU32(n)
    ensures WrapU32(WrapU32((n - 1) * p) + p) == WrapU32(n * p)
  {
    WrapU32Sum(1, n - 1);
    WrapU32Sum(p, (n - 1) * p);
    MulDistributes(n - 1, 1, p);
  }
}
