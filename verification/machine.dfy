/** Fixed-width C++ integers as mathematical integers with explicit wrap-around. */
module Machine {

  const TWO32: int := 0x1_0000_0000
  const TWO31: int := 0x8000_0000

  /** `uint32_t` */
  type uint32 = x: int | 0 <= x < 0x1_0000_0000

  /** `int` (32-bit, two's complement) */
  type int32 = x: int | -0x8000_0000 <= x < 0x8000_0000

  /** A page size the simulator can divide by: a positive `int`. */
  type PageSize = x: int | 0 < x < 0x8000_0000 witness 1

  /** The value an unsigned 32-bit result holds: arithmetic modulo 2^32. */
  function WrapU32(x: int): (r: uint32)
    ensures 0 <= x < TWO32 ==> r == x
    ensures (x - r) % TWO32 == 0
  {
    x % TWO32
  }

  /** The `int` that a 32-bit pattern denotes: the value congruent to x modulo 2^32 in [-2^31, 2^31). */
  function WrapI32(x: int): (r: int32)
    ensures -TWO31 <= x < TWO31 ==> r == x
    ensures (x - r) % TWO32 == 0
  {
    var m := x % TWO32;
    if m < TWO31 then m else m - TWO32
  }

  /** Wrapping a value at most one 2^32 away from the `uint32_t` range adds or removes one 2^32. */
  lemma WrapU32Near(x: int)
    requires -TWO32 <= x <= TWO32
    ensures WrapU32(x) == (if x < 0 then x + TWO32 else if x == TWO32 then 0 else x)
  {
  }

  lemma MulSucc(q: int, b: int)
    ensures (q + 1) * b == q * b + b
  {
  }

  /** Congruent values wrap to the same `int`. */
  lemma WrapI32Congruent(x: int, y: int)
    requires (x - y) % TWO32 == 0
    ensures WrapI32(x) == WrapI32(y)
  {
    var q := (x - y) / TWO32;
    assert x == y + q * TWO32;
    assert x % TWO32 == y % TWO32 by { ModShift(y, q); }
  }

  lemma ModShift(y: int, q: int)
    ensures (y + q * TWO32) % TWO32 == y % TWO32
  {
    var r := y % TWO32;
    var d := y / TWO32;
    assert y == d * TWO32 + r;
    assert y + q * TWO32 == (d + q) * TWO32 + r;
  }

  /**
   * Subtracting an unsigned value from an `int` and storing the result back into an `int`
   * can wrap at every step, but the final value only depends on the mathematical difference.
   */
  lemma WrapI32Sub(x: int, s: int)
    ensures WrapI32(WrapI32(x) - s) == WrapI32(x - s)
  {
    var w := WrapI32(x);
    assert ((w - s) - (x - s)) % TWO32 == 0 by {
      assert (w - s) - (x - s) == -(x - w);
      NegMultiple(x - w);
    }
    WrapI32Congruent(w - s, x - s);
  }

  lemma NegMultiple(d: int)
    requires d % TWO32 == 0
    ensures (-d) % TWO32 == 0
  {
    var q := d / TWO32;
    assert d == q * TWO32;
    assert -d == (-q) * TWO32;
  }

  /** Distinct unsigned values denote distinct `int`s. */
  lemma WrapI32InjectiveOnU32(x: uint32, y: uint32)
    ensures x != y ==> WrapI32(x) != WrapI32(y)
  {
  }

  /** Unsigned arithmetic may wrap at each step or only at the end: the result is the same. */
  lemma WrapU32Add(x: int, d: int)
    ensures WrapU32(WrapU32(x) + d) == WrapU32(x + d)
  {
    var q := x / TWO32;
    assert x == WrapU32(x) + q * TWO32;
    ModShift(WrapU32(x) + d, q);
  }

  /** The quotient and remainder of a division by a positive divisor. */
  lemma QuotientBounds(a: nat, b: int)
    requires b > 0
    ensures a == (a / b) * b + a % b && 0 <= a % b < b
    ensures 0 <= a / b <= a
    ensures (a / b) * b <= a < (a / b + 1) * b
    ensures b >= 2 ==> a / b <= a / 2
  {
    var q, m := a / b, a % b;
    assert a == q * b + m && 0 <= m < b;
    MulAwayFromZero(q, b);
    assert q >= 0;
    MulAtLeastFactor(q, b);
    assert (q + 1) * b == q * b + b;
    if b >= 2 {
      MulAtLeastFactor(q, b - 1);
      assert q * b == q * (b - 1) + q;
    }
  }

  lemma MulAtLeastFactor(x: int, b: int)
    requires x >= 0 && b >= 1
    ensures x * b >= x
  {
    assert x * b == x + x * (b - 1);
  }

  /** A value written as f * b + o with 0 <= o < b divides back into f and o. */
  lemma DivModOfMultiple(f: int, b: int, o: int)
    requires b > 0 && 0 <= o < b
    ensures (f * b + o) / b == f && (f * b + o) % b == o
  {
    var r := f * b + o;
    var q, m := r / b, r % b;
    assert r == q * b + m;
    assert (q - f) * b == o - m;
    MulAwayFromZero(q - f, b);
  }

  lemma MulAwayFromZero(x: int, b: int)
    requires b > 0
    ensures x >= 1 ==> x * b >= b
    ensures x <= -1 ==> x * b <= -b
  {
  }
}
