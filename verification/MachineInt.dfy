/** The fixed-width integers of the C drivers, written out on mathematical integers, and their error codes. */
module MachineInt {

  const TWO_TO_THE_31 := 0x8000_0000
  const TWO_TO_THE_32 := 0x1_0000_0000

  const EIO := -5
  const EBUSY := -16
  const EINVAL := -22
  const ERANGE := -34
  const ETIME := -62
  const ENOTSUP := -134

  datatype Option<T> = None | Some(value: T)

  type byte = bv8
  type uint8 = x: int | 0 <= x < 256
  type uint32 = x: int | 0 <= x < TWO_TO_THE_32

  /** The value an unsigned 32-bit expression has after wrap-around. */
  function U32(x: int): uint32 {
    x % TWO_TO_THE_32
  }

  /** The value a signed 32-bit expression has after two's-complement wrap-around. */
  function I32(x: int): int {
    (x + TWO_TO_THE_31) % TWO_TO_THE_32 - TWO_TO_THE_31
  }

  lemma U32Fits(x: int)
    requires 0 <= x < TWO_TO_THE_32
    ensures U32(x) == x
  {
  }

  lemma I32Fits(x: int)
    requires -TWO_TO_THE_31 <= x < TWO_TO_THE_31
    ensures I32(x) == x
  {
  }

  lemma MulIsMonotone(a: nat, b: nat, k: nat)
    requires a <= b
    ensures a * k <= b * k
  {
  }

  lemma MulDistributes(a: int, b: int, c: int)
    ensures (a + b) * c == a * c + b * c
  {
  }

  lemma MulAssociates(a: int, b: int, c: int)
    ensures a * b * c == a * (b * c)
  {
  }

  function Min(x: int, y: int): int {
    if x <= y then x else y
  }

  function Max(x: int, y: int): int {
    if x <= y then y else x
  }

  function Abs(x: int): nat {
    if x < 0 then -x else x
  }

  /** 2 to the power `n`. */
  function Pow2(n: nat): (r: nat)
    ensures r > 0
  {
    if n == 0 then 1 else 2 * Pow2(n - 1)
  }

  lemma {:induction false} Pow2Adds(m: nat, n: nat)
    ensures Pow2(m + n) == Pow2(m) * Pow2(n)
  {
    if m == 0 {
    } else {
      Pow2Adds(m - 1, n);
      assert Pow2(m + n) == 2 * Pow2(m - 1 + n);
      assert 2 * (Pow2(m - 1) * Pow2(n)) == (2 * Pow2(m - 1)) * Pow2(n);
    }
  }

  lemma MulAtLeast(k: int, d: int)
    requires d > 0
    ensures k >= 1 ==> k * d >= d
    ensures k <= -1 ==> k * d <= -d
  {
  }

  /** Division with remainder, for a quotient and a remainder that are known. */
  lemma DivModOf(q: int, r: int, d: int)
    requires 0 <= r < d
    ensures (q * d + r) / d == q && (q * d + r) % d == r
  {
    var x := q * d + r;
    var k := q - x / d;
    MulAtLeast(k, d);
    assert k * d == q * d - x / d * d;
  }

  lemma Pow2Of32()
    ensures Pow2(32) == TWO_TO_THE_32
  {
    assert Pow2(8) == 256;
    Pow2Adds(8, 8);
    Pow2Adds(16, 16);
  }
}
