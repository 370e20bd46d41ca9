/** Java's 32-bit `int` and the conversions into it that the program performs. */
module JavaInts {

  const INT_MIN: int := -0x8000_0000
  const INT_MAX: int := 0x7fff_ffff

  /** The values of a Java `int`. */
  type Int32 = x: int | -0x8000_0000 <= x <= 0x7fff_ffff

  /** Two's-complement wrap-around of an exact integer result, as Java's `int` arithmetic does it. */
  function Wrap(x: int): (r: Int32)
    ensures INT_MIN <= x <= INT_MAX ==> r == x
    ensures (x - r) % 0x1_0000_0000 == 0
  {
    (x - INT_MIN) % 0x1_0000_0000 + INT_MIN
  }

  /**
   * Java's `(int)` cast of a floating-point value (taken here as an exact real):
   * rounds toward zero and saturates at the bounds of `int`.
   */
  function Truncate(r: real): (n: Int32)
    ensures r >= INT_MAX as real ==> n == INT_MAX
    ensures r <= INT_MIN as real ==> n == INT_MIN
    ensures 0.0 <= r < INT_MAX as real ==> n as real <= r < n as real + 1.0
    ensures INT_MIN as real < r < 0.0 ==> n as real - 1.0 < r <= n as real
    ensures n >= 1 <==> r >= 1.0
  {
    if r >= INT_MAX as real then INT_MAX
    else if r <= INT_MIN as real then INT_MIN
    else if r >= 0.0 then r.Floor
    else -((-r).Floor)
  }

  /** The cast never reverses an order: a larger value casts to a larger or equal `int`. */
  lemma TruncateMonotone(a: real, b: real)
    requires a <= b
    ensures Truncate(a) <= Truncate(b)
  {
    if 0.0 <= a && b < INT_MAX as real {
      assert a.Floor as real <= a <= b < b.Floor as real + 1.0;
    } else if INT_MIN as real < a && b < 0.0 {
      assert (-b).Floor as real <= -b <= -a < (-a).Floor as real + 1.0;
    }
  }
}
