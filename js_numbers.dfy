/** JavaScript's integer conversions used by the game: `v | 0` truncates toward
    zero and then wraps the result into a signed 32-bit integer. */
module JsNumbers {

  const TwoTo31: int := 0x8000_0000
  const TwoTo32: int := 0x1_0000_0000

  /** Truncation toward zero (not floor): -0.5 truncates to 0. */
  function Trunc(v: real): (n: int)
    ensures 0.0 <= v ==> 0 <= n && n as real <= v < n as real + 1.0
    ensures v < 0.0 ==> n <= 0 && n as real - 1.0 < v <= n as real
  {
    if v >= 0.0 then v.Floor else -((-v).Floor)
  }

  /** Reduction of an integer into the signed 32-bit range, as ToInt32 does. */
  function Wrap32(n: int): (w: int)
    ensures -TwoTo31 <= w < TwoTo31
    ensures (w - n) % TwoTo32 == 0
    ensures -TwoTo31 <= n < TwoTo31 ==> w == n
  {
    (n + TwoTo31) % TwoTo32 - TwoTo31
  }

  /** `v | 0` for a finite number `v`. */
  function ToInt32(v: real): (n: int)
    ensures -TwoTo31 <= n < TwoTo31
    ensures -(TwoTo31 as real) < v < TwoTo31 as real ==> n == Trunc(v)
  {
    Wrap32(Trunc(v))
  }

  /** Wrapping never changes a value's remainder modulo 8, since 8 divides 2^32. */
  lemma Wrap32KeepsResidue(n: int)
    ensures Wrap32(n) % 8 == n % 8
  {
    var w := Wrap32(n);
    var q := (n + TwoTo31) / TwoTo32;
    assert w == n - q * TwoTo32;
    assert q * TwoTo32 == 8 * (q * 0x2000_0000);
  }
}
