/** Python numeric behaviour over exact reals: `int()` on a float and the
    `max(lo, min(hi, v))` clamp used by the number entities. */
module Numeric {

  /** Python's `int(x)` for a float: truncation toward zero. */
  function Trunc(x: real): (n: int)
    ensures 0.0 <= x ==> 0 <= n && n as real <= x < n as real + 1.0
    ensures x < 0.0 ==> n <= 0 && n as real - 1.0 < x <= n as real
  {
    if x >= 0.0 then x.Floor else -((-x).Floor)
  }

  /** Truncation is symmetric around zero (unlike floor). */
  lemma TruncIsOdd(x: real)
    ensures Trunc(-x) == -Trunc(x)
  {
  }

  /** Truncation never moves a value further from zero, and whole numbers
      are left alone. */
  lemma TruncTowardZero(x: real)
    ensures Trunc(x) as real * Trunc(x) as real <= x * x
    ensures x == x.Floor as real ==> Trunc(x) == x.Floor
  {
    var n := Trunc(x) as real;
    if x >= 0.0 {
      assert 0.0 <= n <= x;
      assert n * n <= n * x <= x * x;
    } else {
      assert x <= n <= 0.0;
      assert n * n <= n * x <= x * x;
    }
  }

  /** `max(lo, min(hi, v))`: the value pushed into `[lo, hi]`; when the
      interval is empty (`hi < lo`) the lower bound wins. */
  function Clamp(lo: real, hi: real, v: real): (r: real)
    ensures lo <= r
    ensures lo <= hi ==> r <= hi
    ensures lo <= v <= hi ==> r == v
    ensures lo <= hi < v ==> r == hi
    ensures v < lo || hi < lo ==> r == lo
  {
    var upper := if hi < v then hi else v;
    if lo < upper then upper else lo
  }

  /** Clamping twice is clamping once. */
  lemma ClampIdempotent(lo: real, hi: real, v: real)
    ensures Clamp(lo, hi, Clamp(lo, hi, v)) == Clamp(lo, hi, v)
  {
  }
}
