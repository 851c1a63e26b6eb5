/** Numeric helpers shared by the game rules: the `clamp` and `randomRange`
    utilities of the game and the `Math.min`/`Math.max`/`Math.round`
    built-ins the rules are written with. */
module Utils {

  function Min(a: real, b: real): real { if a <= b then a else b }

  function Max(a: real, b: real): real { if a >= b then a else b }

  /** `clamp(value, min, max)`, written as `Math.max(min, Math.min(max, value))`:
      when the bounds are inverted the lower bound wins. */
  function Clamp(v: real, lo: real, hi: real): (r: real)
    ensures r >= lo
    ensures lo <= hi ==> lo <= r <= hi
    ensures lo <= v <= hi ==> r == v
    ensures lo <= hi && v < lo ==> r == lo
    ensures lo <= hi && hi < v ==> r == hi
    ensures hi < lo ==> r == lo
  {
    Max(lo, Min(hi, v))
  }

  /** Clamping twice is clamping once. */
  lemma ClampIdempotent(v: real, lo: real, hi: real)
    ensures Clamp(Clamp(v, lo, hi), lo, hi) == Clamp(v, lo, hi)
  {
  }

  /** `randomRange(min, max)` with the draw of `Math.random()` passed in as `u`. */
  function RandomRange(lo: real, hi: real, u: real): (x: real)
    ensures 0.0 <= u < 1.0 && lo < hi ==> lo <= x < hi
    ensures 0.0 <= u < 1.0 && lo == hi ==> x == lo
  {
    RangeBound(lo, hi, u);
    u * (hi - lo) + lo
  }

  lemma RangeBound(lo: real, hi: real, u: real)
    ensures 0.0 <= u < 1.0 && lo < hi ==> 0.0 <= u * (hi - lo) < hi - lo
  {
    if 0.0 <= u < 1.0 && lo < hi {
      var w := hi - lo;
      MulPositive(1.0 - u, w);
      assert w - u * w == (1.0 - u) * w;
      assert u * w < w;
      MulNonNegative(u, w);
      assert u * (hi - lo) < hi - lo;
    }
  }

  lemma MulPositive(a: real, b: real)
    requires a > 0.0 && b > 0.0
    ensures a * b > 0.0
  {
  }

  lemma MulNonNegative(a: real, b: real)
    ensures a >= 0.0 && b >= 0.0 ==> a * b >= 0.0
  {
  }

  /** A value of `Math.random()`: in [0, 1). */
  predicate IsDraw(u: real) { 0.0 <= u < 1.0 }

  /** `Math.round`: the nearest integer, halves rounded towards positive infinity. */
  function Round(x: real): (n: int)
    ensures x - 0.5 < n as real <= x + 0.5
  {
    (x + 0.5).Floor
  }

  /** Rounding a positive value can still give zero. */
  lemma RoundOfSmallPositiveIsZero(x: real)
    requires 0.0 < x < 0.5
    ensures Round(x) == 0
  {
  }
}
