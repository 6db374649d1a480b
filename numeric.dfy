/**
 * The scalar helpers of Unity's `Mathf` and .NET's `Math` that the sampling
 * code calls, on mathematical reals (float rounding is not modelled).
 */
module Numeric {

  /** `Mathf.Max` / `Math.Max` on floats. */
  function Max(a: real, b: real): (r: real)
    ensures r >= a && r >= b
    ensures r == a || r == b
  {
    if a >= b then a else b
  }

  /** `Math.Max` / `Mathf.Max` on ints. */
  function MaxInt(a: int, b: int): (r: int)
    ensures r >= a && r >= b
    ensures r == a || r == b
  {
    if a >= b then a else b
  }

  /** `Mathf.Min` on ints. */
  function MinInt(a: int, b: int): (r: int)
    ensures r <= a && r <= b
    ensures r == a || r == b
  {
    if a <= b then a else b
  }

  /** `Mathf.Abs`. */
  function Abs(a: real): (r: real)
    ensures r >= 0.0
    ensures r == a || r == -a
  {
    if a >= 0.0 then a else -a
  }

  /** `Mathf.Clamp01`: the value pinned into [0, 1]. */
  function Clamp01(a: real): (r: real)
    ensures 0.0 <= r <= 1.0
    ensures 0.0 <= a <= 1.0 ==> r == a
    ensures a < 0.0 ==> r == 0.0
    ensures a > 1.0 ==> r == 1.0
  {
    if a < 0.0 then 0.0 else if a > 1.0 then 1.0 else a
  }

  /** The C# cast `(int)x` on a float: truncation toward zero. */
  function Trunc(x: real): (r: int)
    ensures 0.0 <= x ==> 0 <= r && r as real <= x < r as real + 1.0
    ensures x < 0.0 ==> r <= 0 && r as real - 1.0 < x <= r as real
  {
    if x >= 0.0 then x.Floor else -((-x).Floor)
  }

  /** `Mathf.CeilToInt`: the least integer not below `x`. */
  function CeilToInt(x: real): (r: int)
    ensures r as real - 1.0 < x <= r as real
    ensures 0.0 <= x ==> 0 <= r
  {
    -((-x).Floor)
  }

  /** A fraction in [0, 1] of a non-negative span lies within the span. */
  lemma FractionOfSpan(x: real, span: real)
    ensures 0.0 <= x <= 1.0 && span >= 0.0 ==> 0.0 <= x * span <= span
  {
    if 0.0 <= x <= 1.0 && span >= 0.0 {
      var rest := 1.0 - x;
      assert rest * span >= 0.0;
      assert x * span + rest * span == span;
    }
  }
}
