/** The sun's horizontal path in the frame loop: the scaled clock is folded into
    `[0, 2)` by `fmod`, turned into a ping-pong parameter in `[0, 1]` and mapped
    linearly onto `[-sunPathRadius, sunPathRadius]`. Single-precision arithmetic is
    modelled as exact real arithmetic. */
module SunPath {

  const DayNightCycleSpeed: real := 0.05
  const SunPathRadius: real := 5.0

  function Abs(x: real): real
  {
    if x < 0.0 then -x else x
  }

  /** Rounds toward zero. */
  function Trunc(x: real): (n: int)
    ensures 0.0 <= x ==> n as real <= x < n as real + 1.0
    ensures x < 0.0 ==> n as real - 1.0 < x <= n as real
  {
    if x >= 0.0 then x.Floor else -((-x).Floor)
  }

  /** C `fmod(x, y)` for a positive divisor: the remainder of `x` after removing a
      whole number of `y`s, the quotient truncated toward zero, so it has the sign of `x`. */
  function FMod(x: real, y: real): (r: real)
    requires 0.0 < y
    ensures ((x - r) / y).Floor as real == (x - r) / y
    ensures 0.0 <= x ==> 0.0 <= r < y
    ensures x < 0.0 ==> -y < r <= 0.0
  {
    var n := Trunc(x / y);
    FModFacts(x, y, n);
    x - (n as real) * y
  }

  /** What `FMod` promises, for the remainder left by the truncated quotient `n`. */
  lemma FModFacts(x: real, y: real, n: int)
    requires 0.0 < y && n == Trunc(x / y)
    ensures var r := x - (n as real) * y;
      && ((x - r) / y).Floor as real == (x - r) / y
      && (0.0 <= x ==> 0.0 <= r < y)
      && (x < 0.0 ==> -y < r <= 0.0)
  {
    var r := x - (n as real) * y;
    ProductQuotient(n as real, y);
    assert x - r == (n as real) * y;
    assert (x - r) / y == n as real;
    FModBounds(x, y, n);
  }

  lemma ProductQuotient(a: real, y: real)
    requires y != 0.0
    ensures (a * y) / y == a
  {
  }

  lemma FModBounds(x: real, y: real, n: int)
    requires 0.0 < y && n == Trunc(x / y)
    ensures var r := x - (n as real) * y;
      (0.0 <= x ==> 0.0 <= r < y) && (x < 0.0 ==> -y < r <= 0.0)
  {
    QuotientSign(x, y);
    TruncatedPartBounds(x, y, x / y, n);
  }

  /** What truncating the quotient `q = x / y` drops, scaled back by `y`, is less than
      one `y` and has the sign of `q`. */
  lemma TruncatedPartBounds(x: real, y: real, q: real, n: int)
    requires 0.0 < y && q * y == x && n == Trunc(q)
    ensures 0.0 <= q ==> 0.0 <= x - (n as real) * y < y
    ensures q < 0.0 ==> -y < x - (n as real) * y <= 0.0
  {
    var d := q - (n as real);
    assert x - (n as real) * y == d * y;
    if 0.0 <= q {
      FractionBelow(x - (n as real) * y, d, y);
    } else {
      FractionAbove(x - (n as real) * y, d, y);
    }
  }

  /** A fraction in `[0, 1)` of a positive length `y` is shorter than `y`. */
  lemma FractionBelow(e: real, d: real, y: real)
    requires 0.0 < y && 0.0 <= d < 1.0 && e == d * y
    ensures 0.0 <= e < y
  {
    assert (1.0 - d) * y == y - d * y;
    assert (1.0 - d) * y > 0.0;
    assert e < y;
  }

  lemma FractionAbove(e: real, d: real, y: real)
    requires 0.0 < y && -1.0 < d <= 0.0 && e == d * y
    ensures -y < e <= 0.0
  {
    FractionBelow(-e, -d, y);
  }

  lemma QuotientSign(x: real, y: real)
    requires 0.0 < y
    ensures (x / y) * y == x
    ensures x < 0.0 <==> x / y < 0.0
  {
    assert (x / y) * y == x;
    if x / y < 0.0 {
      assert (-(x / y)) * y > 0.0;
    } else {
      assert (x / y) * y >= 0.0;
    }
  }

  /** `normalizedTime`: the scaled clock folded into one back-and-forth period. */
  function NormalizedTime(currentTime: real): (t: real)
    ensures 0.0 <= currentTime ==> 0.0 <= t < 2.0
  {
    FMod(currentTime * DayNightCycleSpeed, 2.0)
  }

  /** `pathParam`: rises with `t` on `[0, 1)` and falls back as `2 - t` on `[1, 2)`. */
  function PathParam(t: real): (p: real)
    ensures 0.0 <= t < 2.0 ==> 0.0 <= p <= 1.0
  {
    if t < 1.0 then t else 2.0 - t
  }

  /** `lightX`: linear interpolation from `-radius` at `p = 0` to `radius` at `p = 1`. */
  function LightX(radius: real, p: real): real
  {
    -radius + 2.0 * radius * p
  }

  /** The sun's `lightX` at a given clock reading. */
  function SunLightX(currentTime: real): real
  {
    LightX(SunPathRadius, PathParam(NormalizedTime(currentTime)))
  }

  /** On one period the parameter is the triangle wave `1 - |t - 1|`. */
  lemma PathParamIsTriangleWave(t: real)
    requires 0.0 <= t < 2.0
    ensures PathParam(t) == 1.0 - Abs(t - 1.0)
  {
  }

  /** The path is retraced backwards in the second half of the period. */
  lemma PathParamSymmetric(t: real)
    requires 0.0 < t < 2.0
    ensures PathParam(t) == PathParam(2.0 - t)
  {
  }

  /** Rising on the first half of the period, falling on the second. */
  lemma PathParamMonotone(t1: real, t2: real)
    requires t1 <= t2
    ensures t2 <= 1.0 ==> PathParam(t1) <= PathParam(t2)
    ensures 1.0 <= t1 ==> PathParam(t2) <= PathParam(t1)
  {
  }

  /** Every parameter in `[0, 1]` is reached, on the rising half at `t = p`. */
  lemma PathParamOnto(p: real)
    requires 0.0 <= p <= 1.0
    ensures exists t :: 0.0 <= t < 2.0 && PathParam(t) == p
  {
    if p < 1.0 {
      assert PathParam(p) == p;
    } else {
      assert PathParam(1.0) == 1.0;
    }
  }

  /** `lightX` stays within `[-radius, radius]` and reaches both ends. */
  lemma LightXRange(radius: real, p: real)
    requires 0.0 <= radius && 0.0 <= p <= 1.0
    ensures -radius <= LightX(radius, p) <= radius
    ensures p == 0.0 ==> LightX(radius, p) == -radius
    ensures p == 1.0 ==> LightX(radius, p) == radius
  {
    assert LightX(radius, p) == radius * (2.0 * p - 1.0);
    assert -1.0 <= 2.0 * p - 1.0 <= 1.0;
    if p <= 0.5 {
      assert radius * (2.0 * p - 1.0) <= 0.0;
      assert radius * (2.0 * p - 1.0) >= -radius;
    } else {
      assert radius * (2.0 * p - 1.0) >= 0.0;
      assert radius * (2.0 * p - 1.0) <= radius;
    }
  }

  /** The parameter a given `lightX` was interpolated from. */
  function PathParamOfLightX(radius: real, x: real): real
    requires radius != 0.0
  {
    (x + radius) / (2.0 * radius)
  }

  /** `lightX` is one-to-one in the parameter for a non-zero radius. */
  lemma LightXRoundTrip(radius: real, p: real)
    requires radius != 0.0
    ensures PathParamOfLightX(radius, LightX(radius, p)) == p
  {
    assert LightX(radius, p) + radius == (2.0 * radius) * p;
  }

  /** For any clock reading since start-up the sun stays between `x = -5` and `x = 5`. */
  lemma SunLightXRange(currentTime: real)
    requires 0.0 <= currentTime
    ensures 0.0 <= NormalizedTime(currentTime) < 2.0
    ensures -SunPathRadius <= SunLightX(currentTime) <= SunPathRadius
  {
    var t := NormalizedTime(currentTime);
    LightXRange(SunPathRadius, PathParam(t));
  }

  /** Folding into `[0, 2)` ignores whole periods. */
  lemma FModPeriodic(x: real)
    requires 0.0 <= x
    ensures FMod(x + 2.0, 2.0) == FMod(x, 2.0)
  {
    assert (x + 2.0) / 2.0 == x / 2.0 + 1.0;
    assert ((x + 2.0) / 2.0).Floor == (x / 2.0).Floor + 1;
  }

  /** The sun repeats its sweep every 40 seconds (`2 / dayNightCycleSpeed`). */
  lemma SunLightXPeriodic(currentTime: real)
    requires 0.0 <= currentTime
    ensures SunLightX(currentTime + 40.0) == SunLightX(currentTime)
  {
    assert (currentTime + 40.0) * DayNightCycleSpeed == currentTime * DayNightCycleSpeed + 2.0;
    FModPeriodic(currentTime * DayNightCycleSpeed);
  }
}
