/** Single-precision values as the scene's buffers store them. Finite values are
    modelled as exact reals (rounding is not modelled); the non-finite values are kept
    because the sphere generator divides by its own sector and stack counts: its
    texture coordinates are such quotients, computed here by `Quotient`, and its
    positions and normals arrive already as `Float`s. */
module Floats {

  datatype Float = Finite(value: real) | NaN | Infinity(negative: bool)

  /** `(float)a / b` for integers `a` and `b`: the exact quotient when `b` is not
      zero, and the IEEE-754 result of dividing by `+0.0` otherwise. */
  function Quotient(a: int, b: int): (r: Float)
    ensures r.Finite? <==> b != 0
    ensures r.Finite? ==> r.value * (b as real) == a as real
    ensures r.NaN? <==> b == 0 && a == 0
    ensures r.Infinity? ==> r.negative == (a < 0)
  {
    if b != 0 then Finite(a as real / b as real)
    else if a == 0 then NaN
    else Infinity(a < 0)
  }

  /** A quotient of a count by a larger positive count is a coordinate in [0, 1]. */
  lemma QuotientInUnitRange(a: int, b: int)
    requires 0 <= a <= b && 0 < b
    ensures Quotient(a, b).Finite?
    ensures 0.0 <= Quotient(a, b).value <= 1.0
    ensures a == 0 ==> Quotient(a, b).value == 0.0
    ensures a == b ==> Quotient(a, b).value == 1.0
  {
  }
}
