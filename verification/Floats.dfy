/** Go's float64 as the projection code uses it: a real number or NaN.
    Comparisons with NaN are false and arithmetic on NaN gives NaN, as in IEEE 754;
    rounding and infinities are not modelled. */
module Floats {

  datatype Float = NaN | Num(r: real)

  predicate Less(a: Float, b: Float) {
    a.Num? && b.Num? && a.r < b.r
  }

  predicate Equal(a: Float, b: Float) {
    a.Num? && b.Num? && a.r == b.r
  }

  predicate Positive(a: Float) {
    a.Num? && a.r > 0.0
  }

  function Add(a: Float, b: Float): Float {
    if a.Num? && b.Num? then Num(a.r + b.r) else NaN
  }

  function Sub(a: Float, b: Float): Float {
    if a.Num? && b.Num? then Num(a.r - b.r) else NaN
  }

  function Mul(a: Float, b: Float): Float {
    if a.Num? && b.Num? then Num(a.r * b.r) else NaN
  }

  /** Division; a zero divisor is mapped to NaN, and no caller divides by zero. */
  function Div(a: Float, b: Float): Float {
    if a.Num? && b.Num? && b.r != 0.0 then Num(a.r / b.r) else NaN
  }

  function OfInt(n: int): Float {
    Num(n as real)
  }
}
