/**
 * Numeric guards and clamping shared by the axis and viewport engines.
 *
 * JavaScript numbers are doubles; at the places where the grid validates its
 * inputs they are modelled by `Number`, which keeps the non-finite values the
 * guards reject. Everywhere else pixels are `real` and indices `int`.
 */
module ContractsMath {
  import opened Wrappers

  /** A JavaScript number: a finite value, NaN, or one of the two infinities. */
  datatype Number = Finite(value: real) | NaN | Infinity(negative: bool)

  /** `Number.isInteger`. */
  predicate IsInteger(n: Number) {
    n.Finite? && n.value.Floor as real == n.value
  }

  /** `Number.isFinite`. */
  predicate IsFinite(n: Number) {
    n.Finite?
  }

  /** `n < 0` (false for NaN, true for negative infinity). */
  predicate IsNegative(n: Number) {
    (n.Finite? && n.value < 0.0) || (n.Infinity? && n.negative)
  }

  /** The errors the grid core throws. */
  datatype GridError =
    | NotNonNegativeInt(what: string)
    | NotFiniteNonNegative(what: string)
    | IndexOutOfRange(index: Number)
    | AnchorOutOfRange(index: Number)
    | AxisMismatch
    | LengthMismatch

  function Min(a: real, b: real): real { if a <= b then a else b }
  function Max(a: real, b: real): real { if a >= b then a else b }

  /** `Math.min` and `Math.max` on indices. */
  function MinInt(a: int, b: int): int { if a <= b then a else b }
  function MaxInt(a: int, b: int): int { if a >= b then a else b }

  /** `clamp(v, lo, hi) = max(lo, min(hi, v))` on pixel values. */
  function Clamp(v: real, lo: real, hi: real): (r: real)
    ensures lo <= hi ==> lo <= r <= hi
    ensures lo <= v <= hi ==> r == v
    ensures v < lo ==> r == lo
    ensures lo <= hi < v ==> r == hi
    ensures hi < lo ==> r == lo
  {
    Max(lo, Min(hi, v))
  }

  /** The same `clamp` applied to indices. */
  function ClampIndex(v: int, lo: int, hi: int): (r: int)
    ensures lo <= hi ==> lo <= r <= hi
    ensures lo <= v <= hi ==> r == v
    ensures v < lo ==> r == lo
    ensures lo <= hi < v ==> r == hi
    ensures hi < lo ==> r == lo
  {
    if lo >= (if hi <= v then hi else v) then lo else if hi <= v then hi else v
  }

  /**
   * `assertNonNegativeInt`: throws unless `n` is a non-negative integer; on
   * success the model hands back the validated value as a `nat`.
   */
  function AssertNonNegativeInt(n: Number, what: string): (r: Result<nat, GridError>)
    ensures r.Err? <==> !IsInteger(n) || IsNegative(n)
    ensures r.Ok? ==> n == Finite(r.value as real)
    ensures r.Err? ==> r.error == NotNonNegativeInt(what)
  {
    if !IsInteger(n) || IsNegative(n) then Err(NotNonNegativeInt(what))
    else Ok(n.value.Floor)
  }

  /**
   * `assertFiniteNonNegative`: throws when `n` is NaN, infinite or negative; on
   * success the model hands back the validated value.
   */
  function AssertFiniteNonNegative(n: Number, what: string): (r: Result<real, GridError>)
    ensures r.Err? <==> !IsFinite(n) || IsNegative(n)
    ensures r.Ok? ==> n == Finite(r.value) && r.value >= 0.0
    ensures r.Err? ==> r.error == NotFiniteNonNegative(what)
  {
    if !IsFinite(n) || IsNegative(n) then Err(NotFiniteNonNegative(what))
    else Ok(n.value)
  }
}
