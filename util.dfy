// Numeric utilities shared by the geometry layer: the lenient tolerance
// compare, degree-to-radian conversion, and the stand-ins for the pieces of
// Rust's standard library that the layer relies on (Option, i32, f64::sqrt).

module Util {

  /** Rust's Option. */
  datatype Option<T> = None | Some(value: T)

  /** Rust's i32: the integer arguments of `radians_i`, `point_i`, `Mul<i32>`, ... */
  newtype i32 = x: int | -0x8000_0000 <= x < 0x8000_0000

  /** Rust's u32: the dimensions and coordinates of the canvas. */
  newtype u32 = x: int | 0 <= x < 0x1_0000_0000

  /** std::f64::consts::PI as the shortest decimal that reads back as that
      f64. It is neither that f64's exact value nor pi itself. */
  const PI: real := 3.141592653589793

  /** The tolerance of `a_equal_b`. */
  const EPSILON: real := 0.00001

  function Abs(a: real): (r: real)
    ensures r >= 0.0
    ensures r == a || r == -a
  {
    if a < 0.0 then -a else a
  }

  /** `a_equal_b`: compares the DIFFERENCE OF THE ABSOLUTE VALUES with the
      tolerance, not the absolute value of the difference. */
  predicate AEqualB(a: real, b: real)
  {
    Abs(a) - Abs(b) < EPSILON
  }

  /** Every value is "equal" to itself. */
  lemma AEqualBReflexive(a: real)
    ensures AEqualB(a, a)
  {
  }

  /** Anything no larger in magnitude than `b` is "equal" to it, so the
      compare is not symmetric: 0 equals 1, but 1 does not equal 0. */
  lemma AEqualBLenient(a: real, b: real)
    ensures Abs(a) <= Abs(b) ==> AEqualB(a, b)
    ensures AEqualB(0.0, 1.0) && !AEqualB(1.0, 0.0)
  {
  }

  /** The signs of both arguments are ignored. */
  lemma AEqualBIgnoresSigns(a: real, b: real)
    ensures AEqualB(-a, b) == AEqualB(a, b)
    ensures AEqualB(a, -b) == AEqualB(a, b)
  {
  }

  /** Values that are close in the usual sense (|a - b| < EPSILON) are
      always "equal" under this compare; the converse fails. */
  lemma AEqualBWeakerThanClose(a: real, b: real)
    ensures Abs(a - b) < EPSILON ==> AEqualB(a, b)
    ensures AEqualB(-1.0, 1.0) && Abs(-1.0 - 1.0) >= EPSILON
  {
  }

  /** `radians`: degrees / 180 * PI. */
  function Radians(degrees: real): (r: real)
    ensures degrees == 0.0 ==> r == 0.0
    ensures degrees == 180.0 ==> r == PI
    ensures r * 180.0 == degrees * PI
  {
    degrees / 180.0 * PI
  }

  /** `radians_i`: the i32 converts to f64 exactly, then as `radians`. */
  function RadiansI(degrees: i32): (r: real)
    ensures r == Radians(degrees as real)
  {
    degrees as real / 180.0 * PI
  }

  /** A square-root function over the reals, in place of f64::sqrt. */
  ghost predicate IsSqrt(sqrt: real -> real)
  {
    forall x: real :: x >= 0.0 ==> sqrt(x) >= 0.0 && sqrt(x) * sqrt(x) == x
  }

  /** The square root is the unique non-negative root. */
  lemma SqrtOf(sqrt: real -> real, x: real, s: real)
    requires IsSqrt(sqrt)
    requires s >= 0.0 && s * s == x
    ensures sqrt(x) == s
  {
    var q := sqrt(x);
    assert q >= 0.0 && q * q == x;
    assert (q - s) * (q + s) == 0.0;
    if q + s == 0.0 {
      assert q == 0.0 && s == 0.0;
    }
  }
}
