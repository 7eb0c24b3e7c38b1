// Homogeneous 4-component tuples: points (w = 1) and vectors (w = 0), with
// component-wise arithmetic, dot and cross products, magnitude and
// normalisation.

module Tuples {
  import opened Util

  datatype Tuple = Tuple(x: real, y: real, z: real, w: real)

  /** ZERO_VECTOR. */
  const ZeroVector: Tuple := Tuple(0.0, 0.0, 0.0, 0.0)

  /** ORIGIN is used by the sphere constructor; taken here as point(0, 0, 0). */
  const Origin: Tuple := Point(0.0, 0.0, 0.0)

  predicate IsPoint(t: Tuple) { t.w == 1.0 }

  predicate IsVector(t: Tuple) { t.w == 0.0 }

  /** `point`: the coordinates unchanged, w = 1. */
  function Point(x: real, y: real, z: real): (t: Tuple)
    ensures IsPoint(t) && !IsVector(t)
    ensures t.x == x && t.y == y && t.z == z
  {
    Tuple(x, y, z, 1.0)
  }

  /** `point_i`: the i32 coordinates convert exactly. */
  function PointI(x: i32, y: i32, z: i32): (t: Tuple)
    ensures t == Point(x as real, y as real, z as real)
  {
    Tuple(x as real, y as real, z as real, 1.0)
  }

  /** `vector`: the coordinates unchanged, w = 0. */
  function Vector(x: real, y: real, z: real): (t: Tuple)
    ensures IsVector(t) && !IsPoint(t)
    ensures t.x == x && t.y == y && t.z == z
  {
    Tuple(x, y, z, 0.0)
  }

  /** `vector_i`. */
  function VectorI(x: i32, y: i32, z: i32): (t: Tuple)
    ensures t == Vector(x as real, y as real, z as real)
  {
    Tuple(x as real, y as real, z as real, 0.0)
  }

  /** `Add`: component-wise; a point plus a vector is a point and two
      vectors add to a vector. */
  function Add(a: Tuple, b: Tuple): (r: Tuple)
    ensures IsPoint(a) && IsVector(b) ==> IsPoint(r)
    ensures IsVector(a) && IsVector(b) ==> IsVector(r)
  {
    Tuple(a.x + b.x, a.y + b.y, a.z + b.z, a.w + b.w)
  }

  /** `Sub`: component-wise; two points differ by a vector, and a point
      minus a vector is a point. */
  function Sub(a: Tuple, b: Tuple): (r: Tuple)
    ensures IsPoint(a) && IsPoint(b) ==> IsVector(r)
    ensures IsPoint(a) && IsVector(b) ==> IsPoint(r)
  {
    Tuple(a.x - b.x, a.y - b.y, a.z - b.z, a.w - b.w)
  }

  /** `Neg`: every component negated. */
  function Neg(a: Tuple): (r: Tuple)
    ensures IsVector(a) ==> IsVector(r)
  {
    Tuple(-a.x, -a.y, -a.z, -a.w)
  }

  /** `Mul<f64>`. */
  function Scale(a: Tuple, k: real): (r: Tuple)
    ensures k == 1.0 ==> r == a
    ensures k == 0.0 ==> r == ZeroVector
    ensures IsVector(a) ==> IsVector(r)
  {
    Tuple(a.x * k, a.y * k, a.z * k, a.w * k)
  }

  /** `Mul<i32>`: the same as scaling by the i32 converted to a real. */
  function ScaleI(a: Tuple, k: i32): (r: Tuple)
    ensures r == Scale(a, k as real)
  {
    var f := k as real;
    Tuple(a.x * f, a.y * f, a.z * f, a.w * f)
  }

  /** `Div<f64>`: the same as scaling by the reciprocal. A zero divisor gives
      infinities or NaN in f64 and is excluded. */
  function Div(a: Tuple, k: real): (r: Tuple)
    requires k != 0.0
    ensures r == Scale(a, 1.0 / k)
  {
    Tuple(a.x / k, a.y / k, a.z / k, a.w / k)
  }

  /** `Div<i32>`. */
  function DivI(a: Tuple, k: i32): (r: Tuple)
    requires k != 0
    ensures r == Div(a, k as real)
  {
    var f := k as real;
    Tuple(a.x / f, a.y / f, a.z / f, a.w / f)
  }

  /** `dot_product`: sums the products of all four components, w included. */
  function Dot(a: Tuple, b: Tuple): real
  {
    a.x * b.x + a.y * b.y + a.z * b.z + a.w * b.w
  }

  /** `cross_product`: the three-component formula; w of the inputs is ignored. */
  function Cross(a: Tuple, b: Tuple): (r: Tuple)
    ensures IsVector(r)
  {
    Vector(a.y * b.z - a.z * b.y,
           a.z * b.x - a.x * b.z,
           a.x * b.y - a.y * b.x)
  }

  /** `magnitude`: the Euclidean norm over all four components (the sum of
      the squares is `Dot(t, t)`). */
  function Magnitude(t: Tuple, sqrt: real -> real): (m: real)
    requires IsSqrt(sqrt)
    ensures m >= 0.0 && m * m == Dot(t, t)
    ensures t != ZeroVector ==> m > 0.0
  {
    SquaresNonNegative(t);
    RootOfSquares(t, sqrt(Dot(t, t)));
    sqrt(Dot(t, t))
  }

  /** `normalize`: every component, w included, divided by the magnitude. A
      zero magnitude divides by zero and is excluded. */
  function Normalize(t: Tuple, sqrt: real -> real): (n: Tuple)
    requires IsSqrt(sqrt)
    requires t != ZeroVector
    ensures n == Scale(t, 1.0 / Magnitude(t, sqrt))
    ensures IsVector(t) ==> IsVector(n)
    ensures Dot(n, n) == 1.0
    ensures Magnitude(n, sqrt) == 1.0
  {
    var m := Magnitude(t, sqrt);
    var n := Tuple(t.x / m, t.y / m, t.z / m, t.w / m);
    assert n == Scale(t, 1.0 / m);
    UnitAfterScaling(t, m);
    SqrtOf(sqrt, 1.0, 1.0);
    n
  }

  lemma ZeroSquare(a: real)
    ensures a != 0.0 ==> a * a > 0.0
    ensures a * a >= 0.0
  {
    if a < 0.0 {
      calc {
        a * a;
      ==
        (-a) * (-a);
      >
        0.0;
      }
    }
  }

  lemma SquaresNonNegative(t: Tuple)
    ensures Dot(t, t) >= 0.0
    ensures t != ZeroVector ==> Dot(t, t) > 0.0
  {
    ZeroSquare(t.x);
    ZeroSquare(t.y);
    ZeroSquare(t.z);
    ZeroSquare(t.w);
    calc {
      Dot(t, t);
    ==
      t.x * t.x + t.y * t.y + t.z * t.z + t.w * t.w;
    >=
      0.0;
    }
    if t.x != 0.0 || t.y != 0.0 || t.z != 0.0 || t.w != 0.0 {
      calc {
        Dot(t, t);
      ==
        t.x * t.x + t.y * t.y + t.z * t.z + t.w * t.w;
      >
        0.0;
      }
    }
  }

  /** A non-negative root of `Dot(t, t)` is positive for a nonzero tuple. */
  lemma RootOfSquares(t: Tuple, m: real)
    requires m >= 0.0 && m * m == Dot(t, t)
    ensures t != ZeroVector ==> m > 0.0
  {
    if t != ZeroVector {
      SquaresNonNegative(t);
      PositiveRoot(m, Dot(t, t));
    }
  }

  lemma PositiveRoot(m: real, d: real)
    requires m * m == d && d > 0.0
    ensures m != 0.0
  {
  }

  /** Dividing by the magnitude yields a tuple whose dot with itself is 1. */
  lemma UnitAfterScaling(t: Tuple, m: real)
    requires m > 0.0 && m * m == Dot(t, t)
    ensures Dot(Scale(t, 1.0 / m), Scale(t, 1.0 / m)) == 1.0
  {
    var k := 1.0 / m;
    calc {
      Dot(Scale(t, k), Scale(t, k));
    == { DotScaled(t, k); }
      k * k * Dot(t, t);
    ==
      k * k * (m * m);
    ==
      (k * m) * (k * m);
    ==
      1.0;
    }
  }

  lemma DotScaled(t: Tuple, k: real)
    ensures Dot(Scale(t, k), Scale(t, k)) == k * k * Dot(t, t)
  {
  }

  // ---------------------------------------------------------------------
  // Properties of the component-wise operators

  /** point - point is a vector, point + vector is a point, point - vector
      is a point and vector +/- vector is a vector. */
  lemma PointVectorArithmetic(p: Tuple, q: Tuple, v: Tuple, u: Tuple)
    requires IsPoint(p) && IsPoint(q) && IsVector(v) && IsVector(u)
    ensures IsVector(Sub(p, q))
    ensures IsPoint(Add(p, v)) && IsPoint(Sub(p, v))
    ensures IsVector(Add(v, u)) && IsVector(Sub(v, u))
  {
  }

  /** Negation is an involution, and subtracting from ZERO_VECTOR negates. */
  lemma NegProperties(a: Tuple, b: Tuple)
    ensures Neg(Neg(a)) == a
    ensures Sub(ZeroVector, a) == Neg(a)
    ensures Sub(a, b) == Add(a, Neg(b))
  {
  }

  /** The dot product is symmetric. */
  lemma DotSymmetric(a: Tuple, b: Tuple)
    ensures Dot(a, b) == Dot(b, a)
  {
  }

  /** The cross product is anti-commutative. */
  lemma CrossAntiCommutative(a: Tuple, b: Tuple)
    ensures Cross(b, a) == Neg(Cross(a, b))
  {
  }

  /** The cross product is orthogonal to both (three-component) inputs. */
  lemma CrossOrthogonal(a: Tuple, b: Tuple)
    requires IsVector(a) && IsVector(b)
    ensures Dot(Cross(a, b), a) == 0.0 && Dot(Cross(a, b), b) == 0.0
  {
  }

  /** The worked examples of the tuple tests. */
  lemma TupleExamples()
    ensures Dot(VectorI(1, 2, 3), VectorI(2, 3, 4)) == 20.0
    ensures Cross(VectorI(1, 2, 3), VectorI(2, 3, 4)) == VectorI(-1, 2, -1)
    ensures Cross(VectorI(2, 3, 4), VectorI(1, 2, 3)) == VectorI(1, -2, 1)
    ensures Sub(PointI(3, 2, 1), PointI(5, 6, 7)) == VectorI(-2, -4, -6)
    ensures Sub(PointI(3, 2, 1), VectorI(5, 6, 7)) == PointI(-2, -4, -6)
    ensures Add(PointI(3, -2, 5), VectorI(-2, 3, 1)) == Tuple(1.0, 1.0, 6.0, 1.0)
    ensures ScaleI(Tuple(1.0, -2.0, 3.0, -4.0), 3) == Tuple(3.0, -6.0, 9.0, -12.0)
    ensures DivI(Tuple(1.0, -2.0, 3.0, -4.0), 2) == Tuple(0.5, -1.0, 1.5, -2.0)
  {
  }

  /** The magnitude examples of the tuple tests, for any square root. */
  lemma MagnitudeExamples(sqrt: real -> real)
    requires IsSqrt(sqrt)
    ensures Magnitude(VectorI(1, 0, 0), sqrt) == 1.0
    ensures Magnitude(VectorI(-1, -2, -3), sqrt) == sqrt(14.0)
  {
    var u := VectorI(1, 0, 0);
    calc {
      Magnitude(u, sqrt);
    ==
      sqrt(Dot(u, u));
    ==
      sqrt(1.0);
    == { SqrtOf(sqrt, 1.0, 1.0); }
      1.0;
    }
    var v := VectorI(-1, -2, -3);
    calc {
      Magnitude(v, sqrt);
    ==
      sqrt(Dot(v, v));
    ==
      sqrt(14.0);
    }
  }

  /** Normalising (4, 0, 0) gives the unit vector along x. */
  lemma NormalizeExample(sqrt: real -> real)
    requires IsSqrt(sqrt)
    ensures Normalize(VectorI(4, 0, 0), sqrt) == VectorI(1, 0, 0)
  {
    var f := VectorI(4, 0, 0);
    calc {
      Magnitude(f, sqrt);
    ==
      sqrt(Dot(f, f));
    ==
      sqrt(16.0);
    == { SqrtOf(sqrt, 16.0, 4.0); }
      4.0;
    }
    calc {
      Normalize(f, sqrt);
    ==
      Scale(f, 1.0 / Magnitude(f, sqrt));
    ==
      Scale(f, 1.0 / 4.0);
    ==
      VectorI(1, 0, 0);
    }
  }
}
