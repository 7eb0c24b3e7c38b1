// Rays: transformation, position along the ray, ray-sphere intersection,
// and picking the visible hit among the intersections.

module Rays {
  import Util
  import opened Tuples
  import opened Matrices
  import opened Objects

  /** `Ray`; the constructor plays the part of `ray`. */
  datatype Ray = Ray(origin: Tuple, direction: Tuple)

  /** `Intersection`; the constructor plays the part of `intersection`. */
  datatype Intersection = Intersection(time: real, obj: Object)

  /** `Intersections`: no intersection, or the pair of them, which the
      source holds in an array of length 2. */
  datatype Intersections = None | Some(intersects: seq<Intersection>)

  /** usize::MAX, the "nothing found" index of `hit`. */
  const USIZE_MAX: nat := 18446744073709551615

  /** f64::MAX, the initial bound of `hit`: (2^53 - 1) * 2^971. */
  const F64_MAX: real := 179769313486231570814527423731704356798070567525844996598917476803157260780028538760589558632766878171540458953514382464234321326889464182768467546703537516986049910576551282076245490090389328944075868508455133942304583236903222948165808559332123348274797826204144723168738177180919299881250404026184124858368.0

  // ---------------------------------------------------------------------
  // Transform and position

  /** `transform`: both the origin and the direction go through `Mul<Tuple>`
      as written. Under an affine matrix the new origin's w is the old
      origin's x, so a point with x != 1 stops being a point; where both
      tuples have x == w it is the intended transformation. */
  function Transform(r: Ray, m: Matrix4): (t: Ray)
    ensures Affine(m) ==> t.origin.w == r.origin.x && t.direction.w == r.direction.x
  {
    Ray(MulTupleAsWritten(m, r.origin), MulTupleAsWritten(m, r.direction))
  }

  /** `transform` with the intended matrix-vector product: an affine matrix
      takes a ray from a point along a vector to another such ray. */
  function TransformIntended(r: Ray, m: Matrix4): (t: Ray)
    ensures Affine(m) && IsPoint(r.origin) ==> IsPoint(t.origin)
    ensures Affine(m) && IsVector(r.direction) ==> IsVector(t.direction)
  {
    Ray(MulTuple(m, r.origin), MulTuple(m, r.direction))
  }

  /** `position`: origin + direction * time. A ray from a point along a
      vector stays on points and is at its origin at time 0. */
  function Position(r: Ray, time: real): (p: Tuple)
    ensures IsPoint(r.origin) && IsVector(r.direction) ==> IsPoint(p)
    ensures time == 0.0 ==> p == r.origin
  {
    Tuples.Add(r.origin, Scale(r.direction, time))
  }

  /** Transforming a ray as written transforms each of its points as
      written: the point at time t of the transformed ray is the product of
      the matrix with the point at time t. The identity leaves the ray
      unchanged exactly when both its tuples have x == w. */
  lemma TransformPosition(r: Ray, m: Matrix4, time: real)
    ensures Position(Transform(r, m), time) == MulTupleAsWritten(m, Position(r, time))
    ensures Transform(r, Identity4) == r <==> r.origin.x == r.origin.w && r.direction.x == r.direction.w
  {
    MulTupleAsWrittenLinear(m, r.origin, Scale(r.direction, time), 1.0);
    MulTupleAsWrittenLinear(m, r.direction, r.direction, time);
    MulTupleIdentity(r.origin);
    MulTupleIdentity(r.direction);
  }

  /** Where both tuples of the ray have x == w, `transform` as written is
      the intended transformation. */
  lemma TransformAgrees(r: Ray, m: Matrix4)
    requires r.origin.x == r.origin.w && r.direction.x == r.direction.w
    ensures Transform(r, m) == TransformIntended(r, m)
  {
    MulTupleAsWrittenAgrees(m, r.origin);
    MulTupleAsWrittenAgrees(m, r.direction);
  }

  /** The same for the intended transformation, which the identity always
      leaves unchanged. */
  lemma TransformIntendedPosition(r: Ray, m: Matrix4, time: real)
    ensures Position(TransformIntended(r, m), time) == MulTuple(m, Position(r, time))
    ensures TransformIntended(r, Identity4) == r
  {
    MulTupleLinear(m, r.origin, Scale(r.direction, time), 1.0);
    MulTupleLinear(m, r.direction, r.direction, time);
    MulTupleIdentity(r.origin);
    MulTupleIdentity(r.direction);
  }

  /** A ray from a point along a vector stays on points, starts at its
      origin and moves by its direction per unit of time. */
  lemma PositionProperties(r: Ray, time: real)
    requires IsPoint(r.origin) && IsVector(r.direction)
    ensures IsPoint(Position(r, time))
    ensures Position(r, 0.0) == r.origin
    ensures Sub(Position(r, time), r.origin) == Scale(r.direction, time)
  {
  }

  /** The position example of the ray tests at a fractional time. */
  lemma PositionExampleFractional()
    ensures Position(Ray(PointI(2, 3, 4), VectorI(1, 0, 0)), 2.5) == Point(4.5, 3.0, 4.0)
  {
    PositionAlongX(Ray(PointI(2, 3, 4), VectorI(1, 0, 0)), 2.5);
  }

  /** Along the x axis, as in the position tests, the point at `time` is
      the origin moved by `time` in x. */
  lemma PositionAlongX(r: Ray, time: real)
    requires r.direction == Vector(1.0, 0.0, 0.0) && IsPoint(r.origin)
    ensures Position(r, time) == Point(r.origin.x + time, r.origin.y, r.origin.z)
  {
    var p := Position(r, time);
    assert p.x == r.origin.x + time;
    assert p.y == r.origin.y && p.z == r.origin.z && p.w == 1.0;
  }

  // ---------------------------------------------------------------------
  // Intersection with a sphere

  /** The coefficients a, b, c of the quadratic in the time that `intersect`
      solves. The constant term subtracts 1, the square of the unit radius,
      whatever the sphere's own radius is. */
  function Coefficients(r: Ray, o: Object): (real, real, real)
  {
    var sphereToRay := Sub(r.origin, o.position);
    (Dot(r.direction, r.direction), 2.0 * Dot(r.direction, sphereToRay), Dot(sphereToRay, sphereToRay) - 1.0)
  }

  /** The point of the ray at `time` lies on the unit sphere around the
      object's position (distance measured over all four components). */
  ghost predicate OnUnitSphere(r: Ray, o: Object, time: real)
  {
    var d := Sub(Position(r, time), o.position);
    Dot(d, d) == 1.0
  }

  /** `time` is the time of one of the intersections. */
  predicate HasTime(xs: Intersections, time: real)
  {
    xs.Some? && exists i :: 0 <= i < |xs.intersects| && xs.intersects[i].time == time
  }

  /** The intersection step of `intersect`, on a ray already in object space:
      the coefficients of the quadratic, then its roots. A zero direction
      divides by zero and is excluded. */
  function LocalIntersect(r: Ray, o: Object, sqrt: real -> real): (xs: Intersections)
    requires Util.IsSqrt(sqrt)
    requires r.direction != ZeroVector
    ensures var (a, b, c) := Coefficients(r, o); xs.None? <==> b * b - 4.0 * a * c < 0.0
    ensures xs.Some? ==> |xs.intersects| == 2
    ensures xs.Some? ==> xs.intersects[0].obj == o && xs.intersects[1].obj == o
    ensures xs.Some? ==> xs.intersects[0].time <= xs.intersects[1].time
  {
    var sphereToRay := Sub(r.origin, o.position);
    var a := Dot(r.direction, r.direction);
    var b := 2.0 * Dot(r.direction, sphereToRay);
    var c := Dot(sphereToRay, sphereToRay) - 1.0;
    SquaresNonNegative(r.direction);
    Solve(a, b, c, o, sqrt)
  }

  /** The root step of `intersect`: no intersection when the discriminant
      is negative, otherwise the two roots of a t^2 + b t + c, smaller first
      (equal when the ray grazes the sphere), each tagged with the object. */
  function Solve(a: real, b: real, c: real, o: Object, sqrt: real -> real): (xs: Intersections)
    requires Util.IsSqrt(sqrt)
    requires a > 0.0
    ensures xs.None? <==> b * b - 4.0 * a * c < 0.0
    ensures xs.Some? ==> |xs.intersects| == 2
    ensures xs.Some? ==> xs.intersects[0].obj == o && xs.intersects[1].obj == o
    ensures xs.Some? ==> xs.intersects[0].time <= xs.intersects[1].time
  {
    var discriminant := b * b - 4.0 * a * c;
    if discriminant < 0.0 then
      None
    else
      var t1 := (-b - sqrt(discriminant)) / (2.0 * a);
      var t2 := (-b + sqrt(discriminant)) / (2.0 * a);
      DivTimes(-b - sqrt(discriminant), 2.0 * a);
      DivTimes(-b + sqrt(discriminant), 2.0 * a);
      RootsOrdered(a, sqrt(discriminant), t1, t2, b);
      Some([Intersection(t1, o), Intersection(t2, o)])
  }

  /** The times `Solve` reports are exactly the roots of the quadratic. */
  lemma SolveExact(a: real, b: real, c: real, o: Object, sqrt: real -> real, time: real)
    requires Util.IsSqrt(sqrt)
    requires a > 0.0
    ensures HasTime(Solve(a, b, c, o, sqrt), time) <==> a * time * time + b * time + c == 0.0
  {
    var discriminant := b * b - 4.0 * a * c;
    var xs := Solve(a, b, c, o, sqrt);
    if discriminant < 0.0 {
      NoRoot(a, b, c, time);
    } else {
      var s := sqrt(discriminant);
      var t1 := (-b - s) / (2.0 * a);
      var t2 := (-b + s) / (2.0 * a);
      assert xs.Some? && xs.intersects[0].time == t1 && xs.intersects[1].time == t2;
      DivTimes(-b - s, 2.0 * a);
      DivTimes(-b + s, 2.0 * a);
      QuadraticRoots(a, b, c, s, t1, t2, time);
      assert HasTime(xs, time) <==> time == t1 || time == t2 by {
        if time == t1 {
          assert xs.intersects[0].time == time;
        } else if time == t2 {
          assert xs.intersects[1].time == time;
        }
      }
    }
  }

  /** The intersections are exactly the times at which the ray meets the
      unit sphere around the object: none when it misses, and when it hits
      (or grazes) every such time is one of the two. */
  lemma LocalIntersectExact(r: Ray, o: Object, sqrt: real -> real, time: real)
    requires Util.IsSqrt(sqrt)
    requires r.direction != ZeroVector
    ensures HasTime(LocalIntersect(r, o, sqrt), time) <==> OnUnitSphere(r, o, time)
  {
    var k := Coefficients(r, o);
    var d := Sub(Position(r, time), o.position);
    LocalIntersectSolves(r, o, sqrt);
    DistanceQuadratic(r, o, time);
    SolveExactAt(k.0, k.1, k.2, o, sqrt, time, Dot(d, d) - 1.0);
  }

  /** `SolveExact` for a value known to be that of the quadratic at `t`. */
  lemma SolveExactAt(a: real, b: real, c: real, o: Object, sqrt: real -> real, t: real, v: real)
    requires Util.IsSqrt(sqrt) && a > 0.0
    requires v == a * t * t + b * t + c
    ensures HasTime(Solve(a, b, c, o, sqrt), t) <==> v == 0.0
  {
    SolveExact(a, b, c, o, sqrt, t);
  }

  /** `intersect` solves the quadratic with the coefficients of the ray. */
  lemma LocalIntersectSolves(r: Ray, o: Object, sqrt: real -> real)
    requires Util.IsSqrt(sqrt)
    requires r.direction != ZeroVector
    ensures Coefficients(r, o).0 > 0.0
    ensures LocalIntersect(r, o, sqrt) == Solve(Coefficients(r, o).0, Coefficients(r, o).1, Coefficients(r, o).2, o, sqrt)
  {
    SquaresNonNegative(r.direction);
  }

  /** `intersect`: the ray is taken into object space through the inverse
      of the object's transformation (from `invert`, outside this model,
      given as a parameter; `unwrap` panics when there is none) with
      `transform` as written, then intersected with the unit sphere there.
      There are none or two intersections, in order of time, and both carry
      the untransformed object. */
  function Intersect(r: Ray, o: Object, invert: Matrix4 -> Util.Option<Matrix4>, sqrt: real -> real): (xs: Intersections)
    requires Util.IsSqrt(sqrt)
    requires invert(o.transformation).Some?
    requires Transform(r, invert(o.transformation).value).direction != ZeroVector
    ensures xs.Some? ==> |xs.intersects| == 2
    ensures xs.Some? ==> xs.intersects[0].obj == o && xs.intersects[1].obj == o
    ensures xs.Some? ==> xs.intersects[0].time <= xs.intersects[1].time
  {
    LocalIntersect(Transform(r, invert(o.transformation).value), o, sqrt)
  }

  /** `intersect` with the intended transformation. */
  function IntersectIntended(r: Ray, o: Object, invert: Matrix4 -> Util.Option<Matrix4>, sqrt: real -> real): (xs: Intersections)
    requires Util.IsSqrt(sqrt)
    requires invert(o.transformation).Some?
    requires TransformIntended(r, invert(o.transformation).value).direction != ZeroVector
    ensures xs.Some? ==> |xs.intersects| == 2
    ensures xs.Some? ==> xs.intersects[0].obj == o && xs.intersects[1].obj == o
    ensures xs.Some? ==> xs.intersects[0].time <= xs.intersects[1].time
  {
    LocalIntersect(TransformIntended(r, invert(o.transformation).value), o, sqrt)
  }

  /** The times `intersect` reports are exactly those at which the point of
      the original ray, taken through the inverse transformation by the
      product as written, lies on the unit sphere around the object. */
  lemma IntersectExact(r: Ray, o: Object, invert: Matrix4 -> Util.Option<Matrix4>, sqrt: real -> real, time: real)
    requires Util.IsSqrt(sqrt)
    requires invert(o.transformation).Some?
    requires Transform(r, invert(o.transformation).value).direction != ZeroVector
    ensures var inverse := invert(o.transformation).value;
      var d := Sub(MulTupleAsWritten(inverse, Position(r, time)), o.position);
      HasTime(Intersect(r, o, invert, sqrt), time) <==> Dot(d, d) == 1.0
  {
    var inverse := invert(o.transformation).value;
    LocalIntersectExact(Transform(r, inverse), o, sqrt, time);
    TransformPosition(r, inverse, time);
  }

  /** The same for the intended transformation and the intended product. */
  lemma IntersectIntendedExact(r: Ray, o: Object, invert: Matrix4 -> Util.Option<Matrix4>, sqrt: real -> real, time: real)
    requires Util.IsSqrt(sqrt)
    requires invert(o.transformation).Some?
    requires TransformIntended(r, invert(o.transformation).value).direction != ZeroVector
    ensures var inverse := invert(o.transformation).value;
      var d := Sub(MulTuple(inverse, Position(r, time)), o.position);
      HasTime(IntersectIntended(r, o, invert, sqrt), time) <==> Dot(d, d) == 1.0
  {
    var inverse := invert(o.transformation).value;
    LocalIntersectExact(TransformIntended(r, inverse), o, sqrt, time);
    TransformIntendedPosition(r, inverse, time);
  }

  /** The sphere's radius plays no part: only the unit sphere is tested. */
  lemma IntersectIgnoresRadius(r: Ray, o: Object, sqrt: real -> real, radius: real, time: real)
    requires Util.IsSqrt(sqrt)
    requires r.direction != ZeroVector
    ensures HasTime(LocalIntersect(r, o.(radius := radius), sqrt), time) <==> HasTime(LocalIntersect(r, o, sqrt), time)
  {
    LocalIntersectExact(r, o, sqrt, time);
    LocalIntersectExact(r, o.(radius := radius), sqrt, time);
  }

  /** An untransformed object is intersected as written at the ray whose
      tuples have their w replaced by their x: a ray from a point becomes
      one from a vector unless the point has x == 1. */
  lemma IntersectUntransformed(r: Ray, o: Object, invert: Matrix4 -> Util.Option<Matrix4>, sqrt: real -> real)
    requires Util.IsSqrt(sqrt)
    requires invert(o.transformation) == Util.Some(Identity4)
    requires Transform(r, Identity4).direction != ZeroVector
    ensures Transform(r, Identity4) == Ray(r.origin.(w := r.origin.x), r.direction.(w := r.direction.x))
    ensures Intersect(r, o, invert, sqrt) == LocalIntersect(Ray(r.origin.(w := r.origin.x), r.direction.(w := r.direction.x)), o, sqrt)
  {
    MulTupleIdentity(r.origin);
    MulTupleIdentity(r.direction);
  }

  /** An untransformed object is intersected by the intended `intersect` in
      world space directly. */
  lemma IntersectIntendedUntransformed(r: Ray, o: Object, invert: Matrix4 -> Util.Option<Matrix4>, sqrt: real -> real)
    requires Util.IsSqrt(sqrt)
    requires invert(o.transformation) == Util.Some(Identity4)
    requires r.direction != ZeroVector
    ensures TransformIntended(r, Identity4) == r
    ensures IntersectIntended(r, o, invert, sqrt) == LocalIntersect(r, o, sqrt)
  {
    TransformIntendedPosition(r, Identity4, 0.0);
  }

  /** With a square root `s` of the discriminant, the two roots `t1` and
      `t2` of the formula. */
  lemma SolveWith(a: real, b: real, c: real, o: Object, sqrt: real -> real, s: real, t1: real, t2: real)
    requires Util.IsSqrt(sqrt)
    requires a > 0.0 && s >= 0.0 && s * s == b * b - 4.0 * a * c
    requires t1 * (2.0 * a) == -b - s && t2 * (2.0 * a) == -b + s
    ensures Solve(a, b, c, o, sqrt) == Some([Intersection(t1, o), Intersection(t2, o)])
  {
    Util.SqrtOf(sqrt, b * b - 4.0 * a * c, s);
    DivTimes(-b - s, 2.0 * a);
    DivTimes(-b + s, 2.0 * a);
    CancelPositive(2.0 * a, t1, (-b - s) / (2.0 * a));
    CancelPositive(2.0 * a, t2, (-b + s) / (2.0 * a));
  }

  /** The rays of the sphere tests: from the point (0, y, z) along the z
      axis. Under IDENTITY_MATRIX, `transform` as written turns the origin
      into the vector (0, y, z), while the intended one keeps the ray. */
  function TestRay(y: real, z: real): (r: Ray)
    ensures Transform(r, Identity4) == Ray(Vector(0.0, y, z), Vector(0.0, 0.0, 1.0))
    ensures TransformIntended(r, Identity4) == r
  {
    MulTupleIdentity(Point(0.0, y, z));
    MulTupleIdentity(Vector(0.0, 0.0, 1.0));
    Ray(Point(0.0, y, z), Vector(0.0, 0.0, 1.0))
  }

  /** The sphere test through the centre: times 4 and 6. */
  lemma IntersectThroughCentre(o: Object, sqrt: real -> real)
    requires Util.IsSqrt(sqrt) && o.position == Origin
    ensures LocalIntersect(Ray(Point(0.0, 0.0, -5.0), Vector(0.0, 0.0, 1.0)), o, sqrt)
         == Some([Intersection(4.0, o), Intersection(6.0, o)])
  {
    SolveWith(1.0, -10.0, 24.0, o, sqrt, 2.0, 4.0, 6.0);
    AlongZ(Point(0.0, 0.0, -5.0), Vector(0.0, 0.0, 1.0), 1.0, -10.0, 24.0, o, sqrt);
  }

  /** The sphere test from inside the sphere: times -1 and 1. */
  lemma IntersectFromInside(o: Object, sqrt: real -> real)
    requires Util.IsSqrt(sqrt) && o.position == Origin
    ensures LocalIntersect(Ray(Point(0.0, 0.0, 0.0), Vector(0.0, 0.0, 1.0)), o, sqrt)
         == Some([Intersection(-1.0, o), Intersection(1.0, o)])
  {
    SolveWith(1.0, 0.0, -1.0, o, sqrt, 2.0, -1.0, 1.0);
    AlongZ(Point(0.0, 0.0, 0.0), Vector(0.0, 0.0, 1.0), 1.0, 0.0, -1.0, o, sqrt);
  }

  /** The sphere test with the sphere behind the ray: times -6 and -4. */
  lemma IntersectBehind(o: Object, sqrt: real -> real)
    requires Util.IsSqrt(sqrt) && o.position == Origin
    ensures LocalIntersect(Ray(Point(0.0, 0.0, 5.0), Vector(0.0, 0.0, 1.0)), o, sqrt)
         == Some([Intersection(-6.0, o), Intersection(-4.0, o)])
  {
    SolveWith(1.0, 10.0, 24.0, o, sqrt, 2.0, -6.0, -4.0);
    AlongZ(Point(0.0, 0.0, 5.0), Vector(0.0, 0.0, 1.0), 1.0, 10.0, 24.0, o, sqrt);
  }

  /** The sphere test at a tangent: the time 5, twice. */
  lemma IntersectTangent(o: Object, sqrt: real -> real)
    requires Util.IsSqrt(sqrt) && o.position == Origin
    ensures LocalIntersect(Ray(Point(0.0, 1.0, -5.0), Vector(0.0, 0.0, 1.0)), o, sqrt)
         == Some([Intersection(5.0, o), Intersection(5.0, o)])
  {
    SolveWith(1.0, -10.0, 25.0, o, sqrt, 0.0, 5.0, 5.0);
    AlongZ(Point(0.0, 1.0, -5.0), Vector(0.0, 0.0, 1.0), 1.0, -10.0, 25.0, o, sqrt);
  }

  /** The sphere test of a miss: the discriminant is negative. */
  lemma IntersectMiss(o: Object, sqrt: real -> real)
    requires Util.IsSqrt(sqrt) && o.position == Origin
    ensures LocalIntersect(Ray(Point(0.0, 2.0, -5.0), Vector(0.0, 0.0, 1.0)), o, sqrt) == None
  {
    NegativeDiscriminant(1.0, -10.0, 28.0, o, sqrt);
    AlongZ(Point(0.0, 2.0, -5.0), Vector(0.0, 0.0, 1.0), 1.0, -10.0, 28.0, o, sqrt);
  }

  /** The untransformed sphere tests against `intersect` as written. The
      identity turns the origin (0, y, z) into a vector, which leaves the
      quadratic t^2 + 2 z t + y^2 + z^2 with discriminant -4 y^2: every ray
      off the plane y = 0 misses, and every other one meets the sphere once,
      at -z. So the ray through the centre gives 5 twice (the test expects
      4 and 6), the one from inside 0 twice (-1 and 1), the one behind -5
      twice (-6 and -4), the tangent ray misses (5 twice), and the miss
      stays a miss. */
  lemma SphereTestsAsWritten(o: Object, invert: Matrix4 -> Util.Option<Matrix4>, sqrt: real -> real, y: real, z: real)
    requires Util.IsSqrt(sqrt) && o.position == Origin
    requires invert(o.transformation) == Util.Some(Identity4)
    ensures y != 0.0 ==> Intersect(TestRay(y, z), o, invert, sqrt) == None
    ensures y == 0.0 ==> Intersect(TestRay(y, z), o, invert, sqrt) == Some([Intersection(-z, o), Intersection(-z, o)])
  {
    var a, b, c := 1.0, 2.0 * z, y * y + z * z;
    if y == 0.0 {
      SolveWith(a, b, c, o, sqrt, 0.0, -z, -z);
    } else {
      ZeroSquare(y);
      OffAxisDiscriminant(y, z, a, b, c);
      NegativeDiscriminant(a, b, c, o, sqrt);
    }
    AlongZ(Vector(0.0, y, z), Vector(0.0, 0.0, 1.0), a, b, c, o, sqrt);
  }

  /** scaling(0.5, 0.5, 0.5): the inverse of scaling(2, 2, 2). */
  const HalfScaling: Matrix4 := Matrix([[0.5, 0.0, 0.0, 0.0], [0.0, 0.5, 0.0, 0.0],
                                        [0.0, 0.0, 0.5, 0.0], [0.0, 0.0, 0.0, 1.0]])

  /** translation(-5, 0, 0): the inverse of translation(5, 0, 0). */
  const BackFive: Matrix4 := Matrix([[1.0, 0.0, 0.0, -5.0], [0.0, 1.0, 0.0, 0.0],
                                     [0.0, 0.0, 1.0, 0.0], [0.0, 0.0, 0.0, 1.0]])

  /** The sphere test against a sphere scaled by 2, whose inverse scales by
      one half, with `intersect` as written: the origin becomes the vector
      (0, 0, -2.5), and the times are 5 twice where the test expects 3 and 7. */
  lemma IntersectScaled(o: Object, invert: Matrix4 -> Util.Option<Matrix4>, sqrt: real -> real)
    requires Util.IsSqrt(sqrt) && o.position == Origin
    requires invert(o.transformation) == Util.Some(HalfScaling)
    ensures Transform(TestRay(0.0, -5.0), HalfScaling) == Ray(Vector(0.0, 0.0, -2.5), Vector(0.0, 0.0, 0.5))
    ensures Intersect(TestRay(0.0, -5.0), o, invert, sqrt) == Some([Intersection(5.0, o), Intersection(5.0, o)])
  {
    SolveWith(0.25, -2.5, 6.25, o, sqrt, 0.0, 5.0, 5.0);
    var local := Ray(Vector(0.0, 0.0, -2.5), Vector(0.0, 0.0, 0.5));
    assert Transform(TestRay(0.0, -5.0), HalfScaling) == local;
    AlongZ(local.origin, local.direction, 0.25, -2.5, 6.25, o, sqrt);
  }

  /** The scaled-sphere test with the intended `intersect`: times 3 and 7. */
  lemma IntersectScaledIntended(o: Object, invert: Matrix4 -> Util.Option<Matrix4>, sqrt: real -> real)
    requires Util.IsSqrt(sqrt) && o.position == Origin
    requires invert(o.transformation) == Util.Some(HalfScaling)
    ensures TransformIntended(TestRay(0.0, -5.0), HalfScaling) == Ray(Point(0.0, 0.0, -2.5), Vector(0.0, 0.0, 0.5))
    ensures IntersectIntended(TestRay(0.0, -5.0), o, invert, sqrt) == Some([Intersection(3.0, o), Intersection(7.0, o)])
  {
    SolveWith(0.25, -2.5, 5.25, o, sqrt, 1.0, 3.0, 7.0);
    var local := Ray(Point(0.0, 0.0, -2.5), Vector(0.0, 0.0, 0.5));
    assert TransformIntended(TestRay(0.0, -5.0), HalfScaling) == local;
    AlongZ(local.origin, local.direction, 0.25, -2.5, 5.25, o, sqrt);
  }

  /** The sphere test against a sphere translated by (5, 0, 0), whose
      inverse translates by (-5, 0, 0), with `intersect` as written: the
      translation is multiplied by the origin's x, which is 0, so the
      origin only becomes the vector (0, 0, -5) and the times are 5 twice
      where the test expects a miss. */
  lemma IntersectTranslated(o: Object, invert: Matrix4 -> Util.Option<Matrix4>, sqrt: real -> real)
    requires Util.IsSqrt(sqrt) && o.position == Origin
    requires invert(o.transformation) == Util.Some(BackFive)
    ensures Transform(TestRay(0.0, -5.0), BackFive) == Ray(Vector(0.0, 0.0, -5.0), Vector(0.0, 0.0, 1.0))
    ensures Intersect(TestRay(0.0, -5.0), o, invert, sqrt) == Some([Intersection(5.0, o), Intersection(5.0, o)])
  {
    SolveWith(1.0, -10.0, 25.0, o, sqrt, 0.0, 5.0, 5.0);
    var local := Ray(Vector(0.0, 0.0, -5.0), Vector(0.0, 0.0, 1.0));
    assert Transform(TestRay(0.0, -5.0), BackFive) == local;
    AlongZ(local.origin, local.direction, 1.0, -10.0, 25.0, o, sqrt);
  }

  /** The translated-sphere test with the intended `intersect`: a miss. */
  lemma IntersectTranslatedIntended(o: Object, invert: Matrix4 -> Util.Option<Matrix4>, sqrt: real -> real)
    requires Util.IsSqrt(sqrt) && o.position == Origin
    requires invert(o.transformation) == Util.Some(BackFive)
    ensures TransformIntended(TestRay(0.0, -5.0), BackFive) == Ray(Point(-5.0, 0.0, -5.0), Vector(0.0, 0.0, 1.0))
    ensures IntersectIntended(TestRay(0.0, -5.0), o, invert, sqrt) == None
  {
    NegativeDiscriminant(1.0, -10.0, 49.0, o, sqrt);
    var local := Ray(Point(-5.0, 0.0, -5.0), Vector(0.0, 0.0, 1.0));
    assert TransformIntended(TestRay(0.0, -5.0), BackFive) == local;
    AlongZ(local.origin, local.direction, 1.0, -10.0, 49.0, o, sqrt);
  }

  /** Off the plane y = 0, a ray along z from (0, y, z, 0) has a negative
      discriminant: it is -4 y^2. */
  lemma OffAxisDiscriminant(y: real, z: real, a: real, b: real, c: real)
    requires y * y > 0.0
    requires a == 1.0 && b == 2.0 * z && c == y * y + z * z
    ensures b * b - 4.0 * a * c < 0.0
  {
    calc {
      b * b - 4.0 * a * c;
    ==
      (2.0 * z) * (2.0 * z) - 4.0 * (y * y + z * z);
    <
      0.0;
    }
  }

  lemma NegativeDiscriminant(a: real, b: real, c: real, o: Object, sqrt: real -> real)
    requires Util.IsSqrt(sqrt) && a > 0.0 && b * b - 4.0 * a * c < 0.0
    ensures Solve(a, b, c, o, sqrt) == None
  {
  }

  /** A ray along the z axis against a sphere at the origin solves
      a t^2 + b t + c with a = dz^2, b = 2 dz z and c the squared distance
      of the origin from the centre minus 1. */
  lemma AlongZ(origin: Tuple, direction: Tuple, a: real, b: real, c: real, o: Object, sqrt: real -> real)
    requires Util.IsSqrt(sqrt) && o.position == Origin
    requires direction.x == 0.0 && direction.y == 0.0 && direction.w == 0.0 && direction.z != 0.0
    requires a == direction.z * direction.z && b == 2.0 * (direction.z * origin.z)
    requires c == origin.x * origin.x + origin.y * origin.y + origin.z * origin.z
                  + (origin.w - 1.0) * (origin.w - 1.0) - 1.0
    requires a > 0.0
    ensures direction != ZeroVector
    ensures LocalIntersect(Ray(origin, direction), o, sqrt) == Solve(a, b, c, o, sqrt)
  {
    var sphereToRay := Sub(origin, o.position);
    assert sphereToRay == Tuple(origin.x, origin.y, origin.z, origin.w - 1.0);
    assert Dot(direction, direction) == a;
    assert 2.0 * Dot(direction, sphereToRay) == b;
    assert Dot(sphereToRay, sphereToRay) - 1.0 == c;
  }

  // ---------------------------------------------------------------------
  // The transform examples

  /** scaling(2, 3, 4). */
  const Scaling234: Matrix4 := Matrix([[2.0, 0.0, 0.0, 0.0], [0.0, 3.0, 0.0, 0.0],
                                       [0.0, 0.0, 4.0, 0.0], [0.0, 0.0, 0.0, 1.0]])

  /** translation(3, 4, 5). */
  const Translation345: Matrix4 := Matrix([[1.0, 0.0, 0.0, 3.0], [0.0, 1.0, 0.0, 4.0],
                                           [0.0, 0.0, 1.0, 5.0], [0.0, 0.0, 0.0, 1.0]])

  /** Scaling a ray scales its origin and its direction. The test's origin
      has x == w == 1 and its direction x == w == 0, so the product as
      written gives the expected ray too. */
  lemma TransformScalingExample()
    ensures Transform(Ray(PointI(1, 2, 3), VectorI(0, 1, 0)), Scaling234) == Ray(PointI(2, 6, 12), VectorI(0, 3, 0))
    ensures TransformIntended(Ray(PointI(1, 2, 3), VectorI(0, 1, 0)), Scaling234) == Ray(PointI(2, 6, 12), VectorI(0, 3, 0))
  {
  }

  /** Translating a ray moves its origin and leaves its direction alone,
      with either product, for the same reason. */
  lemma TransformTranslationExample()
    ensures Transform(Ray(PointI(1, 2, 3), VectorI(0, 1, 0)), Translation345) == Ray(PointI(4, 6, 8), VectorI(0, 1, 0))
    ensures TransformIntended(Ray(PointI(1, 2, 3), VectorI(0, 1, 0)), Translation345) == Ray(PointI(4, 6, 8), VectorI(0, 1, 0))
  {
  }

  // ---------------------------------------------------------------------
  // The hit

  /** An intersection `hit` can pick: in front of the ray (time above 0)
      and below the initial bound f64::MAX. */
  predicate Candidate(xs: seq<Intersection>, i: int)
  {
    0 <= i < |xs| && 0.0 < xs[i].time < F64_MAX
  }

  /** `i` is the hit: a candidate no other candidate is nearer than, and the
      first of the nearest when several share its time. */
  predicate IsHit(xs: seq<Intersection>, i: int)
  {
    Candidate(xs, i)
    && (forall j :: 0 <= j < |xs| && Candidate(xs, j) ==> xs[i].time <= xs[j].time)
    && (forall j :: 0 <= j < i && Candidate(xs, j) ==> xs[i].time < xs[j].time)
  }

  /** `hit`: the scan keeps the index and the time of the smallest positive
      time so far, replacing it only on a strictly smaller one, and starts
      from usize::MAX and f64::MAX; an index above 2 at the end means nothing
      was found. The source's array always holds two intersections. */
  method Hit(xs: Intersections) returns (h: Util.Option<Intersection>)
    requires xs.Some? ==> |xs.intersects| == 2
    ensures h.None? <==> xs.None? || forall i :: 0 <= i < |xs.intersects| ==> !Candidate(xs.intersects, i)
    ensures h.Some? ==> xs.Some? && exists i :: IsHit(xs.intersects, i) && h.value == xs.intersects[i]
  {
    match xs
    case None =>
      h := Util.None;
    case Some(intersects) =>
      var smallestI: nat := USIZE_MAX;
      var smallestTime := F64_MAX;
      for i := 0 to |intersects|
        invariant smallestI == USIZE_MAX || smallestI < i
        invariant smallestI == USIZE_MAX ==> smallestTime == F64_MAX
        invariant smallestI < i ==> smallestTime == intersects[smallestI].time && Candidate(intersects, smallestI)
        invariant forall j :: 0 <= j < i && Candidate(intersects, j) ==> smallestTime <= intersects[j].time
        invariant forall j :: 0 <= j < i && j < smallestI && Candidate(intersects, j) ==> smallestTime < intersects[j].time
      {
        if intersects[i].time > 0.0 && intersects[i].time < smallestTime {
          smallestTime := intersects[i].time;
          smallestI := i;
        }
      }
      if smallestI > 2 {
        h := Util.None;
      } else {
        h := Util.Some(intersects[smallestI]);
        assert IsHit(intersects, smallestI);
      }
  }

  /** There is at most one hit. */
  lemma HitUnique(xs: seq<Intersection>, i: int, j: int)
    requires IsHit(xs, i) && IsHit(xs, j)
    ensures i == j
  {
  }

  /** For a pair ordered by time, as `intersect` returns it, the hit is the
      nearer intersection when it is in front of the ray, and otherwise the
      farther one when that is. */
  lemma HitOfOrderedPair(xs: seq<Intersection>)
    requires |xs| == 2 && xs[0].time <= xs[1].time
    ensures IsHit(xs, 0) <==> Candidate(xs, 0)
    ensures IsHit(xs, 1) <==> !Candidate(xs, 0) && Candidate(xs, 1)
  {
  }

  /** Swapping two intersections with different times does not change which
      one is the hit. */
  lemma HitIgnoresOrder(x: Intersection, y: Intersection)
    requires x.time != y.time
    ensures IsHit([x, y], 0) <==> IsHit([y, x], 1)
    ensures IsHit([x, y], 1) <==> IsHit([y, x], 0)
  {
  }

  /** The hit tests, with the intersections stored as [i2, i1]: all
      negative gives no hit; -1 and 1 give the one at 1; 2 and 1 give the
      one at 1. */
  lemma HitExamples(o: Object)
    ensures forall i :: 0 <= i < 2 ==> !Candidate([Intersection(-1.0, o), Intersection(-2.0, o)], i)
    ensures IsHit([Intersection(-1.0, o), Intersection(1.0, o)], 1)
    ensures IsHit([Intersection(2.0, o), Intersection(1.0, o)], 1)
  {
  }

  // ---------------------------------------------------------------------
  // Algebra of the quadratic

  lemma DivTimes(x: real, y: real)
    requires y != 0.0
    ensures (x / y) * y == x
  {
  }

  /** The smaller root comes first. */
  lemma RootsOrdered(a: real, s: real, t1: real, t2: real, b: real)
    requires a > 0.0 && s >= 0.0
    requires t1 * (2.0 * a) == -b - s && t2 * (2.0 * a) == -b + s
    ensures t1 <= t2
  {
    assert (t2 - t1) * (2.0 * a) == 2.0 * s;
    NonNegativeFactor(t2 - t1, 2.0 * a);
  }

  lemma NonNegativeFactor(x: real, k: real)
    requires k > 0.0 && x * k >= 0.0
    ensures x >= 0.0
  {
    assert x == (x * k) / k;
  }

  lemma PositiveFactor(x: real, k: real)
    requires k > 0.0 && k * x > 0.0
    ensures x > 0.0
  {
    assert x == (k * x) / k;
  }

  /** Vieta: a * (t1 + t2) == -b and a * t1 * t2 == c. */
  lemma RootsSumProduct(a: real, b: real, c: real, s: real, t1: real, t2: real)
    requires a > 0.0 && s * s == b * b - 4.0 * a * c
    requires t1 * (2.0 * a) == -b - s && t2 * (2.0 * a) == -b + s
    ensures a * (t1 + t2) == -b
    ensures a * (t1 * t2) == c
  {
    assert (t1 + t2) * (2.0 * a) == -2.0 * b;
    var p := a * (t1 * t2);
    calc {
      4.0 * a * p;
    ==
      (t1 * (2.0 * a)) * (t2 * (2.0 * a));
    ==
      (-b - s) * (-b + s);
    ==
      b * b - s * s;
    ==
      4.0 * a * c;
    }
    CancelPositive(4.0 * a, p, c);
  }

  lemma CancelPositive(k: real, x: real, y: real)
    requires k > 0.0 && k * x == k * y
    ensures x == y
  {
    assert k * (x - y) == 0.0;
  }

  /** The roots of the quadratic are exactly the two given by the formula. */
  lemma QuadraticRoots(a: real, b: real, c: real, s: real, t1: real, t2: real, t: real)
    requires a > 0.0 && s >= 0.0 && s * s == b * b - 4.0 * a * c
    requires t1 * (2.0 * a) == -b - s && t2 * (2.0 * a) == -b + s
    ensures a * t * t + b * t + c == 0.0 <==> t == t1 || t == t2
  {
    RootsSumProduct(a, b, c, s, t1, t2);
    Factor(a, b, c, t1, t2, t);
    ZeroProduct(a, t - t1, t - t2);
  }

  /** The quadratic factors through its roots. */
  lemma Factor(a: real, b: real, c: real, t1: real, t2: real, t: real)
    requires a * (t1 + t2) == -b && a * (t1 * t2) == c
    ensures a * t * t + b * t + c == a * ((t - t1) * (t - t2))
  {
    calc {
      a * ((t - t1) * (t - t2));
    ==
      a * (t * t) - (a * (t1 + t2)) * t + a * (t1 * t2);
    ==
      a * t * t + b * t + c;
    }
  }

  lemma ZeroProduct(a: real, u: real, v: real)
    requires a > 0.0
    ensures a * (u * v) == 0.0 <==> u == 0.0 || v == 0.0
  {
    if u != 0.0 && v != 0.0 {
      ZeroSquare(u);
      assert u * v != 0.0;
      assert a * (u * v) != 0.0;
    }
  }

  /** With a negative discriminant the quadratic has no root. */
  lemma NoRoot(a: real, b: real, c: real, t: real)
    requires a > 0.0 && b * b - 4.0 * a * c < 0.0
    ensures a * t * t + b * t + c > 0.0
  {
    var q := a * t * t + b * t + c;
    var u := 2.0 * a * t + b;
    ZeroSquare(u);
    calc {
      4.0 * a * q;
    ==
      u * u + (4.0 * a * c - b * b);
    >
      0.0;
    }
    PositiveFactor(q, 4.0 * a);
  }

  /** (s + d t)^2 expanded. */
  lemma ExpandSquare(s: real, d: real, t: real)
    ensures (s + d * t) * (s + d * t) == s * s + 2.0 * (d * s) * t + (d * d) * (t * t)
  {
  }

  /** The squared distance from the object's position to the point at
      `time`, minus 1, is the quadratic of `intersect`. */
  lemma DistanceQuadratic(r: Ray, o: Object, time: real)
    ensures var k := Coefficients(r, o);
      var d := Sub(Position(r, time), o.position);
      Dot(d, d) - 1.0 == k.0 * time * time + k.1 * time + k.2
  {
    var s := Sub(r.origin, o.position);
    var v := r.direction;
    var d := Sub(Position(r, time), o.position);
    assert d == Tuple(s.x + v.x * time, s.y + v.y * time, s.z + v.z * time, s.w + v.w * time);
    SumOfSquares(s.x, s.y, s.z, s.w, v.x, v.y, v.z, v.w, time);
  }

  /** The sum of the four squares (s + v t)^2, collected by powers of t. */
  lemma SumOfSquares(sx: real, sy: real, sz: real, sw: real, vx: real, vy: real, vz: real, vw: real, t: real)
    ensures (sx + vx * t) * (sx + vx * t) + (sy + vy * t) * (sy + vy * t)
            + (sz + vz * t) * (sz + vz * t) + (sw + vw * t) * (sw + vw * t)
         == (vx * vx + vy * vy + vz * vz + vw * vw) * t * t
            + 2.0 * (vx * sx + vy * sy + vz * sz + vw * sw) * t
            + (sx * sx + sy * sy + sz * sz + sw * sw)
  {
    ExpandSquare(sx, vx, t);
    ExpandSquare(sy, vy, t);
    ExpandSquare(sz, vz, t);
    ExpandSquare(sw, vw, t);
  }
}
