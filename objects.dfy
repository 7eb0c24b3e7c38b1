// Scene objects: the sphere, its transformation, and the surface normal.

module Objects {
  import opened Util
  import opened Tuples
  import opened Matrices

  /** `Object`: its only variant, a sphere with a centre, a radius and an
      object-to-world transformation. */
  datatype Object = Sphere(position: Tuple, radius: real, transformation: Matrix4)

  /** `sphere`: centred on ORIGIN, radius 1, untransformed. */
  function UnitSphere(): Object
  {
    Sphere(Origin, 1.0, Identity4)
  }

  /** `set_transform`: a copy with the transformation replaced. */
  function SetTransform(o: Object, transform: Matrix4): (r: Object)
    ensures r.transformation == transform
    ensures r.position == o.position && r.radius == o.radius
  {
    match o
    case Sphere(position, radius, _) => Sphere(position, radius, transform)
  }

  /** Setting a transformation is a write: the last one wins, and writing
      back the current one changes nothing. */
  lemma SetTransformProperties(o: Object, t: Matrix4, t': Matrix4)
    ensures SetTransform(SetTransform(o, t), t') == SetTransform(o, t')
    ensures SetTransform(o, o.transformation) == o
    ensures SetTransform(o, t) == o <==> o.transformation == t
  {
  }

  /** The sphere tests: the default transformation is IDENTITY_MATRIX and
      `set_transform` installs the given one. */
  lemma SphereExamples(t: Matrix4)
    ensures UnitSphere().transformation == Identity4
    ensures SetTransform(UnitSphere(), t).transformation == t
    ensures UnitSphere().position == Point(0.0, 0.0, 0.0) && UnitSphere().radius == 1.0
  {
  }

  /** The un-normalised world normal of `normal_at`: the point taken into
      object space by the inverse, minus the centre, taken back by the
      transpose of the inverse, with w set to 0. Both products are
      `Mul<Tuple>` as written; where the point and the object normal have
      x == w, this is the intended world normal. */
  function WorldNormal(o: Object, p: Tuple, inverse: Matrix4): (n: Tuple)
    ensures IsVector(n)
    ensures p.x == p.w && Sub(MulTuple(inverse, p), o.position).x == Sub(MulTuple(inverse, p), o.position).w
      ==> n == WorldNormalIntended(o, p, inverse)
  {
    MulTupleAsWrittenAgrees(inverse, p);
    var objectNormal := Sub(MulTupleAsWritten(inverse, p), o.position);
    MulTupleAsWrittenAgrees(Transposed(inverse, 4), objectNormal);
    var w := MulTupleAsWritten(Transposed(inverse, 4), objectNormal);
    Vector(w.x, w.y, w.z)
  }

  /** The world normal with the intended product. */
  function WorldNormalIntended(o: Object, p: Tuple, inverse: Matrix4): (n: Tuple)
    ensures IsVector(n)
  {
    var objectNormal := Sub(MulTuple(inverse, p), o.position);
    var w := MulTuple(Transposed(inverse, 4), objectNormal);
    Vector(w.x, w.y, w.z)
  }

  /** `normal_at`. The inverse comes from `invert`, which is outside this
      model and is given as a parameter; `unwrap` panics on a singular
      transformation, and normalising a zero normal divides by zero, so both
      are excluded. The result is the unit vector along the world normal. */
  function NormalAt(o: Object, p: Tuple, invert: Matrix4 -> Option<Matrix4>, sqrt: real -> real): (n: Tuple)
    requires IsSqrt(sqrt)
    requires invert(o.transformation).Some?
    requires WorldNormal(o, p, invert(o.transformation).value) != ZeroVector
    ensures IsVector(n)
    ensures Magnitude(n, sqrt) == 1.0
    ensures var w := WorldNormal(o, p, invert(o.transformation).value);
      n == Scale(w, 1.0 / Magnitude(w, sqrt)) && Magnitude(w, sqrt) > 0.0
  {
    Normalize(WorldNormal(o, p, invert(o.transformation).value), sqrt)
  }

  /** `normal_at` with the intended product. */
  function NormalAtIntended(o: Object, p: Tuple, invert: Matrix4 -> Option<Matrix4>, sqrt: real -> real): (n: Tuple)
    requires IsSqrt(sqrt)
    requires invert(o.transformation).Some?
    requires WorldNormalIntended(o, p, invert(o.transformation).value) != ZeroVector
    ensures IsVector(n)
    ensures Magnitude(n, sqrt) == 1.0
    ensures var w := WorldNormalIntended(o, p, invert(o.transformation).value);
      n == Scale(w, 1.0 / Magnitude(w, sqrt)) && Magnitude(w, sqrt) > 0.0
  {
    Normalize(WorldNormalIntended(o, p, invert(o.transformation).value), sqrt)
  }

  /** The radius plays no part in the normal. */
  lemma NormalIgnoresRadius(o: Object, p: Tuple, invert: Matrix4 -> Option<Matrix4>, sqrt: real -> real, radius: real)
    requires IsSqrt(sqrt)
    requires invert(o.transformation).Some?
    requires WorldNormal(o, p, invert(o.transformation).value) != ZeroVector
    ensures NormalAt(o.(radius := radius), p, invert, sqrt) == NormalAt(o, p, invert, sqrt)
  {
  }

  /** Under the identity the world normal is the point minus the centre,
      with either product: as written, the object point's w becomes its x,
      but w is dropped at the end and the identity's fourth column is zero
      in the first three rows. */
  lemma WorldNormalUntransformed(o: Object, p: Tuple)
    requires IsPoint(p) && IsPoint(o.position)
    ensures WorldNormal(o, p, Identity4) == Sub(p, o.position)
    ensures WorldNormalIntended(o, p, Identity4) == Sub(p, o.position)
  {
    var v := Sub(p, o.position);
    TransposeIdentity();
    MulTupleIdentity(p);
    MulTupleIdentity(v);
    var u := Sub(MulTupleAsWritten(Identity4, p), o.position);
    MulTupleIdentity(u);
    assert u.x == v.x && u.y == v.y && u.z == v.z;
  }

  /** translation(0, -1, 0): the inverse of translation(0, 1, 0). */
  const DownOne: Matrix4 := Matrix([[1.0, 0.0, 0.0, 0.0], [0.0, 1.0, 0.0, -1.0],
                                    [0.0, 0.0, 1.0, 0.0], [0.0, 0.0, 0.0, 1.0]])

  /** A unit sphere translated by (0, 1, 0) has, at its surface point
      (0, 1.6, -0.8), the unit normal (0, 0.6, -0.8). The world normal as
      written is (0, 1.6, -0.8) instead: the translation is multiplied by
      the point's x, which is 0, so it is never undone. */
  lemma WorldNormalTranslated(o: Object)
    requires o.position == Origin
    ensures WorldNormalIntended(o, Point(0.0, 1.6, -0.8), DownOne) == Vector(0.0, 0.6, -0.8)
    ensures WorldNormal(o, Point(0.0, 1.6, -0.8), DownOne) == Vector(0.0, 1.6, -0.8)
  {
  }

  /** Normalising a tuple of magnitude 1 leaves it unchanged. */
  lemma NormalizeUnit(v: Tuple, sqrt: real -> real)
    requires IsSqrt(sqrt) && Dot(v, v) == 1.0
    ensures v != ZeroVector && Normalize(v, sqrt) == v
  {
    calc {
      Magnitude(v, sqrt);
    ==
      sqrt(Dot(v, v));
    == { SqrtOf(sqrt, 1.0, 1.0); }
      1.0;
    }
    assert Normalize(v, sqrt) == Scale(v, 1.0 / 1.0);
  }

  /** For an untransformed sphere around the origin, the normal at a point
      of the unit sphere is the point's own direction, with either product. */
  lemma NormalAtUntransformed(o: Object, p: Tuple, invert: Matrix4 -> Option<Matrix4>, sqrt: real -> real)
    requires IsSqrt(sqrt)
    requires invert(o.transformation) == Some(Identity4)
    requires IsPoint(p) && o.position == Origin
    requires Dot(Sub(p, Origin), Sub(p, Origin)) == 1.0
    ensures WorldNormal(o, p, Identity4) != ZeroVector
    ensures WorldNormalIntended(o, p, Identity4) != ZeroVector
    ensures NormalAt(o, p, invert, sqrt) == Sub(p, Origin)
    ensures NormalAtIntended(o, p, invert, sqrt) == Sub(p, Origin)
  {
    WorldNormalUntransformed(o, p);
    NormalizeUnit(Sub(p, Origin), sqrt);
  }
}
