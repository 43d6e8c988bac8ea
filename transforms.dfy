/**
 * Transforms of core/transform.go and math/transform.go: a 4x4 matrix kept
 * together with its inverse, so that inverting a transform is a swap. The
 * math package's Transform is the same type with a subset of the methods
 * (ApplyV, Inverse, Transpose, IsIdentity, HasScale and the constructors);
 * both are modelled here once.
 *
 * Matrix4x4f's own file is not part of this model. Its identity and its
 * transpose are the ordinary ones; its Inverse, which reports whether the
 * matrix was invertible, is a parameter.
 */
module Transforms {
  import opened Wrappers
  import opened Helpers
  import opened Vectors
  import opened Points
  import opened Normals
  import opened Rays
  import opened Bounds

  /** A 4x4 matrix; field mij is row i, column j. */
  datatype Matrix4x4f = Matrix4x4f(
    m00: real, m01: real, m02: real, m03: real,
    m10: real, m11: real, m12: real, m13: real,
    m20: real, m21: real, m22: real, m23: real,
    m30: real, m31: real, m32: real, m33: real)

  /** New4x4IDMat. */
  const Identity4x4 := Matrix4x4f(
    1.0, 0.0, 0.0, 0.0,
    0.0, 1.0, 0.0, 0.0,
    0.0, 0.0, 1.0, 0.0,
    0.0, 0.0, 0.0, 1.0)

  function TransposeM(a: Matrix4x4f): (r: Matrix4x4f)
    ensures r.m01 == a.m10 && r.m02 == a.m20 && r.m03 == a.m30 && r.m12 == a.m21
    ensures r.m00 == a.m00 && r.m11 == a.m11 && r.m22 == a.m22 && r.m33 == a.m33
  {
    Matrix4x4f(
      a.m00, a.m10, a.m20, a.m30,
      a.m01, a.m11, a.m21, a.m31,
      a.m02, a.m12, a.m22, a.m32,
      a.m03, a.m13, a.m23, a.m33)
  }

  /**
   * The upper-left 3x3 block of inv times that of a is the identity: the
   * part of the two matrices that acts on vectors and normals are inverses.
   */
  predicate InverseUpper3(inv: Matrix4x4f, a: Matrix4x4f)
  {
    && inv.m00 * a.m00 + inv.m01 * a.m10 + inv.m02 * a.m20 == 1.0
    && inv.m00 * a.m01 + inv.m01 * a.m11 + inv.m02 * a.m21 == 0.0
    && inv.m00 * a.m02 + inv.m01 * a.m12 + inv.m02 * a.m22 == 0.0
    && inv.m10 * a.m00 + inv.m11 * a.m10 + inv.m12 * a.m20 == 0.0
    && inv.m10 * a.m01 + inv.m11 * a.m11 + inv.m12 * a.m21 == 1.0
    && inv.m10 * a.m02 + inv.m11 * a.m12 + inv.m12 * a.m22 == 0.0
    && inv.m20 * a.m00 + inv.m21 * a.m10 + inv.m22 * a.m20 == 0.0
    && inv.m20 * a.m01 + inv.m21 * a.m11 + inv.m22 * a.m21 == 0.0
    && inv.m20 * a.m02 + inv.m21 * a.m12 + inv.m22 * a.m22 == 1.0
  }

  /** The bottom row is (0, 0, 0, 1): the transform maps points to points without a projective divide. */
  predicate AffineM(a: Matrix4x4f)
  {
    a.m30 == 0.0 && a.m31 == 0.0 && a.m32 == 0.0 && a.m33 == 1.0
  }

  /** Corner indices (bit k set = pMax on axis k) in the order ApplyB visits them. */
  const ApplyBOrder: seq<int> := [0, 1, 2, 4, 6, 3, 5, 7]

  datatype Transform = Transform(m: Matrix4x4f, mInv: Matrix4x4f) {

    /** The first three homogeneous coordinates of p's image. */
    function Affine(p: Point3): Point3
    {
      Point3(Row(m.m00, m.m01, m.m02, m.m03, p),
             Row(m.m10, m.m11, m.m12, m.m13, p),
             Row(m.m20, m.m21, m.m22, m.m23, p))
    }

    /** The homogeneous weight of p's image. */
    function Weight(p: Point3): real
    {
      m.m30 * p.X + m.m31 * p.Y + m.m32 * p.Z + m.m33
    }

    /**
     * The image of a point: the homogeneous coordinates divided by the
     * weight, skipping the divide when the weight is 1. A zero weight makes
     * the source divide by zero; it is excluded.
     */
    function ApplyP(p: Point3): (r: Point3)
      requires Weight(p) != 0.0
      ensures r.Multiply(Weight(p)) == Affine(p)
      ensures Weight(p) == 1.0 ==> r == Affine(p)
    {
      var w := Weight(p);
      if w == 1.0 then Affine(p) else Affine(p).Divide(w)
    }

    /**
     * ApplyP with a bound on the rounding error: per axis, gamma(3) times
     * the sum of the absolute terms. On a zero weight the source prints a
     * message and returns the zero point with the error bound.
     */
    function ApplyPE(p: Point3): (r: (Point3, Vec3))
      ensures Weight(p) != 0.0 ==> r.0 == ApplyP(p)
      ensures Weight(p) == 0.0 ==> r.0 == Origin3
      ensures r.1.X >= 0.0 && r.1.Y >= 0.0 && r.1.Z >= 0.0
    {
      var err := ErrorBound(p);
      if Weight(p) == 0.0 then (Origin3, err) else (ApplyP(p), err)
    }

    /** gamma(3) times, per axis, the sum of the absolute values of the terms of Affine. */
    function ErrorBound(p: Point3): (err: Vec3)
      ensures err.X >= 0.0 && err.Y >= 0.0 && err.Z >= 0.0
    {
      var g := Gamma(3.0);
      var xAbsSum := Abs(m.m00 * p.X) + Abs(m.m01 * p.Y) + Abs(m.m02 * p.Z) + Abs(m.m03);
      var yAbsSum := Abs(m.m10 * p.X) + Abs(m.m11 * p.Y) + Abs(m.m12 * p.Z) + Abs(m.m13);
      var zAbsSum := Abs(m.m20 * p.X) + Abs(m.m21 * p.Y) + Abs(m.m22 * p.Z) + Abs(m.m23);
      MulNonNegative(g, xAbsSum, g * xAbsSum);
      MulNonNegative(g, yAbsSum, g * yAbsSum);
      MulNonNegative(g, zAbsSum, g * zAbsSum);
      Vec3(xAbsSum, yAbsSum, zAbsSum).Multiply(g)
    }

    /** A vector has weight 0: only the upper-left 3x3 block acts on it. */
    function ApplyV(v: Vec3): Vec3
    {
      Vec3(m.m00 * v.X + m.m01 * v.Y + m.m02 * v.Z,
           m.m10 * v.X + m.m11 * v.Y + m.m12 * v.Z,
           m.m20 * v.X + m.m21 * v.Y + m.m22 * v.Z)
    }

    /** Normals transform by the transpose of the inverse matrix. */
    function ApplyN(n: Normal3): Normal3
    {
      Normal3(mInv.m00 * n.X + mInv.m10 * n.Y + mInv.m20 * n.Z,
              mInv.m01 * n.X + mInv.m11 * n.Y + mInv.m21 * n.Z,
              mInv.m02 * n.X + mInv.m12 * n.Y + mInv.m22 * n.Z)
    }

    /** ApplyR as written: the origin through ApplyPE, the direction through ApplyV, and tMax set to 0. */
    function ApplyR(r: Ray): (s: Ray)
      ensures s.tMax == 0.0
      ensures s.Orig == ApplyPE(r.Orig).0 && s.Dir == ApplyV(r.Dir)
      ensures s.Time == r.Time && s.medium == r.medium
    {
      var o := ApplyPE(r.Orig).0;
      var d := ApplyV(r.Dir);
      Ray(o, d, 0.0, r.Time, r.medium)
    }

    /** ApplyR as intended: the ray keeps its extent tMax. */
    function ApplyRIntended(r: Ray): (s: Ray)
      ensures s.tMax == r.tMax
      ensures s.Orig == ApplyPE(r.Orig).0 && s.Dir == ApplyV(r.Dir)
      ensures s.Time == r.Time && s.medium == r.medium
    {
      var o := ApplyPE(r.Orig).0;
      var d := ApplyV(r.Dir);
      Ray(o, d, r.tMax, r.Time, r.medium)
    }

    /** Every corner of b has an image (nonzero weight). */
    predicate CornersMappable(b: Bounds3)
    {
      forall k :: 0 <= k < 8 ==> Weight(b.Corner(k)) != 0.0
    }

    /** The images of b's corners, in the order ApplyB unions them. */
    function CornerImages(b: Bounds3): (ps: seq<Point3>)
      requires CornersMappable(b)
      ensures |ps| == 8
      ensures forall k :: 0 <= k < 8 ==> ps[k] == ApplyP(b.Corner(ApplyBOrder[k]))
    {
      seq(8, j requires 0 <= j < 8 => ApplyP(b.Corner(ApplyBOrder[j])))
    }

    /**
     * ApplyB as written: the starting box sets only pMin to the first
     * corner's image, so pMax starts at the origin, and the other seven
     * images are unioned in.
     */
    method ApplyB(b: Bounds3) returns (ret: Bounds3)
      requires CornersMappable(b)
      ensures ret == UnionAll(Bounds3(CornerImages(b)[0], Origin3), CornerImages(b)[1..])
      ensures forall k :: 1 <= k < 8 ==> ret.Contains(CornerImages(b)[k])
      ensures LeqP3(Origin3, ret.pMax)
    {
      ghost var ps := CornerImages(b);
      CornerPoints(b);
      ret := Bounds3(ApplyP(Point3(b.pMin.X, b.pMin.Y, b.pMin.Z)), Origin3);
      ghost var start := ret;
      ret := UnionB3P(ret, ApplyP(Point3(b.pMax.X, b.pMin.Y, b.pMin.Z)));
      ret := UnionB3P(ret, ApplyP(Point3(b.pMin.X, b.pMax.Y, b.pMin.Z)));
      ret := UnionB3P(ret, ApplyP(Point3(b.pMin.X, b.pMin.Y, b.pMax.Z)));
      ret := UnionB3P(ret, ApplyP(Point3(b.pMin.X, b.pMax.Y, b.pMax.Z)));
      ret := UnionB3P(ret, ApplyP(Point3(b.pMax.X, b.pMax.Y, b.pMin.Z)));
      ret := UnionB3P(ret, ApplyP(Point3(b.pMax.X, b.pMin.Y, b.pMax.Z)));
      ret := UnionB3P(ret, ApplyP(Point3(b.pMax.X, b.pMax.Y, b.pMax.Z)));
      UnionAllSeven(start, ps);
      UnionAllBounds(start, ps[1..]);
    }

    /** ApplyB as intended: the starting box is the first corner's image alone. */
    method ApplyBIntended(b: Bounds3) returns (ret: Bounds3)
      requires CornersMappable(b)
      ensures ret == UnionAll(NewSinglePBounds3(CornerImages(b)[0]), CornerImages(b)[1..])
      ensures ret.Valid()
      ensures forall k :: 0 <= k < 8 ==> ret.Contains(CornerImages(b)[k])
      ensures forall c: Bounds3 :: (forall k :: 0 <= k < 8 ==> c.Contains(CornerImages(b)[k])) ==> Inside(ret, c)
    {
      ghost var ps := CornerImages(b);
      CornerPoints(b);
      ret := NewSinglePBounds3(ApplyP(Point3(b.pMin.X, b.pMin.Y, b.pMin.Z)));
      ghost var start := ret;
      ret := UnionB3P(ret, ApplyP(Point3(b.pMax.X, b.pMin.Y, b.pMin.Z)));
      ret := UnionB3P(ret, ApplyP(Point3(b.pMin.X, b.pMax.Y, b.pMin.Z)));
      ret := UnionB3P(ret, ApplyP(Point3(b.pMin.X, b.pMin.Y, b.pMax.Z)));
      ret := UnionB3P(ret, ApplyP(Point3(b.pMin.X, b.pMax.Y, b.pMax.Z)));
      ret := UnionB3P(ret, ApplyP(Point3(b.pMax.X, b.pMax.Y, b.pMin.Z)));
      ret := UnionB3P(ret, ApplyP(Point3(b.pMax.X, b.pMin.Y, b.pMax.Z)));
      ret := UnionB3P(ret, ApplyP(Point3(b.pMax.X, b.pMax.Y, b.pMax.Z)));
      UnionAllSeven(start, ps);
      UnionAllBounds(start, ps[1..]);
      assert start.Contains(ps[0]);
      InsideContains(start, ret, ps[0]);
      forall c: Bounds3 | forall k :: 0 <= k < 8 ==> c.Contains(ps[k])
        ensures Inside(ret, c)
      {
        assert Inside(start, c);
        assert forall k :: 0 <= k < |ps[1..]| ==> c.Contains(ps[1..][k]);
        UnionAllLeast(start, ps[1..], c);
      }
    }

    function Inverse(): (r: Transform)
      ensures r.m == mInv && r.mInv == m
    {
      Transform(mInv, m)
    }

    function Transpose(): Transform
    {
      Transform(TransposeM(m), TransposeM(mInv))
    }

    /** Both matrices are the identity. */
    predicate IsIdentity()
    {
      m == Identity4x4 && mInv == Identity4x4
    }

    /** Some axis vector's image has a squared length outside [0.999, 1.001]. */
    predicate HasScale()
    {
      NotOne(ApplyV(Vec3(1.0, 0.0, 0.0)).MagnitudeSq())
      || NotOne(ApplyV(Vec3(0.0, 1.0, 0.0)).MagnitudeSq())
      || NotOne(ApplyV(Vec3(0.0, 0.0, 1.0)).MagnitudeSq())
    }
  }

  /** The closure inside HasScale. */
  predicate NotOne(n: real)
  {
    n < 0.999 || n > 1.001
  }

  /** Left fold of UnionB3P over ps, starting from b. */
  function UnionAll(b: Bounds3, ps: seq<Point3>): Bounds3
    decreases |ps|
  {
    if ps == [] then b else UnionAll(UnionB3P(b, ps[0]), ps[1..])
  }

  /** The fold keeps everything b held and takes in every point. */
  lemma {:induction false} UnionAllBounds(b: Bounds3, ps: seq<Point3>)
    decreases |ps|
    ensures Inside(b, UnionAll(b, ps))
    ensures forall k :: 0 <= k < |ps| ==> UnionAll(b, ps).Contains(ps[k])
    ensures ps != [] ==> UnionAll(b, ps).Valid()
  {
    if ps != [] {
      var u := UnionB3P(b, ps[0]);
      UnionAllBounds(u, ps[1..]);
      var r := UnionAll(b, ps);
      assert r == UnionAll(u, ps[1..]);
      InsideContains(u, r, ps[0]);
      forall k | 1 <= k < |ps|
        ensures r.Contains(ps[k])
      {
        assert ps[k] == ps[1..][k - 1];
      }
    }
  }

  /** The fold is the least box holding b and the points. */
  lemma {:induction false} UnionAllLeast(b: Bounds3, ps: seq<Point3>, c: Bounds3)
    requires Inside(b, c)
    requires forall k :: 0 <= k < |ps| ==> c.Contains(ps[k])
    decreases |ps|
    ensures Inside(UnionAll(b, ps), c)
  {
    if ps != [] {
      var u := UnionB3P(b, ps[0]);
      assert Inside(u, c);
      assert forall k :: 0 <= k < |ps[1..]| ==> c.Contains(ps[1..][k]);
      UnionAllLeast(u, ps[1..], c);
    }
  }

  /** Unfolding the fold over seven points, one union at a time. */
  lemma UnionAllSeven(start: Bounds3, ps: seq<Point3>)
    requires |ps| == 8
    ensures UnionAll(start, ps[1..]) ==
      UnionB3P(UnionB3P(UnionB3P(UnionB3P(UnionB3P(UnionB3P(UnionB3P(
        start, ps[1]), ps[2]), ps[3]), ps[4]), ps[5]), ps[6]), ps[7])
  {
    var s1 := UnionB3P(start, ps[1]);
    var s2 := UnionB3P(s1, ps[2]);
    var s3 := UnionB3P(s2, ps[3]);
    var s4 := UnionB3P(s3, ps[4]);
    var s5 := UnionB3P(s4, ps[5]);
    var s6 := UnionB3P(s5, ps[6]);
    var s7 := UnionB3P(s6, ps[7]);
    assert UnionAll(s7, ps[8..]) == s7;
    assert UnionAll(s6, ps[7..]) == UnionAll(s7, ps[8..]);
    assert UnionAll(s5, ps[6..]) == UnionAll(s6, ps[7..]);
    assert UnionAll(s4, ps[5..]) == UnionAll(s5, ps[6..]);
    assert UnionAll(s3, ps[4..]) == UnionAll(s4, ps[5..]);
    assert UnionAll(s2, ps[3..]) == UnionAll(s3, ps[4..]);
    assert UnionAll(s1, ps[2..]) == UnionAll(s2, ps[3..]);
    assert UnionAll(start, ps[1..]) == UnionAll(s1, ps[2..]);
  }

  // ----- constructors -----

  /** NewTransform: the identity, as both the matrix and its inverse. */
  function NewTransform(): (t: Transform)
    ensures t.IsIdentity()
  {
    Transform(Identity4x4, Identity4x4)
  }

  /**
   * A transform of mat. inverse stands for Matrix4x4f.Inverse, which
   * reports whether mat was invertible; when it was not, the identity is
   * kept as the inverse.
   */
  function NewTransformFromMat(mat: Matrix4x4f, inverse: Matrix4x4f -> (bool, Matrix4x4f)): (t: Transform)
    ensures t.m == mat
    ensures inverse(mat).0 ==> t.mInv == inverse(mat).1
    ensures !inverse(mat).0 ==> t.mInv == Identity4x4
  {
    var (ok, inv) := inverse(mat);
    Transform(mat, if ok then inv else Identity4x4)
  }

  function NewTransformWithInv(mat: Matrix4x4f, matInv: Matrix4x4f): Transform
  {
    Transform(mat, matInv)
  }

  /** Both matrices agree entry by entry. */
  predicate IsEqualTransform(t0: Transform, t1: Transform)
  {
    t0.m == t1.m && t0.mInv == t1.mInv
  }

  /** The translation by delta, with the translation by -delta as its inverse. */
  function Translate(delta: Vec3): Transform
  {
    Transform(
      Matrix4x4f(1.0, 0.0, 0.0, delta.X,
                 0.0, 1.0, 0.0, delta.Y,
                 0.0, 0.0, 1.0, delta.Z,
                 0.0, 0.0, 0.0, 1.0),
      Matrix4x4f(1.0, 0.0, 0.0, -delta.X,
                 0.0, 1.0, 0.0, -delta.Y,
                 0.0, 0.0, 1.0, -delta.Z,
                 0.0, 0.0, 0.0, 1.0))
  }

  /** Scaling by x, y, z per axis, with the reciprocals as its inverse (which needs nonzero factors). */
  function Scale(x: real, y: real, z: real): Transform
    requires x != 0.0 && y != 0.0 && z != 0.0
  {
    Transform(
      Matrix4x4f(x, 0.0, 0.0, 0.0,
                 0.0, y, 0.0, 0.0,
                 0.0, 0.0, z, 0.0,
                 0.0, 0.0, 0.0, 1.0),
      Matrix4x4f(1.0 / x, 0.0, 0.0, 0.0,
                 0.0, 1.0 / y, 0.0, 0.0,
                 0.0, 0.0, 1.0 / z, 0.0,
                 0.0, 0.0, 0.0, 1.0))
  }

  // ----- laws -----

  /** Inverse and Transpose are swaps and entrywise moves: both undo themselves and commute. */
  lemma {:induction false} InverseTransposeLaws(t: Transform, t2: Transform, mat: Matrix4x4f, matInv: Matrix4x4f)
    ensures t.Inverse().Inverse() == t
    ensures t.Transpose().Transpose() == t
    ensures t.Inverse().Transpose() == t.Transpose().Inverse()
    ensures IsEqualTransform(t, t2) <==> t == t2
    ensures NewTransformWithInv(mat, matInv).Inverse() == NewTransformWithInv(matInv, mat)
  {
  }

  /** HasScale looks at the squared lengths of the columns of the 3x3 block. */
  lemma HasScaleColumns(t: Transform)
    ensures t.HasScale() <==>
      || NotOne(t.m.m00 * t.m.m00 + t.m.m10 * t.m.m10 + t.m.m20 * t.m.m20)
      || NotOne(t.m.m01 * t.m.m01 + t.m.m11 * t.m.m11 + t.m.m21 * t.m.m21)
      || NotOne(t.m.m02 * t.m.m02 + t.m.m12 * t.m.m12 + t.m.m22 * t.m.m22)
  {
    assert t.ApplyV(Vec3(1.0, 0.0, 0.0)) == Vec3(t.m.m00, t.m.m10, t.m.m20);
    assert t.ApplyV(Vec3(0.0, 1.0, 0.0)) == Vec3(t.m.m01, t.m.m11, t.m.m21);
    assert t.ApplyV(Vec3(0.0, 0.0, 1.0)) == Vec3(t.m.m02, t.m.m12, t.m.m22);
  }

  /** The identity transform moves nothing. */
  lemma {:induction false} IdentityActsTrivially(p: Point3, v: Vec3, n: Normal3)
    ensures NewTransform().Weight(p) == 1.0
    ensures NewTransform().ApplyP(p) == p
    ensures NewTransform().ApplyV(v) == v
    ensures NewTransform().ApplyN(n) == n
    ensures NewTransform().Inverse() == NewTransform()
  {
    var t := NewTransform();
    assert t.Weight(p) == 1.0;
    assert t.Affine(p) == p;
  }

  /** Neither the identity nor any translation has scale. */
  lemma {:induction false} IdentityTranslateNoScale(delta: Vec3)
    ensures !NewTransform().HasScale()
    ensures !Translate(delta).HasScale()
  {
    ColumnsOfUnitBlock(NewTransform());
    ColumnsOfUnitBlock(Translate(delta));
  }

  /** Translate moves points by delta, leaves vectors and normals alone, and its inverse is the translation by -delta. */
  lemma {:induction false} TranslateLaws(delta: Vec3, p: Point3, v: Vec3, n: Normal3)
    ensures Translate(delta).Weight(p) == 1.0
    ensures Translate(delta).ApplyP(p) == p.AddV(delta)
    ensures Translate(delta).ApplyV(v) == v
    ensures Translate(delta).ApplyN(n) == n
    ensures Translate(delta).Inverse() == Translate(delta.Inverse())
  {
    var t := Translate(delta);
    assert t.Weight(p) == 1.0;
    assert t.Affine(p) == p.AddV(delta);
  }

  /** The inverse of Translate moves every translated point back. */
  lemma {:induction false} TranslateRoundTrip(delta: Vec3, p: Point3)
    ensures Translate(delta).Weight(p) == 1.0
    ensures Translate(delta).Inverse().Weight(Translate(delta).ApplyP(p)) == 1.0
    ensures Translate(delta).Inverse().ApplyP(Translate(delta).ApplyP(p)) == p
  {
    TranslateLaws(delta, p, Zero3, ZeroNormal);
    var q := p.AddV(delta);
    TranslateLaws(delta.Inverse(), q, Zero3, ZeroNormal);
    assert q.AddV(delta.Inverse()) == p;
  }

  /** Scale multiplies per axis, and its inverse undoes it on points and vectors. */
  lemma {:induction false} ScaleLaws(x: real, y: real, z: real, p: Point3, v: Vec3)
    requires x != 0.0 && y != 0.0 && z != 0.0
    ensures Scale(x, y, z).Weight(p) == 1.0
    ensures Scale(x, y, z).ApplyP(p) == Point3(x * p.X, y * p.Y, z * p.Z)
    ensures Scale(x, y, z).ApplyV(v) == Vec3(x * v.X, y * v.Y, z * v.Z)
    ensures Scale(x, y, z).Inverse().Weight(Scale(x, y, z).ApplyP(p)) == 1.0
    ensures Scale(x, y, z).Inverse().ApplyP(Scale(x, y, z).ApplyP(p)) == p
    ensures Scale(x, y, z).Inverse().ApplyV(Scale(x, y, z).ApplyV(v)) == v
  {
    var t := Scale(x, y, z);
    var q := Point3(x * p.X, y * p.Y, z * p.Z);
    assert t.Weight(p) == 1.0;
    assert t.Affine(p) == q;
    assert t.Inverse().Weight(q) == 1.0;
    assert t.Inverse().Affine(q) == Point3(1.0 / x * (x * p.X), 1.0 / y * (y * p.Y), 1.0 / z * (z * p.Z));
    assert t.Inverse().ApplyV(t.ApplyV(v)) == Vec3(1.0 / x * (x * v.X), 1.0 / y * (y * v.Y), 1.0 / z * (z * v.Z));
  }

  /** HasScale of a scaling tests the squared factors; so Scale(2,1,1) has scale and Scale(1,1,1) has none. */
  lemma {:induction false} ScaleHasScale(x: real, y: real, z: real)
    requires x != 0.0 && y != 0.0 && z != 0.0
    ensures Scale(x, y, z).HasScale() <==> NotOne(x * x) || NotOne(y * y) || NotOne(z * z)
  {
    var t := Scale(x, y, z);
    HasScaleColumns(t);
    SquareSumAxis(x, t.m.m00 * t.m.m00 + t.m.m10 * t.m.m10 + t.m.m20 * t.m.m20, t.m.m10, t.m.m20);
    SquareSumAxis(y, t.m.m01 * t.m.m01 + t.m.m11 * t.m.m11 + t.m.m21 * t.m.m21, t.m.m01, t.m.m21);
    SquareSumAxis(z, t.m.m02 * t.m.m02 + t.m.m12 * t.m.m12 + t.m.m22 * t.m.m22, t.m.m02, t.m.m12);
  }

  /** Scale(2,1,1) doubles the X axis: it has scale; Scale(1,1,1) has none. */
  lemma {:induction false} ScaleHasScaleExamples()
    ensures Scale(2.0, 1.0, 1.0).HasScale()
    ensures !Scale(1.0, 1.0, 1.0).HasScale()
  {
    var t := Scale(2.0, 1.0, 1.0);
    HasScaleColumns(t);
    var c := t.m.m00 * t.m.m00 + t.m.m10 * t.m.m10 + t.m.m20 * t.m.m20;
    assert t.m.m00 == 2.0 && t.m.m10 == 0.0 && t.m.m20 == 0.0;
    SquareSumAxis(2.0, c, 0.0, 0.0);
    assert NotOne(c);
    ColumnsOfUnitBlock(Scale(1.0, 1.0, 1.0));
  }

  /** A transform whose 3x3 block is the identity has no scale. */
  lemma ColumnsOfUnitBlock(t: Transform)
    requires t.m.m00 == 1.0 && t.m.m11 == 1.0 && t.m.m22 == 1.0
    requires t.m.m01 == 0.0 && t.m.m02 == 0.0 && t.m.m10 == 0.0
    requires t.m.m12 == 0.0 && t.m.m20 == 0.0 && t.m.m21 == 0.0
    ensures !t.HasScale()
  {
    HasScaleColumns(t);
  }

  /** Squares of a column with a single nonzero entry. */
  lemma SquareSumAxis(x: real, s: real, a: real, b: real)
    requires a == 0.0 && b == 0.0
    requires s == x * x + a * a + b * b || s == a * a + x * x + b * b || s == a * a + b * b + x * x
    ensures s == x * x
  {
  }

  /** ApplyV is linear. */
  lemma {:induction false} ApplyVLinear(t: Transform, a: real, v: Vec3, w: Vec3)
    ensures t.ApplyV(v.Multiply(a).Add(w)) == t.ApplyV(v).Multiply(a).Add(t.ApplyV(w))
  {
    var m := t.m;
    assert m.m00 * (a * v.X + w.X) + m.m01 * (a * v.Y + w.Y) + m.m02 * (a * v.Z + w.Z)
        == a * (m.m00 * v.X + m.m01 * v.Y + m.m02 * v.Z) + (m.m00 * w.X + m.m01 * w.Y + m.m02 * w.Z);
    assert m.m10 * (a * v.X + w.X) + m.m11 * (a * v.Y + w.Y) + m.m12 * (a * v.Z + w.Z)
        == a * (m.m10 * v.X + m.m11 * v.Y + m.m12 * v.Z) + (m.m10 * w.X + m.m11 * w.Y + m.m12 * w.Z);
    assert m.m20 * (a * v.X + w.X) + m.m21 * (a * v.Y + w.Y) + m.m22 * (a * v.Z + w.Z)
        == a * (m.m20 * v.X + m.m21 * v.Y + m.m22 * v.Z) + (m.m20 * w.X + m.m21 * w.Y + m.m22 * w.Z);
  }

  /**
   * The inverse-transpose law: when mInv's 3x3 block inverts m's, a normal
   * transformed by ApplyN has the same dot product with a transformed
   * vector as before, so orthogonal stays orthogonal.
   */
  lemma {:induction false} ApplyNPreservesDot(t: Transform, n: Normal3, v: Vec3)
    requires InverseUpper3(t.mInv, t.m)
    ensures t.ApplyN(n).ToVec3().Dot(t.ApplyV(v)) == n.ToVec3().Dot(v)
    ensures n.ToVec3().Dot(v) == 0.0 ==> t.ApplyN(n).ToVec3().Dot(t.ApplyV(v)) == 0.0
  {
    var a, b := t.mInv, t.m;
    InverseTransposeDot(a, b, n, v, t.ApplyN(n).ToVec3(), t.ApplyV(v));
  }

  /** The dot-product law of ApplyNPreservesDot, on the matrix entries. */
  lemma InverseTransposeDot(a: Matrix4x4f, b: Matrix4x4f, n: Normal3, v: Vec3, nt: Vec3, w: Vec3)
    requires InverseUpper3(a, b)
    requires nt == Vec3(a.m00 * n.X + a.m10 * n.Y + a.m20 * n.Z,
                        a.m01 * n.X + a.m11 * n.Y + a.m21 * n.Z,
                        a.m02 * n.X + a.m12 * n.Y + a.m22 * n.Z)
    requires w == Vec3(b.m00 * v.X + b.m01 * v.Y + b.m02 * v.Z,
                       b.m10 * v.X + b.m11 * v.Y + b.m12 * v.Z,
                       b.m20 * v.X + b.m21 * v.Y + b.m22 * v.Z)
    ensures nt.Dot(w) == n.ToVec3().Dot(v)
  {
    var r0 := a.m00 * w.X + a.m01 * w.Y + a.m02 * w.Z;
    var r1 := a.m10 * w.X + a.m11 * w.Y + a.m12 * w.Z;
    var r2 := a.m20 * w.X + a.m21 * w.Y + a.m22 * w.Z;
    var d := n.X * r0 + n.Y * r1 + n.Z * r2;
    assert nt.Dot(w) == d by {
      RegroupThroughTranspose(a, n, nt, w, r0, r1, r2);
    }
    assert r0 == v.X by {
      InverseRow(a.m00, a.m01, a.m02, b, v, w, 1.0, 0.0, 0.0, r0);
    }
    assert r1 == v.Y by {
      InverseRow(a.m10, a.m11, a.m12, b, v, w, 0.0, 1.0, 0.0, r1);
    }
    assert r2 == v.Z by {
      InverseRow(a.m20, a.m21, a.m22, b, v, w, 0.0, 0.0, 1.0, r2);
    }
    DotOfPicks(n, v, r0, r1, r2, d);
  }

  lemma DotOfPicks(n: Normal3, v: Vec3, r0: real, r1: real, r2: real, d: real)
    requires r0 == v.X && r1 == v.Y && r2 == v.Z
    requires d == n.X * r0 + n.Y * r1 + n.Z * r2
    ensures d == n.ToVec3().Dot(v)
  {
  }

  /** The transposed block of a applied to n, dotted with w, regrouped by the entries of n. */
  lemma RegroupThroughTranspose(a: Matrix4x4f, n: Normal3, nt: Vec3, w: Vec3, r0: real, r1: real, r2: real)
    requires nt == Vec3(a.m00 * n.X + a.m10 * n.Y + a.m20 * n.Z,
                        a.m01 * n.X + a.m11 * n.Y + a.m21 * n.Z,
                        a.m02 * n.X + a.m12 * n.Y + a.m22 * n.Z)
    requires r0 == a.m00 * w.X + a.m01 * w.Y + a.m02 * w.Z
    requires r1 == a.m10 * w.X + a.m11 * w.Y + a.m12 * w.Z
    requires r2 == a.m20 * w.X + a.m21 * w.Y + a.m22 * w.Z
    ensures nt.Dot(w) == n.X * r0 + n.Y * r1 + n.Z * r2
  {
  }

  /**
   * A row (c0, c1, c2) of the inverse times w, the block of b applied to v,
   * is the row's product with b, (e0, e1, e2), applied to v.
   */
  lemma InverseRow(c0: real, c1: real, c2: real, b: Matrix4x4f, v: Vec3, w: Vec3, e0: real, e1: real, e2: real, r: real)
    requires w == Vec3(b.m00 * v.X + b.m01 * v.Y + b.m02 * v.Z,
                       b.m10 * v.X + b.m11 * v.Y + b.m12 * v.Z,
                       b.m20 * v.X + b.m21 * v.Y + b.m22 * v.Z)
    requires e0 == c0 * b.m00 + c1 * b.m10 + c2 * b.m20
    requires e1 == c0 * b.m01 + c1 * b.m11 + c2 * b.m21
    requires e2 == c0 * b.m02 + c1 * b.m12 + c2 * b.m22
    requires r == c0 * w.X + c1 * w.Y + c2 * w.Z
    ensures r == e0 * v.X + e1 * v.Y + e2 * v.Z
  {
    RowTimesBlock(c0, c1, c2, b, v);
  }

  /** Translate carries identity 3x3 blocks, so the inverse-transpose law applies to it. */
  lemma {:induction false} TranslateInverseUpper3(delta: Vec3)
    ensures InverseUpper3(Translate(delta).mInv, Translate(delta).m)
  {
  }

  /** A nonzero Scale carries the reciprocal block as its inverse, so the inverse-transpose law applies to it. */
  lemma {:induction false} ScaleInverseUpper3(x: real, y: real, z: real)
    requires x != 0.0 && y != 0.0 && z != 0.0
    ensures InverseUpper3(Scale(x, y, z).mInv, Scale(x, y, z).m)
  {
    var t := Scale(x, y, z);
    ReciprocalTimes(x, t.mInv.m00, t.m.m00);
    ReciprocalTimes(y, t.mInv.m11, t.m.m11);
    ReciprocalTimes(z, t.mInv.m22, t.m.m22);
  }

  lemma ReciprocalTimes(x: real, r: real, y: real)
    requires x != 0.0 && r == 1.0 / x && y == x
    ensures r * y == 1.0
  {
  }

  /**
   * For an affine transform, the intended ApplyR maps the ray's point at
   * any t to the transformed ray's point at the same t.
   */
  lemma {:induction false} ApplyRIntendedPoints(t: Transform, r: Ray, s: real)
    requires AffineM(t.m)
    ensures t.Weight(r.GetPointForT(s)) == 1.0
    ensures t.ApplyRIntended(r).GetPointForT(s) == t.ApplyP(r.GetPointForT(s))
  {
    var o, d := r.Orig, r.Dir;
    var q := r.GetPointForT(s);
    AffineAlongLine(t, o, d, s);
    AffineWeight(t, o);
    assert t.ApplyP(o) == t.Affine(o);
    var tr := t.ApplyRIntended(r);
    assert tr.Orig == t.Affine(o) && tr.Dir == t.ApplyV(d);
  }

  /** An affine map sends the point o + s*d to its image of o plus s times the image of d. */
  lemma AffineAlongLine(t: Transform, o: Point3, d: Vec3, s: real)
    requires AffineM(t.m)
    ensures t.Weight(o.AddV(d.Multiply(s))) == 1.0
    ensures t.ApplyP(o.AddV(d.Multiply(s))) == t.Affine(o).AddV(t.ApplyV(d).Multiply(s))
  {
    var m := t.m;
    var q := o.AddV(d.Multiply(s));
    var a, e := t.Affine(o), t.ApplyV(d);
    AffineWeight(t, q);
    AffineRow(m.m00, m.m01, m.m02, m.m03, o, d, s);
    AffineRow(m.m10, m.m11, m.m12, m.m13, o, d, s);
    AffineRow(m.m20, m.m21, m.m22, m.m23, o, d, s);
    assert t.Affine(q).X == a.X + s * e.X;
    assert t.Affine(q).Y == a.Y + s * e.Y;
    assert t.Affine(q).Z == a.Z + s * e.Z;

  }

  /** One row of an affine map applied to o + s*d. */
  lemma AffineRow(a0: real, a1: real, a2: real, a3: real, o: Point3, d: Vec3, s: real)
    ensures a0 * (o.X + s * d.X) + a1 * (o.Y + s * d.Y) + a2 * (o.Z + s * d.Z) + a3
         == (a0 * o.X + a1 * o.Y + a2 * o.Z + a3) + s * (a0 * d.X + a1 * d.Y + a2 * d.Z)
  {
  }

  /** A row (c0, c1, c2) times the 3x3 block of b times v, regrouped by the entries of v. */
  lemma RowTimesBlock(c0: real, c1: real, c2: real, b: Matrix4x4f, v: Vec3)
    ensures c0 * (b.m00 * v.X + b.m01 * v.Y + b.m02 * v.Z)
          + c1 * (b.m10 * v.X + b.m11 * v.Y + b.m12 * v.Z)
          + c2 * (b.m20 * v.X + b.m21 * v.Y + b.m22 * v.Z)
         == (c0 * b.m00 + c1 * b.m10 + c2 * b.m20) * v.X
          + (c0 * b.m01 + c1 * b.m11 + c2 * b.m21) * v.Y
          + (c0 * b.m02 + c1 * b.m12 + c2 * b.m22) * v.Z
  {
  }

  // ----- what ApplyB encloses -----

  /** The affine map x' = 1 - x - y - z that keeps y and z; it is its own inverse. */
  const FlipX := Matrix4x4f(
    -1.0, -1.0, -1.0, 1.0,
    0.0, 1.0, 0.0, 0.0,
    0.0, 0.0, 1.0, 0.0,
    0.0, 0.0, 0.0, 1.0)

  /**
   * ApplyB as written can leave out the first corner: for FlipX and the
   * unit cube, the first corner (the origin) maps to (1,0,0), but every
   * other corner maps to x' <= 0 and the starting pMax is the origin, so
   * the result's pMax.X is 0.
   */
  lemma ApplyBMissesFirstCorner(t: Transform, b: Bounds3)
    requires t.m == FlipX && b == Bounds3(Origin3, Point3(1.0, 1.0, 1.0))
    ensures t.CornersMappable(b)
      && t.CornerImages(b)[0] == Point3(1.0, 0.0, 0.0)
      && !UnionAll(Bounds3(t.CornerImages(b)[0], Origin3), t.CornerImages(b)[1..]).Contains(t.CornerImages(b)[0])
  {
    FlipXCornerImages(t, b);
    FlipXUnionMisses(t.CornerImages(b));
  }

  /**
   * The written union over FlipX's corner images: every image but the first
   * lies in the box (-2,0,0)-(0,1,1), and so does the starting box, so the
   * result stays in it and misses (1,0,0).
   */
  lemma FlipXUnionMisses(ps: seq<Point3>)
    requires ps == [Point3(1.0, 0.0, 0.0), Point3(0.0, 0.0, 0.0), Point3(0.0, 1.0, 0.0),
                    Point3(0.0, 0.0, 1.0), Point3(-1.0, 1.0, 1.0), Point3(-1.0, 1.0, 0.0),
                    Point3(-1.0, 0.0, 1.0), Point3(-2.0, 1.0, 1.0)]
    ensures !UnionAll(Bounds3(ps[0], Origin3), ps[1..]).Contains(ps[0])
  {
    var rest := ps[1..];
    var c := Bounds3(Point3(-2.0, 0.0, 0.0), Point3(0.0, 1.0, 1.0));
    var start := Bounds3(ps[0], Origin3);
    assert Inside(start, c);
    assert forall k :: 0 <= k < |rest| ==> c.Contains(rest[k]);
    UnionAllLeast(start, rest, c);
    assert !c.Contains(ps[0]);
  }

  /** The images of the unit cube's corners under FlipX, in ApplyB's order. */
  lemma FlipXCornerImages(t: Transform, b: Bounds3)
    requires t.m == FlipX && b == Bounds3(Origin3, Point3(1.0, 1.0, 1.0))
    ensures t.CornersMappable(b)
    ensures t.CornerImages(b) == [Point3(1.0, 0.0, 0.0), Point3(0.0, 0.0, 0.0), Point3(0.0, 1.0, 0.0),
                               Point3(0.0, 0.0, 1.0), Point3(-1.0, 1.0, 1.0), Point3(-1.0, 1.0, 0.0),
                               Point3(-1.0, 0.0, 1.0), Point3(-2.0, 1.0, 1.0)]
  {
    FlipXMappable(t, b);
    CornerPoints(b);
    FlipXImage(t, b, 0, Point3(0.0, 0.0, 0.0), Point3(1.0, 0.0, 0.0));
    FlipXImage(t, b, 1, Point3(1.0, 0.0, 0.0), Point3(0.0, 0.0, 0.0));
    FlipXImage(t, b, 2, Point3(0.0, 1.0, 0.0), Point3(0.0, 1.0, 0.0));
    FlipXImage(t, b, 3, Point3(0.0, 0.0, 1.0), Point3(0.0, 0.0, 1.0));
    FlipXImage(t, b, 4, Point3(0.0, 1.0, 1.0), Point3(-1.0, 1.0, 1.0));
    FlipXImage(t, b, 5, Point3(1.0, 1.0, 0.0), Point3(-1.0, 1.0, 0.0));
    FlipXImage(t, b, 6, Point3(1.0, 0.0, 1.0), Point3(-1.0, 0.0, 1.0));
    FlipXImage(t, b, 7, Point3(1.0, 1.0, 1.0), Point3(-2.0, 1.0, 1.0));
  }

  lemma FlipXMappable(t: Transform, b: Bounds3)
    requires t.m == FlipX
    ensures t.CornersMappable(b)
  {
    forall k | 0 <= k < 8
      ensures t.Weight(b.Corner(k)) == 1.0
    {
      AffineWeight(t, b.Corner(k));
    }
  }

  /** The j-th image of FlipXCornerImages, from the corner c that ApplyBOrder picks. */
  lemma FlipXImage(t: Transform, b: Bounds3, j: int, c: Point3, img: Point3)
    requires t.m == FlipX && t.CornersMappable(b) && 0 <= j < 8
    requires c == b.Corner(ApplyBOrder[j]) && img == Point3(1.0 - c.X - c.Y - c.Z, c.Y, c.Z)
    ensures t.CornerImages(b)[j] == img
  {
    FlipXApply(t, c);
  }

  lemma FlipXApply(t: Transform, q: Point3)
    requires t.m == FlipX
    ensures t.Weight(q) == 1.0
    ensures t.ApplyP(q) == Point3(1.0 - q.X - q.Y - q.Z, q.Y, q.Z)
  {
    AffineRows(t, q);
  }

  /** One row of an affine map: a0*x + a1*y + a2*z + a3. */
  function Row(a0: real, a1: real, a2: real, a3: real, q: Point3): real
  {
    a0 * q.X + a1 * q.Y + a2 * q.Z + a3
  }

  /** The corner whose axis bits follow the signs of the coefficients: there the row is largest. */
  function MaxCorner(a0: real, a1: real, a2: real): int
  {
    (if a0 >= 0.0 then 1 else 0) + (if a1 >= 0.0 then 2 else 0) + (if a2 >= 0.0 then 4 else 0)
  }

  /** The corner with the given bits, and the opposite corner (index 7 - i). */
  lemma CornerBits(b: Bounds3, onX: bool, onY: bool, onZ: bool)
    ensures var i := (if onX then 1 else 0) + (if onY then 2 else 0) + (if onZ then 4 else 0);
      && b.Corner(i) == Point3(if onX then b.pMax.X else b.pMin.X, if onY then b.pMax.Y else b.pMin.Y,
                               if onZ then b.pMax.Z else b.pMin.Z)
      && b.Corner(7 - i) == Point3(if onX then b.pMin.X else b.pMax.X, if onY then b.pMin.Y else b.pMax.Y,
                                   if onZ then b.pMin.Z else b.pMax.Z)
  {
  }

  /** a*x is bounded by a times the end of [lo, hi] that the sign of a selects (top), and by the other end (bottom). */
  lemma TermBound(a: real, x: real, lo: real, hi: real, top: real, bottom: real)
    requires lo <= x <= hi
    requires top == (if a >= 0.0 then hi else lo) && bottom == (if a >= 0.0 then lo else hi)
    ensures a * x <= a * top
    ensures a * bottom <= a * x
  {
    if a > 0.0 {
      MulMonotone(x, hi, a);
      MulMonotone(lo, x, a);
    } else if a < 0.0 {
      MulMonotone(lo, x, -a);
      MulMonotone(x, hi, -a);
      assert lo * -a == -(a * lo) && x * -a == -(a * x) && hi * -a == -(a * hi);
    }
  }

  /** Over a box, a row is largest at MaxCorner and smallest at the opposite corner. */
  lemma {:induction false} RowExtremes(a0: real, a1: real, a2: real, a3: real, b: Bounds3, p: Point3)
    requires b.Contains(p)
    ensures 0 <= MaxCorner(a0, a1, a2) < 8
    ensures Row(a0, a1, a2, a3, p) <= Row(a0, a1, a2, a3, b.Corner(MaxCorner(a0, a1, a2)))
    ensures Row(a0, a1, a2, a3, b.Corner(7 - MaxCorner(a0, a1, a2))) <= Row(a0, a1, a2, a3, p)
  {
    CornerBits(b, a0 >= 0.0, a1 >= 0.0, a2 >= 0.0);
    var k := MaxCorner(a0, a1, a2);
    RowBetween(a0, a1, a2, a3, p, b.pMin, b.pMax, b.Corner(k), b.Corner(7 - k));
  }

  /** The row at p lies between its values at the two sign-selected corners hi and lo of [mn, mx]. */
  lemma RowBetween(a0: real, a1: real, a2: real, a3: real, p: Point3, mn: Point3, mx: Point3, hi: Point3, lo: Point3)
    requires LeqP3(mn, p) && LeqP3(p, mx)
    requires hi == Point3(if a0 >= 0.0 then mx.X else mn.X, if a1 >= 0.0 then mx.Y else mn.Y, if a2 >= 0.0 then mx.Z else mn.Z)
    requires lo == Point3(if a0 >= 0.0 then mn.X else mx.X, if a1 >= 0.0 then mn.Y else mx.Y, if a2 >= 0.0 then mn.Z else mx.Z)
    ensures Row(a0, a1, a2, a3, p) <= Row(a0, a1, a2, a3, hi)
    ensures Row(a0, a1, a2, a3, lo) <= Row(a0, a1, a2, a3, p)
  {
    TermBound(a0, p.X, mn.X, mx.X, hi.X, lo.X);
    TermBound(a1, p.Y, mn.Y, mx.Y, hi.Y, lo.Y);
    TermBound(a2, p.Z, mn.Z, mx.Z, hi.Z, lo.Z);
    RowMonotone(a0, a1, a2, a3, p, hi);
    RowMonotone(a0, a1, a2, a3, lo, p);
  }

  lemma RowMonotone(a0: real, a1: real, a2: real, a3: real, p: Point3, q: Point3)
    requires a0 * p.X <= a0 * q.X && a1 * p.Y <= a1 * q.Y && a2 * p.Z <= a2 * q.Z
    ensures Row(a0, a1, a2, a3, p) <= Row(a0, a1, a2, a3, q)
  {
  }

  /** A box that holds the eight images in ApplyB's order holds the image of every corner. */
  lemma {:induction false} HoldsEveryCorner(t: Transform, b: Bounds3, r: Bounds3, k: int)
    requires t.CornersMappable(b)
    requires forall j :: 0 <= j < 8 ==> r.Contains(t.CornerImages(b)[j])
    requires 0 <= k < 8
    ensures r.Contains(t.ApplyP(b.Corner(k)))
  {
    var ps := t.CornerImages(b);
    var j := if k == 0 then 0 else if k == 1 then 1 else if k == 2 then 2 else if k == 4 then 3
      else if k == 6 then 4 else if k == 3 then 5 else if k == 5 then 6 else 7;
    assert ApplyBOrder[j] == k;
    assert r.Contains(ps[j]);
  }

  /**
   * The intended ApplyB of an affine transform encloses the image of every
   * point of the box: each coordinate of an image is a row of the matrix,
   * which is extreme at a corner, and every corner's image is in the result.
   */
  lemma {:induction false} ApplyBIntendedEncloses(t: Transform, b: Bounds3, p: Point3)
    requires AffineM(t.m) && b.Contains(p)
    ensures t.CornersMappable(b)
    ensures t.Weight(p) == 1.0
    ensures UnionAll(NewSinglePBounds3(t.CornerImages(b)[0]), t.CornerImages(b)[1..]).Contains(t.ApplyP(p))
  {
    forall q: Point3
      ensures t.Weight(q) == 1.0
    {
      AffineWeight(t, q);
    }
    var ps := t.CornerImages(b);
    var start := NewSinglePBounds3(ps[0]);
    var r := UnionAll(start, ps[1..]);
    UnionAllBounds(start, ps[1..]);
    assert start.Contains(ps[0]);
    InsideContains(start, r, ps[0]);
    forall j | 1 <= j < 8
      ensures r.Contains(ps[j])
    {
      assert ps[j] == ps[1..][j - 1];
    }
    var m := t.m;
    RowExtremes(m.m00, m.m01, m.m02, m.m03, b, p);
    RowExtremes(m.m10, m.m11, m.m12, m.m13, b, p);
    RowExtremes(m.m20, m.m21, m.m22, m.m23, b, p);
    var kx, ky, kz := MaxCorner(m.m00, m.m01, m.m02), MaxCorner(m.m10, m.m11, m.m12), MaxCorner(m.m20, m.m21, m.m22);
    HoldsEveryCorner(t, b, r, kx);
    HoldsEveryCorner(t, b, r, 7 - kx);
    HoldsEveryCorner(t, b, r, ky);
    HoldsEveryCorner(t, b, r, 7 - ky);
    HoldsEveryCorner(t, b, r, kz);
    HoldsEveryCorner(t, b, r, 7 - kz);
    AffineRows(t, p);
    AffineRows(t, b.Corner(kx));
    AffineRows(t, b.Corner(7 - kx));
    AffineRows(t, b.Corner(ky));
    AffineRows(t, b.Corner(7 - ky));
    AffineRows(t, b.Corner(kz));
    AffineRows(t, b.Corner(7 - kz));
  }

  /** For an affine transform, each coordinate of ApplyP is a row of the matrix. */
  lemma AffineRows(t: Transform, q: Point3)
    requires AffineM(t.m)
    ensures t.Weight(q) == 1.0
    ensures t.ApplyP(q).X == Row(t.m.m00, t.m.m01, t.m.m02, t.m.m03, q)
    ensures t.ApplyP(q).Y == Row(t.m.m10, t.m.m11, t.m.m12, t.m.m13, q)
    ensures t.ApplyP(q).Z == Row(t.m.m20, t.m.m21, t.m.m22, t.m.m23, q)
  {
    AffineWeight(t, q);
    assert t.ApplyP(q) == t.Affine(q);
  }

  /** The eight corners of b, spelled out by coordinates as ApplyB lists them. */
  lemma CornerPoints(b: Bounds3)
    ensures b.Corner(0) == Point3(b.pMin.X, b.pMin.Y, b.pMin.Z)
    ensures b.Corner(1) == Point3(b.pMax.X, b.pMin.Y, b.pMin.Z)
    ensures b.Corner(2) == Point3(b.pMin.X, b.pMax.Y, b.pMin.Z)
    ensures b.Corner(4) == Point3(b.pMin.X, b.pMin.Y, b.pMax.Z)
    ensures b.Corner(6) == Point3(b.pMin.X, b.pMax.Y, b.pMax.Z)
    ensures b.Corner(3) == Point3(b.pMax.X, b.pMax.Y, b.pMin.Z)
    ensures b.Corner(5) == Point3(b.pMax.X, b.pMin.Y, b.pMax.Z)
    ensures b.Corner(7) == Point3(b.pMax.X, b.pMax.Y, b.pMax.Z)
  {
  }

  /** An affine transform gives every point the weight 1. */
  lemma AffineWeight(t: Transform, q: Point3)
    requires AffineM(t.m)
    ensures t.Weight(q) == 1.0
  {
    ZeroTimes(t.m.m30, q.X);
    ZeroTimes(t.m.m31, q.Y);
    ZeroTimes(t.m.m32, q.Z);
  }

  lemma ZeroTimes(a: real, x: real)
    requires a == 0.0
    ensures a * x == 0.0
  {
  }
}
