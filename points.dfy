/**
 * Points of math/point.go (Point3, Point2): point + vector is a point,
 * point - point is a vector; AddP, Multiply and Divide exist so that
 * weighted sums of points can be formed. math.Floor and math.Ceil are the
 * real floor and ceiling here.
 */
module Points {
  import opened Helpers
  import opened Vectors

  datatype Point3 = Point3(X: real, Y: real, Z: real) {

    /** Coordinate by axis index, 0 = X, 1 = Y, 2 = Z. */
    function Get(i: int): real
      requires 0 <= i < 3
    {
      if i == 0 then X else if i == 1 then Y else Z
    }

    function ToVec(): Vec3
    {
      Vec3(X, Y, Z)
    }

    function AddV(v: Vec3): Point3
    {
      Point3(X + v.X, Y + v.Y, Z + v.Z)
    }

    function AddP(p2: Point3): Point3
    {
      Point3(X + p2.X, Y + p2.Y, Z + p2.Z)
    }

    /** Moving back along v; moving forward again returns to this point. */
    function SubtractV(v2: Vec3): (r: Point3)
      ensures r.AddV(v2) == this
    {
      AddV(v2.Inverse())
    }

    /** The vector from p2 to this point: p2 moved by it is this point. */
    function SubtractP(p2: Point3): (r: Vec3)
      ensures p2.AddV(r) == this
    {
      Vec3(X - p2.X, Y - p2.Y, Z - p2.Z)
    }

    function Multiply(f: real): Point3
    {
      Point3(f * X, f * Y, f * Z)
    }

    /** Division by f (float64 gives infinities for f = 0; excluded here). */
    function Divide(f: real): (r: Point3)
      requires f != 0.0
      ensures r.Multiply(f) == this
    {
      Point3(X / f, Y / f, Z / f)
    }
  }

  const Origin3 := Point3(0.0, 0.0, 0.0)

  /** Multiplying then dividing by the same nonzero factor is the identity. */
  lemma MultiplyDivide(p: Point3, f: real)
    requires f != 0.0
    ensures p.Multiply(f).Divide(f) == p
  {
  }

  /** Componentwise: p is no greater than q on any axis. */
  predicate LeqP3(p: Point3, q: Point3)
  {
    p.X <= q.X && p.Y <= q.Y && p.Z <= q.Z
  }

  function DistanceP3Sq(p1: Point3, p2: Point3): (r: real)
    ensures r >= 0.0
    ensures r == 0.0 <==> p1 == p2
  {
    var d := p2.SubtractP(p1);
    SubtractPZero(p1, p2, d);
    d.MagnitudeSq()
  }

  /** The difference of two points is the zero vector exactly when they are equal. */
  lemma SubtractPZero(p1: Point3, p2: Point3, d: Vec3)
    requires d == Vec3(p2.X - p1.X, p2.Y - p1.Y, p2.Z - p1.Z)
    ensures d == Zero3 <==> p1 == p2
  {
  }

  function DistanceP3(p1: Point3, p2: Point3, sqrt: real -> real): real
  {
    p2.SubtractP(p1).Magnitude(sqrt)
  }

  lemma DistanceP3SqSymmetric(p1: Point3, p2: Point3)
    ensures DistanceP3Sq(p1, p2) == DistanceP3Sq(p2, p1)
  {
  }

  function LerpP3(f: real, p1: Point3, p2: Point3): (r: Point3)
    ensures f == 0.0 ==> r == p1
    ensures f == 1.0 ==> r == p2
  {
    p1.Multiply(1.0 - f).AddP(p2.Multiply(f))
  }

  function MinP3(p1: Point3, p2: Point3): (r: Point3)
    ensures LeqP3(r, p1) && LeqP3(r, p2)
    ensures r.X in {p1.X, p2.X} && r.Y in {p1.Y, p2.Y} && r.Z in {p1.Z, p2.Z}
  {
    Point3(Min(p1.X, p2.X), Min(p1.Y, p2.Y), Min(p1.Z, p2.Z))
  }

  function MaxP3(p1: Point3, p2: Point3): (r: Point3)
    ensures LeqP3(p1, r) && LeqP3(p2, r)
    ensures r.X in {p1.X, p2.X} && r.Y in {p1.Y, p2.Y} && r.Z in {p1.Z, p2.Z}
  {
    Point3(Max(p1.X, p2.X), Max(p1.Y, p2.Y), Max(p1.Z, p2.Z))
  }

  lemma MinMaxP3Laws(p: Point3, q: Point3)
    ensures MinP3(p, q) == MinP3(q, p) && MaxP3(p, q) == MaxP3(q, p)
    ensures MinP3(p, p) == p && MaxP3(p, p) == p
  {
  }

  function Floor(x: real): (r: real)
    ensures r <= x < r + 1.0
  {
    x.Floor as real
  }

  function Ceil(x: real): (r: real)
    ensures r - 1.0 < x <= r
  {
    -((-x).Floor as real)
  }

  /** math.Floor per coordinate (the source passes p by pointer and only reads it). */
  function FloorP3(p: Point3): (r: Point3)
    ensures LeqP3(r, p)
    ensures p.X < r.X + 1.0 && p.Y < r.Y + 1.0 && p.Z < r.Z + 1.0
  {
    Point3(Floor(p.X), Floor(p.Y), Floor(p.Z))
  }

  function CeilP3(p: Point3): (r: Point3)
    ensures LeqP3(p, r)
    ensures r.X < p.X + 1.0 && r.Y < p.Y + 1.0 && r.Z < p.Z + 1.0
  {
    Point3(Ceil(p.X), Ceil(p.Y), Ceil(p.Z))
  }

  function AbsP3(p: Point3): (r: Point3)
    ensures r.X >= 0.0 && r.Y >= 0.0 && r.Z >= 0.0
    ensures r.X in {p.X, -p.X} && r.Y in {p.Y, -p.Y} && r.Z in {p.Z, -p.Z}
  {
    Point3(Abs(p.X), Abs(p.Y), Abs(p.Z))
  }

  datatype Point2 = Point2(X: real, Y: real) {

    function ToVec(): Vec2
    {
      Vec2(X, Y)
    }

    function AddV(v: Vec2): Point2
    {
      Point2(X + v.X, Y + v.Y)
    }

    function AddP(p2: Point2): Point2
    {
      Point2(X + p2.X, Y + p2.Y)
    }

    function SubtractV(v2: Vec2): (r: Point2)
      ensures r.AddV(v2) == this
    {
      AddV(v2.Inverse())
    }

    function SubtractP(p2: Point2): (r: Vec2)
      ensures p2.AddV(r) == this
    {
      Vec2(X - p2.X, Y - p2.Y)
    }

    function Multiply(f: real): Point2
    {
      Point2(f * X, f * Y)
    }

    function Divide(f: real): (r: Point2)
      requires f != 0.0
      ensures r.Multiply(f) == this
    {
      Point2(X / f, Y / f)
    }
  }

  predicate LeqP2(p: Point2, q: Point2)
  {
    p.X <= q.X && p.Y <= q.Y
  }

  function DistanceP2Sq(p1: Point2, p2: Point2): (r: real)
    ensures r >= 0.0
    ensures r == 0.0 <==> p1 == p2
  {
    var d := p2.SubtractP(p1);
    assert d == Vec2(0.0, 0.0) <==> p1 == p2;
    d.MagnitudeSq()
  }

  function DistanceP2(p1: Point2, p2: Point2, sqrt: real -> real): real
  {
    p2.SubtractP(p1).Magnitude(sqrt)
  }

  function LerpP2(f: real, p1: Point2, p2: Point2): (r: Point2)
    ensures f == 0.0 ==> r == p1
    ensures f == 1.0 ==> r == p2
  {
    p1.Multiply(1.0 - f).AddP(p2.Multiply(f))
  }

  function MinP2(p1: Point2, p2: Point2): (r: Point2)
    ensures LeqP2(r, p1) && LeqP2(r, p2)
    ensures r.X in {p1.X, p2.X} && r.Y in {p1.Y, p2.Y}
  {
    Point2(Min(p1.X, p2.X), Min(p1.Y, p2.Y))
  }

  function MaxP2(p1: Point2, p2: Point2): (r: Point2)
    ensures LeqP2(p1, r) && LeqP2(p2, r)
    ensures r.X in {p1.X, p2.X} && r.Y in {p1.Y, p2.Y}
  {
    Point2(Max(p1.X, p2.X), Max(p1.Y, p2.Y))
  }

  function FloorP2(p: Point2): (r: Point2)
    ensures LeqP2(r, p)
    ensures p.X < r.X + 1.0 && p.Y < r.Y + 1.0
  {
    Point2(Floor(p.X), Floor(p.Y))
  }

  function CeilP2(p: Point2): (r: Point2)
    ensures LeqP2(p, r)
    ensures r.X < p.X + 1.0 && r.Y < p.Y + 1.0
  {
    Point2(Ceil(p.X), Ceil(p.Y))
  }

  function AbsP2(p: Point2): (r: Point2)
    ensures r.X >= 0.0 && r.Y >= 0.0
    ensures r.X in {p.X, -p.X} && r.Y in {p.Y, -p.Y}
  {
    Point2(Abs(p.X), Abs(p.Y))
  }
}
