/**
 * Vector algebra of math/vector.go (Vec3, Vec2). The core package uses a
 * vector type of the same layout; its own file is not part of this model,
 * and core code is modelled over these vectors. Components are float64 in
 * the source and `real` here; Magnitude and Normalize need the float
 * library's square root, which is passed in as a parameter.
 */
module Vectors {
  import opened Helpers

  datatype Vec3 = Vec3(X: real, Y: real, Z: real) {

    /** Component by axis index, 0 = X, 1 = Y, 2 = Z. */
    function Get(i: int): real
      requires 0 <= i < 3
    {
      if i == 0 then X else if i == 1 then Y else Z
    }

    /** Squared length: the dot product with itself, zero only for the zero vector. */
    function MagnitudeSq(): (r: real)
      ensures r == Dot(this)
      ensures r >= 0.0
      ensures r == 0.0 <==> this == Zero3
    {
      var r := X * X + Y * Y + Z * Z;
      SquaresNonNegative(X, Y, Z, r);
      r
    }

    /** Length, through the square root of the float library. */
    function Magnitude(sqrt: real -> real): real
    {
      sqrt(MagnitudeSq())
    }

    /** The negated vector: adding it gives the zero vector. */
    function Inverse(): (r: Vec3)
      ensures Add(r) == Zero3
    {
      Vec3(-X, -Y, -Z)
    }

    function Add(v2: Vec3): Vec3
    {
      Vec3(X + v2.X, Y + v2.Y, Z + v2.Z)
    }

    /** Adding the inverse of v2; adding v2 back restores this vector. */
    function Subtract(v2: Vec3): (r: Vec3)
      ensures r.Add(v2) == this
    {
      Add(v2.Inverse())
    }

    function Multiply(f: real): Vec3
    {
      Vec3(f * X, f * Y, f * Z)
    }

    function Dot(v2: Vec3): real
    {
      X * v2.X + Y * v2.Y + Z * v2.Z
    }

    function AbsDot(v2: Vec3): (r: real)
      ensures r >= 0.0
      ensures r == Abs(v2.Dot(this))
    {
      assert Dot(v2) == v2.Dot(this);
      Abs(Dot(v2))
    }

    /** The cross product, orthogonal to both of its operands. */
    function Cross(w: Vec3): (r: Vec3)
      ensures r.Dot(this) == 0.0 && r.Dot(w) == 0.0
    {
      Vec3(Y * w.Z - Z * w.Y, Z * w.X - X * w.Z, X * w.Y - Y * w.X)
    }

    function MinComponent(): (r: real)
      ensures r <= X && r <= Y && r <= Z
      ensures r == X || r == Y || r == Z
    {
      Min(X, Min(Y, Z))
    }

    function MaxComponent(): (r: real)
      ensures r >= X && r >= Y && r >= Z
      ensures r == X || r == Y || r == Z
    {
      Max(X, Max(Y, Z))
    }
  }

  const Zero3 := Vec3(0.0, 0.0, 0.0)

  /** s, the sum of three squares, is never negative and is zero only at the origin. */
  lemma SquaresNonNegative(x: real, y: real, z: real, s: real)
    requires s == x * x + y * y + z * z
    ensures s >= 0.0
    ensures s == 0.0 <==> x == 0.0 && y == 0.0 && z == 0.0
  {
    var a, b, c := x * x, y * y, z * z;
    SquareSign(x, a);
    SquareSign(y, b);
    SquareSign(z, c);
  }

  lemma SquareSign(x: real, s: real)
    requires s == x * x
    ensures s >= 0.0
    ensures x != 0.0 ==> s > 0.0
    ensures x == 0.0 ==> s == 0.0
  {
    if x > 0.0 {
      MulPositive(x, x, s);
    } else if x < 0.0 {
      MulPositive(-x, -x, s);
    }
  }

  lemma MulPositive(x: real, y: real, p: real)
    requires x > 0.0 && y > 0.0 && p == x * y
    ensures p > 0.0
  {
  }

  /** Negating twice gives back the vector, and v - v is zero. */
  lemma Vec3InverseInvolution(v: Vec3)
    ensures v.Inverse().Inverse() == v
    ensures v.Subtract(v) == Zero3
  {
  }

  lemma Vec3DotSymmetric(v: Vec3, w: Vec3)
    ensures v.Dot(w) == w.Dot(v)
    ensures v.AbsDot(w) == w.AbsDot(v)
  {
  }

  /** Swapping the operands negates the cross product; v x v is zero. */
  lemma CrossAnticommutative(v: Vec3, w: Vec3)
    ensures v.Cross(w) == w.Cross(v).Inverse()
    ensures v.Cross(v) == Zero3
  {
  }

  function MinCompsVec(v: Vec3, w: Vec3): (r: Vec3)
    ensures r.X <= v.X && r.X <= w.X && (r.X == v.X || r.X == w.X)
    ensures r.Y <= v.Y && r.Y <= w.Y && (r.Y == v.Y || r.Y == w.Y)
    ensures r.Z <= v.Z && r.Z <= w.Z && (r.Z == v.Z || r.Z == w.Z)
  {
    Vec3(Min(v.X, w.X), Min(v.Y, w.Y), Min(v.Z, w.Z))
  }

  function MaxCompsVec(v: Vec3, w: Vec3): (r: Vec3)
    ensures r.X >= v.X && r.X >= w.X && (r.X == v.X || r.X == w.X)
    ensures r.Y >= v.Y && r.Y >= w.Y && (r.Y == v.Y || r.Y == w.Y)
    ensures r.Z >= v.Z && r.Z >= w.Z && (r.Z == v.Z || r.Z == w.Z)
  {
    Vec3(Max(v.X, w.X), Max(v.Y, w.Y), Max(v.Z, w.Z))
  }

  /**
   * Builds an orthogonal frame around v, writing the two other axes through
   * the pointers w and u (here: out-parameters). w is v's projection
   * perpendicular to Y or to X, scaled by 1/sqrt(...); the source divides by
   * zero when that root is zero, which the precondition excludes.
   */
  method MakeCoordSystem(v: Vec3, sqrt: real -> real) returns (w: Vec3, u: Vec3)
    requires Abs(v.X) > Abs(v.Y) ==> sqrt(v.X * v.X + v.Z * v.Z) != 0.0
    requires Abs(v.X) <= Abs(v.Y) ==> sqrt(v.Y * v.Y + v.Z * v.Z) != 0.0
    ensures Abs(v.X) > Abs(v.Y) ==> w.Y == 0.0
    ensures Abs(v.X) <= Abs(v.Y) ==> w.X == 0.0
    ensures w.Dot(v) == 0.0
    ensures u == v.Cross(w)
    ensures u.Dot(v) == 0.0 && u.Dot(w) == 0.0
  {
    if Abs(v.X) > Abs(v.Y) {
      var root := sqrt(v.X * v.X + v.Z * v.Z);
      w := Vec3(-v.Z, 0.0, v.X).Multiply(1.0 / root);
      assert w.Dot(v) == (1.0 / root) * (-v.Z * v.X + v.X * v.Z);
    } else {
      var root := sqrt(v.Y * v.Y + v.Z * v.Z);
      w := Vec3(0.0, v.Z, -v.Y).Multiply(1.0 / root);
      assert w.Dot(v) == (1.0 / root) * (v.Z * v.Y - v.Y * v.Z);
    }
    u := v.Cross(w);
  }

  datatype Vec2 = Vec2(X: real, Y: real) {

    function MagnitudeSq(): (r: real)
      ensures r == Dot(this)
      ensures r >= 0.0
      ensures r == 0.0 <==> this == Vec2(0.0, 0.0)
    {
      var r := X * X + Y * Y;
      SquaresNonNegative(X, Y, 0.0, r + 0.0 * 0.0);
      r
    }

    function Magnitude(sqrt: real -> real): real
    {
      sqrt(MagnitudeSq())
    }

    function Inverse(): (r: Vec2)
      ensures Add(r) == Vec2(0.0, 0.0)
    {
      Vec2(-X, -Y)
    }

    function Add(v2: Vec2): Vec2
    {
      Vec2(X + v2.X, Y + v2.Y)
    }

    function Subtract(v2: Vec2): (r: Vec2)
      ensures r.Add(v2) == this
    {
      Add(v2.Inverse())
    }

    function Multiply(f: real): Vec2
    {
      Vec2(f * X, f * Y)
    }

    function Dot(v2: Vec2): real
    {
      X * v2.X + Y * v2.Y
    }

    function AbsDot(v2: Vec2): (r: real)
      ensures r >= 0.0
      ensures r == Abs(v2.Dot(this))
    {
      assert Dot(v2) == v2.Dot(this);
      Abs(Dot(v2))
    }
  }
}
