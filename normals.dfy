/**
 * Surface normals of core/normal.go. Normal3 has the layout of Vec3 but is
 * a distinct type, because normals transform by the inverse transpose.
 * DotV3 and NormalFromVec3 belong to core's vector file, which is not part
 * of this model; they are the plain dot product and component copy.
 */
module Normals {
  import opened Helpers
  import opened Vectors

  datatype Normal3 = Normal3(X: real, Y: real, Z: real) {

    function ToVec3(): (v: Vec3)
      ensures NormalFromVec3(v) == this
    {
      Vec3(X, Y, Z)
    }

    function MagnitudeSq(): (r: real)
      ensures r == DotN3(this, this)
      ensures r >= 0.0
      ensures r == 0.0 <==> this == ZeroNormal
    {
      var r := X * X + Y * Y + Z * Z;
      SquaresNonNegative(X, Y, Z, r);
      r
    }

    function Inverse(): (r: Normal3)
      ensures Add(r) == ZeroNormal
    {
      Normal3(-X, -Y, -Z)
    }

    function Add(v2: Normal3): Normal3
    {
      Normal3(X + v2.X, Y + v2.Y, Z + v2.Z)
    }

    function Subtract(v2: Normal3): (r: Normal3)
      ensures r.Add(v2) == this
    {
      Add(v2.Inverse())
    }

    function Multiply(f: real): Normal3
    {
      Normal3(f * X, f * Y, f * Z)
    }

    function Divide(f: real): (r: Normal3)
      requires f != 0.0
      ensures r.Multiply(f) == this
    {
      Normal3(X / f, Y / f, Z / f)
    }

    function MinComponent(): (r: real)
      ensures r <= X && r <= Y && r <= Z
      ensures r == X || r == Y || r == Z
    {
      Min(X, Min(Y, Z))
    }

    function MaxComponent(): (r: real)
      ensures r >= X && r >= Y && r >= Z
      ensures r == X || r == Y || r == Z
    {
      Max(X, Max(Y, Z))
    }
  }

  const ZeroNormal := Normal3(0.0, 0.0, 0.0)

  function NormalFromVec3(v: Vec3): Normal3
  {
    Normal3(v.X, v.Y, v.Z)
  }

  lemma NormalInverseInvolution(n: Normal3)
    ensures n.Inverse().Inverse() == n
    ensures n.Subtract(n) == ZeroNormal
    ensures n.Multiply(-1.0) == n.Inverse()
  {
  }

  function DotN3(m: Normal3, n: Normal3): real
  {
    m.X * n.X + m.Y * n.Y + m.Z * n.Z
  }

  lemma DotN3Symmetric(m: Normal3, n: Normal3)
    ensures DotN3(m, n) == DotN3(n, m)
    ensures AbsDotN3(m, n) == AbsDotN3(n, m)
  {
  }

  function AbsDotN3(m: Normal3, n: Normal3): (r: real)
    ensures r >= 0.0
    ensures r == DotN3(m, n) || r == -DotN3(m, n)
  {
    Abs(DotN3(m, n))
  }

  function CrossN3(m: Normal3, n: Normal3): (r: Normal3)
    ensures DotN3(r, m) == 0.0 && DotN3(r, n) == 0.0
  {
    Normal3(m.Y * n.Z - m.Z * n.Y, m.Z * n.X - m.X * n.Z, m.X * n.Y - m.Y * n.X)
  }

  /**
   * n, flipped when it points away from v: the result lies in v's hemisphere,
   * and n is kept whenever it already does.
   */
  function FaceForward(n: Normal3, v: Vec3): (r: Normal3)
    ensures r == n || r == n.Inverse()
    ensures r.ToVec3().Dot(v) >= 0.0
    ensures n.ToVec3().Dot(v) >= 0.0 ==> r == n
  {
    if n.ToVec3().Dot(v) < 0.0 then n.Inverse() else n
  }

  lemma {:induction false} FaceForwardIdempotent(n: Normal3, v: Vec3)
    ensures FaceForward(FaceForward(n, v), v) == FaceForward(n, v)
  {
  }
}
