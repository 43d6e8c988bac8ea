/**
 * Interactions of core/interaction.go: the record of a ray meeting a
 * surface or a medium, and the surface interaction a shape builds at a hit.
 * The medium interface is an object this model does not look inside (a
 * Ref); the normalisation of the cross product needs a square root and is
 * passed in as a parameter.
 */
module Interactions {
  import opened Wrappers
  import opened Helpers
  import opened Vectors
  import opened Points
  import opened Normals
  import opened ShapeRecords

  datatype Interaction = Interaction(p: Point3, time: real, pError: Vec3, wo: Vec3, n: Normal3,
                                     mediumInterface: Ref)
  {
    /** Only surface interactions carry a normal; a medium interaction has the zero normal. */
    predicate IsSurfaceInteraction()
    {
      n != ZeroNormal
    }
  }

  /** The zero value of Interaction. */
  const EmptyInteraction := Interaction(Origin3, 0.0, Zero3, Zero3, ZeroNormal, Nil)

  function NewInteraction(p: Point3, n: Normal3, pError: Vec3, wo: Vec3, time: real, med: Ref): (i: Interaction)
    ensures i.p == p && i.n == n && i.pError == pError && i.wo == wo && i.time == time
    ensures i.mediumInterface == med
    ensures i.IsSurfaceInteraction() <==> n != ZeroNormal
  {
    Interaction(p, time, pError, wo, n, med)
  }

  /** The shading frame, which starts out as a copy of the geometric one. */
  datatype Shading = Shading(n: Normal3, dndu: Normal3, dndv: Normal3, dpdu: Vec3, dpdv: Vec3)

  datatype SurfaceInteraction = SurfaceInteraction(inter: Interaction, uv: Point2, dpdu: Vec3, dpdv: Vec3,
                                                   dndu: Normal3, dndv: Normal3, shape: Option<ShapeData>,
                                                   shading: Shading)

  /** The zero value of SurfaceInteraction: what a shape returns with a miss. */
  const EmptySurfaceInteraction := SurfaceInteraction(EmptyInteraction, Point2(0.0, 0.0), Zero3, Zero3,
    ZeroNormal, ZeroNormal, None, Shading(ZeroNormal, ZeroNormal, ZeroNormal, Zero3, Zero3))

  /** The geometric normal of a parametric surface: the normalised cross product of its partials. */
  function GeometricNormal(dpdu: Vec3, dpdv: Vec3, normalize: Vec3 -> Vec3): Normal3
  {
    NormalFromVec3(normalize(dpdu.Cross(dpdv)))
  }

  /**
   * The orientation test as written: reverse || swaps && !(reverse && swaps).
   * Go's && binds tighter than ||, hence the inner parentheses. It holds
   * exactly when at least one of the two flags is set (see OrientationTestIsOr).
   */
  predicate OrientationTest(shape: Option<ShapeData>)
  {
    shape.Some? &&
    (shape.value.reverseOrientation ||
     (shape.value.transformSwapsHandedness && !(shape.value.reverseOrientation && shape.value.transformSwapsHandedness)))
  }

  /** The orientation test as evidently intended: flip when exactly one of the two flags is set. */
  predicate OrientationTestIntended(shape: Option<ShapeData>)
  {
    shape.Some? && Xor(shape.value.reverseOrientation, shape.value.transformSwapsHandedness)
  }

  lemma {:induction false} OrientationTestIsOr(shape: Option<ShapeData>)
    ensures OrientationTest(shape) <==>
      shape.Some? && (shape.value.reverseOrientation || shape.value.transformSwapsHandedness)
  {
  }

  /** The two tests disagree exactly when both flags are set: the written one flips, the intended one does not. */
  lemma {:induction false} OrientationTestDiffers(shape: Option<ShapeData>)
    ensures OrientationTest(shape) != OrientationTestIntended(shape) <==>
      shape.Some? && shape.value.reverseOrientation && shape.value.transformSwapsHandedness
  {
  }

  /**
   * NewSurfaceInteraction as written. The normal is flipped after the
   * interaction and the shading frame were built from it, so the flip is a
   * dead store; and the medium argument is dropped for a nil one.
   */
  function NewSurfaceInteraction(p: Point3, pError: Vec3, wo: Vec3, time: real, med: Ref, uv: Point2,
                                 dpdu: Vec3, dpdv: Vec3, dndu: Normal3, dndv: Normal3,
                                 shape: Option<ShapeData>, normalize: Vec3 -> Vec3): (si: SurfaceInteraction)
    ensures si.inter.n == GeometricNormal(dpdu, dpdv, normalize) == si.shading.n
    ensures si.inter.p == p && si.inter.pError == pError && si.inter.wo == wo && si.inter.time == time
    ensures si.inter.mediumInterface == Nil
    ensures si.uv == uv && si.dpdu == dpdu && si.dpdv == dpdv && si.dndu == dndu && si.dndv == dndv
    ensures si.shape == shape
    ensures si.shading == Shading(si.inter.n, dndu, dndv, dpdu, dpdv)
  {
    var normal := GeometricNormal(dpdu, dpdv, normalize);
    var interaction := NewInteraction(p, normal, pError, wo, time, Nil);
    var s := Shading(normal, dndu, dndv, dpdu, dpdv);
    var normalAfter := if OrientationTest(shape) then normal.Multiply(-1.0) else normal;
    SurfaceInteraction(interaction, uv, dpdu, dpdv, dndu, dndv, shape, s)
  }

  /** The normal multiplied by -1 when flip holds: its inverse. */
  function Oriented(n: Normal3, flip: bool): (r: Normal3)
    ensures flip ==> r == n.Inverse()
    ensures !flip ==> r == n
  {
    NormalInverseInvolution(n);
    if flip then n.Multiply(-1.0) else n
  }

  /**
   * NewSurfaceInteraction as evidently intended: the medium is kept, and the
   * normal is flipped when exactly one orientation flag is set, in both the
   * geometric and the shading frame.
   */
  function NewSurfaceInteractionIntended(p: Point3, pError: Vec3, wo: Vec3, time: real, med: Ref, uv: Point2,
                                         dpdu: Vec3, dpdv: Vec3, dndu: Normal3, dndv: Normal3,
                                         shape: Option<ShapeData>, normalize: Vec3 -> Vec3): (si: SurfaceInteraction)
    ensures OrientationTestIntended(shape) ==> si.inter.n == GeometricNormal(dpdu, dpdv, normalize).Inverse()
    ensures !OrientationTestIntended(shape) ==> si.inter.n == GeometricNormal(dpdu, dpdv, normalize)
    ensures si.shading.n == si.inter.n
    ensures si.inter.mediumInterface == med
    ensures si.inter.p == p && si.inter.pError == pError && si.inter.wo == wo && si.inter.time == time
    ensures si.uv == uv && si.dpdu == dpdu && si.dpdv == dpdv && si.dndu == dndu && si.dndv == dndv
    ensures si.shape == shape
  {
    var oriented := Oriented(GeometricNormal(dpdu, dpdv, normalize), OrientationTestIntended(shape));
    var interaction := NewInteraction(p, oriented, pError, wo, time, med);
    var s := Shading(oriented, dndu, dndv, dpdu, dpdv);
    SurfaceInteraction(interaction, uv, dpdu, dpdv, dndu, dndv, shape, s)
  }

  /**
   * The flip written in NewSurfaceInteraction has no effect: apart from the
   * stored shape pointer, the result is the one built for a nil shape,
   * whatever the orientation flags say.
   */
  lemma {:induction false} OrientationIgnored(p: Point3, pError: Vec3, wo: Vec3, time: real, med: Ref, uv: Point2,
                                              dpdu: Vec3, dpdv: Vec3, dndu: Normal3, dndv: Normal3,
                                              shape: Option<ShapeData>, normalize: Vec3 -> Vec3)
    ensures NewSurfaceInteraction(p, pError, wo, time, med, uv, dpdu, dpdv, dndu, dndv, shape, normalize)
         == NewSurfaceInteraction(p, pError, wo, time, med, uv, dpdu, dpdv, dndu, dndv, None, normalize).(shape := shape)
  {
  }

  /**
   * Where the intended flip applies to a nonzero normal, the written code
   * returns the unflipped one: the two results' normals differ.
   */
  lemma {:induction false} FlipLost(p: Point3, pError: Vec3, wo: Vec3, time: real, med: Ref, uv: Point2,
                                    dpdu: Vec3, dpdv: Vec3, dndu: Normal3, dndv: Normal3,
                                    shape: Option<ShapeData>, normalize: Vec3 -> Vec3)
    requires OrientationTestIntended(shape)
    requires GeometricNormal(dpdu, dpdv, normalize) != ZeroNormal
    ensures NewSurfaceInteraction(p, pError, wo, time, med, uv, dpdu, dpdv, dndu, dndv, shape, normalize).inter.n
         != NewSurfaceInteractionIntended(p, pError, wo, time, med, uv, dpdu, dpdv, dndu, dndv, shape, normalize).inter.n
  {
    var n := GeometricNormal(dpdu, dpdv, normalize);
    NotOwnInverse(n);
  }

  /** Only the zero normal is its own negation. */
  lemma NotOwnInverse(n: Normal3)
    requires n != ZeroNormal
    ensures n.Inverse() != n
  {
  }
}
