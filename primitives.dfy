/**
 * The geometric primitive of core/primitive.go: one shape together with the
 * handles of its material and area light. The primitive only delegates to
 * the shape (here the sphere, the one shape the source defines) and hands
 * its handles back. Materials and area lights are objects this model does
 * not look inside (Refs).
 */
module Primitives {
  import opened Wrappers
  import opened Points
  import opened Rays
  import opened Bounds
  import opened Interactions
  import opened Spheres

  datatype GeometricPrimitive = GeometricPrimitive(shape: Sphere, material: Ref, areaLight: Ref)
  {
    /** The shape's object-space bound, with no transform applied. */
    function WorldBound(): (b: Bounds3)
      ensures b.Valid()
      ensures shape.radius >= 0.0 && shape.zMin <= shape.zMax ==>
        b == Bounds3(Point3(-shape.radius, -shape.radius, shape.zMin), Point3(shape.radius, shape.radius, shape.zMax))
    {
      shape.ObjectBound()
    }

    /**
     * Intersects the shape with r, as written: through the sphere's
     * Intersect, which never reports a hit, so the primitive always answers
     * (false, the zero surface interaction).
     */
    method Intersect(r: Ray, quadratic: (real, real, real) -> (bool, real, real),
                     atan2: (real, real) -> real, surface: (Point3, real, Ray) -> SurfaceInteraction)
      returns (hit: bool, si: SurfaceInteraction)
      ensures !hit && si == EmptySurfaceInteraction
    {
      var b, tHit, s := shape.Intersect(r, false, quadratic, atan2, surface);
      if !b {
        return false, EmptySurfaceInteraction;
      }
      var local := r.(tMax := tHit);
      return true, s;
    }

    /**
     * Intersect over the sphere's corrected intersection. A miss gives
     * (false, the zero surface interaction); a hit gives true and the
     * shape's interaction. The source then stores the hit time in the tMax
     * of its own copy of r, which the caller never sees: r is a value here
     * and is not returned.
     */
    method IntersectIntended(r: Ray, quadratic: (real, real, real) -> (bool, real, real),
                     atan2: (real, real) -> real, surface: (Point3, real, Ray) -> SurfaceInteraction)
      returns (hit: bool, si: SurfaceInteraction)
      ensures hit <==> shape.WorldHit(r, quadratic, atan2).Some?
      ensures hit ==> si == shape.HitInteraction(r, shape.WorldHit(r, quadratic, atan2).value, atan2, surface)
      ensures !hit ==> si == EmptySurfaceInteraction
    {
      var b, tHit, s := shape.IntersectIntended(r, false, quadratic, atan2, surface);
      if !b {
        return false, EmptySurfaceInteraction;
      }
      var local := r.(tMax := tHit);
      return true, s;
    }

    function GetAreaLight(): (l: Ref)
      ensures l == areaLight
    {
      areaLight
    }

    function GetMaterial(): (m: Ref)
      ensures m == material
    {
      material
    }
  }

  function NewGeometricPrimitive(shape: Sphere, material: Ref, areaLight: Ref): (p: GeometricPrimitive)
    ensures p.shape == shape
  {
    GeometricPrimitive(shape, material, areaLight)
  }

  /** The getters return the handles the primitive was built with, whatever the shape. */
  lemma {:induction false} HandlesKept(shape: Sphere, material: Ref, areaLight: Ref)
    ensures NewGeometricPrimitive(shape, material, areaLight).GetMaterial() == material
    ensures NewGeometricPrimitive(shape, material, areaLight).GetAreaLight() == areaLight
  {
  }

  /** A primitive's bound is the bound of its shape alone. */
  lemma {:induction false} WorldBoundIsShapes(shape: Sphere, material: Ref, areaLight: Ref)
    ensures NewGeometricPrimitive(shape, material, areaLight).WorldBound() == shape.ObjectBound()
  {
  }
}
