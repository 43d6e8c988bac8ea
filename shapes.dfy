/**
 * The data every shape of core/shape.go carries: its two transforms, the
 * orientation flag and whether the object-to-world transform swaps
 * handedness. The transforms are held by pointer in the source; here they
 * are values (a nil transform would make the source panic).
 */
module ShapeRecords {
  import opened Transforms

  datatype ShapeData = ShapeData(desc: string, objectToWorld: Transform, worldToObject: Transform,
                                 reverseOrientation: bool, transformSwapsHandedness: bool)

  /**
   * Stores the arguments and precomputes the handedness test once, from the
   * object-to-world transform only. SwapsHandedness belongs to a file that
   * is not part of this model and is a parameter.
   */
  function NewShapeData(objToWorld: Transform, worldToObj: Transform, reverseOrientation: bool, desc: string,
                        swapsHandedness: Transform -> bool): (s: ShapeData)
    ensures s.objectToWorld == objToWorld && s.worldToObject == worldToObj && s.desc == desc
    ensures s.reverseOrientation == reverseOrientation
    ensures s.transformSwapsHandedness == swapsHandedness(objToWorld)
  {
    ShapeData(desc, objToWorld, worldToObj, reverseOrientation, swapsHandedness(objToWorld))
  }

  /** The handedness flag does not depend on the world-to-object transform. */
  lemma {:induction false} NewShapeDataHandedness(objToWorld: Transform, w1: Transform, w2: Transform,
                                                  rev: bool, desc: string, swapsHandedness: Transform -> bool)
    ensures NewShapeData(objToWorld, w1, rev, desc, swapsHandedness).transformSwapsHandedness
         == NewShapeData(objToWorld, w2, !rev, desc, swapsHandedness).transformSwapsHandedness
  {
  }
}

/**
 * The sphere of core/shape.go and the shape helpers WorldBound and
 * intersectP. The numerics the source takes from the float library and
 * from files outside this model (Quadratic, Clamp, acos, asin, atan2) are
 * parameters; the parametric and differential-geometry block that turns a
 * hit point into a SurfaceInteraction is the parameter `surface`.
 */
module Spheres {
  import opened Wrappers
  import opened Helpers
  import opened Vectors
  import opened Points
  import opened Rays
  import opened Bounds
  import opened Transforms
  import opened Interactions
  import opened ShapeRecords

  datatype Sphere = Sphere(shape: ShapeData, radius: real, zMin: real, zMax: real,
                           thetaMin: real, thetaMax: real, phiMax: real)
  {
    /** The box from (-r, -r, zMin) to (r, r, zMax), through NewBounds3. */
    function ObjectBound(): (b: Bounds3)
      ensures b.Valid()
      ensures radius >= 0.0 && zMin <= zMax ==> b == Bounds3(Point3(-radius, -radius, zMin), Point3(radius, radius, zMax))
    {
      var r := radius;
      NewBounds3(Point3(-r, -r, zMin), Point3(r, r, zMax))
    }

    /** phiMax * radius * (zMax - zMin). */
    function Area(): (a: real)
      ensures zMin == zMax ==> a == 0.0
      ensures phiMax >= 0.0 && radius >= 0.0 && zMin <= zMax ==> a >= 0.0
    {
      var a := phiMax * radius * (zMax - zMin);
      MulNonNegative(phiMax, radius, phiMax * radius);
      MulNonNegative(phiMax * radius, zMax - zMin, a);
      a
    }

    /**
     * The clipping test of Intersect: below zMin (when zMin cuts the sphere),
     * above zMax (when zMax cuts it), or past phiMax.
     */
    predicate Clipped(p: Point3, phi: real)
    {
      (zMin > -radius && p.Z < zMin) || (zMax < radius && p.Z > zMax) || phi > phiMax
    }

    /** The clipping test at time t of the ray. */
    predicate ClippedAt(ray: Ray, t: real, atan2: (real, real) -> real)
    {
      Clipped(PosAndPhi(ray, t, radius, atan2).0, PosAndPhi(ray, t, radius, atan2).1)
    }

    /**
     * Which root Intersect settles on, given Quadratic's answer (ok, t0, t1)
     * for the object-space ray: the first root that passes the range test,
     * and failing the clip test at that root, once more t1.
     */
    function HitTime(ray: Ray, ok: bool, t0: real, t1: real, atan2: (real, real) -> real): (r: Option<real>)
      ensures r.Some? ==> 0.0 < r.value <= ray.tMax && (r.value == t0 || r.value == t1)
      ensures r.Some? ==> !ClippedAt(ray, r.value, atan2)
      ensures ray.tMax <= 0.0 ==> r.None?
      // No root in range: a miss.
      ensures SelectRoot(ok, t0, t1, ray.tMax).None? ==> r.None?
      // The selected root survives the clip test: it is the hit.
      ensures var s := SelectRoot(ok, t0, t1, ray.tMax);
        s.Some? && !ClippedAt(ray, s.value, atan2) ==> r == s
      // The selected root is clipped: a hit exactly when the far root is another
      // root, no later than tMax and not clipped, and then it is the far root.
      ensures var s := SelectRoot(ok, t0, t1, ray.tMax);
        s.Some? && ClippedAt(ray, s.value, atan2) ==>
          (r.Some? <==> s.value != t1 && t1 <= ray.tMax && !ClippedAt(ray, t1, atan2)) &&
          (r.Some? ==> r.value == t1)
    {
      match SelectRoot(ok, t0, t1, ray.tMax)
      case None => None
      case Some(t) =>
        var hit := PosAndPhi(ray, t, radius, atan2);
        if !Clipped(hit.0, hit.1) then Some(t)
        else if t == t1 || t1 > ray.tMax then None
        else
          var retry := PosAndPhi(ray, t1, radius, atan2);
          if Clipped(retry.0, retry.1) then None else Some(t1)
    }

    /**
     * Intersect after the ray has been carried to object space: solve the
     * quadratic, pick a root, test the clipping parameters and retry once
     * with the far root. On a hit the surface interaction is what `surface`
     * builds from the hit point and its phi.
     */
    method IntersectObject(ray: Ray, quadratic: (real, real, real) -> (bool, real, real),
                           atan2: (real, real) -> real, surface: (Point3, real, Ray) -> SurfaceInteraction)
      returns (hit: bool, tHit: real, si: SurfaceInteraction)
      ensures var q := quadratic(Coefficients(ray, radius).0, Coefficients(ray, radius).1, Coefficients(ray, radius).2);
        var h := HitTime(ray, q.0, q.1, q.2, atan2);
        && (hit <==> h.Some?)
        && (hit ==> tHit == h.value)
        && (hit ==> si == surface(PosAndPhi(ray, tHit, radius, atan2).0, PosAndPhi(ray, tHit, radius, atan2).1, ray))
      ensures !hit ==> tHit == 0.0 && si == EmptySurfaceInteraction
    {
      var coeffs := Coefficients(ray, radius);
      var q := quadratic(coeffs.0, coeffs.1, coeffs.2);
      var ok, t0, t1 := q.0, q.1, q.2;
      if !ok || t0 > ray.tMax || t1 <= 0.0 {
        return false, 0.0, EmptySurfaceInteraction;
      }
      var tShapeHit := t0;
      if tShapeHit <= 0.0 {
        tShapeHit := t1;
        if tShapeHit >= ray.tMax {
          return false, 0.0, EmptySurfaceInteraction;
        }
      }
      var pos := PosAndPhi(ray, tShapeHit, radius, atan2);
      var pHit, phi := pos.0, pos.1;
      if Clipped(pHit, phi) {
        if tShapeHit == t1 || t1 > ray.tMax {
          return false, 0.0, EmptySurfaceInteraction;
        }
        tShapeHit := t1;
        pos := PosAndPhi(ray, tShapeHit, radius, atan2);
        pHit, phi := pos.0, pos.1;
        if Clipped(pHit, phi) {
          return false, 0.0, EmptySurfaceInteraction;
        }
      }
      return true, tShapeHit, surface(pHit, phi, ray);
    }

    /**
     * Intersect as written: the world ray goes through ApplyR, whose result
     * has tMax 0, so root selection rejects every pair of roots and the
     * sphere never reports a hit.
     */
    method Intersect(r: Ray, testAlphaTexture: bool, quadratic: (real, real, real) -> (bool, real, real),
                     atan2: (real, real) -> real, surface: (Point3, real, Ray) -> SurfaceInteraction)
      returns (hit: bool, tHit: real, si: SurfaceInteraction)
      ensures !hit && tHit == 0.0 && si == EmptySurfaceInteraction
    {
      var ray := shape.worldToObject.ApplyR(r);
      hit, tHit, si := IntersectObject(ray, quadratic, atan2, surface);
    }

    /**
     * The hit time for a world-space ray, with the ray carried to object
     * space by ApplyRIntended: within the world ray's extent.
     */
    function WorldHit(r: Ray, quadratic: (real, real, real) -> (bool, real, real),
                      atan2: (real, real) -> real): (h: Option<real>)
      ensures h.Some? ==> 0.0 < h.value <= r.tMax
      ensures r.tMax <= 0.0 ==> h.None?
      ensures var ray := shape.worldToObject.ApplyRIntended(r);
        var q := Roots(ray, quadratic);
        var s := SelectRoot(q.0, q.1, q.2, r.tMax);
        && (s.None? ==> h.None?)
        && (s.Some? && !ClippedAt(ray, s.value, atan2) ==> h == s)
        && (s.Some? && ClippedAt(ray, s.value, atan2) ==>
              (h.Some? <==> s.value != q.2 && q.2 <= r.tMax && !ClippedAt(ray, q.2, atan2)) &&
              (h.Some? ==> h.value == q.2))
    {
      var ray := shape.worldToObject.ApplyRIntended(r);
      var q := Roots(ray, quadratic);
      HitTime(ray, q.0, q.1, q.2, atan2)
    }

    /** Quadratic's answer (ok, t0, t1) for the ray against this sphere. */
    function Roots(ray: Ray, quadratic: (real, real, real) -> (bool, real, real)): (bool, real, real)
    {
      var k := Coefficients(ray, radius);
      quadratic(k.0, k.1, k.2)
    }

    /** What `surface` builds at time t of the world ray carried to object space. */
    function HitInteraction(r: Ray, t: real, atan2: (real, real) -> real,
                            surface: (Point3, real, Ray) -> SurfaceInteraction): SurfaceInteraction
    {
      var ray := shape.worldToObject.ApplyRIntended(r);
      var pos := PosAndPhi(ray, t, radius, atan2);
      surface(pos.0, pos.1, ray)
    }

    /** Intersect with the object-space ray keeping its extent, through ApplyRIntended. */
    method IntersectIntended(r: Ray, testAlphaTexture: bool, quadratic: (real, real, real) -> (bool, real, real),
                             atan2: (real, real) -> real, surface: (Point3, real, Ray) -> SurfaceInteraction)
      returns (hit: bool, tHit: real, si: SurfaceInteraction)
      ensures hit <==> WorldHit(r, quadratic, atan2).Some?
      ensures hit ==> tHit == WorldHit(r, quadratic, atan2).value && 0.0 < tHit <= r.tMax
      ensures hit ==> si == HitInteraction(r, tHit, atan2, surface)
      ensures !hit ==> tHit == 0.0 && si == EmptySurfaceInteraction
    {
      var ray := shape.worldToObject.ApplyRIntended(r);
      hit, tHit, si := IntersectObject(ray, quadratic, atan2, surface);
    }

    /**
     * intersectP as written: Intersect's boolean alone. Intersect never
     * reports a hit, so neither does this.
     */
    method IntersectP(r: Ray, testAlphaTexture: bool, quadratic: (real, real, real) -> (bool, real, real),
                      atan2: (real, real) -> real, surface: (Point3, real, Ray) -> SurfaceInteraction)
      returns (b: bool)
      ensures !b
    {
      var hit, tHit, si := Intersect(r, testAlphaTexture, quadratic, atan2, surface);
      b := hit;
    }

    /** intersectP over the corrected intersection: IntersectIntended's boolean alone. */
    method IntersectPIntended(r: Ray, testAlphaTexture: bool, quadratic: (real, real, real) -> (bool, real, real),
                      atan2: (real, real) -> real, surface: (Point3, real, Ray) -> SurfaceInteraction)
      returns (b: bool)
      ensures b <==> WorldHit(r, quadratic, atan2).Some?
    {
      var hit, tHit, si := IntersectIntended(r, testAlphaTexture, quadratic, atan2, surface);
      b := hit;
    }
  }

  /**
   * The coefficients (a, b, c) of a*t^2 + b*t + c for the ray against the
   * sphere of the given radius about the origin: a root t puts the ray's
   * point at t on the sphere (see CoefficientsMeetSphere).
   */
  function Coefficients(ray: Ray, radius: real): (real, real, real)
  {
    var d, o := ray.Dir, ray.Orig;
    (d.X * d.X + d.Y * d.Y + d.Z * d.Z,
     2.0 * (d.X * o.X + d.Y * o.Y + d.Z * o.Z),
     o.X * o.X + o.Y * o.Y + o.Z * o.Z - radius * radius)
  }

  /**
   * Root selection: no hit when Quadratic fails, when t0 lies past tMax or
   * when t1 is not in front of the origin; otherwise t0 if it is positive,
   * else t1 as long as it lies before tMax.
   */
  function SelectRoot(ok: bool, t0: real, t1: real, tMax: real): (r: Option<real>)
    ensures r.None? <==> !ok || t0 > tMax || t1 <= 0.0 || (t0 <= 0.0 && t1 >= tMax)
    ensures r.Some? && t0 > 0.0 ==> r.value == t0
    ensures r.Some? && t0 <= 0.0 ==> r.value == t1
    ensures r.Some? ==> 0.0 < r.value <= tMax
  {
    if !ok || t0 > tMax || t1 <= 0.0 then None
    else if t0 > 0.0 then Some(t0)
    else if t1 >= tMax then None
    else Some(t1)
  }

  /**
   * The hit point at t and its phi. On the z axis the point is nudged to
   * z = 1e-5 * radius. The source's closure adds 2*pi to the enclosing
   * phi when that is negative, but the caller then overwrites phi with the
   * returned value, so phi is atan2(y, x) unchanged.
   */
  function PosAndPhi(ray: Ray, t: real, radius: real, atan2: (real, real) -> real): (r: (Point3, real))
    ensures r.0.X == ray.GetPointForT(t).X && r.0.Y == ray.GetPointForT(t).Y
    ensures r.0.X == 0.0 && r.0.Y == 0.0 ==> r.0.Z == 0.00001 * radius
    ensures r.0.X != 0.0 || r.0.Y != 0.0 ==> r.0 == ray.GetPointForT(t)
    ensures r.1 == atan2(r.0.Y, r.0.X)
  {
    var p := ray.GetPointForT(t);
    var q := if p.X == 0.0 && p.Y == 0.0 then p.(Z := 0.00001 * radius) else p;
    (q, atan2(q.Y, q.X))
  }

  /**
   * A root of the quadratic is a parameter at which the ray meets the
   * sphere: a*t^2 + b*t + c is the squared distance of the ray's point at
   * t from the centre, minus radius^2.
   */
  lemma {:induction false} CoefficientsMeetSphere(ray: Ray, radius: real, t: real)
    ensures var p := ray.GetPointForT(t);
      var k := Coefficients(ray, radius);
      k.0 * (t * t) + k.1 * t + k.2 == p.X * p.X + p.Y * p.Y + p.Z * p.Z - radius * radius
  {
    var d, o := ray.Dir, ray.Orig;
    var p := ray.GetPointForT(t);
    AxisSquare(o.X, d.X, t, p.X);
    AxisSquare(o.Y, d.Y, t, p.Y);
    AxisSquare(o.Z, d.Z, t, p.Z);
  }

  /** (o + t*d)^2 expanded. */
  lemma AxisSquare(o: real, d: real, t: real, x: real)
    requires x == o + t * d
    ensures x * x == (d * d) * (t * t) + 2.0 * (d * o) * t + o * o
  {
  }

  /** The as-written constructor: zMin and zMax both come from max(zMin, zMax), clamped to the radius. */
  function NewSphere(objectToWorld: Transform, worldToObject: Transform, reverseOrientation: bool,
                     radius: real, zMin: real, zMax: real, phiMax: real,
                     clamp: (real, real, real) -> real, acos: real -> real, asin: real -> real,
                     swapsHandedness: Transform -> bool): (s: Sphere)
    requires radius != 0.0
    ensures s.shape == NewShapeData(objectToWorld, worldToObject, reverseOrientation, "Sphere", swapsHandedness)
    ensures s.radius == radius && s.phiMax == phiMax
    ensures s.zMin == s.zMax == clamp(Max(zMin, zMax), -radius, radius)
    ensures s.thetaMin == acos(clamp(zMin / radius, -1.0, 1.0))
    ensures s.thetaMax == asin(clamp(zMax / radius, -1.0, 1.0))
  {
    Sphere(NewShapeData(objectToWorld, worldToObject, reverseOrientation, "Sphere", swapsHandedness),
           radius,
           clamp(Max(zMin, zMax), -radius, radius),
           clamp(Max(zMin, zMax), -radius, radius),
           acos(clamp(zMin / radius, -1.0, 1.0)),
           asin(clamp(zMax / radius, -1.0, 1.0)),
           phiMax)
  }

  /** Every sphere NewSphere builds is a flat ring of height zero: its area is 0 whatever the arguments. */
  lemma {:induction false} NewSphereFlat(objectToWorld: Transform, worldToObject: Transform, reverseOrientation: bool,
                                         radius: real, zMin: real, zMax: real, phiMax: real,
                                         clamp: (real, real, real) -> real, acos: real -> real, asin: real -> real,
                                         swapsHandedness: Transform -> bool)
    requires radius != 0.0
    ensures var s := NewSphere(objectToWorld, worldToObject, reverseOrientation, radius, zMin, zMax, phiMax,
                               clamp, acos, asin, swapsHandedness);
      s.zMin == s.zMax && s.Area() == 0.0
  {
  }

  /**
   * The constructor as evidently intended: zMin from min(zMin, zMax), zMax
   * from max(zMin, zMax), and both polar limits through acos of the
   * ordered heights.
   */
  function NewSphereIntended(objectToWorld: Transform, worldToObject: Transform, reverseOrientation: bool,
                             radius: real, zMin: real, zMax: real, phiMax: real,
                             clamp: (real, real, real) -> real, acos: real -> real,
                             swapsHandedness: Transform -> bool): (s: Sphere)
    requires radius != 0.0
    ensures s.shape == NewShapeData(objectToWorld, worldToObject, reverseOrientation, "Sphere", swapsHandedness)
    ensures s.radius == radius && s.phiMax == phiMax
    ensures s.zMin == clamp(Min(zMin, zMax), -radius, radius)
    ensures s.zMax == clamp(Max(zMin, zMax), -radius, radius)
    ensures s.thetaMin == acos(clamp(Min(zMin, zMax) / radius, -1.0, 1.0))
    ensures s.thetaMax == acos(clamp(Max(zMin, zMax) / radius, -1.0, 1.0))
  {
    Sphere(NewShapeData(objectToWorld, worldToObject, reverseOrientation, "Sphere", swapsHandedness),
           radius,
           clamp(Min(zMin, zMax), -radius, radius),
           clamp(Max(zMin, zMax), -radius, radius),
           acos(clamp(Min(zMin, zMax) / radius, -1.0, 1.0)),
           acos(clamp(Max(zMin, zMax) / radius, -1.0, 1.0)),
           phiMax)
  }

  /**
   * With a clamp that keeps order, the intended constructor gives
   * zMin <= zMax, and for a positive radius and nonnegative phiMax a
   * nonnegative area; the area is positive when the clamped heights differ
   * and phiMax is positive.
   */
  lemma {:induction false} NewSphereIntendedOrdered(objectToWorld: Transform, worldToObject: Transform,
                                                    reverseOrientation: bool, radius: real, zMin: real, zMax: real,
                                                    phiMax: real, clamp: (real, real, real) -> real,
                                                    acos: real -> real, swapsHandedness: Transform -> bool)
    requires radius > 0.0 && phiMax >= 0.0
    requires forall a, b {:trigger clamp(a, -radius, radius), clamp(b, -radius, radius)} ::
      a <= b ==> clamp(a, -radius, radius) <= clamp(b, -radius, radius)
    ensures var s := NewSphereIntended(objectToWorld, worldToObject, reverseOrientation, radius, zMin, zMax,
                                       phiMax, clamp, acos, swapsHandedness);
      s.zMin <= s.zMax && s.Area() >= 0.0 && (phiMax > 0.0 && s.zMin < s.zMax ==> s.Area() > 0.0)
  {
    var s := NewSphereIntended(objectToWorld, worldToObject, reverseOrientation, radius, zMin, zMax,
                               phiMax, clamp, acos, swapsHandedness);
    assert Min(zMin, zMax) <= Max(zMin, zMax);
    assert s.zMin <= s.zMax;
    if phiMax > 0.0 && s.zMin < s.zMax {
      var pr := phiMax * radius;
      MulStrict(phiMax, radius, pr);
      MulStrict(pr, s.zMax - s.zMin, s.Area());
    }
  }

  /**
   * The object bound holds the sphere's surface between the clipping
   * heights: a point at distance radius from the centre with zMin <= z <= zMax.
   */
  lemma {:induction false} ObjectBoundHoldsSurface(s: Sphere, p: Point3)
    requires s.radius >= 0.0
    requires p.X * p.X + p.Y * p.Y + p.Z * p.Z == s.radius * s.radius
    requires s.zMin <= p.Z <= s.zMax
    ensures s.ObjectBound().Contains(p)
  {
    var x2, y2, z2 := p.X * p.X, p.Y * p.Y, p.Z * p.Z;
    SquareSign(p.X, x2);
    SquareSign(p.Y, y2);
    SquareSign(p.Z, z2);
    SquareWithin(p.X, s.radius, y2 + z2);
    SquareWithin(p.Y, s.radius, x2 + z2);
  }

  /** x^2 + rest = r^2 with rest >= 0 and r >= 0 puts x in [-r, r]. */
  lemma SquareWithin(x: real, r: real, rest: real)
    requires r >= 0.0 && rest >= 0.0 && x * x + rest == r * r
    ensures -r <= x <= r
  {
    if x > r {
      MulPositive(x - r, x + r, x * x - r * r);
    } else if x < -r {
      MulPositive(-x - r, r - x, x * x - r * r);
    }
  }

  /** Every point of b has its image in r (points without an image excepted). */
  ghost predicate Encloses(t: Transform, b: Bounds3, r: Bounds3)
  {
    forall p :: b.Contains(p) && t.Weight(p) != 0.0 ==> r.Contains(t.ApplyP(p))
  }

  /**
   * The shape's bound in world space as written: the object bound carried
   * through the object-to-world transform by ApplyB. It holds the images of
   * the last seven corners, and its pMax is at or above the origin whatever
   * the sphere; the first corner's image may lie outside
   * (see ApplyBMissesFirstCorner).
   */
  method WorldBound(s: ShapeData, sphere: Sphere) returns (b: Bounds3)
    requires s.objectToWorld.CornersMappable(sphere.ObjectBound())
    ensures var ps := s.objectToWorld.CornerImages(sphere.ObjectBound());
      b == UnionAll(Bounds3(ps[0], Origin3), ps[1..])
    ensures forall k :: 1 <= k < 8 ==> b.Contains(s.objectToWorld.CornerImages(sphere.ObjectBound())[k])
    ensures LeqP3(Origin3, b.pMax)
  {
    b := s.objectToWorld.ApplyB(sphere.ObjectBound());
  }

  /**
   * The shape's bound in world space with the corrected ApplyB. For an
   * affine transform it holds the image of every point of the object bound.
   */
  method WorldBoundIntended(s: ShapeData, sphere: Sphere) returns (b: Bounds3)
    requires s.objectToWorld.CornersMappable(sphere.ObjectBound())
    ensures b.Valid()
    ensures AffineM(s.objectToWorld.m) ==> Encloses(s.objectToWorld, sphere.ObjectBound(), b)
  {
    var t, box := s.objectToWorld, sphere.ObjectBound();
    b := t.ApplyBIntended(box);
    if AffineM(t.m) {
      forall p | box.Contains(p) && t.Weight(p) != 0.0
        ensures b.Contains(t.ApplyP(p))
      {
        ApplyBIntendedEncloses(t, box, p);
      }
    }
  }
}
