/**
 * Rays of math/ray.go: an origin, a direction, the parametric extent tMax,
 * a time and the medium the origin lies in; and ray differentials, the two
 * neighbouring rays offset by one film sample in x and y.
 */
module Rays {
  import opened Wrappers
  import opened Vectors
  import opened Points

  datatype Ray = Ray(Orig: Point3, Dir: Vec3, tMax: real, Time: real, medium: Ref) {

    /** o + t*d: the point reached after t units of the direction. */
    function GetPointForT(t: real): (p: Point3)
      ensures p.SubtractP(Orig) == Dir.Multiply(t)
      ensures t == 0.0 ==> p == Orig
    {
      Orig.AddV(Dir.Multiply(t))
    }
  }

  function NewRay(p: Point3, d: Vec3, tMax: real, time: real, medium: Ref): (r: Ray)
    ensures r.Orig == p && r.Dir == d && r.tMax == tMax && r.Time == time && r.medium == medium
  {
    Ray(p, d, tMax, time, medium)
  }

  /** Walking a further u along the ray from the point at t gives the point at t + u. */
  lemma {:induction false} GetPointForTAdditive(r: Ray, t: real, u: real)
    ensures r.GetPointForT(t + u) == r.GetPointForT(t).AddV(r.Dir.Multiply(u))
  {
    assert r.Dir.Multiply(t + u) == r.Dir.Multiply(t).Add(r.Dir.Multiply(u));
  }

  /** o + (p - o)*s: p moved towards or away from o by the factor s. */
  function ScalePointAbout(o: Point3, p: Point3, s: real): (q: Point3)
    ensures s == 1.0 ==> q == p
    ensures s == 0.0 ==> q == o
  {
    o.AddV(p.SubtractP(o).Multiply(s))
  }

  /** d + (v - d)*s: v moved towards or away from d by the factor s. */
  function ScaleVecAbout(d: Vec3, v: Vec3, s: real): (w: Vec3)
    ensures s == 1.0 ==> w == v
    ensures s == 0.0 ==> w == d
  {
    d.Add(v.Subtract(d).Multiply(s))
  }

  /** Scaling by s and then by s2 about the same centre is scaling by s*s2. */
  lemma {:induction false} ScaleAboutCompose(o: Point3, p: Point3, d: Vec3, v: Vec3, s: real, s2: real)
    ensures ScalePointAbout(o, ScalePointAbout(o, p, s), s2) == ScalePointAbout(o, p, s * s2)
    ensures ScaleVecAbout(d, ScaleVecAbout(d, v, s), s2) == ScaleVecAbout(d, v, s * s2)
  {
    var q := ScalePointAbout(o, p, s);
    assert q.SubtractP(o) == p.SubtractP(o).Multiply(s);
    assert q.SubtractP(o).Multiply(s2) == p.SubtractP(o).Multiply(s * s2);
    var w := ScaleVecAbout(d, v, s);
    assert w.Subtract(d) == v.Subtract(d).Multiply(s);
    assert w.Subtract(d).Multiply(s2) == v.Subtract(d).Multiply(s * s2);
  }

  /**
   * A ray together with its x and y neighbours. The source holds the main
   * ray through a pointer, nil in an empty differential; the pointee is never
   * written here, so the model holds it as an optional value.
   */
  class RayDifferential {
    var R: Option<Ray>
    var HasDifferentials: bool
    var rxOrigin: Point3
    var ryOrigin: Point3
    var rxDir: Vec3
    var ryDir: Vec3

    /** NewEmptyRayDiff: no main ray, no differentials, zeroed neighbours. */
    constructor NewEmpty()
      ensures R == None && !HasDifferentials
      ensures rxOrigin == Origin3 && ryOrigin == Origin3
      ensures rxDir == Zero3 && ryDir == Zero3
    {
      R := None;
      HasDifferentials := false;
      rxOrigin, ryOrigin := Origin3, Origin3;
      rxDir, ryDir := Zero3, Zero3;
    }

    /** NewRayDiff: an empty differential around a new ray. */
    constructor NewDiff(p: Point3, d: Vec3, tMax: real, time: real, medium: Ref)
      ensures R == Some(NewRay(p, d, tMax, time, medium)) && !HasDifferentials
      ensures rxOrigin == Origin3 && ryOrigin == Origin3
      ensures rxDir == Zero3 && ryDir == Zero3
    {
      R := Some(NewRay(p, d, tMax, time, medium));
      HasDifferentials := false;
      rxOrigin, ryOrigin := Origin3, Origin3;
      rxDir, ryDir := Zero3, Zero3;
    }

    /** NewRayDifferential: wraps an existing ray (possibly nil). */
    constructor FromRay(r: Option<Ray>)
      ensures R == r && !HasDifferentials
      ensures rxOrigin == Origin3 && ryOrigin == Origin3
      ensures rxDir == Zero3 && ryDir == Zero3
    {
      R := r;
      HasDifferentials := false;
      rxOrigin, ryOrigin := Origin3, Origin3;
      rxDir, ryDir := Zero3, Zero3;
    }

    /**
     * Rescales the neighbours' offsets from the main ray by s (used when the
     * sample spacing changes). The source dereferences R, so R must be set.
     */
    method ScaleRayDifferentials(s: real)
      requires R.Some?
      modifies this
      ensures R == old(R) && HasDifferentials == old(HasDifferentials)
      ensures rxOrigin == ScalePointAbout(R.value.Orig, old(rxOrigin), s)
      ensures ryOrigin == ScalePointAbout(R.value.Orig, old(ryOrigin), s)
      ensures rxDir == ScaleVecAbout(R.value.Dir, old(rxDir), s)
      ensures ryDir == ScaleVecAbout(R.value.Dir, old(ryDir), s)
    {
      var o := R.value.Orig;
      var d := R.value.Dir;
      rxOrigin := o.AddV(rxOrigin.SubtractP(o).Multiply(s));
      ryOrigin := o.AddV(ryOrigin.SubtractP(o).Multiply(s));
      rxDir := d.Add(rxDir.Subtract(d).Multiply(s));
      ryDir := d.Add(ryDir.Subtract(d).Multiply(s));
    }
  }

  /** Scaling by a nonzero s and then by 1/s gives back the original neighbour. */
  lemma {:induction false} ScaleAboutInverse(o: Point3, p: Point3, d: Vec3, v: Vec3, s: real)
    requires s != 0.0
    ensures ScalePointAbout(o, ScalePointAbout(o, p, s), 1.0 / s) == p
    ensures ScaleVecAbout(d, ScaleVecAbout(d, v, s), 1.0 / s) == v
  {
    ScaleAboutCompose(o, p, d, v, s, 1.0 / s);
    assert s * (1.0 / s) == 1.0;
  }
}
