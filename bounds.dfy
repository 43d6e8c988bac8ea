/**
 * Axis-aligned bounding boxes of core/boundingBox.go and
 * geometry/boundingBox.go (the two files hold the same code; only the core
 * copy has the ray-box slab test IntersectP). A box is given by two opposite
 * corners pMin and pMax and is meant to satisfy pMin <= pMax on every axis;
 * the empty box deliberately violates that, so that a union with it yields
 * the other operand.
 */
module Bounds {
  import opened Helpers
  import opened Vectors
  import opened Points
  import opened Rays

  /** float64(math.MinInt32) and float64(math.MaxInt32), the empty box's sentinels. */
  const MinInt32: real := -2147483648.0
  const MaxInt32: real := 2147483647.0

  datatype Bounds3 = Bounds3(pMin: Point3, pMax: Point3) {

    /** The intended invariant: pMin is no greater than pMax on any axis. */
    predicate Valid()
    {
      LeqP3(pMin, pMax)
    }

    predicate Contains(p: Point3)
    {
      LeqP3(pMin, p) && LeqP3(p, pMax)
    }

    /**
     * One of the eight corners: bit 0 of i picks the x side, bit 1 the y
     * side and bit 2 the z side (set bit = the pMax side). Go's i&1, i&2,
     * i&4 on two's complement ints are i % 2, (i / 2) % 2 and (i / 4) % 2
     * with floor division, for negative i too.
     */
    function Corner(i: int): (p: Point3)
      ensures p.X in {pMin.X, pMax.X} && p.Y in {pMin.Y, pMax.Y} && p.Z in {pMin.Z, pMax.Z}
      ensures Valid() ==> Contains(p)
    {
      Point3(if i % 2 != 0 then pMax.X else pMin.X,
             if (i / 2) % 2 != 0 then pMax.Y else pMin.Y,
             if (i / 4) % 2 != 0 then pMax.Z else pMin.Z)
    }

    /** The vector from pMin to pMax. */
    function Diagonal(): (d: Vec3)
      ensures pMin.AddV(d) == pMax
      ensures Valid() <==> d.X >= 0.0 && d.Y >= 0.0 && d.Z >= 0.0
    {
      pMax.SubtractP(pMin)
    }

    function SurfaceArea(): (a: real)
      ensures Valid() ==> a >= 0.0
    {
      var d := Diagonal();
      var xy, xz, yz := d.X * d.Y, d.X * d.Z, d.Y * d.Z;
      MulNonNegative(d.X, d.Y, xy);
      MulNonNegative(d.X, d.Z, xz);
      MulNonNegative(d.Y, d.Z, yz);
      2.0 * (xy + xz + yz)
    }

    function Volume(): (v: real)
      ensures Valid() ==> v >= 0.0
      ensures pMin.X == pMax.X || pMin.Y == pMax.Y || pMin.Z == pMax.Z ==> v == 0.0
    {
      var d := Diagonal();
      var xy := d.X * d.Y;
      MulNonNegative(d.X, d.Y, xy);
      MulNonNegative(xy, d.Z, xy * d.Z);
      xy * d.Z
    }

    /**
     * The axis of the longest extent; x is chosen only when strictly longer
     * than both others, y only when strictly longer than z.
     */
    function MaxExtent(): (k: int)
      ensures 0 <= k < 3
      ensures forall j :: 0 <= j < 3 ==> Diagonal().Get(j) <= Diagonal().Get(k)
      ensures k == 0 ==> Diagonal().X > Diagonal().Y && Diagonal().X > Diagonal().Z
      ensures k == 1 ==> Diagonal().Y > Diagonal().Z
    {
      var d := Diagonal();
      if d.X > d.Y && d.X > d.Z then 0
      else if d.Y > d.Z then 1
      else 2
    }

    /** Interpolates between the corners axis by axis: (0,0,0) is pMin, (1,1,1) is pMax. */
    function Lerp(t: Point3): (p: Point3)
      ensures t == Origin3 ==> p == pMin
      ensures t == Point3(1.0, 1.0, 1.0) ==> p == pMax
      ensures Valid() && LeqP3(Origin3, t) && LeqP3(t, Point3(1.0, 1.0, 1.0)) ==> Contains(p)
    {
      var p := Point3(Helpers.Lerp(t.X, pMin.X, pMax.X), Helpers.Lerp(t.Y, pMin.Y, pMax.Y),
                      Helpers.Lerp(t.Z, pMin.Z, pMax.Z));
      if Valid() && LeqP3(Origin3, t) && LeqP3(t, Point3(1.0, 1.0, 1.0)) then
        LerpBetween(t.X, pMin.X, pMax.X);
        LerpBetween(t.Y, pMin.Y, pMax.Y);
        LerpBetween(t.Z, pMin.Z, pMax.Z);
        p
      else p
    }

    /**
     * Position of p relative to the box, the inverse of Lerp: on every axis
     * of positive extent, interpolating the corners by the offset gives p
     * back; on a flat or inverted axis the offset is the plain difference.
     */
    function Offset(p: Point3): (o: Vec3)
      ensures pMax.X > pMin.X ==> Helpers.Lerp(o.X, pMin.X, pMax.X) == p.X
      ensures pMax.Y > pMin.Y ==> Helpers.Lerp(o.Y, pMin.Y, pMax.Y) == p.Y
      ensures pMax.Z > pMin.Z ==> Helpers.Lerp(o.Z, pMin.Z, pMax.Z) == p.Z
      ensures !(pMax.X > pMin.X) ==> o.X == p.X - pMin.X
      ensures !(pMax.Y > pMin.Y) ==> o.Y == p.Y - pMin.Y
      ensures !(pMax.Z > pMin.Z) ==> o.Z == p.Z - pMin.Z
    {
      var o := p.SubtractP(pMin);
      Vec3(OffsetAxis(o.X, pMin.X, pMax.X), OffsetAxis(o.Y, pMin.Y, pMax.Y),
           OffsetAxis(o.Z, pMin.Z, pMax.Z))
    }

    /**
     * The centre of the box and, when the centre lies inside the box (that
     * is, when the box is valid), the distance from it to pMax; radius 0
     * for an inverted box such as the empty one.
     */
    function BoundingSphere(sqrt: real -> real): (r: (Point3, real))
      ensures r.0.Multiply(2.0) == pMin.AddP(pMax)
      ensures Contains(r.0) <==> Valid()
      ensures Valid() ==> r.1 == DistanceP3(r.0, pMax, sqrt)
      ensures !Valid() ==> r.1 == 0.0
    {
      var center := pMin.AddP(pMax).Divide(2.0);
      var radius := if Contains(center) then DistanceP3(center, pMax, sqrt) else 0.0;
      (center, radius)
    }

    /** Source's core/boundingBox.go IntersectP, as written (see the finding in the README). */
    method IntersectP(ray: Ray) returns (hit: bool, t0: real, t1: real)
      requires NonzeroDir(ray)
      ensures (hit, t0, t1) == SlabsAsWritten(SlabRanges(this, ray), 0, 0.0, ray.tMax)
      ensures hit ==> 0.0 <= t0 <= t1 <= ray.tMax
      ensures !hit ==> t0 == 0.0 && t1 == 0.0
    {
      t0, t1 := 0.0, ray.tMax;
      var i := 0;
      while i < 3
        invariant 0 <= i <= 3 && t0 >= 0.0 && (i > 0 ==> t0 <= t1)
        invariant SlabsAsWritten(SlabRanges(this, ray), i, t0, t1) == SlabsAsWritten(SlabRanges(this, ray), 0, 0.0, ray.tMax)
      {
        var invRayDir := 1.0 / ray.Dir.Get(i);
        var tNear := Crossing(pMin.Get(i), ray.Orig.Get(i), invRayDir);
        var tFar := Crossing(pMax.Get(i), ray.Orig.Get(i), invRayDir);
        if tNear > tFar {
          tNear, tFar := tFar, tNear;
        }
        ghost var before := SlabsAsWritten(SlabRanges(this, ray), i, t0, t1);
        if tNear > 0.0 {
          t0 := tNear;
        }
        if tFar < t1 {
          t1 := tFar;
        }
        if t0 > t1 {
          assert before == (false, 0.0, 0.0);
          return false, 0.0, 0.0;
        }
        assert before == SlabsAsWritten(SlabRanges(this, ray), i + 1, t0, t1);
        i := i + 1;
      }
      hit := true;
    }

    /**
     * The slab test as intended: the entry parameter only ever grows. The
     * result is exactly the parameter range over which the ray is inside
     * the box (lemma IntersectPIntendedExact).
     */
    method IntersectPIntended(ray: Ray) returns (hit: bool, t0: real, t1: real)
      requires NonzeroDir(ray)
      ensures (hit, t0, t1) == SlabsIntended(SlabRanges(this, ray), 0, 0.0, ray.tMax)
      ensures hit ==> 0.0 <= t0 <= t1 <= ray.tMax
      ensures !hit ==> t0 == 0.0 && t1 == 0.0
    {
      t0, t1 := 0.0, ray.tMax;
      var i := 0;
      while i < 3
        invariant 0 <= i <= 3 && t0 >= 0.0 && (i > 0 ==> t0 <= t1)
        invariant SlabsIntended(SlabRanges(this, ray), i, t0, t1) == SlabsIntended(SlabRanges(this, ray), 0, 0.0, ray.tMax)
      {
        var invRayDir := 1.0 / ray.Dir.Get(i);
        var tNear := Crossing(pMin.Get(i), ray.Orig.Get(i), invRayDir);
        var tFar := Crossing(pMax.Get(i), ray.Orig.Get(i), invRayDir);
        if tNear > tFar {
          tNear, tFar := tFar, tNear;
        }
        ghost var before := SlabsIntended(SlabRanges(this, ray), i, t0, t1);
        if tNear > t0 {
          t0 := tNear;
        }
        if tFar < t1 {
          t1 := tFar;
        }
        if t0 > t1 {
          assert before == (false, 0.0, 0.0);
          return false, 0.0, 0.0;
        }
        assert before == SlabsIntended(SlabRanges(this, ray), i + 1, t0, t1);
        i := i + 1;
      }
      hit := true;
    }
  }

  /** One axis of Offset: divide by the extent when it is positive. */
  function OffsetAxis(o: real, lo: real, hi: real): (r: real)
    ensures hi > lo ==> Helpers.Lerp(r, lo, hi) == lo + o
    ensures !(hi > lo) ==> r == o
  {
    if hi > lo then
      var r := o / (hi - lo);
      assert r * (hi - lo) == o;
      r
    else o
  }

  /** Box a lies inside box c: c's corners enclose a's on every axis. */
  predicate Inside(a: Bounds3, c: Bounds3)
  {
    LeqP3(c.pMin, a.pMin) && LeqP3(a.pMax, c.pMax)
  }

  lemma InsideContains(a: Bounds3, c: Bounds3, q: Point3)
    requires Inside(a, c) && a.Contains(q)
    ensures c.Contains(q)
  {
  }

  /** Go masks the corner index by its low three bits: corners repeat every 8. */
  lemma {:induction false} CornerLaws(b: Bounds3, i: int)
    ensures b.Corner(i + 8) == b.Corner(i)
    ensures b.Corner(0) == b.pMin && b.Corner(7) == b.pMax
  {
    assert (i + 8) / 2 == i / 2 + 4;
    assert (i + 8) / 4 == i / 4 + 2;
  }

  /**
   * For a box that is proper on every axis, corner i takes the pMax side on
   * axis k exactly when bit k of i is set.
   */
  lemma {:induction false} CornerBits(b: Bounds3, i: int)
    requires b.pMin.X < b.pMax.X && b.pMin.Y < b.pMax.Y && b.pMin.Z < b.pMax.Z
    ensures b.Corner(i).X == b.pMax.X <==> i % 2 == 1
    ensures b.Corner(i).Y == b.pMax.Y <==> (i / 2) % 2 == 1
    ensures b.Corner(i).Z == b.pMax.Z <==> (i / 4) % 2 == 1
  {
  }

  /** The low three bits of i: i % 8 is bit 0 + 2 * bit 1 + 4 * bit 2. */
  lemma LowBits3(i: int)
    ensures i % 8 == i % 2 + 2 * ((i / 2) % 2) + 4 * ((i / 4) % 2)
  {
    SplitLowBit8(i);
    LowBits2(i / 2);
    assert (i / 2) / 2 == i / 4;
  }

  /** i % 8 is its low bit plus twice (i / 2) % 4. */
  lemma SplitLowBit8(i: int)
    ensures i % 8 == i % 2 + 2 * ((i / 2) % 4)
  {
    var a, b := i / 2, i % 2;
    var q, c := a / 4, a % 4;
    assert i == 8 * q + (2 * c + b) && 0 <= 2 * c + b < 8;
  }

  /**
   * The eight corners of a proper box are distinct: two indices give the
   * same corner exactly when they agree modulo 8.
   */
  lemma {:induction false} CornersDistinct(b: Bounds3, i: int, j: int)
    requires b.pMin.X < b.pMax.X && b.pMin.Y < b.pMax.Y && b.pMin.Z < b.pMax.Z
    ensures b.Corner(i) == b.Corner(j) <==> i % 8 == j % 8
  {
    CornerBits(b, i);
    CornerBits(b, j);
    LowBits3(i);
    LowBits3(j);
  }

  /** Every corner is as far from the centre as pMax is. */
  lemma {:induction false} CornersEquidistant(b: Bounds3, i: int)
    ensures var c := b.BoundingSphere(x => x).0;
      DistanceP3Sq(c, b.Corner(i)) == DistanceP3Sq(c, b.pMax)
  {
    var c := b.BoundingSphere(x => x).0;
    var p := b.Corner(i);
    HalfSquares(b.pMin.X, b.pMax.X, c.X, p.X);
    HalfSquares(b.pMin.Y, b.pMax.Y, c.Y, p.Y);
    HalfSquares(b.pMin.Z, b.pMax.Z, c.Z, p.Z);
  }

  lemma HalfSquares(lo: real, hi: real, c: real, x: real)
    requires c * 2.0 == lo + hi && (x == lo || x == hi)
    ensures (x - c) * (x - c) == (hi - c) * (hi - c)
  {
    if x == lo {
      assert x - c == -(hi - c);
      NegSquare(hi - c);
    }
  }

  lemma NegSquare(a: real)
    ensures (-a) * (-a) == a * a
  {
  }

  /** Offset undoes Lerp, and Lerp undoes Offset, on a box of positive extent. */
  lemma {:induction false} LerpOffsetRoundTrip(b: Bounds3, p: Point3, t: Point3)
    requires b.pMin.X < b.pMax.X && b.pMin.Y < b.pMax.Y && b.pMin.Z < b.pMax.Z
    ensures var o := b.Offset(p); b.Lerp(Point3(o.X, o.Y, o.Z)) == p
    ensures b.Offset(b.Lerp(t)) == t.ToVec()
  {
    var q := b.Lerp(t);
    var o := b.Offset(q);
    LerpInjective(o.X, t.X, b.pMin.X, b.pMax.X);
    LerpInjective(o.Y, t.Y, b.pMin.Y, b.pMax.Y);
    LerpInjective(o.Z, t.Z, b.pMin.Z, b.pMax.Z);
  }

  lemma LerpInjective(s: real, t: real, lo: real, hi: real)
    requires lo < hi && Helpers.Lerp(s, lo, hi) == Helpers.Lerp(t, lo, hi)
    ensures s == t
  {
    assert Helpers.Lerp(s, lo, hi) == lo + s * (hi - lo);
    assert Helpers.Lerp(t, lo, hi) == lo + t * (hi - lo);
    assert (s - t) * (hi - lo) == 0.0;
    if s != t {
      if s > t {
        MulStrict(s - t, hi - lo, (s - t) * (hi - lo));
      } else {
        MulStrict(t - s, hi - lo, (t - s) * (hi - lo));
      }
    }
  }

  /** A point inside a box has every offset coordinate in [0, 1]. */
  lemma {:induction false} OffsetInUnitCube(b: Bounds3, p: Point3)
    requires b.Contains(p)
    ensures var o := b.Offset(p);
      0.0 <= o.X <= 1.0 && 0.0 <= o.Y <= 1.0 && 0.0 <= o.Z <= 1.0
  {
    var o := b.Offset(p);
    OffsetAxisUnit(o.X, b.pMin.X, b.pMax.X, p.X);
    OffsetAxisUnit(o.Y, b.pMin.Y, b.pMax.Y, p.Y);
    OffsetAxisUnit(o.Z, b.pMin.Z, b.pMax.Z, p.Z);
  }

  lemma OffsetAxisUnit(o: real, lo: real, hi: real, x: real)
    requires lo <= x <= hi
    requires hi > lo ==> Helpers.Lerp(o, lo, hi) == x
    requires !(hi > lo) ==> o == x - lo
    ensures 0.0 <= o <= 1.0
  {
    if hi > lo {
      assert Helpers.Lerp(o, lo, hi) == lo + o * (hi - lo);
      MulMonotone(o, 0.0, hi - lo);
      MulMonotone(o, 1.0, hi - lo);
    }
  }

  /** The empty box: inverted, so it contains no point. */
  function NewEmptyBounds3(): (b: Bounds3)
    ensures !b.Valid()
    ensures forall p :: !b.Contains(p)
  {
    Bounds3(Point3(MaxInt32, MaxInt32, MaxInt32), Point3(MinInt32, MinInt32, MinInt32))
  }

  /** Coordinates within the 32-bit integer range the empty box's sentinels cover. */
  predicate InInt32Range(p: Point3)
  {
    MinInt32 <= p.X <= MaxInt32 && MinInt32 <= p.Y <= MaxInt32 && MinInt32 <= p.Z <= MaxInt32
  }

  /** Adding a point to the empty box gives the box of that point alone (within the sentinels' range). */
  lemma {:induction false} EmptyUnionIsSingle(p: Point3)
    requires InInt32Range(p)
    ensures UnionB3P(NewEmptyBounds3(), p) == NewSinglePBounds3(p)
  {
  }

  /** Beyond the sentinels the empty box is no longer neutral for union. */
  lemma EmptyUnionOutOfRange()
    ensures UnionB3P(NewEmptyBounds3(), Point3(4294967296.0, 0.0, 0.0)) != NewSinglePBounds3(Point3(4294967296.0, 0.0, 0.0))
  {
  }

  function NewSinglePBounds3(p: Point3): (b: Bounds3)
    ensures b.Valid()
    ensures forall q :: b.Contains(q) <==> q == p
  {
    Bounds3(p, p)
  }

  /** The smallest box holding both points, whatever their order. */
  function NewBounds3(p0: Point3, p1: Point3): (b: Bounds3)
    ensures b.Valid() && b.Contains(p0) && b.Contains(p1)
    ensures forall c: Bounds3 :: c.Contains(p0) && c.Contains(p1) ==> Inside(b, c)
  {
    Bounds3(MinP3(p0, p1), MaxP3(p0, p1))
  }

  lemma {:induction false} NewBounds3Laws(p0: Point3, p1: Point3)
    ensures NewBounds3(p0, p1) == NewBounds3(p1, p0)
    ensures NewBounds3(p0, p0) == NewSinglePBounds3(p0)
    ensures LeqP3(p0, p1) ==> NewBounds3(p0, p1) == Bounds3(p0, p1)
  {
    MinMaxP3Laws(p0, p1);
  }

  /** The smallest box holding b and p. */
  function UnionB3P(b: Bounds3, p: Point3): (u: Bounds3)
    ensures u.Valid() && Inside(b, u) && u.Contains(p)
    ensures forall c: Bounds3 :: Inside(b, c) && c.Contains(p) ==> Inside(u, c)
  {
    Bounds3(MinP3(b.pMin, p), MaxP3(b.pMax, p))
  }

  /** The smallest box holding b0 and b1. */
  function UnionB3B3(b0: Bounds3, b1: Bounds3): (u: Bounds3)
    ensures Inside(b0, u) && Inside(b1, u)
    ensures forall c: Bounds3 :: Inside(b0, c) && Inside(b1, c) ==> Inside(u, c)
  {
    Bounds3(MinP3(b0.pMin, b1.pMin), MaxP3(b0.pMax, b1.pMax))
  }

  lemma {:induction false} UnionB3Laws(a: Bounds3, b: Bounds3, c: Bounds3, p: Point3)
    ensures UnionB3B3(a, b) == UnionB3B3(b, a)
    ensures UnionB3B3(a, a) == a
    ensures UnionB3B3(UnionB3B3(a, b), c) == UnionB3B3(a, UnionB3B3(b, c))
    ensures UnionB3P(a, p) == UnionB3B3(a, NewSinglePBounds3(p))
  {
    MinMaxP3Laws(a.pMin, b.pMin);
    MinMaxP3Laws(a.pMax, b.pMax);
    MinMaxP3Laws(a.pMin, a.pMin);
    MinMaxP3Laws(a.pMax, a.pMax);
  }

  /** Overlap test: any common point makes it true; for valid boxes it yields one. */
  function OverlapsB3(b1: Bounds3, b2: Bounds3): (r: bool)
    ensures (exists q :: b1.Contains(q) && b2.Contains(q)) ==> r
    ensures r && b1.Valid() && b2.Valid() ==>
      b1.Contains(MaxP3(b1.pMin, b2.pMin)) && b2.Contains(MaxP3(b1.pMin, b2.pMin))
  {
    var x := b1.pMax.X >= b2.pMin.X && b1.pMin.X <= b2.pMax.X;
    var y := b1.pMax.Y >= b2.pMin.Y && b1.pMin.Y <= b2.pMax.Y;
    var z := b1.pMax.Z >= b2.pMin.Z && b1.pMin.Z <= b2.pMax.Z;
    x && y && z
  }

  lemma {:induction false} OverlapsB3Laws(a: Bounds3, b: Bounds3)
    ensures OverlapsB3(a, b) == OverlapsB3(b, a)
    ensures OverlapsB3(a, a) <==> a.Valid()
  {
  }

  /** The box grown by t on every side. */
  function ExpandB3(b: Bounds3, t: real): (e: Bounds3)
    ensures t >= 0.0 ==> Inside(b, e)
    ensures t <= 0.0 ==> Inside(e, b)
    ensures e.Diagonal() == b.Diagonal().Add(Vec3(2.0 * t, 2.0 * t, 2.0 * t))
  {
    var delta := Vec3(t, t, t);
    Bounds3(b.pMin.SubtractV(delta), b.pMax.AddV(delta))
  }

  lemma ExpandB3Zero(b: Bounds3)
    ensures ExpandB3(b, 0.0) == b
  {
  }

  lemma ExpandB3Compose(b: Bounds3, s: real, t: real)
    ensures ExpandB3(ExpandB3(b, s), t) == ExpandB3(b, s + t)
  {
  }

  // ----- the slab test behind IntersectP -----

  /** 1 / Dir.Get(i) is only finite when every direction component is nonzero. */
  predicate NonzeroDir(ray: Ray)
  {
    ray.Dir.X != 0.0 && ray.Dir.Y != 0.0 && ray.Dir.Z != 0.0
  }

  /** The ray parameter at which the ray crosses the plane at coordinate `plane`, through the reciprocal direction. */
  function Crossing(plane: real, o: real, invDir: real): real
  {
    (plane - o) * invDir
  }

  /** The parameter range, sorted, over which the ray lies between the box's two planes of axis i. */
  function SlabRange(b: Bounds3, ray: Ray, i: int): (r: (real, real))
    requires NonzeroDir(ray) && 0 <= i < 3
    ensures r.0 <= r.1
  {
    var invRayDir := 1.0 / ray.Dir.Get(i);
    var tNear := Crossing(b.pMin.Get(i), ray.Orig.Get(i), invRayDir);
    var tFar := Crossing(b.pMax.Get(i), ray.Orig.Get(i), invRayDir);
    if tNear > tFar then (tFar, tNear) else (tNear, tFar)
  }

  /** The three slab ranges, in the order the loop visits the axes. */
  function SlabRanges(b: Bounds3, ray: Ray): (rs: seq<(real, real)>)
    requires NonzeroDir(ray)
    ensures |rs| == 3
    ensures forall k :: 0 <= k < 3 ==> rs[k] == SlabRange(b, ray, k)
  {
    [SlabRange(b, ray, 0), SlabRange(b, ray, 1), SlabRange(b, ray, 2)]
  }

  /**
   * The iterations of the as-written loop from index i on, given the slab
   * ranges and the current (t0, t1): a plane crossing at positive t
   * REPLACES t0.
   */
  function SlabsAsWritten(rs: seq<(real, real)>, i: nat, t0: real, t1: real): (r: (bool, real, real))
    requires i <= |rs|
    decreases |rs| - i
    ensures !r.0 ==> r.1 == 0.0 && r.2 == 0.0
    ensures r.0 && i < |rs| ==> r.1 <= r.2 <= t1
    ensures r.0 && t0 >= 0.0 ==> r.1 >= 0.0
  {
    if i == |rs| then (true, t0, t1)
    else
      var t0' := if rs[i].0 > 0.0 then rs[i].0 else t0;
      var t1' := if rs[i].1 < t1 then rs[i].1 else t1;
      if t0' > t1' then (false, 0.0, 0.0) else SlabsAsWritten(rs, i + 1, t0', t1')
  }

  /** The iterations of the intended loop: t0 becomes the larger of itself and the crossing. */
  function SlabsIntended(rs: seq<(real, real)>, i: nat, t0: real, t1: real): (r: (bool, real, real))
    requires i <= |rs|
    decreases |rs| - i
    ensures !r.0 ==> r.1 == 0.0 && r.2 == 0.0
    ensures r.0 ==> t0 <= r.1 && r.2 <= t1
    ensures r.0 && i < |rs| ==> r.1 <= r.2
  {
    if i == |rs| then (true, t0, t1)
    else
      var t0' := if rs[i].0 > t0 then rs[i].0 else t0;
      var t1' := if rs[i].1 < t1 then rs[i].1 else t1;
      if t0' > t1' then (false, 0.0, 0.0) else SlabsIntended(rs, i + 1, t0', t1')
  }

  /** t lies in the ranges i, i+1, ... of rs. */
  predicate InRangesFrom(rs: seq<(real, real)>, i: nat, t: real)
    requires i <= |rs|
    decreases |rs| - i
  {
    i == |rs| || (rs[i].0 <= t <= rs[i].1 && InRangesFrom(rs, i + 1, t))
  }

  /** The intended loop keeps exactly the t in [t0, t1] that lie in all remaining ranges. */
  lemma {:induction false} SlabsIntendedExact(rs: seq<(real, real)>, i: nat, t0: real, t1: real, t: real)
    requires i <= |rs|
    decreases |rs| - i
    ensures var r := SlabsIntended(rs, i, t0, t1);
      (r.0 && r.1 <= t <= r.2) <==> (t0 <= t <= t1 && InRangesFrom(rs, i, t))
  {
    if i < |rs| {
      var t0' := if rs[i].0 > t0 then rs[i].0 else t0;
      var t1' := if rs[i].1 < t1 then rs[i].1 else t1;
      if t0' <= t1' {
        SlabsIntendedExact(rs, i + 1, t0', t1', t);
      }
    }
  }

  /** The as-written loop's range encloses the intended one, and it hits whenever the intended one does. */
  lemma {:induction false} SlabsAsWrittenEncloses(rs: seq<(real, real)>, i: nat, a0: real, c0: real, t1: real)
    requires i <= |rs| && a0 <= c0
    decreases |rs| - i
    ensures var r, s := SlabsAsWritten(rs, i, a0, t1), SlabsIntended(rs, i, c0, t1);
      s.0 ==> r.0 && r.1 <= s.1 && r.2 == s.2
  {
    if i < |rs| {
      var a0' := if rs[i].0 > 0.0 then rs[i].0 else a0;
      var c0' := if rs[i].0 > c0 then rs[i].0 else c0;
      var t1' := if rs[i].1 < t1 then rs[i].1 else t1;
      if c0' <= t1' {
        SlabsAsWrittenEncloses(rs, i + 1, a0', c0', t1');
      }
    }
  }

  /** The point at t lies between the box's two planes of axis i. */
  predicate InSlab(b: Bounds3, ray: Ray, i: int, t: real)
    requires 0 <= i < 3
  {
    b.pMin.Get(i) <= ray.GetPointForT(t).Get(i) <= b.pMax.Get(i)
  }

  /** On one axis of a valid box, the sorted slab range is exactly where the ray is between the planes. */
  lemma {:induction false} SlabRangeExact(b: Bounds3, ray: Ray, i: int, t: real)
    requires b.Valid() && NonzeroDir(ray) && 0 <= i < 3
    ensures var r := SlabRange(b, ray, i); r.0 <= t <= r.1 <==> InSlab(b, ray, i, t)
  {
    var lo, hi, o, d := b.pMin.Get(i), b.pMax.Get(i), ray.Orig.Get(i), ray.Dir.Get(i);
    assert lo <= hi;
    PointOnAxis(ray, i, t);
    SlabAxis(lo, hi, o, d, t);
  }

  lemma PointOnAxis(ray: Ray, i: int, t: real)
    requires 0 <= i < 3
    ensures ray.GetPointForT(t).Get(i) == ray.Orig.Get(i) + t * ray.Dir.Get(i)
  {
  }

  lemma SlabAxis(lo: real, hi: real, o: real, d: real, t: real)
    requires lo <= hi && d != 0.0
    ensures var a, c := Crossing(lo, o, 1.0 / d), Crossing(hi, o, 1.0 / d);
      (if a > c then c else a) <= t <= (if a > c then a else c) <==> lo <= o + t * d <= hi
  {
    var a, c := Crossing(lo, o, 1.0 / d), Crossing(hi, o, 1.0 / d);
    CrossingOrder(lo, o, d, t);
    CrossingOrder(hi, o, d, t);
    CrossingOrder(lo, o, d, c);
  }

  /**
   * Where the ray crosses the plane at coordinate p, compared with t: the
   * comparison flips with the sign of the direction d.
   */
  lemma CrossingOrder(p: real, o: real, d: real, t: real)
    requires d != 0.0
    ensures var x := Crossing(p, o, 1.0 / d);
      && x * d == p - o
      && (d > 0.0 ==> (x <= t <==> p - o <= t * d) && (t <= x <==> t * d <= p - o))
      && (d < 0.0 ==> (x <= t <==> t * d <= p - o) && (t <= x <==> p - o <= t * d))
  {
    var x := Crossing(p, o, 1.0 / d);
    assert x * d == p - o;
    if d > 0.0 {
      MulMonotone(x, t, d);
      MulMonotone(t, x, d);
    } else {
      MulMonotone(x, t, -d);
      MulMonotone(t, x, -d);
      assert x * (-d) == -(x * d);
      assert t * (-d) == -(t * d);
    }
  }

  /** For a valid box, t lies in all three slab ranges exactly when the ray's point at t is in the box. */
  lemma {:induction false} SlabRangesContain(b: Bounds3, ray: Ray, t: real)
    requires b.Valid() && NonzeroDir(ray)
    ensures InRangesFrom(SlabRanges(b, ray), 0, t) <==> b.Contains(ray.GetPointForT(t))
  {
    var rs := SlabRanges(b, ray);
    var p := ray.GetPointForT(t);
    SlabRangeExact(b, ray, 0, t);
    SlabRangeExact(b, ray, 1, t);
    SlabRangeExact(b, ray, 2, t);
    assert InRangesFrom(rs, 3, t);
    assert InRangesFrom(rs, 2, t) <==> InSlab(b, ray, 2, t);
    assert InRangesFrom(rs, 1, t) <==> InSlab(b, ray, 1, t) && InSlab(b, ray, 2, t);
    assert InRangesFrom(rs, 0, t) <==> InSlab(b, ray, 0, t) && InSlab(b, ray, 1, t) && InSlab(b, ray, 2, t);
    assert InSlab(b, ray, 0, t) <==> b.pMin.X <= p.X <= b.pMax.X;
    assert InSlab(b, ray, 1, t) <==> b.pMin.Y <= p.Y <= b.pMax.Y;
    assert InSlab(b, ray, 2, t) <==> b.pMin.Z <= p.Z <= b.pMax.Z;
  }

  /**
   * The intended slab test is exact: it reports a hit with t in [t0, t1]
   * precisely when 0 <= t <= tMax and the ray's point at t is in the box.
   */
  lemma {:induction false} IntersectPIntendedExact(b: Bounds3, ray: Ray, t: real)
    requires b.Valid() && NonzeroDir(ray)
    ensures var r := SlabsIntended(SlabRanges(b, ray), 0, 0.0, ray.tMax);
      (r.0 && r.1 <= t <= r.2) <==> (0.0 <= t <= ray.tMax && b.Contains(ray.GetPointForT(t)))
  {
    SlabsIntendedExact(SlabRanges(b, ray), 0, 0.0, ray.tMax, t);
    SlabRangesContain(b, ray, t);
  }

  /** IntersectP as written never misses: every t at which the ray is in the box lies in its range. */
  lemma {:induction false} IntersectPNeverMisses(b: Bounds3, ray: Ray, t: real)
    requires b.Valid() && NonzeroDir(ray)
    requires 0.0 <= t <= ray.tMax && b.Contains(ray.GetPointForT(t))
    ensures var r := SlabsAsWritten(SlabRanges(b, ray), 0, 0.0, ray.tMax); r.0 && r.1 <= t <= r.2
  {
    IntersectPIntendedExact(b, ray, t);
    SlabsAsWrittenEncloses(SlabRanges(b, ray), 0, 0.0, 0.0, ray.tMax);
  }

  /**
   * IntersectP as written reports a false hit: the box [5,6]x[2,4]x[-1,10]
   * and the ray from the origin along (1,1,1). The x slab gives [5,6], the y
   * slab then overwrites t0 with 2, and the result is a hit over [2,4],
   * although no point of the ray is in the box; the intended test misses.
   */
  lemma IntersectPFalseHit()
    ensures var b := Bounds3(Point3(5.0, 2.0, -1.0), Point3(6.0, 4.0, 10.0));
      var ray := Ray(Origin3, Vec3(1.0, 1.0, 1.0), 100.0, 0.0, Wrappers.Nil);
      && SlabsAsWritten(SlabRanges(b, ray), 0, 0.0, ray.tMax) == (true, 2.0, 4.0)
      && !SlabsIntended(SlabRanges(b, ray), 0, 0.0, ray.tMax).0
      && forall t :: !b.Contains(ray.GetPointForT(t))
  {
    var b := Bounds3(Point3(5.0, 2.0, -1.0), Point3(6.0, 4.0, 10.0));
    var ray := Ray(Origin3, Vec3(1.0, 1.0, 1.0), 100.0, 0.0, Wrappers.Nil);
    var rs := SlabRanges(b, ray);
    assert rs[0] == (5.0, 6.0);
    assert rs[1] == (2.0, 4.0);
    assert rs[2] == (-1.0, 10.0);
  }

  // ----- two-dimensional boxes -----

  datatype Bounds2 = Bounds2(pMin: Point2, pMax: Point2) {

    predicate Valid()
    {
      LeqP2(pMin, pMax)
    }

    predicate Contains(p: Point2)
    {
      LeqP2(pMin, p) && LeqP2(p, pMax)
    }

    /** One of the four corners: bit 0 of i picks the x side, bit 1 the y side. */
    function Corner(i: int): (p: Point2)
      ensures p.X in {pMin.X, pMax.X} && p.Y in {pMin.Y, pMax.Y}
      ensures Valid() ==> Contains(p)
    {
      Point2(if i % 2 != 0 then pMax.X else pMin.X,
             if (i / 2) % 2 != 0 then pMax.Y else pMin.Y)
    }

    function Diagonal(): (d: Vec2)
      ensures pMin.AddV(d) == pMax
      ensures Valid() <==> d.X >= 0.0 && d.Y >= 0.0
    {
      pMax.SubtractP(pMin)
    }

    /** The area of the rectangle (the source calls it SurfaceArea). */
    function SurfaceArea(): (a: real)
      ensures Valid() ==> a >= 0.0
      ensures pMin.X == pMax.X || pMin.Y == pMax.Y ==> a == 0.0
    {
      var d := Diagonal();
      MulNonNegative(d.X, d.Y, d.X * d.Y);
      d.X * d.Y
    }

    /** 0 when x is strictly the longer axis, else 1. */
    function MaxExtent(): (k: int)
      ensures 0 <= k < 2
      ensures k == 0 <==> Diagonal().X > Diagonal().Y
      ensures k == 1 ==> Diagonal().X <= Diagonal().Y
    {
      var d := Diagonal();
      if d.X > d.Y then 0 else 1
    }

    function Lerp(t: Point2): (p: Point2)
      ensures t == Point2(0.0, 0.0) ==> p == pMin
      ensures t == Point2(1.0, 1.0) ==> p == pMax
      ensures Valid() && LeqP2(Point2(0.0, 0.0), t) && LeqP2(t, Point2(1.0, 1.0)) ==> Contains(p)
    {
      var p := Point2(Helpers.Lerp(t.X, pMin.X, pMax.X), Helpers.Lerp(t.Y, pMin.Y, pMax.Y));
      if Valid() && LeqP2(Point2(0.0, 0.0), t) && LeqP2(t, Point2(1.0, 1.0)) then
        LerpBetween(t.X, pMin.X, pMax.X);
        LerpBetween(t.Y, pMin.Y, pMax.Y);
        p
      else p
    }

    function Offset(p: Point2): (o: Vec2)
      ensures pMax.X > pMin.X ==> Helpers.Lerp(o.X, pMin.X, pMax.X) == p.X
      ensures pMax.Y > pMin.Y ==> Helpers.Lerp(o.Y, pMin.Y, pMax.Y) == p.Y
      ensures !(pMax.X > pMin.X) ==> o.X == p.X - pMin.X
      ensures !(pMax.Y > pMin.Y) ==> o.Y == p.Y - pMin.Y
    {
      var o := p.SubtractP(pMin);
      Vec2(OffsetAxis(o.X, pMin.X, pMax.X), OffsetAxis(o.Y, pMin.Y, pMax.Y))
    }

    function BoundingCircle(sqrt: real -> real): (r: (Point2, real))
      ensures r.0.Multiply(2.0) == pMin.AddP(pMax)
      ensures Contains(r.0) <==> Valid()
      ensures Valid() ==> r.1 == DistanceP2(r.0, pMax, sqrt)
      ensures !Valid() ==> r.1 == 0.0
    {
      var center := pMin.AddP(pMax).Divide(2.0);
      var radius := if Contains(center) then DistanceP2(center, pMax, sqrt) else 0.0;
      (center, radius)
    }
  }

  /** Box a lies inside box c. */
  predicate Inside2(a: Bounds2, c: Bounds2)
  {
    LeqP2(c.pMin, a.pMin) && LeqP2(a.pMax, c.pMax)
  }

  lemma {:induction false} Corner2Laws(b: Bounds2, i: int)
    ensures b.Corner(i + 4) == b.Corner(i)
    ensures b.Corner(0) == b.pMin && b.Corner(3) == b.pMax
  {
    assert (i + 4) / 2 == i / 2 + 2;
  }

  /** For a proper rectangle, corner i takes the pMax side on axis k exactly when bit k of i is set. */
  lemma {:induction false} Corner2Bits(b: Bounds2, i: int)
    requires b.pMin.X < b.pMax.X && b.pMin.Y < b.pMax.Y
    ensures b.Corner(i).X == b.pMax.X <==> i % 2 == 1
    ensures b.Corner(i).Y == b.pMax.Y <==> (i / 2) % 2 == 1
  {
  }

  /** The low two bits of i: i % 4 is bit 0 + 2 * bit 1. */
  lemma LowBits2(i: int)
    ensures i % 4 == i % 2 + 2 * ((i / 2) % 2)
  {
    var q, r := i / 4, i % 4;
    assert i == 4 * q + r && 0 <= r < 4;
    assert i / 2 == 2 * q + r / 2;
    assert i % 2 == r % 2;
  }

  /** The four corners of a proper rectangle are distinct: equal exactly when the indices agree modulo 4. */
  lemma {:induction false} Corners2Distinct(b: Bounds2, i: int, j: int)
    requires b.pMin.X < b.pMax.X && b.pMin.Y < b.pMax.Y
    ensures b.Corner(i) == b.Corner(j) <==> i % 4 == j % 4
  {
    Corner2Bits(b, i);
    Corner2Bits(b, j);
    LowBits2(i);
    LowBits2(j);
  }

  function NewEmptyBounds2(): (b: Bounds2)
    ensures !b.Valid()
    ensures forall p :: !b.Contains(p)
  {
    Bounds2(Point2(MaxInt32, MaxInt32), Point2(MinInt32, MinInt32))
  }

  lemma {:induction false} EmptyUnion2IsSingle(p: Point2)
    requires MinInt32 <= p.X <= MaxInt32 && MinInt32 <= p.Y <= MaxInt32
    ensures UnionB2P(NewEmptyBounds2(), p) == NewSinglePBounds2(p)
  {
  }

  function NewSinglePBounds2(p: Point2): (b: Bounds2)
    ensures b.Valid()
    ensures forall q :: b.Contains(q) <==> q == p
  {
    Bounds2(p, p)
  }

  function NewBounds2(p0: Point2, p1: Point2): (b: Bounds2)
    ensures b.Valid() && b.Contains(p0) && b.Contains(p1)
    ensures forall c: Bounds2 :: c.Contains(p0) && c.Contains(p1) ==> Inside2(b, c)
  {
    Bounds2(MinP2(p0, p1), MaxP2(p0, p1))
  }

  function UnionB2P(b: Bounds2, p: Point2): (u: Bounds2)
    ensures u.Valid() && Inside2(b, u) && u.Contains(p)
    ensures forall c: Bounds2 :: Inside2(b, c) && c.Contains(p) ==> Inside2(u, c)
  {
    Bounds2(MinP2(b.pMin, p), MaxP2(b.pMax, p))
  }

  function UnionB2B2(b0: Bounds2, b1: Bounds2): (u: Bounds2)
    ensures Inside2(b0, u) && Inside2(b1, u)
    ensures forall c: Bounds2 :: Inside2(b0, c) && Inside2(b1, c) ==> Inside2(u, c)
  {
    Bounds2(MinP2(b0.pMin, b1.pMin), MaxP2(b0.pMax, b1.pMax))
  }

  lemma {:induction false} UnionB2Laws(a: Bounds2, b: Bounds2, p: Point2)
    ensures UnionB2B2(a, b) == UnionB2B2(b, a)
    ensures UnionB2B2(a, a) == a
    ensures UnionB2P(a, p) == UnionB2B2(a, NewSinglePBounds2(p))
  {
  }

  function OverlapsB2(b1: Bounds2, b2: Bounds2): (r: bool)
    ensures (exists q :: b1.Contains(q) && b2.Contains(q)) ==> r
    ensures r && b1.Valid() && b2.Valid() ==>
      b1.Contains(MaxP2(b1.pMin, b2.pMin)) && b2.Contains(MaxP2(b1.pMin, b2.pMin))
  {
    var x := b1.pMax.X >= b2.pMin.X && b1.pMin.X <= b2.pMax.X;
    var y := b1.pMax.Y >= b2.pMin.Y && b1.pMin.Y <= b2.pMax.Y;
    x && y
  }

  lemma {:induction false} OverlapsB2Laws(a: Bounds2, b: Bounds2)
    ensures OverlapsB2(a, b) == OverlapsB2(b, a)
    ensures OverlapsB2(a, a) <==> a.Valid()
  {
  }

  function ExpandB2(b: Bounds2, t: real): (e: Bounds2)
    ensures t >= 0.0 ==> Inside2(b, e)
    ensures t <= 0.0 ==> Inside2(e, b)
    ensures e.Diagonal() == b.Diagonal().Add(Vec2(2.0 * t, 2.0 * t))
  {
    var delta := Vec2(t, t);
    Bounds2(b.pMin.SubtractV(delta), b.pMax.AddV(delta))
  }

  lemma ExpandB2Zero(b: Bounds2)
    ensures ExpandB2(b, 0.0) == b
  {
  }

  lemma ExpandB2Compose(b: Bounds2, s: real, t: real)
    ensures ExpandB2(ExpandB2(b, s), t) == ExpandB2(b, s + t)
  {
  }
}
