# GoTrace geometry core in Dafny

This project models the geometric core of GoTrace, a physically based ray tracer written in Go after pbrt. It covers these parts:

- the vector, point and normal algebra (`math/vector.go`, `math/point.go`, `core/normal.go`);
- rays and ray differentials (`math/ray.go`);
- axis-aligned bounding boxes in 3D and 2D, including the slab test (`core/boundingBox.go`, and its twin `geometry/boundingBox.go`);
- 4x4 affine/projective transforms and how they act on points, vectors, normals, rays and boxes (`core/transform.go`, and its twin `math/transform.go`);
- the scalar helpers (`core/helper.go`, `math/helper.go`);
- interactions and surface interactions (`core/interaction.go`);
- the sphere shape with its root selection and clip-and-retry logic (`core/shape.go`);
- the geometric primitive that wraps a shape (`core/primitive.go`);
- the coefficient spectrum (`core/spectrum.go`).

Floating-point numbers are modelled as `real`. Go structs that are values become Dafny datatypes. Code that changes state step by step is modelled imperatively:

- The ray differential's `ScaleRayDifferentials` has a pointer receiver, so `RayDifferential` is a class.
- Bounds3's slab test and ApplyB's chain of unions are methods with the source's loop and reassignments.
- The sphere's Intersect is a method with the source's early returns and retry.
- Every spectrum operation loops over the coefficients in place.

Functions this core calls but does not define are parameters of the members that use them. These are sqrt, atan2, acos, asin, Clamp, Quadratic, Normalize, `Matrix4x4f.Inverse`, `SwapsHandedness`, and the sphere's parametric and differential-geometry block (`surface`).

Materials, area lights and media are handles (`Ref`): nil, or an identity that is never looked into.

The shape interface has a single implementation in the source, the sphere. Shape helpers and the primitive are stated over `Spheres.Sphere`.

`geometry/boundingBox.go` repeats the box algebra of `core/boundingBox.go` line for line, without IntersectP. It is modelled once, and the `## Model` rows cite the core file. In the same way, `math/transform.go` repeats ApplyV, Inverse, Transpose, IsIdentity, HasScale and the constructors of `core/transform.go` (lines 12-96 there).

Where the code departs from pbrt (Physically Based Rendering, by Pharr, Jakob and Humphreys), which it follows otherwise, the model follows the code:

- **The sphere's phi is not wrapped.** pbrt wraps phi into [0, 2pi). In the code, the closure at `core/shape.go:89-100` adds 2pi to the enclosing `phi`, not to the value it returns. The caller then overwrites `phi` with the unwrapped `atan2(y, x)`. `Spheres.PosAndPhi` returns that unwrapped value.
- **The far root is rejected at tMax.** pbrt rejects the far root only when it lies past tMax. The code rejects it when `t1 >= tMax` (`core/shape.go:82-84`), but accepts `t1 == tMax` on the clip retry (`core/shape.go:110`).
- **ApplyR and ApplyB.** pbrt's ray transform keeps the ray's extent, and its box transform starts from the first corner's image alone. The code's ApplyR sets tMax to 0, and its ApplyB starts from a box whose pMax is the origin; see `## Findings`. The members that compose them as written (`Spheres.Sphere.Intersect`, `Spheres.Sphere.IntersectP`, `Spheres.WorldBound`, `Primitives.GeometricPrimitive.Intersect`) are modelled with those consequences; each has a counterpart named `...Intended` over the corrected ApplyR or ApplyB.

## Model

| member | source | states |
|---|---|---|
| `Helpers.Xor` | core/helper.go:25-27 | true exactly when the two flags differ |
| `Helpers.XorCommutes` | core/helper.go:25-27 | Xor is symmetric and false on equal flags |
| `Helpers.Lerp` | core/helper.go:13-15 | weight 0 gives p0, weight 1 gives p1, equal end values give that value |
| `Helpers.LerpSwap` | math/helper.go:3-5 | interpolating from p1 to p0 with weight 1-t is the same as from p0 to p1 with weight t |
| `Helpers.LerpBetween` | core/helper.go:13-15 | for weights in [0,1] the result lies between the two end values |
| `Helpers.Radians` | core/helper.go:17-23 | Degress undoes Radians |
| `Helpers.MachineEpsilon` | core/helper.go:5-7 | the epsilon (2^-52) is positive and below 1e-15 |
| `Helpers.Gamma` | core/helper.go:9-11 | gamma(n) is positive when n*eps lies in (0,1), and zero at n = 0 |
| `Helpers.GammaIncreasing` | core/helper.go:9-11 | gamma is strictly increasing in n while n*eps < 1 |
| `Vectors.Vec3.MagnitudeSq` | math/vector.go:9-11 | the squared length is the self dot product, nonnegative, zero only for the zero vector |
| `Vectors.Vec3.Inverse` | math/vector.go:21-23 | adding the inverse gives the zero vector |
| `Vectors.Vec3.Subtract` | math/vector.go:29-32 | adding v2 back to v - v2 restores v |
| `Vectors.Vec3.AbsDot` | math/vector.go:42-44 | the absolute value of the dot product |
| `Vectors.Vec3.Cross` | math/vector.go:46-48 | the cross product is orthogonal to both factors |
| `Vectors.Vec3.MinComponent` | math/vector.go:54-56 | one of the components, and no larger than any of them |
| `Vectors.Vec3.MaxComponent` | math/vector.go:58-60 | one of the components, and no smaller than any of them |
| `Vectors.Vec3InverseInvolution` | math/vector.go:21-32 | inverting twice is the identity; v - v is zero |
| `Vectors.Vec3DotSymmetric` | math/vector.go:38-44 | Dot and AbsDot are symmetric |
| `Vectors.CrossAnticommutative` | math/vector.go:46-48 | v x w is the inverse of w x v, and v x v is zero |
| `Vectors.MinCompsVec` | math/vector.go:131-133 | per axis, the smaller of the two components |
| `Vectors.MaxCompsVec` | math/vector.go:135-137 | per axis, the larger of the two components |
| `Vectors.MakeCoordSystem` | math/vector.go:139-148 | w has a zero component on the axis the branch picks, w is orthogonal to v, u is v x w, and u is orthogonal to both |
| `Vectors.Vec2.MagnitudeSq` | math/vector.go:68-70 | the squared length is the self dot product, nonnegative, zero only for the zero vector |
| `Vectors.Vec2.Inverse` | math/vector.go:80-82 | adding the inverse gives the zero vector |
| `Vectors.Vec2.Subtract` | math/vector.go:88-91 | adding v2 back restores the vector |
| `Vectors.Vec2.AbsDot` | math/vector.go:101-103 | the absolute value of the dot product |
| `Points.Point3.SubtractV` | math/point.go:26-29 | adding the vector back restores the point |
| `Points.Point3.SubtractP` | math/point.go:31-33 | p2 plus (p - p2) is p |
| `Points.Point3.Divide` | math/point.go:40-42 | multiplying the quotient by f restores the point (f nonzero) |
| `Points.MultiplyDivide` | math/point.go:36-42 | dividing by f undoes multiplying by f |
| `Points.DistanceP3Sq` | math/point.go:88-90 | nonnegative, and zero exactly for equal points |
| `Points.DistanceP3SqSymmetric` | math/point.go:88-90 | the squared distance is symmetric |
| `Points.LerpP3` | math/point.go:100-102 | weight 0 gives p1, weight 1 gives p2 |
| `Points.MinP3` | math/point.go:108-110 | below both points, with each coordinate taken from one of them |
| `Points.MaxP3` | math/point.go:116-118 | above both points, with each coordinate taken from one of them |
| `Points.MinMaxP3Laws` | math/point.go:108-118 | MinP3 and MaxP3 are commutative and idempotent |
| `Points.FloorP3` | math/point.go:124-126 | each coordinate is rounded down by less than 1 |
| `Points.CeilP3` | math/point.go:132-134 | each coordinate is rounded up by less than 1 |
| `Points.AbsP3` | math/point.go:140-142 | nonnegative coordinates, each equal to the original or its negation |
| `Points.Point2.SubtractV` | math/point.go:64-67 | adding the vector back restores the point |
| `Points.Point2.SubtractP` | math/point.go:69-71 | p2 plus (p - p2) is p |
| `Points.Point2.Divide` | math/point.go:78-80 | multiplying the quotient by f restores the point (f nonzero) |
| `Points.DistanceP2Sq` | math/point.go:96-98 | nonnegative, and zero exactly for equal points |
| `Points.LerpP2` | math/point.go:104-106 | weight 0 gives p1, weight 1 gives p2 |
| `Points.MinP2` | math/point.go:112-114 | below both points, with each coordinate taken from one of them |
| `Points.MaxP2` | math/point.go:120-122 | above both points, with each coordinate taken from one of them |
| `Points.FloorP2` | math/point.go:128-130 | each coordinate is rounded down by less than 1 |
| `Points.CeilP2` | math/point.go:136-138 | each coordinate is rounded up by less than 1 |
| `Points.AbsP2` | math/point.go:144-146 | nonnegative coordinates, each equal to the original or its negation |
| `Normals.Normal3.ToVec3` | core/normal.go:9-11 | NormalFromVec3 undoes ToVec3 |
| `Normals.Normal3.MagnitudeSq` | core/normal.go:13-15 | the self dot product, nonnegative, zero only for the zero normal |
| `Normals.Normal3.Inverse` | core/normal.go:25-27 | adding the inverse gives the zero normal |
| `Normals.Normal3.Subtract` | core/normal.go:33-36 | adding v2 back restores the normal |
| `Normals.Normal3.Divide` | core/normal.go:42-44 | multiplying the quotient by f restores the normal (f nonzero) |
| `Normals.Normal3.MinComponent` | core/normal.go:50-52 | one of the components, and no larger than any of them |
| `Normals.Normal3.MaxComponent` | core/normal.go:54-56 | one of the components, and no smaller than any of them |
| `Normals.NormalInverseInvolution` | core/normal.go:25-40 | inverting twice is the identity; n - n is zero; multiplying by -1 is Inverse |
| `Normals.DotN3Symmetric` | core/normal.go:58-64 | DotN3 and AbsDotN3 are symmetric |
| `Normals.AbsDotN3` | core/normal.go:62-64 | nonnegative, equal to the dot product or its negation |
| `Normals.CrossN3` | core/normal.go:66-68 | the cross product is orthogonal to both normals |
| `Normals.FaceForward` | core/normal.go:70-76 | n or its inverse, lying in v's hemisphere, and n itself when it already does |
| `Normals.FaceForwardIdempotent` | core/normal.go:70-76 | facing forward twice is facing forward once |
| `Rays.Ray.GetPointForT` | math/ray.go:15-17 | the point lies t directions from the origin; t = 0 gives the origin |
| `Rays.NewRay` | math/ray.go:23-25 | all five fields are stored |
| `Rays.GetPointForTAdditive` | math/ray.go:15-17 | the point at t + u is the point at t moved by u directions |
| `Rays.ScalePointAbout` | math/ray.go:53-61 | scale 1 keeps the neighbour's origin, scale 0 collapses it onto the main ray's origin |
| `Rays.ScaleVecAbout` | math/ray.go:53-61 | scale 1 keeps the neighbour's direction, scale 0 collapses it onto the main ray's direction |
| `Rays.ScaleAboutCompose` | math/ray.go:53-61 | scaling by s and then s2 is scaling by s*s2 |
| `Rays.ScaleAboutInverse` | math/ray.go:53-61 | scaling by s and then 1/s restores the neighbours |
| `Rays.RayDifferential.ScaleRayDifferentials` | math/ray.go:53-61 | the four neighbour fields are rescaled about the main ray, and the main ray and flag are unchanged |
| `Rays.RayDifferential.NewEmpty` | math/ray.go:41-43 | no main ray, no differentials, zero neighbours |
| `Rays.RayDifferential.NewDiff` | math/ray.go:45-50 | the main ray is NewRay of the arguments, with no differentials |
| `Rays.RayDifferential.FromRay` | math/ray.go:63-66 | wraps the given (possibly nil) ray, with no differentials |
| `Bounds.Bounds3.Corner` | core/boundingBox.go:15-36 | each coordinate is pMin's or pMax's on that axis, and a valid box contains every corner |
| `Bounds.CornerLaws` | core/boundingBox.go:15-36 | only the low three bits of i matter; corner 0 is pMin and corner 7 is pMax |
| `Bounds.CornerBits` | core/boundingBox.go:15-36 | for a box proper on every axis, corner i is on the pMax side of axis k exactly when bit k of i is set |
| `Bounds.CornersDistinct` | core/boundingBox.go:15-36 | for a proper box, corners i and j coincide exactly when i and j agree modulo 8: the eight corners are distinct |
| `Bounds.Bounds3.Diagonal` | core/boundingBox.go:44-46 | pMin plus the diagonal is pMax; the diagonal is nonnegative exactly for a valid box |
| `Bounds.Bounds3.SurfaceArea` | core/boundingBox.go:48-51 | nonnegative for a valid box |
| `Bounds.Bounds3.Volume` | core/boundingBox.go:53-56 | nonnegative for a valid box, and zero when the box is flat on some axis |
| `Bounds.Bounds3.MaxExtent` | core/boundingBox.go:59-68 | an axis in {0,1,2} of greatest extent; 0 only when x strictly exceeds y and z; 1 only when y strictly exceeds z |
| `Bounds.Bounds3.Lerp` | core/boundingBox.go:71-76 | t = 0 gives pMin, t = 1 gives pMax, and a valid box contains the result for t in the unit cube |
| `Bounds.Bounds3.Offset` | core/boundingBox.go:79-91 | on axes of positive extent, Lerp of the offset gives back the point; elsewhere, the raw difference from pMin |
| `Bounds.OffsetAxis` | core/boundingBox.go:81-89 | the per-axis division: the inverse of Lerp on a proper axis, the difference otherwise |
| `Bounds.LerpOffsetRoundTrip` | core/boundingBox.go:71-91 | on a box of positive extent, Lerp and Offset are mutually inverse |
| `Bounds.OffsetInUnitCube` | core/boundingBox.go:79-91 | a contained point has its offset in the unit cube, zero-extent axes included |
| `Bounds.Bounds3.BoundingSphere` | core/boundingBox.go:93-100 | the centre is the midpoint and lies in the box exactly when the box is valid; the radius is the distance to pMax, or 0 for an invalid box |
| `Bounds.CornersEquidistant` | core/boundingBox.go:93-100 | every corner is as far from the centre as pMax |
| `Bounds.Bounds3.IntersectP` | core/boundingBox.go:107-130 | the source's loop, proved equal to SlabsAsWritten over the three slabs; on a hit 0 <= t0 <= t1 <= tMax, and a miss gives (false, 0, 0) |
| `Bounds.SlabRange` | core/boundingBox.go:112-118 | the entry and exit parameters of one slab, ordered after the swap |
| `Bounds.SlabRanges` | core/boundingBox.go:110-118 | the three slabs' ranges, in axis order |
| `Bounds.SlabsAsWritten` | core/boundingBox.go:110-129 | the as-written loop: a miss gives zeros, and a hit an ordered pair below the running exit |
| `Bounds.SlabsIntended` | core/boundingBox.go:110-129 | the loop with t0 = max(t0, tNear): a hit lies within the starting range and is ordered |
| `Bounds.SlabsIntendedExact` | core/boundingBox.go:110-129 | t lies in the reported interval exactly when it lies in the start range and in every remaining slab |
| `Bounds.SlabsAsWrittenEncloses` | core/boundingBox.go:110-129 | when the intended loop hits, the written one hits too, with an interval at least as large and the same exit |
| `Bounds.SlabRangeExact` | core/boundingBox.go:112-118 | t lies in a slab's range exactly when the ray's point at t lies between that slab's planes |
| `Bounds.SlabRangesContain` | core/boundingBox.go:107-130 | t lies in all three ranges exactly when the box contains the ray's point at t |
| `Bounds.Bounds3.IntersectPIntended` | core/boundingBox.go:107-130 | the corrected loop, proved equal to SlabsIntended, with the same bounds on a hit and zeros on a miss |
| `Bounds.IntersectPIntendedExact` | core/boundingBox.go:107-130 | the corrected test reports exactly the t in [0, tMax] whose point the box contains |
| `Bounds.IntersectPNeverMisses` | core/boundingBox.go:107-130 | the as-written test never misses a real hit |
| `Bounds.IntersectPFalseHit` | core/boundingBox.go:119-121 | a ray that never enters the box gets a hit from the written test and none from the corrected one |
| `Bounds.NewEmptyBounds3` | core/boundingBox.go:132-140 | the empty box is invalid and contains no point |
| `Bounds.EmptyUnionIsSingle` | core/boundingBox.go:132-158 | adding a point with coordinates in the int32 range to the empty box gives the single-point box |
| `Bounds.EmptyUnionOutOfRange` | core/boundingBox.go:132-158 | for a coordinate beyond the int32 range the empty box's sentinels leak into the union |
| `Bounds.NewSinglePBounds3` | core/boundingBox.go:142-144 | valid, and contains exactly the given point |
| `Bounds.NewBounds3` | core/boundingBox.go:146-151 | the least valid box containing both points |
| `Bounds.NewBounds3Laws` | core/boundingBox.go:146-151 | symmetric in its points, equal to the single-point box for equal points, and equal to (p0, p1) when p0 <= p1 |
| `Bounds.UnionB3P` | core/boundingBox.go:154-158 | the least valid box containing b and p |
| `Bounds.UnionB3B3` | core/boundingBox.go:161-165 | the least box containing both boxes |
| `Bounds.UnionB3Laws` | core/boundingBox.go:154-165 | UnionB3B3 is commutative, idempotent and associative, and UnionB3P is a union with the single-point box |
| `Bounds.OverlapsB3` | core/boundingBox.go:167-172 | true when the boxes share a point; when true of valid boxes, the max of the two pMin is in both |
| `Bounds.OverlapsB3Laws` | core/boundingBox.go:167-172 | symmetric, and a box overlaps itself exactly when it is valid |
| `Bounds.ExpandB3` | core/boundingBox.go:175-178 | t >= 0 grows the box and t <= 0 shrinks it; the diagonal changes by 2t per axis |
| `Bounds.ExpandB3Zero` | core/boundingBox.go:175-178 | expanding by 0 changes nothing |
| `Bounds.ExpandB3Compose` | core/boundingBox.go:175-178 | expanding by s and then t is expanding by s + t |
| `Bounds.Bounds2.Corner` | core/boundingBox.go:185-200 | each coordinate is pMin's or pMax's, and a valid box contains every corner |
| `Bounds.Corner2Laws` | core/boundingBox.go:185-200 | only the low two bits matter; corner 0 is pMin and corner 3 is pMax |
| `Bounds.Corner2Bits` | core/boundingBox.go:185-200 | for a proper rectangle, corner i is on the pMax side of axis k exactly when bit k of i is set |
| `Bounds.Corners2Distinct` | core/boundingBox.go:185-200 | for a proper rectangle, corners i and j coincide exactly when i and j agree modulo 4 |
| `Bounds.Bounds2.Diagonal` | core/boundingBox.go:207-209 | pMin plus the diagonal is pMax; the diagonal is nonnegative exactly for a valid box |
| `Bounds.Bounds2.SurfaceArea` | core/boundingBox.go:211-214 | nonnegative for a valid box, and zero when it is flat |
| `Bounds.Bounds2.MaxExtent` | core/boundingBox.go:217-224 | 0 exactly when x strictly exceeds y, otherwise 1 |
| `Bounds.Bounds2.Lerp` | core/boundingBox.go:227-231 | t = 0 gives pMin, t = 1 gives pMax, and the result is contained for t in the unit square |
| `Bounds.Bounds2.Offset` | core/boundingBox.go:234-243 | the inverse of Lerp on axes of positive extent, the raw difference elsewhere |
| `Bounds.Bounds2.BoundingCircle` | core/boundingBox.go:245-252 | the centre is the midpoint, inside exactly for a valid box; the radius is the distance to pMax, or 0 |
| `Bounds.NewEmptyBounds2` | core/boundingBox.go:254-262 | the empty box is invalid and contains no point |
| `Bounds.EmptyUnion2IsSingle` | core/boundingBox.go:254-280 | adding an int32-range point to the empty box gives the single-point box |
| `Bounds.NewSinglePBounds2` | core/boundingBox.go:264-266 | valid, and contains exactly the given point |
| `Bounds.NewBounds2` | core/boundingBox.go:268-273 | the least valid box containing both points |
| `Bounds.UnionB2P` | core/boundingBox.go:276-280 | the least valid box containing b and p |
| `Bounds.UnionB2B2` | core/boundingBox.go:283-287 | the least box containing both boxes |
| `Bounds.UnionB2Laws` | core/boundingBox.go:276-287 | commutative and idempotent; UnionB2P is a union with the single-point box |
| `Bounds.OverlapsB2` | core/boundingBox.go:289-293 | true when the boxes share a point; when true of valid boxes, the max of the two pMin is in both |
| `Bounds.OverlapsB2Laws` | core/boundingBox.go:289-293 | symmetric, and a box overlaps itself exactly when it is valid |
| `Bounds.ExpandB2` | core/boundingBox.go:296-299 | t >= 0 grows the box and t <= 0 shrinks it; the diagonal changes by 2t per axis |
| `Bounds.ExpandB2Zero` | core/boundingBox.go:296-299 | expanding by 0 changes nothing |
| `Bounds.ExpandB2Compose` | core/boundingBox.go:296-299 | expanding by s and then t is expanding by s + t |
| `Transforms.Transform.ApplyP` | core/transform.go:14-24 | the result times the weight w is the affine image; w = 1 skips the divide |
| `Transforms.Transform.ApplyPE` | core/transform.go:26-56 | the point is ApplyP's (the origin when w = 0) and the error bound is nonnegative on every axis |
| `Transforms.Transform.ErrorBound` | core/transform.go:38-45 | gamma(3) times the sums of absolute partial products: nonnegative on every axis |
| `Transforms.Transform.ApplyR` | core/transform.go:85-90 | origin and direction are carried and the time and medium kept, but tMax is set to 0 |
| `Transforms.Transform.ApplyRIntended` | core/transform.go:85-90 | as ApplyR, but keeping the ray's tMax |
| `Transforms.ApplyRIntendedPoints` | core/transform.go:85-90 | for an affine transform, the point at s on the carried ray is the image of the point at s on the original ray |
| `Transforms.ApplyVLinear` | core/transform.go:59-64 | ApplyV is linear |
| `Transforms.ApplyNPreservesDot` | core/transform.go:78-83 | when mInv inverts m's 3x3 block, transformed normals keep their dot product with transformed vectors, so orthogonality is preserved |
| `Transforms.Transform.CornerImages` | core/transform.go:92-102 | the eight corner images, in the order ApplyB visits them |
| `Transforms.Transform.ApplyB` | core/transform.go:92-102 | the written chain of unions, started from a box with pMax at the origin; it contains images 1..7, and its pMax is at or above the origin |
| `Transforms.Transform.ApplyBIntended` | core/transform.go:92-102 | the union started from the first image: the least valid box containing all eight corner images |
| `Transforms.ApplyBIntendedEncloses` | core/transform.go:92-102 | for an affine transform, the corrected box holds the image of every point of the original box |
| `Transforms.ApplyBMissesFirstCorner` | core/transform.go:93 | for a reflection of the unit cube, the written ApplyB leaves out the first corner's image |
| `Transforms.FlipXCornerImages` | core/transform.go:92-102 | the eight corner images of the unit cube under that reflection |
| `Transforms.UnionAllBounds` | core/transform.go:93-100 | a chain of UnionB3P contains its start box and every point added, and is valid once a point was added |
| `Transforms.UnionAllLeast` | core/transform.go:93-100 | any box containing the start box and the points contains the chain's result |
| `Transforms.UnionAllSeven` | core/transform.go:93-100 | the recursive chain is the source's seven nested UnionB3P calls |
| `Transforms.Transform.Inverse` | core/transform.go:104-106 | swaps m and mInv |
| `Transforms.InverseTransposeLaws` | core/transform.go:104-110 | Inverse and Transpose are involutions and commute; IsEqualTransform is equality; NewTransformWithInv's inverse swaps its arguments |
| `Transforms.HasScaleColumns` | core/transform.go:118-127 | HasScale tests the squared lengths of the three columns of m's 3x3 block against [0.999, 1.001] |
| `Transforms.NewTransform` | core/transform.go:130-133 | the identity transform |
| `Transforms.IdentityActsTrivially` | core/transform.go:130-133 | the identity fixes points, vectors and normals, and is its own inverse |
| `Transforms.IdentityTranslateNoScale` | core/transform.go:118-169 | neither the identity nor a translation has scale |
| `Transforms.NewTransformFromMat` | core/transform.go:136-144 | stores the matrix; the inverse is the computed one when that succeeds, and the identity otherwise |
| `Transforms.TranslateLaws` | core/transform.go:159-169 | moves points by delta, fixes vectors and normals, and its inverse is the translation by -delta |
| `Transforms.TranslateRoundTrip` | core/transform.go:159-169 | the inverse translation maps a translated point back |
| `Transforms.TranslateInverseUpper3` | core/transform.go:159-169 | the stored inverse of a translation inverts its 3x3 block |
| `Transforms.ScaleLaws` | core/transform.go:171-181 | scales points and vectors per axis, and the stored inverse maps them back |
| `Transforms.ScaleInverseUpper3` | core/transform.go:171-181 | the stored inverse of a scale inverts its 3x3 block |
| `Transforms.ScaleHasScale` | core/transform.go:171-181 | a scale has scale exactly when some squared factor is outside [0.999, 1.001] |
| `Transforms.ScaleHasScaleExamples` | core/transform.go:118-181 | Scale(2,1,1) has scale and Scale(1,1,1) does not |
| `Interactions.NewInteraction` | core/interaction.go:19-21 | stores its arguments, and the result is a surface interaction exactly when n is nonzero (IsSurfaceInteraction, lines 15-17) |
| `Interactions.NewSurfaceInteraction` | core/interaction.go:35-50 | the geometric and shading normals are both the unflipped geometric normal, the medium is nil, and the other arguments are stored |
| `Interactions.OrientationTestIsOr` | core/interaction.go:45-46 | the written orientation test holds exactly when at least one flag is set |
| `Interactions.OrientationTestDiffers` | core/interaction.go:45-46 | the written test and the exclusive-or differ exactly when both flags are set |
| `Interactions.OrientationIgnored` | core/interaction.go:45-49 | the result does not depend on the orientation flags: it is the nil-shape result with the shape stored |
| `Interactions.FlipLost` | core/interaction.go:45-48 | whenever the exclusive-or calls for a flip of a nonzero normal, the written result's normal differs from the intended one |
| `Interactions.Oriented` | core/interaction.go:47 | multiplying by -1 when the flip applies gives the normal's inverse |
| `Interactions.NewSurfaceInteractionIntended` | core/interaction.go:35-50 | keeps the medium and flips both normals exactly when one of the two flags is set |
| `ShapeRecords.NewShapeData` | core/shape.go:30-34 | stores its arguments, and computes the handedness flag from objToWorld |
| `ShapeRecords.NewShapeDataHandedness` | core/shape.go:30-34 | the handedness flag depends only on the object-to-world transform |
| `Spheres.Sphere.ObjectBound` | core/shape.go:53-56 | a valid box, equal to (-r, -r, zMin) to (r, r, zMax) when r >= 0 and zMin <= zMax |
| `Spheres.ObjectBoundHoldsSurface` | core/shape.go:53-56 | the box contains every point of the sphere's surface between zMin and zMax |
| `Spheres.Sphere.Area` | core/shape.go:161-163 | zero when zMin = zMax, and nonnegative for nonnegative phiMax and radius with zMin <= zMax |
| `Spheres.CoefficientsMeetSphere` | core/shape.go:69-71 | a*t^2 + b*t + c is the squared distance of the ray's point at t from the centre, minus r^2, so a root is a hit |
| `Spheres.SelectRoot` | core/shape.go:76-86 | a miss exactly on a failed solve, t0 > tMax, t1 <= 0, or t0 <= 0 with t1 >= tMax; otherwise t0 if positive, else t1, in (0, tMax] |
| `Spheres.PosAndPhi` | core/shape.go:89-102 | the ray's point at t, nudged to z = 1e-5 r on the axis, and phi = atan2(y, x) unwrapped |
| `Spheres.Sphere.HitTime` | core/shape.go:76-120 | no hit when root selection finds no root; the selected root when it passes the clip test; otherwise a hit exactly when t1 is a different root, no later than tMax and not clipped, and then at t1; every hit time is t0 or t1 in (0, tMax] and unclipped |
| `Spheres.Sphere.IntersectObject` | core/shape.go:69-157 | the method with its early returns and retry reports exactly HitTime, builds the interaction at that time, and returns (false, 0, zero) on a miss |
| `Spheres.Sphere.Intersect` | core/shape.go:57-157 | as written, with the ray carried by ApplyR: never a hit |
| `Spheres.Sphere.WorldHit` | core/shape.go:57-120 | for the world ray carried by ApplyRIntended: the same three cases of root selection, clip test and retry at t1, against the world ray's tMax; every hit lies in (0, tMax] |
| `Spheres.Sphere.IntersectIntended` | core/shape.go:57-157 | Intersect with the ray carried by ApplyRIntended: a hit exactly when WorldHit is one, at that time in (0, r.tMax], else (false, 0, zero) |
| `Spheres.Sphere.IntersectP` | core/shape.go:158-160 | as written: the boolean of Intersect (intersectP, lines 18-21), which is always false |
| `Spheres.Sphere.IntersectPIntended` | core/shape.go:18-21 | the boolean of IntersectIntended: true exactly when WorldHit finds a hit |
| `Spheres.NewSphere` | core/shape.go:41-51 | as written: both zMin and zMax are Clamp(max(zMin, zMax)), thetaMin uses acos of zMin and thetaMax uses asin of zMax |
| `Spheres.NewSphereFlat` | core/shape.go:41-51 | every sphere the written constructor builds has zMin = zMax and area 0 |
| `Spheres.NewSphereIntended` | core/shape.go:41-51 | zMin from the smaller height, zMax from the larger, both polar limits through acos |
| `Spheres.NewSphereIntendedOrdered` | core/shape.go:41-51 | with a monotone clamp, zMin <= zMax and the area is nonnegative, and positive when phiMax > 0 and the heights differ |
| `Spheres.WorldBound` | core/shape.go:14-16 | as written, the object bound through ApplyB: the union of corner images 1..7 with the box from image 0 to the origin, so it holds images 1..7 and its pMax is at or above the origin |
| `Spheres.WorldBoundIntended` | core/shape.go:14-16 | the object bound through the corrected ApplyB: valid, and for an affine transform it holds the image of every point of the object bound |
| `Primitives.NewGeometricPrimitive` | core/primitive.go:19-21 | the shape is stored |
| `Primitives.HandlesKept` | core/primitive.go:19-43 | GetMaterial and GetAreaLight return the handles the primitive was built with |
| `Primitives.GeometricPrimitive.GetAreaLight` | core/primitive.go:38-40 | returns the stored area light |
| `Primitives.GeometricPrimitive.GetMaterial` | core/primitive.go:41-43 | returns the stored material |
| `Primitives.GeometricPrimitive.WorldBound` | core/primitive.go:23-25 | the shape's object bound with no transform: the box (-r, -r, zMin) to (r, r, zMax) |
| `Primitives.WorldBoundIsShapes` | core/primitive.go:23-25 | a primitive's bound is its shape's ObjectBound |
| `Primitives.GeometricPrimitive.Intersect` | core/primitive.go:27-36 | as written, through the sphere's Intersect: always (false, zero interaction) |
| `Primitives.GeometricPrimitive.IntersectIntended` | core/primitive.go:27-36 | through the sphere's IntersectIntended: a hit exactly when WorldHit finds one, with the interaction at that time; a miss gives (false, zero interaction); the caller's ray is not changed |
| `Spectra.CoefficientSpectrum.Add` | core/spectrum.go:20-26 | the receiver's own coefficients become Sum of the old ones and c2's, also when c2 shares them; the result is the receiver |
| `Spectra.CoefficientSpectrum.Subtract` | core/spectrum.go:28-34 | the receiver's coefficients become Difference of the old ones and c2's, in place; the result is the receiver |
| `Spectra.CoefficientSpectrum.MultiplyCS` | core/spectrum.go:36-42 | the receiver's coefficients become Product of the old ones and c2's, in place; the result is the receiver |
| `Spectra.CoefficientSpectrum.MultiplyF` | core/spectrum.go:44-50 | the receiver's coefficients become Scaled by f, in place; the result is the receiver |
| `Spectra.CoefficientSpectrum.Divide` | core/spectrum.go:52-58 | the receiver's coefficients become Quotient of the old ones and c2's, in place; the result is the receiver |
| `Spectra.CoefficientSpectrum.Equal` | core/spectrum.go:60-67 | true exactly when the first nSpectrumSamples coefficients agree |
| `Spectra.CoefficientSpectrum.Negate` | core/spectrum.go:69-75 | ignores c2 and scales the receiver's own coefficients by -1; the result is the receiver |
| `Spectra.CoefficientSpectrum.IsBlack` | core/spectrum.go:101-108 | true exactly when the first nSpectrumSamples coefficients are all zero |
| `Spectra.TailUnchanged` | core/spectrum.go:20-58 | the element-wise operations leave coefficients from nSpectrumSamples on unchanged |
| `Spectra.DifferenceUndoesSum` | core/spectrum.go:20-34 | Subtract undoes Add |
| `Spectra.QuotientUndoesProduct` | core/spectrum.go:36-58 | Divide undoes MultiplyCS when the divisors are nonzero |
| `Spectra.SumSelfDoubles` | core/spectrum.go:20-26 | adding a spectrum to itself doubles it |
| `Spectra.DifferenceSelfBlack` | core/spectrum.go:28-34 | subtracting a spectrum from itself makes it black |
| `Spectra.ScaledOne` | core/spectrum.go:44-50 | MultiplyF(1) leaves the coefficients unchanged |
| `Spectra.ScaledZeroBlack` | core/spectrum.go:44-50 | after MultiplyF(0), IsBlack holds |
| `Spectra.ScaledTwice` | core/spectrum.go:44-50 | two MultiplyF calls are one call with the product of the factors |
| `Spectra.NegateTwice` | core/spectrum.go:69-75 | negating twice restores the coefficients |
| `Spectra.SameUpToPrefix` | core/spectrum.go:60-67 | Equal is reflexive and looks only at the first nSpectrumSamples coefficients |
| `Spectra.LerpSPD` | core/spectrum.go:110-112 | c1 scaled by 1-t, then c2 scaled by t, then added into c1's array, which the result shares; with separate arrays c2 keeps its scaled copy, with one shared array it is scaled twice and added to itself |
| `Spectra.LerpSPDSeparate` | core/spectrum.go:110-112 | with separate arrays, each leading coefficient of the result is the lerp of the inputs' coefficients |
| `Spectra.LerpSPDAliased` | core/spectrum.go:110-112 | with one shared array, each leading coefficient becomes 2t(1-t) times its old value |
| `Spectra.NewCoefficientSpectrum` | core/spectrum.go:12-18 | as written: succeeds exactly when nSpectrumSamples <= 0, and then holds no coefficients |
| `Spectra.NewCoefficientSpectrumIntended` | core/spectrum.go:12-18 | a fresh array of nSpectrumSamples coefficients, every one equal to v |

## Left out

- RotateX, RotateY, RotateZ, RotateFromAxis and LookAt (core/transform.go:183-265, math/transform.go:98-126): they need trigonometry, normalisation and a general matrix inverse. RotateX computes its cosine with Sin (core/transform.go:185); this is not modelled.
- The sphere's parametric and differential-geometry block (core/shape.go:122-153), with acos, sqrt and the Weingarten solve, is the parameter `surface`.
- Quadratic, Clamp, atan2, acos, asin, sqrt, Normalize, Matrix4x4f (its inverse and the identity test) and SwapsHandedness are not part of this model. They are parameters, or an explicit 16-field record for the matrix.
- Sqrt, Pow and Exp on spectra (core/spectrum.go:77-99) need math.Sqrt and math.Pow, which have no counterpart over `real`, and are not modelled.
- HasNaN, NewEmptyRay's +Inf tMax, NaN and infinity results in general, and the diagnostic print at core/transform.go:47 have no counterpart over `real`.
- Rounding is not modelled: Gamma and ApplyPE's error vector are stated as the source computes them, not as bounds on rounding error.
- Transforms.Transform.ApplyP: requires a nonzero weight w, where the source would divide by zero.
- Bounds.Bounds3.IntersectP: requires nonzero direction components, where the source relies on infinite reciprocals.
- Helpers.Gamma: requires n*eps != 1.
- Transforms.Scale: requires nonzero factors.
- Vectors.MakeCoordSystem: requires a nonzero normalising length.
- Spheres.NewSphere: requires a nonzero radius, for the divisions zMin/radius and zMax/radius.
- Spectra.CoefficientSpectrum.Divide: requires nonzero divisors.
- Panics are modelled as preconditions: the spectrum operations require both arrays to hold nSpectrumSamples coefficients, and ScaleRayDifferentials requires the main ray to be set.
- The `si.primitive = self` assignment at core/primitive.go:33 names a field that SurfaceInteraction (core/interaction.go:23-33) does not have, so it is left out.
- The primitive's and the sphere's shape are held by value. The transforms inside ShapeData are values, not shared pointers, so aliasing between shapes that share a transform is not captured.
- Rays.RayDifferential: the main ray is a Go `*Ray`; the model holds it as an `Option<Ray>` value, so aliasing between the differential's main ray and the caller's ray is not captured. No modelled operation writes through that pointer.
- The Go interfaces (Primitive, ShapeInter) are not modelled as abstractions: the sphere is the only shape.
- The medium interface, the material and the area light are handles that are never looked into.
- Spheres.Sphere.ObjectBound: the box is stated exactly only for radius >= 0 and zMin <= zMax; otherwise NewBounds3 reorders the corners, and only validity is stated.
- Spheres.NewSphereIntendedOrdered: assumes a clamp that keeps order, since Clamp is not part of this model.

## Findings

| source | as written | input that shows it | evidently intended | confidence | as-written member | corrected member |
|---|---|---|---|---|---|---|
| core/boundingBox.go:119-121 | `t0 = tNear` whenever tNear > 0, so a later slab can move the entry point back before an earlier slab's entry | box (5,2,-1)-(6,4,10) and the ray from the origin along (1,1,1) with tMax 100: the result is (true, 2, 4), yet no point of the ray lies in the box | t0 = max(t0, tNear), as in pbrt | high, not executed | `Bounds.IntersectPFalseHit` | `Bounds.IntersectPIntendedExact` |
| core/transform.go:93 | the union starts from Bounds3{pMin: first image}, whose pMax is the zero point | the reflection x' = 1-x-y-z of the unit cube: the first image (1,0,0) is not in the result | start from the single-point box of the first image | high, not executed | `Transforms.ApplyBMissesFirstCorner` | `Transforms.ApplyBIntendedEncloses` |
| core/transform.go:88 | ApplyR gives the carried ray tMax 0 | any ray against any sphere: root selection rejects t0 > 0 = tMax, and t1 >= tMax, so Sphere.Intersect never reports a hit | keep r.tMax | high, not executed | `Spheres.Sphere.Intersect` | `Transforms.ApplyRIntendedPoints` |
| core/shape.go:46-49 | zMin and zMax both come from Clamp(max(zMin, zMax)), and thetaMax uses asin | radius 1, zMin -1, zMax 1: zMin = zMax = 1, so the area is 0 instead of 4pi | zMin from min, zMax from max, thetaMax from acos | high, not executed | `Spheres.NewSphereFlat` | `Spheres.NewSphereIntendedOrdered` |
| core/interaction.go:37-48 | the normal is flipped after the interaction and shading frame were built from it, so the flip is lost; the test is an or, not an exclusive-or; the medium argument is dropped for nil | a shape with ReverseOrientation set and a nonzero geometric normal: the returned normal is not flipped | flip both normals when exactly one flag is set, and keep the medium | high, not executed | `Interactions.FlipLost` | `Interactions.NewSurfaceInteractionIntended` |
| core/spectrum.go:13-15 | the coefficient slice is nil and the fill loop stores into it | NewCoefficientSpectrum(3, 0.5): index out of range at c[0] | allocate nSpectrumSamples coefficients, then fill them | high, not executed | `Spectra.NewCoefficientSpectrum` | `Spectra.NewCoefficientSpectrumIntended` |
