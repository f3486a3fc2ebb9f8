# Projective 2-D geometry kernel of WinFormTTR

This project models the geometry kernel of WinFormTTR in Dafny and proves properties of it. The kernel works in homogeneous coordinates: a point is a triple `(U, V, W)` and a line is a triple `(A, B, C)`. The point lies on the line exactly when the incidence value `A·U + B·V + C·W` is zero. The project covers:

- `JA.Numerics.Geometry.Point2` and `Line2`: join, meet, closest points, distances, offsets, rotations, reflections and the algebra of triples (modules `Homogeneous`, `Points`, `Lines`).
- `Geometry`: polar conversion and the `TanTanRadius` corner construction with its `CornerSolution` sign table (module `Geometry`).
- `Circle2`: construction, closest points, distances and circle–circle intersection (module `Circles`).
- `Ellipse2`: conic coefficients, points of the ellipse, the two iterative closest-point searches, and the closed-form line–ellipse solution (module `Ellipses`).
- `NumericalMethods`: the fixed-point iteration `GaussPointIteration` and the bracketing root finder `BisectionRoot` (module `NumericalMethods`).
- The older `JA.Point2` and `JA.Line2`, with `LineSegment2` (modules `LegacyPoints`, `LegacyLines`).

Modelling choices:

- Every `float` is a mathematical `real`.
- `System.Numerics.Vector2` is the record `Vectors.Vector2`.
- `Math.Sqrt`, `Sin`, `Cos`, `Atan`, `Atan2` and `PI` are fields of a `RealMath.MathLib` record. Every operation that uses them takes the record as a parameter. `RealMath.Lawful` states the only laws the proofs rely on:
  - the square root of a non-negative number is non-negative and squares back;
  - `sin² + cos² = 1`;
  - the values at 0, π/2 and π;
  - `Atan2` recovers the bearing of a vector.
- Exceptions become the `Failure` case of `Outcomes.Result`.
- Each loop of `NumericalMethods` is a `method` with the loop of the source. Each is proved equal to a recursive reference function, and the properties are stated on that function.
- Where the source is evidently wrong, the model keeps the code as written under an `AsWritten` name (or `BySolution` for the ellipse closed form). The corrected definition sits next to it. Both are listed under "## Findings".

## Model

| member | source | states |
|---|---|---|
| Homogeneous.WeightLaw | Numerics/Geometry/Line2.cs:62-64 | `Weight` is the non-negative number whose square is `WeightSqr = A² + B²` |
| Homogeneous.WeightSqrPositive | Numerics/Geometry/Line2.cs:58-62 | a line with a non-zero normal has a positive squared weight, so `IsFinite` holds of it |
| Points.FromVector | Numerics/Geometry/Point2.cs:21-24 | the point built from a vector (or from two coordinates) is finite and located at that vector |
| Points.Weighted | Numerics/Geometry/Point2.cs:16 | the triple of a vector and a weight, which defaults to 1, has that weight; scaled back by the weight its location is the vector; with the default weight it is `FromVector` |
| Points.Meet | Numerics/Geometry/Point2.cs:25-29 | the meet of two lines lies on both lines |
| Points.MeetAntiCommutes | Numerics/Geometry/Point2.cs:25-29 | meeting in the other order gives the negated triple |
| Points.ParallelLinesMeetAtInfinity | Numerics/Geometry/Point2.cs:25-29 | lines with proportional normals meet in a point with `W = 0`, which is not finite |
| Points.IsEmptyAsWrittenMisclassifies | Numerics/Geometry/Point2.cs:46 | the emptiness test as written rejects `Empty = (0, 0, 0)` and accepts the ordinary point `(1, 1, 1)` |
| Points.IsEmptyExactlyEmpty | Numerics/Geometry/Point2.cs:31-46 | the intended emptiness test holds of `Empty` and of no other triple |
| Points.AsVector | Numerics/Geometry/Point2.cs:52 | the location of a finite point, multiplied by its weight, gives back `U` and `V` |
| Points.Normalized | Numerics/Geometry/Point2.cs:54 | normalizing gives weight 1 and keeps the location |
| Points.CoincidentIffProportional | Numerics/Geometry/Point2.cs:59-60 | two finite points coincide exactly when their triples are proportional |
| Points.CoincidentWithinReflexive | Numerics/Geometry/Point2.cs:61-66 | a finite point is within every non-negative tolerance of itself |
| Points.VectorTo | Numerics/Geometry/Point2.cs:68-69 | the location of `p` plus the result is the location of the target |
| Points.DistanceTo | Numerics/Geometry/Point2.cs:71-72 | the distance between finite points is never negative |
| Points.DistanceSquared | Numerics/Geometry/Point2.cs:71-72 | the distance squares to the squared length of the displacement between the locations |
| Points.DistanceSymmetric | Numerics/Geometry/Point2.cs:71-72 | distance does not depend on the order of the points |
| Points.DistanceToSelf | Numerics/Geometry/Point2.cs:71-72 | a point is at distance zero from itself |
| Points.DistanceToLine | Numerics/Geometry/Point2.cs:77 | the signed distance to a line, times the point's weight and the line's weight, is the incidence value |
| Points.ScaleKeepsLocation | Numerics/Geometry/Point2.cs:111-115 | scaling a finite point by a non-zero factor keeps its location |
| Points.AddVector | Numerics/Geometry/Point2.cs:127-131 | adding a vector keeps the weight and moves the location by the vector |
| Points.SubtractVector | Numerics/Geometry/Point2.cs:133-137 | subtracting a vector keeps the weight and moves the location back by the vector |
| Points.SubtractUndoesAdd | Numerics/Geometry/Point2.cs:127-137 | adding and then subtracting a vector restores the triple exactly |
| Points.VectorToMoved | Numerics/Geometry/Point2.cs:127-131 | the displacement from a finite point to the point moved by `v` is `v` |
| Points.Difference | Numerics/Geometry/Point2.cs:139-145 | the difference of two finite points is the difference of their locations |
| Points.DifferenceAntiSymmetric | Numerics/Geometry/Point2.cs:139-145 | swapping the points negates the difference |
| Lines.Join | Numerics/Geometry/Line2.cs:24-28 | the join of two points passes through both |
| Lines.JoinAntiCommutes | Numerics/Geometry/Line2.cs:24-28 | joining in the other order gives the negated triple |
| Lines.Ray | Numerics/Geometry/Line2.cs:19-20 | the ray passes through its origin and through the origin moved by the direction |
| Lines.ThroughPointAwayFromOrigin | Numerics/Geometry/Line2.cs:21-22 | the line passes through the point and its normal is parallel to the point's position |
| Lines.IsEmptyAsWrittenMisclassifies | Numerics/Geometry/Line2.cs:60 | the emptiness test as written rejects `Empty` and accepts the finite line `(1, 1, 1)` |
| Lines.IsEmptyExactlyEmpty | Numerics/Geometry/Line2.cs:30-60 | the intended emptiness test holds of `Empty` and of no other triple |
| Lines.CoincidentWithPositiveMultiple | Numerics/Geometry/Line2.cs:66-73 | a line is coincident with every positive multiple of itself |
| Lines.CoincidentIsPositiveMultiple | Numerics/Geometry/Line2.cs:66-73 | conversely, two coincident finite lines are positive multiples of each other |
| Lines.CoincidentAtInfinityWithFinite | Numerics/Geometry/Line2.cs:66-73 | a line with a zero normal is coincident with a finite line exactly when it is `Empty`, so `Empty` is coincident with every line |
| Lines.CoincidentAtInfinity | Numerics/Geometry/Line2.cs:66-73 | any two lines with a zero normal are coincident, whatever their `C` |
| Lines.GetCenter | Numerics/Geometry/Line2.cs:77 | the center lies on the line, with weight `A² + B²` |
| Lines.CenterIsClosestToOrigin | Numerics/Geometry/Line2.cs:77 | the center is the foot of the perpendicular from the origin |
| Lines.GetDirection | Numerics/Geometry/Line2.cs:78 | the direction is square to the normal and has unit length |
| Lines.Normalized | Numerics/Geometry/Line2.cs:80-84 | the normalized line times the weight is the line, and its normal has unit length |
| Lines.ParallelThrough | Numerics/Geometry/Line2.cs:87-88 | the line passes through `p`, with this line's normal scaled by `p.W` |
| Lines.LinePerpendicularThrough | Numerics/Geometry/Line2.cs:157-164 | the line passes through `p` and its normal is square to this line's normal |
| Lines.ClosestPointIsFoot | Numerics/Geometry/Line2.cs:90-94 | the closest point lies on the line and on the perpendicular through `p` |
| Lines.FootDisplacement | Numerics/Geometry/Line2.cs:90-94 | the displacement from the closest point to `p` is a multiple of the line's normal |
| Lines.VectorTo | Numerics/Geometry/Line2.cs:113-114 | the displacement from the line to `p` is the normal scaled by the incidence value over `WeightSqr · W` |
| Lines.DistanceTo | Numerics/Geometry/Line2.cs:98 | the distance to the line is never negative |
| Lines.DistanceIsAbsSignedDistance | Numerics/Geometry/Line2.cs:98-100 | the distance to the line is the absolute value of the signed distance |
| Lines.SignedDistanceTo | Numerics/Geometry/Line2.cs:100 | the signed distance times both weights is the incidence value; it is zero exactly on the line |
| Lines.Offset | Numerics/Geometry/Line2.cs:188-193 | the offset line keeps the normal, so it is parallel to the line |
| Lines.OffsetShiftsSignedDistance | Numerics/Geometry/Line2.cs:188-193 | offsetting by `d` keeps the weight and lowers the signed distance of every finite point by `d` |
| Lines.GetPoint | Numerics/Geometry/Line2.cs:107-111 | every `GetPoint(t)` lies on the line |
| Lines.GetPointIsGetPointAlong | Numerics/Geometry/Line2.cs:107-123 | `GetPoint` and `GetPointAlong` give the same point for the same parameter |
| Lines.GetPointAlong | Numerics/Geometry/Line2.cs:115-123 | every `GetPointAlong(d)` lies on the line, with weight `A² + B²` |
| Lines.ParallelDistanceAsWrittenMisplaces | Numerics/Geometry/Line2.cs:131-138 | on the line `2y = 0` the written parallel distance of `(2, 0)` is 1, and the point 1 along the line is `(1, 0)`, not `(2, 0)` |
| Lines.ParallelDistanceTo | Numerics/Geometry/Line2.cs:131-138 | the intended parallel distance times both weights is the coordinate `B·U - A·V` along the direction |
| Lines.GetPointFromAsWritten | Numerics/Geometry/Line2.cs:125-129 | the point the source computes from the written parallel distance lies on the line |
| Lines.GetPointFromAsWrittenMisplaces | Numerics/Geometry/Line2.cs:125-129 | stepping zero from `(2, 0)` on `2y = 0`, as written, lands on `(1, 0)` |
| Lines.GetPointFrom | Numerics/Geometry/Line2.cs:125-129 | the intended point `distance` further along lies on the line |
| Lines.GetPointFromZeroIsPoint | Numerics/Geometry/Line2.cs:125-138 | on the intended parallel distance, stepping zero from a finite point of the line returns the same location |
| Lines.ProjectedPoint | Numerics/Geometry/Line2.cs:167-178 | the projected point lies on the line, and is the foot of the perpendicular when the normal has unit length |
| Lines.IntersectWithLine | Numerics/Geometry/Line2.cs:180-187 | the intersection of two lines is their meet, so it lies on both |
| Lines.RotatedLineAtFulcrum | Numerics/Geometry/Line2.cs:195-207 | at every angle the fulcrum's incidence value with the rotated line is its incidence value with the line times the fulcrum's weight, so a finite fulcrum stays on the rotated line exactly when it was on the line |
| Lines.RotateByZero | Numerics/Geometry/Line2.cs:195-207 | rotating by zero gives the line scaled by the fulcrum's weight |
| Lines.MirrorTwice | Numerics/Geometry/Line2.cs:209-222 | reflecting twice in the same axis gives the line scaled by `(oa² + ob²)²` |
| Lines.MirrorKeepsAxis | Numerics/Geometry/Line2.cs:209-222 | the axis reflects onto itself, scaled by its squared weight |
| Geometry.ToPolar | Numerics/Geometry/Geometry.cs:17-22 | the polar radius is never negative |
| Geometry.ToPolarRadius | Numerics/Geometry/Geometry.cs:17-22 | the polar radius squares to the squared length of the vector |
| Geometry.PolarOfToPolar | Numerics/Geometry/Geometry.cs:17-24 | `Polar` of the polar form of a vector is the vector again |
| Geometry.PolarLength | Numerics/Geometry/Geometry.cs:23-24 | `Polar(r, θ)` has length `|r|` |
| Geometry.EllipticalAtZero | Numerics/Geometry/Geometry.cs:25-26 | `Elliptical(a, b, 0)` is `(a, 0)` |
| Geometry.EllipticalWithEqualRadii | Numerics/Geometry/Geometry.cs:23-26 | with equal radii `Elliptical` is `Polar` |
| Geometry.CornerSigns | Numerics/Geometry/Geometry.cs:35-53 | each sign is ±1; the signs agree exactly for the two outside corners; the first sign is +1 exactly for `Inside` and `Outside1` |
| Geometry.CornerSignsInjective | Numerics/Geometry/Geometry.cs:35-53 | different corners get different sign pairs |
| Geometry.CornerSignsPairUp | Numerics/Geometry/Geometry.cs:35-53 | `Opposing` negates both signs of `Inside`, and `Outside2` negates both signs of `Outside1` |
| Geometry.TanTanRadius | Numerics/Geometry/Geometry.cs:28-58 | the result lies on both offset edges, and it is finite exactly when the two edges are not parallel; the corner defaults to `Inside` |
| Geometry.TanTanRadiusDistances | Numerics/Geometry/Geometry.cs:55-58 | a finite result is at signed distance `s1·radius` from the first edge and `s2·radius` from the second |
| Circles.FromCenterAndPoint | Numerics/Geometry/Circle2.cs:30-34 | the circle keeps the given centre and has a non-negative radius |
| Circles.FromCenterAndPointPassesThrough | Numerics/Geometry/Circle2.cs:30-34 | the circle passes through the given point: its distance to it is zero |
| Circles.FromDiagonals | Numerics/Geometry/Circle2.cs:23-28 | the centre's weight is the sum of the two points' weights, and the radius is never negative |
| Circles.FromDiagonalsMidpoint | Numerics/Geometry/Circle2.cs:23-28 | for two points of equal non-zero weight the centre is the Cartesian midpoint and the circle passes through `other` |
| Circles.GetPointOnCircle | Numerics/Geometry/Circle2.cs:45-49 | every `GetPoint(t)` is at distance `Radius` from the centre |
| Circles.ClosestPointIsGetPoint | Numerics/Geometry/Circle2.cs:51-57 | the closest point is `GetPoint` at the bearing of the point from the centre |
| Circles.ClosestPointOnCircle | Numerics/Geometry/Circle2.cs:51-57 | the closest point is at distance `Radius` from the centre |
| Circles.ClosestPointOnRay | Numerics/Geometry/Circle2.cs:51-57 | the closest point lies on the ray from the centre through the point |
| Circles.ClosestPointToLineOnCircle | Numerics/Geometry/Circle2.cs:59-60 | the closest point to a line is a point of the circle |
| Circles.DistanceTo | Numerics/Geometry/Circle2.cs:62-63 | the distance to a point is never below `-Radius` |
| Circles.DistanceToCircle | Numerics/Geometry/Circle2.cs:64-65 | the gap between two circles is never below minus both radii |
| Circles.DistanceToCircleSymmetric | Numerics/Geometry/Circle2.cs:64-65 | the gap between two circles does not depend on their order |
| Circles.DistanceToLine | Numerics/Geometry/Circle2.cs:66-67 | the distance plus the radius, times both weights, is the incidence value of the centre |
| Circles.DistanceToLineIsSignedDistance | Numerics/Geometry/Circle2.cs:66-67 | the distance to a line is the line's signed distance of the centre less the radius |
| Circles.LineDistanceTo | Numerics/Geometry/Line2.cs:99 | the line's distance to a circle is never below `-Radius` |
| Circles.LineSignedDistanceTo | Numerics/Geometry/Line2.cs:101-105 | a circle clear of the line keeps its centre's side and is as far away as its nearest point; a centre on the line gives zero |
| Circles.Intersect | Numerics/Geometry/Circle2.cs:69-94 | it reports a meeting exactly when the circles are neither too far apart nor nested, and then gives one point or two different points, the first candidate first and the second candidate last; with no meeting the list is empty |
| Circles.Candidates | Numerics/Geometry/Circle2.cs:77-85 | both candidates are finite points |
| Circles.CandidatesOnBothCircles | Numerics/Geometry/Circle2.cs:77-85 | for centres a non-zero distance apart, each candidate is at distance `Radius` from one centre and `other.Radius` from the other |
| Circles.IntersectionsOnBothCircles | Numerics/Geometry/Circle2.cs:69-94 | for centres a non-zero distance apart and circles that are not apart, every reported point lies on both circles |
| Circles.RadiiNonNegative | Numerics/Geometry/Circle2.cs:71-76 | circles that pass the early exit have non-negative radii |
| NumericalMethods.GaussFrom | Numerics/NumericalMethods.cs:19-34 | the iteration applies `f` at least once and at most 512 times; it reports convergence exactly when it stopped before 512 steps; then the last step moved by at most `tol`, and every earlier step moved by more |
| NumericalMethods.GaussPointIteration | Numerics/NumericalMethods.cs:19-34 | the loop returns the flag and value of the reference iteration `GaussFrom` |
| NumericalMethods.GaussAtFixedPoint | Numerics/NumericalMethods.cs:24-33 | started at a fixed point, it converges on the first step and returns that point |
| NumericalMethods.GaussReportsFailureOnLastStep | Numerics/NumericalMethods.cs:31-33 | a run whose 512th step is the first to settle is reported as not converged, though that step moved by zero |
| NumericalMethods.Expand | Numerics/NumericalMethods.cs:56 | each expansion keeps the midpoint and doubles the width |
| NumericalMethods.ExpandedShape | Numerics/NumericalMethods.cs:53-58 | after `n` expansions the midpoint is unchanged and the width is `2ⁿ` times the original |
| NumericalMethods.NeverChangesMeansAllSameSign | Numerics/NumericalMethods.cs:53-61 | the loop's "no sign change" condition holds exactly when every one of the first `n + 1` brackets shows no sign change |
| NumericalMethods.ExpandFrom | Numerics/NumericalMethods.cs:51-61 | the expansion throws `ArgumentException` exactly when no bracket within the budget shows a sign change; otherwise its bracket shows one and keeps the midpoint |
| NumericalMethods.ExpandFromReached | Numerics/NumericalMethods.cs:51-61 | the bracket handed to bisection is the start expanded at most `MaxIterations` times |
| NumericalMethods.ExpandBracket | Numerics/NumericalMethods.cs:51-61 | the expansion loop computes `ExpandFrom` |
| NumericalMethods.Narrow | Numerics/NumericalMethods.cs:75-86 | a step halves the width, keeps a half whose ends change sign and that has the midpoint as an end, and throws `InvalidOperationException` exactly when neither half changes sign |
| NumericalMethods.BisectFrom | Numerics/NumericalMethods.cs:63-90 | a midpoint within `tol` of a root is returned at once; failures are `InvalidOperationException`; a point returned with `false` is not a root within `tol` |
| NumericalMethods.BisectFromBrackets | Numerics/NumericalMethods.cs:63-90 | a point returned with `true` is within `tol` of zero or an end of a sign-changing bracket no wider than `2·tol` |
| NumericalMethods.ExhaustedStep | Numerics/NumericalMethods.cs:65-88 | running `n + 1` steps from a bracket is passing the first step and running the other `n` from the narrowed bracket |
| NumericalMethods.BisectFromExhausted | Numerics/NumericalMethods.cs:63-90 | the loop returns `false` exactly when every remaining step misses a root at its midpoint, finds a sign-changing half, and leaves the bracket wider than `2·tol` |
| NumericalMethods.BisectBracket | Numerics/NumericalMethods.cs:63-90 | the bisection loop computes `BisectFrom` |
| NumericalMethods.Bisection | Numerics/NumericalMethods.cs:35-90 | an end within `tol` of a root is returned first (`x_low` before `x_high`); a point returned with `false` is not a root within `tol` |
| NumericalMethods.BisectionReportsRoot | Numerics/NumericalMethods.cs:35-90 | a point reported with `true` is within `tol` of zero or an end of a sign-changing bracket no wider than `2·tol` |
| NumericalMethods.BisectionNotFound | Numerics/NumericalMethods.cs:88-90 | `BisectionRoot` returns `false` exactly when neither end is a root, the expansion succeeds, and all 512 bisection steps run without settling |
| NumericalMethods.BisectionRoot | Numerics/NumericalMethods.cs:35-91 | the method computes the reference outcome `Bisection` |
| NumericalMethods.BisectionThrowsArgumentException | Numerics/NumericalMethods.cs:51-61 | it throws `ArgumentException` exactly when neither end is a root and none of the first 513 brackets of the expansion shows a sign change |
| NumericalMethods.BisectionWithoutExpansion | Numerics/NumericalMethods.cs:51-63 | a starting bracket that already changes sign is bisected without expansion |
| Ellipses.DeconstructUnfold | Numerics/Geometry/Ellipse2.cs:41-51 | the coefficients are `1/a²`, `0`, `1/b²`, `-cx/a²`, `-cy/b²` and `cx²/a² + cy²/b²` |
| Ellipses.GetCoefficients | Numerics/Geometry/Ellipse2.cs:30-40 | the matrix is 3×3 and symmetric, with the entries of `Deconstruct` |
| Ellipses.GetPoint | Numerics/Geometry/Ellipse2.cs:53-57 | `GetPoint(t)` has the centre's weight and lies at the centre moved by `Elliptical(a, b, t)` |
| Ellipses.GetPointOnConic | Numerics/Geometry/Ellipse2.cs:41-57 | with the centre's weight 1, the conic as written takes the value 1, not 0, at every point of the ellipse |
| Ellipses.GetPointAtZero | Numerics/Geometry/Ellipse2.cs:53-57 | `GetPoint(0)` is the centre moved by `(a, 0)` |
| Ellipses.GetPointAtQuarters | Numerics/Geometry/Ellipse2.cs:53-57 | `GetPoint(π)`, `GetPoint(π/2)` and `GetPoint(-π/2)` are the other three vertices |
| Ellipses.GetClosestPoint | Numerics/Geometry/Ellipse2.cs:61-93 | the closest point to a point has the centre's weight |
| Ellipses.ClosestPointsOnConic | Numerics/Geometry/Ellipse2.cs:61-150 | the closest points to a point and to a line give the conic as written the value 1, as every point of the ellipse does |
| Ellipses.ClosestPointOfCircularEllipse | Numerics/Geometry/Ellipse2.cs:65-87 | with radii of equal magnitude, the closest point to every point is the vertex `GetPoint(0)`, the centre moved by `(a, 0)` |
| Ellipses.ClosestPointOnMinorAxisLine | Numerics/Geometry/Ellipse2.cs:88-91 | a point straight above or below the centre gets the minor vertex on the side given by the sign of its coefficient, or the major vertex when that sign is 0 |
| Ellipses.PointIterationFixesZero | Numerics/Geometry/Ellipse2.cs:72-77 | for a point level with the centre the iteration fixes 0 and converges after one step |
| Ellipses.PointParameterOnMajorAxisLine | Numerics/Geometry/Ellipse2.cs:77-86 | for a point level with the centre the parameter is 0 on the right and π on the left; it is 0 when the major radius is 0 |
| Ellipses.ClosestPointOnMajorAxisLine | Numerics/Geometry/Ellipse2.cs:61-92 | a point level with the centre gets the major vertex on its own side |
| Ellipses.GetClosestPointToCircle | Numerics/Geometry/Ellipse2.cs:58-59 | the closest point to a circle has the centre's weight |
| Ellipses.GetClosestPointToLine | Numerics/Geometry/Ellipse2.cs:116-150 | the closest point to a line has the centre's weight |
| Ellipses.ClosestPointToHorizontalLine | Numerics/Geometry/Ellipse2.cs:143-146 | a line with `a = 0` gets the vertex `GetPoint(π/2)`, the centre moved by `(0, b)` |
| Ellipses.ClosestPointToLineThroughCentre | Numerics/Geometry/Ellipse2.cs:128-141 | a line with `a ≠ 0` through the centre gets the vertex `GetPoint(0)`, the centre moved by `(a, 0)` |
| Ellipses.ClosestPointToVerticalLine | Numerics/Geometry/Ellipse2.cs:118-141 | after the centre shift, every vertical line gets `GetPoint(0)`, on whichever side it lies |
| Ellipses.QuadraticSolution | Numerics/Geometry/Ellipse2.cs:104-114 | the closed form throws `NotImplementedException` exactly when `Q² - P·R < 0` |
| Ellipses.QuadraticSolutionIsRoot | Numerics/Geometry/Ellipse2.cs:104-107 | the chosen `t` solves `P t² + 2 Q t + R = 0` |
| Ellipses.QuadraticSolutionsPair | Numerics/Geometry/Ellipse2.cs:98-107 | `First` takes `-√d` and `Second` takes `+√d`: they sum to `-2Q/P` and differ by `2√d/P` |
| Ellipses.GetClosestPointBySolution | Numerics/Geometry/Ellipse2.cs:94-115 | as written, it throws exactly when the discriminant of the written quadratic is negative, and the point has weight `u² + v²` |
| Ellipses.ClosestPointBySolutionMissesEllipse | Numerics/Geometry/Ellipse2.cs:94-115 | as written, for an origin-centred ellipse and a horizontal line it returns the centre, where the conic is 0, so the point is not on the ellipse |
| Ellipses.ClosestPointBySolutionOffProjection | Numerics/Geometry/Ellipse2.cs:108-111 | as written, the point at root `t` misses the line `u x + v y + w = 0` by `t (u² + v²) v (v - u)` |
| Ellipses.ClosestPointBySolutionThrowsOnTiltedLine | Numerics/Geometry/Ellipse2.cs:100-114 | as written, both the closest point and the distance throw for the unit circle at `(1, 0)` and any line `x + y + c = 0` |
| Ellipses.PolarPointOnLine | Numerics/Geometry/Ellipse2.cs:99-111 | every intended point of the construction lies on the line `u x + v y + w = 0` |
| Ellipses.PolarPointTangent | Numerics/Geometry/Ellipse2.cs:99-111 | at every point of that line the conic's tangent is parallel to the given line |
| Ellipses.TangentPoint | Numerics/Geometry/Ellipse2.cs:94-115 | the intended closed form throws exactly when the discriminant of the tangent quadratic is negative, and the point has weight `u² + v²` |
| Ellipses.TangentPointOnEllipse | Numerics/Geometry/Ellipse2.cs:94-115 | the intended point `x` gives the conic the value `x.W²`, so its location lies on the ellipse, and its tangent is parallel to the line |
| Ellipses.TangentPointOnTiltedLine | Numerics/Geometry/Ellipse2.cs:94-115 | for the case where the written form throws, the intended point exists, lies on the circle, and has a tangent parallel to the line |
| Ellipses.DistanceTo | Numerics/Geometry/Ellipse2.cs:152-153 | the distance from a point is never negative |
| Ellipses.DistanceToCircle | Numerics/Geometry/Ellipse2.cs:154-155 | the distance to a circle is never below minus its radius |
| Ellipses.DistanceToLine | Numerics/Geometry/Ellipse2.cs:156-157 | the distance to a line is the signed distance of the iterative closest point |
| Ellipses.DistanceToLineBySolution | Numerics/Geometry/Ellipse2.cs:158-159 | as written, it throws exactly when the written closed form throws; otherwise it is the signed distance of that form's point |
| Ellipses.DistanceToLineByTangent | Numerics/Geometry/Ellipse2.cs:158-159 | the intended distance throws exactly when no tangent point exists; otherwise it is the signed distance of the tangent point |
| LegacyPoints.FromLocation | Point2.cs:22-29 | the point is finite with weight 1 and located at the vector |
| LegacyPoints.Meet | Point2.cs:30-36 | the meet of two lines lies on both and is the newer class's `Meet` |
| LegacyPoints.Polar | Point2.cs:37-40 | the polar point is finite, and at angle 0 it is `(radius, 0)` |
| LegacyPoints.PolarRadius | Point2.cs:37-40 | a polar location is `|radius|` from the origin |
| LegacyPoints.LocationVector | Point2.cs:53-55 | the location vector is the newer class's `AsVector` |
| LegacyPoints.ScaleKeepsLocation | Point2.cs:63-66 | scaling by a non-zero factor keeps the location |
| LegacyPoints.Flip | Point2.cs:67-70 | `Flip` keeps `W` and reflects the location through the origin |
| LegacyPoints.FlipTwice | Point2.cs:67-70 | flipping twice gives the point back |
| LegacyPoints.Add | Point2.cs:71-74 | the sum's incidence value with every line is the sum of the two incidence values |
| LegacyPoints.Subtract | Point2.cs:105-108 | `p - q`, written as `p.Add(q.Scale(-1))`, is the componentwise difference |
| LegacyPoints.StepBy | Point2.cs:75-78 | stepping keeps `W` and moves the location by the step |
| LegacyPoints.StepFrom | Point2.cs:79-82 | the displacement between two points is the difference of their locations |
| LegacyPoints.StepFromUndoesStepBy | Point2.cs:75-82 | measuring a step back from the point it started at gives the step |
| LegacyPoints.OffsetAddsLocations | Point2.cs:83-86 | the location of `Offset` is the sum of the two locations |
| LegacyPoints.RelativeSubtractsLocations | Point2.cs:87-90 | the location of `Relative` is the displacement between the two locations |
| LegacyPoints.RelativeUndoesOffset | Point2.cs:83-90 | `Offset(p, q).Relative(q)` is `q.W² · p` |
| LegacyPoints.RotateAboutAsWritten | Point2.cs:124-139 | as written, the rotated point has weight `W · fulcrum.W` |
| LegacyPoints.RotateAsWrittenByZero | Point2.cs:124-139 | as written, rotating by zero gives `fulcrum.W · P` |
| LegacyPoints.RotatedFulcrumAsWritten | Point2.cs:126-127 | as written, a half turn leaves the fulcrum in place only when its two coordinates are equal |
| LegacyPoints.RotateAbout | Point2.cs:124-139 | the intended rotation has weight `W · fulcrum.W`, and rotating the fulcrum itself gives the fulcrum scaled by its weight |
| LegacyPoints.RotateByZero | Point2.cs:124-139 | the intended rotation by zero gives `fulcrum.W · P` |
| LegacyPoints.RotateFixesFulcrum | Point2.cs:124-139 | the intended rotation keeps every finite fulcrum in place at every angle |
| LegacyPoints.RotateKeepsDistance | Point2.cs:124-139 | the intended rotation keeps a point's distance from the fulcrum |
| LegacyPoints.DistanceTo | Point2.cs:141-151 | with weights of the same sign the distance is never negative |
| LegacyPoints.DistanceAgreesWithNumerics | Point2.cs:141-151 | the legacy distance is the Euclidean distance up to sign, and equal to it for weights of the same sign |
| LegacyPoints.DistanceToLineAsWritten | Point2.cs:153-162 | as written, the distance to a line is zero exactly on the line |
| LegacyPoints.DistanceToLineAsWrittenScaled | Point2.cs:153-162 | as written, the distance to a line is the signed distance divided once more by the line's weight |
| LegacyPoints.DistanceToLineAsWrittenHalves | Point2.cs:153-162 | the point `(0, 1)` is 1 from the line `2y = 0`, but the written formula gives 1/2 |
| LegacyPoints.DistanceToLine | Point2.cs:153-162 | the intended distance to a line times both weights is the incidence value; it is the newer class's signed distance |
| LegacyPoints.MirrorAbout | Point2.cs:176-188 | the reflection has weight `W · (a² + b²)` |
| LegacyPoints.MirrorTwice | Point2.cs:176-188 | reflecting twice gives the point scaled by `(a² + b²)²` |
| LegacyPoints.MirrorKeepsLinePoints | Point2.cs:176-188 | a point of the line reflects onto itself, scaled by `a² + b²` |
| LegacyPoints.MirrorNegatesIncidence | Point2.cs:176-188 | reflection negates the incidence value, scaled by `a² + b²` |
| LegacyPoints.ToArray | Point2.cs:216 | the array holds the three components in order |
| LegacyPoints.Item | Point2.cs:192-204 | index 0, 1 or 2 gives U, V or W; every other index throws |
| LegacyPoints.ItemAt | Point2.cs:205-215 | only column 0 exists, and it is the single index |
| LegacyPoints.IsZero | Point2.cs:288-291 | `IsZero` holds exactly of the zero triple |
| LegacyPoints.Equals | Point2.cs:266-270 | equality is equality of all three components |
| LegacyLines.FromPosition | Line2.cs:27-33 | the line passes through the location and is the newer `ThroughPointAwayFromOrigin`, negated |
| LegacyLines.FromPositionPoint | Line2.cs:34-40 | the line passes through the point and is the newer `ThroughPointAwayFromOrigin`, negated |
| LegacyLines.FromPositionOverloadsAgree | Line2.cs:27-40 | both overloads give the same line for a location of weight 1 |
| LegacyLines.FromTwoLocations | Line2.cs:41-47 | the line passes through both locations and is `FromTwoPoints` of the two points |
| LegacyLines.FromLocationAndDirection | Line2.cs:48-54 | the line passes through the location and through the location moved by the direction |
| LegacyLines.FromTwoPoints | Line2.cs:55-61 | the line passes through both points and is the newer `Join` |
| LegacyLines.FromPointAndDirection | Line2.cs:62-68 | the line passes through the point and through the point stepped by the direction |
| LegacyLines.RayIsScaledLine | Line2.cs:62-68 | the newer `Ray` is this line scaled by the point's weight |
| LegacyLines.LinearCombination | Line2.cs:69-72 | the combination's incidence value with every point is the weighted sum of the two |
| LegacyLines.Position | Line2.cs:84-91 | `Position` lies on the line and is the foot of the perpendicular from the origin |
| LegacyLines.Distance | Line2.cs:92-99 | `Distance` times the weight is `C`, the signed distance of the origin |
| LegacyLines.DistanceAfterOffset | Line2.cs:206-211 | offsetting by `d` lowers the signed distance of the origin by `d` |
| LegacyLines.Direction | Line2.cs:100-107 | the direction is the newer `GetDirection`, square to the normal |
| LegacyLines.Normal | Line2.cs:108-115 | the normal times the weight is `(a, b)`, and it has unit length |
| LegacyLines.GetPointAlong | Line2.cs:133-141 | every `GetPointAlong(d)` lies on the line, with weight `a² + b²` |
| LegacyLines.ParallelDistanceToAsWritten | Line2.cs:149-156 | as written, the parallel distance times `(a² + b²) · W` is `b·U - a·V` |
| LegacyLines.ParallelDistanceAsWrittenDividesByWeight | Line2.cs:149-156 | as written, the parallel distance of the point `d` along the line is `d` divided by the weight |
| LegacyLines.ParallelDistanceTo | Line2.cs:149-156 | the intended parallel distance times the weight and `W` is `b·U - a·V` |
| LegacyLines.ParallelDistanceInvertsGetPointAlong | Line2.cs:133-156 | the intended parallel distance of the point `d` along the line is `d` |
| LegacyLines.GetPointFromAsWritten | Line2.cs:143-147 | as written, the stepped point lies on the line, and it is the newer class's as-written `GetPointFrom` |
| LegacyLines.GetPointFrom | Line2.cs:143-147 | the intended stepped point lies on the line and is the newer class's intended `GetPointFrom` |
| LegacyLines.GetPointFromAdvances | Line2.cs:143-147 | the intended step moves the parallel distance forward by exactly `distance` |
| LegacyLines.PerpendicularDistanceTo | Line2.cs:158-165 | the perpendicular distance is the newer signed distance, zero exactly on the line |
| LegacyLines.PerpendicularDistanceAfterOffset | Line2.cs:206-211 | offsetting by `d` lowers the perpendicular distance of every finite point by `d` |
| LegacyLines.LineParallelThrough | Line2.cs:167-174 | the line passes through the point with a parallel normal |
| LegacyLines.LinePerpendicularThrough | Line2.cs:175-182 | the line passes through the point with a square normal |
| LegacyLines.ProjectedPoint | Line2.cs:185-196 | the projected point lies on the line, and is the foot of the perpendicular for a unit normal |
| LegacyLines.IntersectWithLine | Line2.cs:198-205 | the intersection lies on both lines and is the legacy `Meet` |
| LegacyLines.Offset | Line2.cs:206-211 | the offset line keeps the normal |
| LegacyLines.RotateAbout | Line2.cs:213-225 | the fulcrum's incidence value with the rotated line is its incidence value with the line times the fulcrum's weight |
| LegacyLines.RotationKeepsIncidence | Line2.cs:213-225 | rotating a point and a line about the same fulcrum by the same angle scales their incidence value by `fulcrum.W²` |
| LegacyLines.MirrorKeepsIncidence | Line2.cs:227-240 | reflecting a point and a line in the same axis negates their incidence value, scaled by `(a² + b²)²` |
| LegacyLines.MirrorTwice | Line2.cs:227-240 | reflecting twice in the same axis gives the line scaled by `(a² + b²)²` |
| LegacyLines.Scale | Line2.cs:245-248 | the scaled line's incidence value with every point is scaled by the factor |
| LegacyLines.Flip | Line2.cs:249-252 | the flipped line meets each flipped point as the line met the point |
| LegacyLines.Add | Line2.cs:254-257 | the sum's incidence value is the sum of the two |
| LegacyLines.RelativeUndoesOffset | Line2.cs:258-265 | `Offset(l, k).Relative(k)` is `k.C² · l` |
| LegacyLines.Subtract | Line2.cs:279-282 | `l - k`, written as `l.Add(k.Scale(-1))`, has the difference of the incidence values |
| LegacyLines.NormalizeAsWrittenMultiplies | Line2.cs:286-289 | as written, `Normalize` multiplies the line by its weight instead of dividing |
| LegacyLines.NormalizeAsWrittenWeightSqr | Line2.cs:286-289 | as written, the normalized normal has squared length `(a² + b²)²`, which is 1 only for an already unit normal |
| LegacyLines.NormalizeIsNormalized | Line2.cs:286-289 | the intended `Normalize` is the newer `Normalized`, whose normal has unit length |
| LegacyLines.ToArray | Line2.cs:314 | the array holds the three coefficients in order |
| LegacyLines.Item | Line2.cs:290-302 | index 0, 1 or 2 gives a, b or c; every other index throws |
| LegacyLines.ItemAt | Line2.cs:303-312 | only column 0 exists, and it is the single index |
| LegacyLines.Equals | Line2.cs:368-373 | equality is equality of all three coefficients |
| LegacyLines.SegmentAsWritten | Line2.cs:395-400 | the segment's line is the line through the two locations, and it has a normal |
| LegacyLines.SegmentAsWrittenMisplacesEnd | Line2.cs:395-404 | as written, the segment from `(0, 0)` to `(x, 0)` ends at `(1, 0)` for every positive `x` |
| LegacyLines.Segment | Line2.cs:395-400 | the intended segment's line is the line through the two locations, with a non-zero weight |
| LegacyLines.SegmentEndsAtLocations | Line2.cs:395-404 | the intended segment starts and ends at the two locations it was built from |
| LegacyLines.Start | Line2.cs:403 | the start lies on the segment's line |
| LegacyLines.End | Line2.cs:404 | the end lies on the segment's line |

## Left out

- The user interface (forms, canvas, drawing, mouse interaction): it is presentation code with no geometric contract.
- Floating point: rounding, overflow, NaN and Infinity. All arithmetic is over `real`. The float and double overloads of `NumericalMethods` are modelled once.
- The accuracy of `Math.Sqrt`, `Sin`, `Cos`, `Atan`, `Atan2` and `PI`: only the laws of `RealMath.Lawful` are assumed.
- Whether the ellipse fixed-point iterations converge to the true closest point: the code does not promise it, and the model only follows its branches.
- Points.AsVector: requires a finite point (`W ≠ 0`), where the source divides by zero and returns NaN or Infinity. The same holds for `Normalized`, `IsCoincident`, `Difference`, `VectorTo`, `DistanceTo` and the members built on them in every module.
- Points.DistanceToLine: requires a finite point and a line of non-zero weight. The same holds for `Lines.SignedDistanceTo`, `Lines.ParallelDistanceTo`, `Lines.GetPointFrom`, `Circles.DistanceToLine` and the ellipse distances to lines, where the source divides by zero.
- Lines.DistanceTo: requires a finite line (`A² + B² > 0`), where the foot of the perpendicular has weight 0 in the source.
- Circles.Intersect: requires the centres to be a non-zero distance apart when the circles are not apart. For concentric circles of equal radius the source divides 0 by 0 and returns true with a single NaN point: the two all-NaN candidates compare equal, because `Point2.Equals` compares the floats with `float.Equals`, under which NaN equals NaN.
- Circles.IntersectionsOnBothCircles: requires a non-zero distance between the centres, for the same reason.
- Ellipses.Deconstruct: requires both radii to be non-zero (`HasProperAxes`). The source divides by the squared radii. `GetCoefficients` carries the same requirement, and so does the closed form through `Solvable`: `GetClosestPointBySolution`, `TangentPoint`, `DistanceToLineBySolution` and `DistanceToLineByTangent`. `GetPoint` and the iterative closest-point searches need only a finite centre.
- Ellipses.GetClosestPointBySolution: requires `Solvable`, that is `u² + v² ≠ 0` and `P ≠ 0`. The source divides by both. The same holds for `TangentPoint` and both `DistanceTo(Line2, SolutionSet)` models.
- Ellipses.PointParameter: the `float.IsInfinity`/`IsNaN` test on the iterate is modelled as "the iteration function's denominator is identically zero" (`Q = 0`, or `a·c'·rx = 0` for lines). An overflow of a float iterate is not modelled.
- LegacyLines.SegmentAsWritten: requires two different locations. For equal locations the source builds the empty line and divides 0 by 0. `LegacyLines.Segment` has the same requirement.
- LegacyPoints.RotateAboutAsWritten: no claim is made about the fulcrum at non-zero angles beyond the half-turn counterexample.
- Formatting and identity plumbing: `ToString`, `IFormattable`, `GetHashCode`, `Equals(object)`, `ICloneable`, the `==`/`!=` operators and `Debug.WriteLine`. They have no geometric content.
- Trivial accessors and constants: `Coords`, `Deconstruct(out …)` of `Line2`, `Weight`/`WeightSqr` of `Point2`, `AsVectorFrom` (the same as `VectorTo`), `Origin`, `AlongX`, `AlongY`, `XAxis`, `YAxis`, `Horizon`, `LooseTolerance`, and the one-argument `Circle2(radius)` and two-argument `Ellipse2(major, minor)` constructors at the origin.
- Delegating overloads: `Point2.DistanceTo(Circle2)` is `Circles.DistanceTo`, and `Line2.GetClosestPoint(Circle2)` is `Lines.GetClosestPoint` of the centre. `Line2.IsCoincident(Point2)` and `Point2.IsCoincident(Line2)` are the incidence test `Points.IsOnLine`. `Line2.LineParallelThrough` and `PerpendicularDistanceTo` compute the same triples as `ParallelThrough` and `SignedDistanceTo`, and are those members.
- Lines.RotateAbout, Lines.MirrorAbout and the `Negate`/`Scale`/`Add`/`Subtract` algebra of the newer classes: these have no ensures of their own. The lemmas `RotatedLineAtFulcrum`, `RotateByZero`, `MirrorTwice`, `MirrorKeepsAxis`, `MeetAntiCommutes` and `JoinAntiCommutes` state their properties.
- The older `JA.Point2` accessors `DirectionTo`, `DirectionVector`, `DistanceFromOrigin`, `Magnitude`, `SumSquares`, `Norm2`, `Count` and `IsReadOnly`, and the `JA.Line2` accessors `Magnitude`, `Vector`, `Scalar`, `Equation`, `SumSquares` and `ToJaggedArray`. They are one-line compositions of modelled operations, or string formatting. The constructors `Point2(u, v, w = 1)` and `Point2(Vector2, scalar = 1)` build the same triple as `Points.Weighted`.

## Findings

| source | as written | input that shows it | evidently intended | confidence | as-written member | corrected member |
|---|---|---|---|---|---|---|
| Numerics/Geometry/Point2.cs:46 | `IsEmpty` joins `x != 0`, `y != 0`, `w != 0` with `&&` | `Empty = (0, 0, 0)` is not empty; `(1, 1, 1)` is | true exactly for `(0, 0, 0)` | high; not executed | Points.IsEmptyAsWrittenMisclassifies | Points.IsEmptyExactlyEmpty |
| Numerics/Geometry/Line2.cs:60 | `IsEmpty` joins `a != 0`, `b != 0`, `c != 0` with `&&` | `Empty = (0, 0, 0)` is not empty; `(1, 1, 1)` is | true exactly for `(0, 0, 0)` | high; not executed | Lines.IsEmptyAsWrittenMisclassifies | Lines.IsEmptyExactlyEmpty |
| Numerics/Geometry/Line2.cs:131-138 | `ParallelDistanceTo` divides by `(a² + b²)·w` | line `(0, 2, 0)`, point `(2, 0, 1)`: distance 1, and `GetPointAlong(1)` is `(1, 0)` | divide by the weight `√(a² + b²)·w`, so that it inverts `GetPointAlong` | medium; not executed | Lines.ParallelDistanceAsWrittenMisplaces | LegacyLines.ParallelDistanceInvertsGetPointAlong |
| Numerics/Geometry/Line2.cs:125-129 | `GetPointFrom` steps from the written parallel distance | line `(0, 2, 0)`, point `(2, 0, 1)`, distance 0: the result is `(1, 0)` | stepping 0 from a point of the line returns that point | medium; not executed | Lines.GetPointFromAsWrittenMisplaces | Lines.GetPointFromZeroIsPoint |
| Numerics/Geometry/Ellipse2.cs:45-50, 103 | the conic has no `- 1`, and `R` keeps `F` and adds `2w(Ev + Du)/(u² + v²)` | origin-centred ellipse, any horizontal line: the point is the centre, where the conic is 0 | the point of the ellipse whose tangent is parallel to the line | medium; not executed | Ellipses.ClosestPointBySolutionMissesEllipse | Ellipses.TangentPointOnEllipse |
| Numerics/Geometry/Ellipse2.cs:103-114 | `R` has the wrong sign on `2w(Ev + Du)/(u² + v²)` and lacks `- 1`, so `d < 0` throws | unit circle centred at `(1, 0)`, line `x + y + c = 0`: `d = -4`, while the tangent quadratic has discriminant 2 | a tangent point exists and is returned | medium; not executed | Ellipses.ClosestPointBySolutionThrowsOnTiltedLine | Ellipses.TangentPointOnTiltedLine |
| Numerics/Geometry/Ellipse2.cs:110 | the `y` coordinate is `t·v·(u² + v²) - v·w` | any root `t ≠ 0` with `v ≠ 0` and `v ≠ u`: the point misses `u x + v y + w = 0` by `t (u² + v²) v (v - u)` | `y = t·u·(u² + v²) - v·w`, a point of that line | medium; not executed | Ellipses.ClosestPointBySolutionOffProjection | Ellipses.PolarPointOnLine |
| Point2.cs:126-127 | `RotateAbout` reads the fulcrum's `U` from `Vector.Y` and its `V` from `Vector.X` | half turn of `(1, 0)` about itself gives `(-1, 2)` | the fulcrum stays in place at every angle | high; not executed | LegacyPoints.RotatedFulcrumAsWritten | LegacyPoints.RotateFixesFulcrum |
| Point2.cs:153-162 | `DistanceTo(Line2)` divides by `W·(a² + b²)` | point `(0, 1)`, line `2y = 0`: 1/2 instead of 1 | divide by `W·√(a² + b²)` | medium; not executed | LegacyPoints.DistanceToLineAsWrittenHalves | LegacyPoints.DistanceToLine |
| Line2.cs:149-156, 395-404 | `ParallelDistanceTo` divides by `(a² + b²)·w`, and `LineSegment2` uses it for its ends | segment from `(0, 0)` to `(x, 0)`, `x > 0`: it ends at `(1, 0)` | the segment ends at `(x, 0)` | medium; not executed | LegacyLines.SegmentAsWrittenMisplacesEnd | LegacyLines.SegmentEndsAtLocations |
| Line2.cs:286-289 | `Normalize` rebuilds the line from `Position` (weight `a² + b²`) and the unit `Direction` | line `(0, 2, 0)` becomes `(0, 4, 0)` | the line divided by its weight, `(0, 1, 0)` | medium; not executed | LegacyLines.NormalizeAsWrittenMultiplies | LegacyLines.NormalizeIsNormalized |
