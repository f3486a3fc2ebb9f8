/**
 * `JA.Numerics.Geometry.Line2`: a homogeneous line `(A, B, C)`, the points with
 * `A*x + B*y + C == 0`. Its normal is `(A, B)`, its weight the normal's length.
 */
module Lines {
  import opened RealMath
  import opened Homogeneous
  import V = Vectors
  import P = Points

  /** `Line2.Join`: the line through two points (their cross product). */
  function Join(p1: Point2, p2: Point2): (r: Line2)
    ensures Dot(p1, r) == 0.0 && Dot(p2, r) == 0.0
  {
    Line2(p1.V * p2.W - p1.W * p2.V,
          p1.W * p2.U - p1.U * p2.W,
          p1.U * p2.V - p1.V * p2.U)
  }

  /** `Line2.Ray`: the line from `origin` along `direction`. */
  function Ray(origin: Point2, direction: V.Vector2): (r: Line2)
    ensures Dot(origin, r) == 0.0 && Dot(P.AddVector(origin, direction), r) == 0.0
  {
    Join(origin, P.AddVector(origin, direction))
  }

  /** `Line2.ThroughPointAwayFromOrigin`: the line through `center` square to the
      direction of `center` from the origin. */
  function ThroughPointAwayFromOrigin(center: Point2): (r: Line2)
    ensures Dot(center, r) == 0.0
    ensures r.A * center.V == r.B * center.U
  {
    Line2(-center.W * center.U, -center.W * center.V, center.U * center.U + center.V * center.V)
  }

  const Empty := Line2(0.0, 0.0, 0.0)
  const XAxis := Line2(0.0, 1.0, 0.0)
  const YAxis := Line2(-1.0, 0.0, 0.0)
  const Horizon := Line2(0.0, 0.0, 1.0)

  /** `Line2.IsFinite`: the line has a direction (it is not the line at infinity). */
  predicate IsFinite(l: Line2) {
    WeightSqr(l) > 0.0
  }

  /** `Line2.IsEmpty` as written: every coefficient is non-zero. */
  predicate IsEmptyAsWritten(l: Line2) {
    l.A != 0.0 && l.B != 0.0 && l.C != 0.0
  }

  /** `Line2.IsEmpty` as evidently intended: the triple is `Empty`. */
  predicate IsEmpty(l: Line2) {
    l.A == 0.0 && l.B == 0.0 && l.C == 0.0
  }

  /** `Line2.IsCoincident(Line2)`: the triples agree after each is divided by its weight. */
  predicate IsCoincident(m: MathLib, l1: Line2, l2: Line2) {
    var w1, w2 := Weight(m, l1), Weight(m, l2);
    l1.A * w2 == l2.A * w1 && l1.B * w2 == l2.B * w1 && l1.C * w2 == l2.C * w1
  }

  /** `Line2.GetCenter`: the point of the line closest to the origin. */
  function GetCenter(l: Line2): (r: Point2)
    ensures Dot(r, l) == 0.0
    ensures r.W == WeightSqr(l)
  {
    Point2(-l.C * l.A, -l.C * l.B, WeightSqr(l))
  }

  /** `Line2.GetDirection`: the unit vector along the line. */
  function GetDirection(m: MathLib, l: Line2): (r: V.Vector2)
    requires Weight(m, l) != 0.0
    ensures r.X * l.A + r.Y * l.B == 0.0
    ensures Lawful(m) ==> V.LengthSquared(r) == 1.0
  {
    var r := V.Divide(V.Vector2(l.B, -l.A), Weight(m, l));
    assert Lawful(m) ==> V.LengthSquared(r) == 1.0 by {
      if Lawful(m) {
        WeightLaw(m, l);
        V.UnitAfterDivision(V.Vector2(l.B, -l.A), Weight(m, l));
      }
    }
    r
  }

  /** `Line2.Normalized`: the same line with a unit normal. */
  function Normalized(m: MathLib, l: Line2): (r: Line2)
    requires Weight(m, l) != 0.0
    ensures Scale(Weight(m, l), r) == l
    ensures Lawful(m) ==> WeightSqr(r) == 1.0
  {
    var w := Weight(m, l);
    var r := Line2(l.A / w, l.B / w, l.C / w);
    assert Lawful(m) ==> WeightSqr(r) == 1.0 by {
      if Lawful(m) {
        WeightLaw(m, l);
        UnitOfScaled(l.A / w, l.B / w, w, l.A, l.B);
      }
    }
    r
  }

  /** `Line2.ParallelThrough` and `Line2.LineParallelThrough` (the same triple): the line
      through `p` with this line's normal scaled by `p.W`. */
  function ParallelThrough(l: Line2, p: Point2): (r: Line2)
    ensures Dot(p, r) == 0.0
    ensures r.A == l.A * p.W && r.B == l.B * p.W
  {
    Line2(l.A * p.W, l.B * p.W, -l.A * p.U - l.B * p.V)
  }

  /** `Line2.LinePerpendicularThrough`: the line through `p` square to this one. */
  function LinePerpendicularThrough(l: Line2, p: Point2): (r: Line2)
    ensures Dot(p, r) == 0.0
    ensures r.A * l.A + r.B * l.B == 0.0
  {
    Line2(-l.B * p.W, l.A * p.W, l.B * p.U - l.A * p.V)
  }

  /** `Line2.GetClosestPoint(Point2)`: the foot of the perpendicular from `p`. */
  function GetClosestPoint(l: Line2, p: Point2): (r: Point2)
    ensures r.W == WeightSqr(l) * p.W
  {
    Point2(l.B * l.B * p.U - l.A * (l.B * p.V + l.C * p.W),
           l.A * l.A * p.V - l.B * (l.A * p.U + l.C * p.W),
           (l.A * l.A + l.B * l.B) * p.W)
  }

  /** The closest point lies on the line and on the perpendicular through `p`. */
  lemma ClosestPointIsFoot(l: Line2, p: Point2)
    ensures Dot(GetClosestPoint(l, p), l) == 0.0
    ensures Dot(GetClosestPoint(l, p), LinePerpendicularThrough(l, p)) == 0.0
  {
    FootOnLines(l, p);
  }

  /** The foot's coordinates satisfy both line equations, written out. */
  lemma FootOnLines(l: Line2, p: Point2)
    ensures l.A * (l.B * l.B * p.U - l.A * (l.B * p.V + l.C * p.W))
            + l.B * (l.A * l.A * p.V - l.B * (l.A * p.U + l.C * p.W))
            + l.C * ((l.A * l.A + l.B * l.B) * p.W) == 0.0
    ensures -l.B * p.W * (l.B * l.B * p.U - l.A * (l.B * p.V + l.C * p.W))
            + l.A * p.W * (l.A * l.A * p.V - l.B * (l.A * p.U + l.C * p.W))
            + (l.B * p.U - l.A * p.V) * ((l.A * l.A + l.B * l.B) * p.W) == 0.0
  {
  }

  /** `Line2.DistanceTo(Point2)`: the distance from `p` to its foot on the line. */
  function DistanceTo(m: MathLib, l: Line2, p: Point2): (r: real)
    requires P.IsFinite(p) && IsFinite(l)
    ensures Lawful(m) ==> 0.0 <= r
  {
    FootIsFinite(l, p);
    P.DistanceTo(m, GetClosestPoint(l, p), p)
  }

  /** `Line2.SignedDistanceTo(Point2)` and `Line2.PerpendicularDistanceTo` (the same
      quotient): the incidence value over both weights. */
  function SignedDistanceTo(m: MathLib, l: Line2, p: Point2): (r: real)
    requires Weight(m, l) != 0.0 && P.IsFinite(p)
    ensures r * (Weight(m, l) * p.W) == Dot(p, l)
    ensures r == 0.0 <==> Dot(p, l) == 0.0
  {
    Dot(p, l) / (Weight(m, l) * p.W)
  }

  /** `Line2.GetPoint`: the point at parameter `t` along the line from its center. */
  function GetPoint(m: MathLib, l: Line2, t: real): (r: Point2)
    ensures Lawful(m) ==> Dot(r, l) == 0.0
  {
    var w := Weight(m, l);
    assert Lawful(m) ==> w * w == WeightSqr(l) by {
      if Lawful(m) {
        WeightLaw(m, l);
      }
    }
    Point2(l.B * w * t - l.A * l.C, -l.A * w * t - l.B * l.C, w * w)
  }

  /** `Line2.GetPointAlong`: the point at signed distance `distance` along the line
      from its center. */
  function GetPointAlong(m: MathLib, l: Line2, distance: real): (r: Point2)
    ensures Dot(r, l) == 0.0
    ensures r.W == WeightSqr(l)
  {
    var ab2 := l.A * l.A + l.B * l.B;
    var ab := Sqrt(m, ab2);
    Point2(l.B * distance * ab - l.A * l.C, -l.A * distance * ab - l.B * l.C, ab2)
  }

  /** `Line2.VectorTo(Point2)`: the displacement from the foot on the line to `p`. */
  function VectorTo(l: Line2, p: Point2): (r: V.Vector2)
    requires P.IsFinite(p) && IsFinite(l)
    ensures r == V.Scale(Dot(p, l) / (WeightSqr(l) * p.W), V.Vector2(l.A, l.B))
  {
    FootDisplacement(l, p);
    P.VectorTo(GetClosestPoint(l, p), p)
  }

  /** `Line2.ParallelDistanceTo` as written: divides by the squared weight. */
  function ParallelDistanceToAsWritten(l: Line2, p: Point2): real
    requires WeightSqr(l) != 0.0 && P.IsFinite(p)
  {
    (l.B * p.U - l.A * p.V) / (WeightSqr(l) * p.W)
  }

  /** `Line2.ParallelDistanceTo` as evidently intended: the coordinate of `p` along the
      line's direction, divided by the weight like `PerpendicularDistanceTo`. */
  function ParallelDistanceTo(m: MathLib, l: Line2, p: Point2): (r: real)
    requires Weight(m, l) != 0.0 && P.IsFinite(p)
    ensures r * (Weight(m, l) * p.W) == l.B * p.U - l.A * p.V
  {
    (l.B * p.U - l.A * p.V) / (Weight(m, l) * p.W)
  }

  /** `Line2.GetPointFrom` as written: the point `distance` further along the line than
      the written parallel distance of `p`. */
  function GetPointFromAsWritten(m: MathLib, l: Line2, p: Point2, distance: real): (r: Point2)
    requires WeightSqr(l) != 0.0 && P.IsFinite(p)
    ensures Dot(r, l) == 0.0
  {
    GetPointAlong(m, l, ParallelDistanceToAsWritten(l, p) + distance)
  }

  /** `Line2.GetPointFrom` as evidently intended: the point `distance` further along the
      line than `p`, on the intended parallel distance. */
  function GetPointFrom(m: MathLib, l: Line2, p: Point2, distance: real): (r: Point2)
    requires Weight(m, l) != 0.0 && P.IsFinite(p)
    ensures Dot(r, l) == 0.0
  {
    GetPointAlong(m, l, ParallelDistanceTo(m, l, p) + distance)
  }

  /** `Line2.ProjectedPoint`: a point of the line that is the foot of `p` when the
      line's normal has unit length. */
  function ProjectedPoint(m: MathLib, l: Line2, p: Point2): (r: Point2)
    ensures Lawful(m) ==> Dot(r, l) == 0.0
    ensures Lawful(m) && WeightSqr(l) == 1.0 ==> r == GetClosestPoint(l, p)
  {
    var ab := Sqrt(m, l.A * l.A + l.B * l.B);
    assert Lawful(m) ==> Dot(ProjectedPointWith(l, p, ab), l) == 0.0 by {
      if Lawful(m) {
        SquaresNonNegative(l.A, l.B);
        SqrtLaw(m, l.A * l.A + l.B * l.B);
        ProjectedWithOnLine(l, p, ab);
      }
    }
    assert Lawful(m) && WeightSqr(l) == 1.0 ==> ProjectedPointWith(l, p, ab) == GetClosestPoint(l, p) by {
      if Lawful(m) && WeightSqr(l) == 1.0 {
        SqrtOfUnitWeight(m, l);
        ProjectedWithUnitWeight(l, p);
      }
    }
    ProjectedPointWith(l, p, ab)
  }

  lemma SqrtOfUnitWeight(m: MathLib, l: Line2)
    requires Lawful(m) && WeightSqr(l) == 1.0
    ensures Sqrt(m, l.A * l.A + l.B * l.B) == 1.0
  {
    assert l.A * l.A + l.B * l.B == 1.0;
    SqrtOne(m);
  }

  /** `ProjectedPoint` with the weight `ab` supplied. */
  function ProjectedPointWith(l: Line2, p: Point2, ab: real): Point2 {
    Point2(l.B * l.B * p.U - l.A * (ab * l.C * p.W + l.B * p.V),
           l.A * l.A * p.V - l.B * (l.A * p.U + ab * l.C * p.W),
           p.W * ab * ab * ab)
  }

  /** `Line2.IntersectWithLine`: the point common to both lines. */
  function IntersectWithLine(l: Line2, other: Line2): (r: Point2)
    ensures r == P.Meet(l, other)
  {
    Point2(l.B * other.C - other.B * l.C,
           other.A * l.C - l.A * other.C,
           l.A * other.B - other.A * l.B)
  }

  /** `Line2.Offset`: the parallel line moved `distance` against the normal. */
  function Offset(m: MathLib, l: Line2, distance: real): (r: Line2)
    ensures r.A == l.A && r.B == l.B
  {
    Line2(l.A, l.B, l.C - distance * Sqrt(m, l.A * l.A + l.B * l.B))
  }

  /** `Line2.RotateAbout`: the line rotated by `angle` about `fulcrum`, scaled by `fulcrum.W`. */
  function RotateAbout(m: MathLib, l: Line2, fulcrum: Point2, angle: real): Line2 {
    Rotation(l, fulcrum, Cos(m, angle), Sin(m, angle))
  }

  /** The rotation formula of `Line2.RotateAbout`, given the cosine `c` and sine `s` of
      the angle. */
  function Rotation(l: Line2, fulcrum: Point2, c: real, s: real): Line2 {
    var u, v, w := fulcrum.U, fulcrum.V, fulcrum.W;
    Line2(w * (l.A * c - l.B * s),
          w * (l.B * c + l.A * s),
          (l.B * u - l.A * v) * s - (l.A * u + l.B * v) * c + l.A * u + l.B * v + l.C * w)
  }

  /** `Line2.MirrorAbout`: the reflection of the line in `axis`, scaled by the axis's
      squared weight. */
  function MirrorAbout(l: Line2, axis: Line2): Line2 {
    var oa, ob, oc := axis.A, axis.B, axis.C;
    Line2(l.A * (oa * oa - ob * ob) + 2.0 * oa * ob * l.B,
          2.0 * oa * ob * l.A + l.B * (ob * ob - oa * oa),
          2.0 * oa * oc * l.A + 2.0 * ob * oc * l.B - l.C * (oa * oa + ob * ob))
  }

  /** `Line2.Negate`. */
  function Negate(l: Line2): Line2 {
    Line2(-l.A, -l.B, -l.C)
  }

  /** `Line2.Scale`. */
  function Scale(factor: real, l: Line2): Line2 {
    Line2(factor * l.A, factor * l.B, factor * l.C)
  }

  /** `Line2.Add`. */
  function Add(l1: Line2, l2: Line2): Line2 {
    Line2(l1.A + l2.A, l1.B + l2.B, l1.C + l2.C)
  }

  /** `Line2.Subtract`. */
  function Subtract(l1: Line2, l2: Line2): Line2 {
    Line2(l1.A - l2.A, l1.B - l2.B, l1.C - l2.C)
  }

  // ---------------------------------------------------------------------------
  // Properties

  /** Joining the points in the other order gives the opposite triple. */
  lemma JoinAntiCommutes(p1: Point2, p2: Point2)
    ensures Join(p2, p1) == Negate(Join(p1, p2))
  {
  }

  /** The written emptiness test rejects `Empty` and accepts the ordinary line `(1, 1, 1)`. */
  lemma IsEmptyAsWrittenMisclassifies()
    ensures !IsEmptyAsWritten(Empty)
    ensures IsEmptyAsWritten(Line2(1.0, 1.0, 1.0)) && IsFinite(Line2(1.0, 1.0, 1.0))
  {
  }

  /** The intended emptiness test holds of `Empty` and of nothing else. */
  lemma IsEmptyExactlyEmpty(l: Line2)
    ensures IsEmpty(l) <==> l == Empty
  {
  }

  /** A line is coincident with every positive multiple of itself. */
  lemma CoincidentWithPositiveMultiple(m: MathLib, l: Line2, k: real)
    requires Lawful(m) && 0.0 < k
    ensures IsCoincident(m, l, Scale(k, l))
  {
    var w := Weight(m, l);
    WeightOfScaled(m, k, l);
    assert Abs(k) == k;
    ScaledCross(l.A, k, w);
    ScaledCross(l.B, k, w);
    ScaledCross(l.C, k, w);
  }

  /**
   * Conversely, two finite lines that are coincident are positive multiples
   * of each other: the factor is the ratio of their weights.
   */
  lemma CoincidentIsPositiveMultiple(m: MathLib, l1: Line2, l2: Line2)
    requires Lawful(m) && IsFinite(l1) && IsFinite(l2) && IsCoincident(m, l1, l2)
    ensures exists k :: 0.0 < k && l2 == Scale(k, l1)
  {
    var w1, w2 := Weight(m, l1), Weight(m, l2);
    WeightLaw(m, l1);
    WeightLaw(m, l2);
    assert w1 != 0.0 && w2 != 0.0;
    var k := w2 / w1;
    assert l2.A == k * l1.A;
    assert l2.B == k * l1.B;
    assert l2.C == k * l1.C;
    assert l2 == Scale(k, l1);
  }

  /**
   * A line at infinity (zero normal) is coincident with a finite line exactly
   * when it is `Empty`: the empty line is coincident with every line.
   */
  lemma CoincidentAtInfinityWithFinite(m: MathLib, l1: Line2, l2: Line2)
    requires Lawful(m) && !IsFinite(l1) && IsFinite(l2)
    ensures l1 == Empty ==> IsCoincident(m, l1, l2)
    ensures IsCoincident(m, l1, l2) ==> l1 == Empty
  {
    ZeroWeight(m, l1);
    FiniteWeight(m, l2);
    CrossWithZeroWeight(l1, l2, Weight(m, l2));
  }

  /** Any two lines at infinity are coincident, whatever the signs of their `C`. */
  lemma CoincidentAtInfinity(m: MathLib, l1: Line2, l2: Line2)
    requires Lawful(m) && !IsFinite(l1) && !IsFinite(l2)
    ensures IsCoincident(m, l1, l2)
  {
    ZeroWeight(m, l1);
    ZeroWeight(m, l2);
  }

  /** Against a zero normal and weight, the cross products vanish only for `Empty`. */
  lemma CrossWithZeroWeight(l1: Line2, l2: Line2, w2: real)
    requires l1.A == 0.0 && l1.B == 0.0 && w2 != 0.0
    ensures (l1.A * w2 == l2.A * 0.0 && l1.B * w2 == l2.B * 0.0 && l1.C * w2 == l2.C * 0.0)
            <==> l1 == Empty
  {
    if l1.C != 0.0 {
      ProductNonZero(l1.C, w2);
    }
  }

  /** A finite line has a non-zero weight. */
  lemma FiniteWeight(m: MathLib, l: Line2)
    requires Lawful(m) && IsFinite(l)
    ensures Weight(m, l) != 0.0
  {
    WeightLaw(m, l);
  }

  /** A line that is not finite has a zero normal and weight zero. */
  lemma ZeroWeight(m: MathLib, l: Line2)
    requires Lawful(m) && !IsFinite(l)
    ensures l.A == 0.0 && l.B == 0.0 && Weight(m, l) == 0.0
  {
    WeightSqrNonNegative(l);
    if l.A != 0.0 || l.B != 0.0 {
      WeightSqrPositive(l);
    }
    var w := Weight(m, l);
    WeightLaw(m, l);
    if w != 0.0 {
      PositiveSquare(w, WeightSqr(l));
    }
  }

  /** Scaling a line scales its weight by the absolute factor. */
  lemma WeightOfScaled(m: MathLib, k: real, l: Line2)
    requires Lawful(m)
    ensures Weight(m, Scale(k, l)) == Abs(k) * Weight(m, l)
  {
    ScaledWeightSqr(k, l);
    WeightSqrNonNegative(l);
    SqrtScale(m, k, WeightSqr(l));
  }

  lemma ScaledWeightSqr(k: real, l: Line2)
    ensures WeightSqr(Scale(k, l)) == k * k * WeightSqr(l)
  {
  }

  /** `x * (k*w) == (k*x) * w`, over plain numbers. */
  lemma ScaledCross(x: real, k: real, w: real)
    ensures x * (k * w) == (k * x) * w
  {
  }

  /** The center of a line is its foot from the origin. */
  lemma CenterIsClosestToOrigin(l: Line2)
    ensures GetCenter(l) == GetClosestPoint(l, P.Origin)
  {
  }

  /** Offsetting a line by `d` lowers the signed distance of every finite point by `d`. */
  lemma OffsetShiftsSignedDistance(m: MathLib, l: Line2, d: real, p: Point2)
    requires Weight(m, l) != 0.0 && P.IsFinite(p)
    ensures Weight(m, Offset(m, l, d)) == Weight(m, l)
    ensures SignedDistanceTo(m, Offset(m, l, d), p) == SignedDistanceTo(m, l, p) - d
  {
    var w := Weight(m, l);
    assert WeightSqr(Offset(m, l, d)) == WeightSqr(l);
    assert Dot(p, Offset(m, l, d)) == Dot(p, l) - d * (w * p.W);
    ProductNonZero(w, p.W);
    ShiftQuotient(Dot(p, l), d, w * p.W);
  }

  /** Subtracting `d` times the divisor subtracts `d` from the quotient. */
  lemma ShiftQuotient(x: real, d: real, n: real)
    requires n != 0.0
    ensures (x - d * n) / n == x / n - d
  {
  }

  /** A rotated line meets its fulcrum exactly when the original line did:
      the incidence value is scaled by the fulcrum's weight. */
  lemma RotatedLineAtFulcrum(m: MathLib, l: Line2, fulcrum: Point2, angle: real)
    ensures Dot(fulcrum, RotateAbout(m, l, fulcrum, angle)) == fulcrum.W * Dot(fulcrum, l)
  {
  }

  /** Rotating by zero scales the line by the fulcrum's weight. */
  lemma RotateByZero(m: MathLib, l: Line2, fulcrum: Point2)
    requires Lawful(m)
    ensures RotateAbout(m, l, fulcrum, 0.0) == Scale(fulcrum.W, l)
  {
  }

  /** Reflecting twice in the same axis gives the line back, scaled by the square of the
      axis's squared weight. */
  lemma MirrorTwice(l: Line2, axis: Line2)
    ensures MirrorAbout(MirrorAbout(l, axis), axis)
            == Scale((axis.A * axis.A + axis.B * axis.B) * (axis.A * axis.A + axis.B * axis.B), l)
  {
    var l1 := MirrorAbout(l, axis);
    MirrorTwiceA(axis.A, axis.B, l.A, l.B, l1.A, l1.B);
    MirrorTwiceB(axis.A, axis.B, l.A, l.B, l1.A, l1.B);
    MirrorTwiceC(axis.A, axis.B, axis.C, l.A, l.B, l.C, l1.A, l1.B, l1.C);
  }

  /** The axis reflects onto itself, scaled by its squared weight. */
  lemma MirrorKeepsAxis(axis: Line2)
    ensures MirrorAbout(axis, axis) == Scale(WeightSqr(axis), axis)
  {
  }

  /** Under the square-root law, `GetPoint` is `GetPointAlong`. */
  lemma GetPointIsGetPointAlong(m: MathLib, l: Line2, t: real)
    requires Lawful(m)
    ensures GetPoint(m, l, t) == GetPointAlong(m, l, t)
  {
    WeightLaw(m, l);
  }

  /** The distance to the line is the absolute signed distance. */
  lemma DistanceIsAbsSignedDistance(m: MathLib, l: Line2, p: Point2)
    requires Lawful(m) && IsFinite(l) && P.IsFinite(p)
    ensures Weight(m, l) != 0.0
    ensures DistanceTo(m, l, p) == Abs(SignedDistanceTo(m, l, p))
  {
    WeightPositive(m, l);
    DistanceIsAbsQuotient(m, l, p);
    SignedDistanceValue(m, l, p);
  }

  lemma SignedDistanceValue(m: MathLib, l: Line2, p: Point2)
    requires Weight(m, l) != 0.0 && P.IsFinite(p)
    ensures SignedDistanceTo(m, l, p) == Dot(p, l) / (Weight(m, l) * p.W)
  {
  }

  /** The distance to a line is the absolute incidence value over both weights. */
  lemma DistanceIsAbsQuotient(m: MathLib, l: Line2, p: Point2)
    requires Lawful(m) && IsFinite(l) && P.IsFinite(p)
    ensures Weight(m, l) * p.W != 0.0
    ensures DistanceTo(m, l, p) == Abs(Dot(p, l) / (Weight(m, l) * p.W))
  {
    DistanceIsScaledWeight(m, l, p);
    RescaleByLineWeight(m, l, p, DistanceTo(m, l, p));
  }

  /** Dividing by the squared weight and multiplying by the weight divides by the weight. */
  lemma RescaleByLineWeight(m: MathLib, l: Line2, p: Point2, dist: real)
    requires Lawful(m) && IsFinite(l) && P.IsFinite(p) && WeightSqr(l) * p.W != 0.0
    requires dist == Abs(Dot(p, l) / (WeightSqr(l) * p.W)) * Weight(m, l)
    ensures Weight(m, l) * p.W != 0.0
    ensures dist == Abs(Dot(p, l) / (Weight(m, l) * p.W))
  {
    WeightPositive(m, l);
    WeightLaw(m, l);
    RescaleByWeight(Dot(p, l), WeightSqr(l), Weight(m, l), p.W);
  }

  lemma DistanceIsScaledWeight(m: MathLib, l: Line2, p: Point2)
    requires Lawful(m) && IsFinite(l) && P.IsFinite(p)
    ensures WeightSqr(l) * p.W != 0.0
    ensures DistanceTo(m, l, p) == Abs(Dot(p, l) / (WeightSqr(l) * p.W)) * Weight(m, l)
  {
    var n := V.Vector2(l.A, l.B);
    var k := Dot(p, l) / (WeightSqr(l) * p.W);
    FootDisplacement(l, p);
    V.LengthOfScaled(m, k, n);
    assert V.LengthSquared(n) == WeightSqr(l);
    V.LengthUnfold(m, n);
    WeightUnfold(m, l);
  }

  /** `|d / (w*w*z)| * w == |d / (w*z)|` for a positive `w`. */
  lemma RescaleByWeight(d: real, s: real, w: real, z: real)
    requires 0.0 < w && z != 0.0 && s == w * w
    ensures w * z != 0.0 && s * z != 0.0
    ensures Abs(d / (s * z)) * w == Abs(d / (w * z))
  {
    ProductNonZero(w, z);
    PositiveSquare(w, s);
    ProductNonZero(s, z);
    QuotientRescale(d, s, w, z);
    AbsOfPositiveMultiple(d / (s * z), w);
  }

  lemma QuotientRescale(d: real, s: real, w: real, z: real)
    requires w * z != 0.0 && s * z != 0.0 && s == w * w
    ensures d / (s * z) * w == d / (w * z)
  {
  }

  /** The written parallel distance misplaces a point: for the line `2y = 0` through
      `(0, 0)` and `(2, 0)`, `GetPointAlong` of the written distance of `(2, 0)` is `(1, 0)`. */
  lemma ParallelDistanceAsWrittenMisplaces(m: MathLib)
    requires Lawful(m)
    ensures ParallelDistanceToAsWritten(Line2(0.0, 2.0, 0.0), Point2(2.0, 0.0, 1.0)) == 1.0
    ensures P.AsVector(GetPointAlong(m, Line2(0.0, 2.0, 0.0), 1.0)) == V.Vector2(1.0, 0.0)
    ensures P.AsVector(Point2(2.0, 0.0, 1.0)) == V.Vector2(2.0, 0.0)
  {
    SqrtUnique(m, 4.0, 2.0);
    StepOneAlongDoubledXAxis(m);
    assert P.AsVector(Point2(4.0, 0.0, 4.0)) == V.Vector2(1.0, 0.0);
  }

  /** `GetPointFrom` as written does not come back to a point of the line when stepping
      zero: from `(2, 0)` on the line `2y = 0` it gives `(1, 0)`. */
  lemma GetPointFromAsWrittenMisplaces(m: MathLib)
    requires Lawful(m)
    ensures P.AsVector(GetPointFromAsWritten(m, Line2(0.0, 2.0, 0.0), Point2(2.0, 0.0, 1.0), 0.0))
            == V.Vector2(1.0, 0.0)
  {
    ParallelDistanceAsWrittenMisplaces(m);
  }

  /** `GetPointAlong(1)` on the line `2y = 0`, given the square root of four. */
  lemma StepOneAlongDoubledXAxis(m: MathLib)
    requires Sqrt(m, 4.0) == 2.0
    ensures GetPointAlong(m, Line2(0.0, 2.0, 0.0), 1.0) == Point2(4.0, 0.0, 4.0)
  {
  }

  /** With the intended parallel distance, stepping zero from a point of the line gives
      back the same location. */
  lemma GetPointFromZeroIsPoint(m: MathLib, l: Line2, p: Point2)
    requires Lawful(m) && IsFinite(l) && P.IsFinite(p) && Dot(p, l) == 0.0
    ensures Weight(m, l) != 0.0
    ensures P.IsFinite(GetPointFrom(m, l, p, 0.0))
    ensures P.IsCoincident(GetPointFrom(m, l, p, 0.0), p)
  {
    WeightPositive(m, l);
    var w := Weight(m, l);
    var t := ParallelDistanceTo(m, l, p);
    var q := GetPointFrom(m, l, p, 0.0);
    assert q == GetPointAlong(m, l, t);
    assert q == Point2(l.B * t * w - l.A * l.C, -l.A * t * w - l.B * l.C, l.A * l.A + l.B * l.B);
    assert t * (w * p.W) == l.B * p.U - l.A * p.V;
    WeightSqrPositive(l);
    WeightLaw(m, l);
    ParallelStep(l.A, l.B, l.C, p.U, p.V, p.W, w, t);
    P.CoincidentIffProportional(q, p);
  }

  /** The coordinates of `GetPointAlong(t)` are those of `p` scaled by `(a*a + b*b) / w`. */
  lemma ParallelStep(a: real, b: real, c: real, u: real, v: real, w: real, ab: real, t: real)
    requires w != 0.0 && ab * ab == a * a + b * b
    requires a * u + b * v + c * w == 0.0
    requires t * (ab * w) == b * u - a * v
    ensures (b * t * ab - a * c) * w == u * (a * a + b * b)
    ensures (-a * t * ab - b * c) * w == v * (a * a + b * b)
  {
    assert c * w == -a * u - b * v;
    assert t * ab * w == b * u - a * v;
    calc {
      (b * t * ab - a * c) * w;
      b * (t * ab * w) - a * (c * w);
      b * (b * u - a * v) - a * (-a * u - b * v);
      u * (a * a + b * b);
    }
    calc {
      (-a * t * ab - b * c) * w;
      -a * (t * ab * w) - b * (c * w);
      -a * (b * u - a * v) - b * (-a * u - b * v);
      v * (a * a + b * b);
    }
  }

  // ---------------------------------------------------------------------------
  // Helpers

  /** The foot of a finite point on a finite line is finite. */
  lemma FootIsFinite(l: Line2, p: Point2)
    requires P.IsFinite(p) && IsFinite(l)
    ensures P.IsFinite(GetClosestPoint(l, p))
  {
    ProductNonZero(WeightSqr(l), p.W);
  }

  /** The displacement from the foot to `p` is `Dot(p, l) / (WeightSqr * W)` times the normal. */
  lemma FootDisplacement(l: Line2, p: Point2)
    requires P.IsFinite(p) && IsFinite(l)
    ensures P.IsFinite(GetClosestPoint(l, p))
    ensures P.VectorTo(GetClosestPoint(l, p), p)
            == V.Scale(Dot(p, l) / (WeightSqr(l) * p.W), V.Vector2(l.A, l.B))
  {
    FootIsFinite(l, p);
    FootOffset(l, p);
  }

  /** Each Cartesian coordinate of `p` exceeds the foot's by the normal's component
      times `Dot(p, l) / (WeightSqr * W)`. */
  lemma FootOffset(l: Line2, p: Point2)
    requires P.IsFinite(p) && IsFinite(l)
    ensures P.IsFinite(GetClosestPoint(l, p))
    ensures P.AsVector(p).X - P.AsVector(GetClosestPoint(l, p)).X
            == Dot(p, l) / (WeightSqr(l) * p.W) * l.A
    ensures P.AsVector(p).Y - P.AsVector(GetClosestPoint(l, p)).Y
            == Dot(p, l) / (WeightSqr(l) * p.W) * l.B
  {
    FootIsFinite(l, p);
    FootCoordinates(l, p);
    FootOffsetU(l, p);
    FootOffsetV(l, p);
  }

  lemma FootOffsetU(l: Line2, p: Point2)
    requires P.IsFinite(p) && IsFinite(l)
    requires GetClosestPoint(l, p).U == WeightSqr(l) * p.U - l.A * Dot(p, l)
    ensures P.IsFinite(GetClosestPoint(l, p))
    ensures p.U / p.W - GetClosestPoint(l, p).U / GetClosestPoint(l, p).W
            == Dot(p, l) / (WeightSqr(l) * p.W) * l.A
  {
    FootIsFinite(l, p);
    var q := GetClosestPoint(l, p);
    FootComponent(p.U, p.W, WeightSqr(l), l.A, Dot(p, l), q.U, q.W);
  }

  lemma FootOffsetV(l: Line2, p: Point2)
    requires P.IsFinite(p) && IsFinite(l)
    requires GetClosestPoint(l, p).V == WeightSqr(l) * p.V - l.B * Dot(p, l)
    ensures P.IsFinite(GetClosestPoint(l, p))
    ensures p.V / p.W - GetClosestPoint(l, p).V / GetClosestPoint(l, p).W
            == Dot(p, l) / (WeightSqr(l) * p.W) * l.B
  {
    FootIsFinite(l, p);
    var q := GetClosestPoint(l, p);
    FootComponent(p.V, p.W, WeightSqr(l), l.B, Dot(p, l), q.V, q.W);
  }

  /** The foot's coordinates as `p` scaled by the squared weight, less the normal scaled
      by the incidence value. */
  lemma FootCoordinates(l: Line2, p: Point2)
    ensures GetClosestPoint(l, p).U == WeightSqr(l) * p.U - l.A * Dot(p, l)
    ensures GetClosestPoint(l, p).V == WeightSqr(l) * p.V - l.B * Dot(p, l)
  {
    FootPolynomial(l, p);
  }

  lemma FootPolynomial(l: Line2, p: Point2)
    ensures l.B * l.B * p.U - l.A * (l.B * p.V + l.C * p.W)
            == (l.A * l.A + l.B * l.B) * p.U - l.A * (l.A * p.U + l.B * p.V + l.C * p.W)
    ensures l.A * l.A * p.V - l.B * (l.A * p.U + l.C * p.W)
            == (l.A * l.A + l.B * l.B) * p.V - l.B * (l.A * p.U + l.B * p.V + l.C * p.W)
  {
  }

  /** One coordinate of the foot displacement, over plain numbers. */
  lemma FootComponent(u: real, w: real, s: real, a: real, d: real, qu: real, qw: real)
    requires w != 0.0 && s != 0.0 && qw == s * w && qu == s * u - a * d
    ensures u / w - qu / qw == d / (s * w) * a
  {
    assert (s * u) / (s * w) == u / w;
    assert (s * u - a * d) / (s * w) == (s * u) / (s * w) - (a * d) / (s * w);
  }

  /** The first coefficient after reflecting twice, over plain numbers. */
  lemma MirrorTwiceA(oa: real, ob: real, a: real, b: real, a1: real, b1: real)
    requires a1 == a * (oa * oa - ob * ob) + 2.0 * oa * ob * b
    requires b1 == 2.0 * oa * ob * a + b * (ob * ob - oa * oa)
    ensures a1 * (oa * oa - ob * ob) + 2.0 * oa * ob * b1 == (oa * oa + ob * ob) * (oa * oa + ob * ob) * a
  {
  }

  /** The second coefficient after reflecting twice, over plain numbers. */
  lemma MirrorTwiceB(oa: real, ob: real, a: real, b: real, a1: real, b1: real)
    requires a1 == a * (oa * oa - ob * ob) + 2.0 * oa * ob * b
    requires b1 == 2.0 * oa * ob * a + b * (ob * ob - oa * oa)
    ensures 2.0 * oa * ob * a1 + b1 * (ob * ob - oa * oa) == (oa * oa + ob * ob) * (oa * oa + ob * ob) * b
  {
  }

  /** The last coefficient after reflecting twice, over plain numbers. */
  lemma MirrorTwiceC(oa: real, ob: real, oc: real, a: real, b: real, c: real, a1: real, b1: real, c1: real)
    requires a1 == a * (oa * oa - ob * ob) + 2.0 * oa * ob * b
    requires b1 == 2.0 * oa * ob * a + b * (ob * ob - oa * oa)
    requires c1 == 2.0 * oa * oc * a + 2.0 * ob * oc * b - c * (oa * oa + ob * ob)
    ensures 2.0 * oa * oc * a1 + 2.0 * ob * oc * b1 - c1 * (oa * oa + ob * ob)
            == (oa * oa + ob * ob) * (oa * oa + ob * ob) * c
  {
    assert 2.0 * oa * oc * a1 + 2.0 * ob * oc * b1 == 2.0 * oc * (oa * oa + ob * ob) * (oa * a + ob * b);
  }

  /** With weight one, `ProjectedPointWith` is the foot of the perpendicular. */
  lemma ProjectedWithUnitWeight(l: Line2, p: Point2)
    requires l.A * l.A + l.B * l.B == 1.0
    ensures ProjectedPointWith(l, p, 1.0) == GetClosestPoint(l, p)
  {
  }

  /** `ProjectedPointWith` is on the line whenever `ab` squares to the squared weight. */
  lemma ProjectedWithOnLine(l: Line2, p: Point2, ab: real)
    requires ab * ab == l.A * l.A + l.B * l.B
    ensures Dot(ProjectedPointWith(l, p, ab), l) == 0.0
  {
    ProjectedOnLine(l.A, l.B, l.C, p.U, p.V, p.W, ab);
  }

  lemma ProjectedOnLine(a: real, b: real, c: real, u: real, v: real, w: real, ab: real)
    requires ab * ab == a * a + b * b
    ensures a * (b * b * u - a * (ab * c * w + b * v)) + b * (a * a * v - b * (a * u + ab * c * w))
            + c * (w * ab * ab * ab) == 0.0
  {
    assert a * (b * b * u - a * (ab * c * w + b * v)) + b * (a * a * v - b * (a * u + ab * c * w))
           == -(ab * c * w) * (a * a + b * b);
    assert c * (w * ab * ab * ab) == (ab * c * w) * (ab * ab);
  }
}
