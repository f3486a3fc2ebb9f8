/**
 * `JA.Line2`, the older homogeneous line `(a, b, c)` of the points with
 * `a*x + b*y + c == 0`, and `JA.LineSegment2`. The triple is `Homogeneous.Line2`;
 * formulas the older class shares with `JA.Numerics.Geometry.Line2` are taken from
 * `Lines`, and the contracts relate the two classes where they differ in form.
 */
module LegacyLines {
  import opened RealMath
  import opened Outcomes
  import opened Homogeneous
  import V = Vectors
  import P = Points
  import L = Lines
  import LP = LegacyPoints

  // ---------------------------------------------------------------------------
  // Factories

  /** `Line2.FromPosition(Vector2)`: the line through `r` square to the direction of
      `r` from the origin. */
  function FromPosition(r: V.Vector2): (l: Line2)
    ensures Dot(LP.FromLocation(r), l) == 0.0
    ensures l == L.Negate(L.ThroughPointAwayFromOrigin(LP.FromLocation(r)))
  {
    Line2(r.X, r.Y, -V.Dot(r, r))
  }

  /** `Line2.FromPosition(Point2)`: the same line for a homogeneous point. */
  function FromPositionPoint(p: Point2): (l: Line2)
    ensures Dot(p, l) == 0.0
    ensures l == L.Negate(L.ThroughPointAwayFromOrigin(p))
  {
    Line2(p.U * p.W, p.V * p.W, -p.U * p.U - p.V * p.V)
  }

  /** `Line2.FromTwoPoints(Vector2, Vector2)`: the line through two locations. */
  function FromTwoLocations(r1: V.Vector2, r2: V.Vector2): (l: Line2)
    ensures Dot(LP.FromLocation(r1), l) == 0.0 && Dot(LP.FromLocation(r2), l) == 0.0
    ensures l == FromTwoPoints(LP.FromLocation(r1), LP.FromLocation(r2))
  {
    Line2(r1.Y - r2.Y, r2.X - r1.X, r1.X * r2.Y - r1.Y * r2.X)
  }

  /** `Line2.FromPointAndDirection(Vector2, Vector2)`: the line through `r` along `e`. */
  function FromLocationAndDirection(r: V.Vector2, e: V.Vector2): (l: Line2)
    ensures Dot(LP.FromLocation(r), l) == 0.0
    ensures Dot(LP.FromLocation(V.Add(r, e)), l) == 0.0
    ensures l == FromPointAndDirection(LP.FromLocation(r), e)
  {
    Line2(-e.Y, e.X, r.X * e.Y - r.Y * e.X)
  }

  /** `Line2.FromTwoPoints(Point2, Point2)`: the cross product of the two points. */
  function FromTwoPoints(p: Point2, q: Point2): (l: Line2)
    ensures Dot(p, l) == 0.0 && Dot(q, l) == 0.0
    ensures l == L.Join(p, q)
  {
    Line2(p.V * q.W - p.W * q.V, p.W * q.U - p.U * q.W, p.U * q.V - p.V * q.U)
  }

  /** `Line2.FromPointAndDirection(Point2, Vector2)`: the line through `p` and through
      `p` stepped by `e`. */
  function FromPointAndDirection(p: Point2, e: V.Vector2): (l: Line2)
    ensures Dot(p, l) == 0.0 && Dot(LP.StepBy(p, e), l) == 0.0
  {
    StepIncidence(p, e);
    Line2(-e.Y * p.W, e.X * p.W, p.U * e.Y - p.V * e.X)
  }

  /** `Line2.LinearCombination`: `wA*A + wB*B`, a line of the pencil through the meet
      of `A` and `B`. */
  function LinearCombination(A: Line2, B: Line2, wA: real, wB: real): (r: Line2)
    ensures forall p: Point2 :: Dot(p, r) == wA * Dot(p, A) + wB * Dot(p, B)
  {
    Line2(wA * A.A + wB * B.A, wA * A.B + wB * B.B, wA * A.C + wB * B.C)
  }

  // ---------------------------------------------------------------------------
  // Properties of a line

  /** `Line2.Position`: the point of the line closest to the origin. */
  function Position(l: Line2): (r: Point2)
    ensures Dot(r, l) == 0.0
    ensures r == L.GetClosestPoint(l, P.Origin)
  {
    var ab2 := l.A * l.A + l.B * l.B;
    Point2(-l.A * l.C, -l.B * l.C, ab2)
  }

  /** `Line2.Distance`: the signed distance of the origin from the line. */
  function Distance(m: MathLib, l: Line2): (r: real)
    requires Weight(m, l) != 0.0
    ensures r * Weight(m, l) == l.C
    ensures r == L.SignedDistanceTo(m, l, P.Origin)
  {
    l.C / Weight(m, l)
  }

  /** `Line2.Direction`: the unit vector along the line. */
  function Direction(m: MathLib, l: Line2): (r: V.Vector2)
    requires Weight(m, l) != 0.0
    ensures r == L.GetDirection(m, l)
    ensures r.X * l.A + r.Y * l.B == 0.0
  {
    V.Vector2(l.B / Weight(m, l), -l.A / Weight(m, l))
  }

  /** `Line2.Normal`: the unit normal `(a, b) / |(a, b)|`. */
  function Normal(m: MathLib, l: Line2): (r: V.Vector2)
    requires Weight(m, l) != 0.0
    ensures V.Scale(Weight(m, l), r) == V.Vector2(l.A, l.B)
    ensures Lawful(m) ==> V.LengthSquared(r) == 1.0
  {
    var r := V.Vector2(l.A / Weight(m, l), l.B / Weight(m, l));
    assert Lawful(m) ==> V.LengthSquared(r) == 1.0 by {
      if Lawful(m) {
        WeightLaw(m, l);
        V.UnitAfterDivision(V.Vector2(l.A, l.B), Weight(m, l));
      }
    }
    r
  }

  // ---------------------------------------------------------------------------
  // Points of a line and distances

  /** `Line2.GetPointAlong`: the point `distance` along the line from `Position`; the
      same formula as the newer class. */
  function GetPointAlong(m: MathLib, l: Line2, distance: real): (r: Point2)
    ensures Dot(r, l) == 0.0
    ensures r.W == WeightSqr(l)
  {
    L.GetPointAlong(m, l, distance)
  }

  /** `Line2.ParallelDistanceTo` as written: divides by the squared weight `a*a + b*b`. */
  function ParallelDistanceToAsWritten(l: Line2, p: Point2): (r: real)
    requires WeightSqr(l) != 0.0 && P.IsFinite(p)
    ensures r * (WeightSqr(l) * p.W) == l.B * p.U - l.A * p.V
  {
    ProductNonZero(WeightSqr(l), p.W);
    (l.B * p.U - l.A * p.V) / (WeightSqr(l) * p.W)
  }

  /** `Line2.ParallelDistanceTo` as evidently intended: divides by the weight, like
      `PerpendicularDistanceTo`, so that it inverts `GetPointAlong`. */
  function ParallelDistanceTo(m: MathLib, l: Line2, p: Point2): (r: real)
    requires Weight(m, l) != 0.0 && P.IsFinite(p)
    ensures r * (Weight(m, l) * p.W) == l.B * p.U - l.A * p.V
  {
    L.ParallelDistanceTo(m, l, p)
  }

  /** `Line2.GetPointFrom` as written, on the written parallel distance. */
  function GetPointFromAsWritten(m: MathLib, l: Line2, p: Point2, distance: real): (r: Point2)
    requires WeightSqr(l) != 0.0 && P.IsFinite(p)
    ensures Dot(r, l) == 0.0
    ensures r == L.GetPointFromAsWritten(m, l, p, distance)
  {
    GetPointAlong(m, l, ParallelDistanceToAsWritten(l, p) + distance)
  }

  /** `Line2.GetPointFrom` on the intended parallel distance. */
  function GetPointFrom(m: MathLib, l: Line2, p: Point2, distance: real): (r: Point2)
    requires Weight(m, l) != 0.0 && P.IsFinite(p)
    ensures Dot(r, l) == 0.0
    ensures r == L.GetPointFrom(m, l, p, distance)
  {
    GetPointAlong(m, l, ParallelDistanceTo(m, l, p) + distance)
  }

  /** `Line2.PerpendicularDistanceTo`: the incidence value over both weights. */
  function PerpendicularDistanceTo(m: MathLib, l: Line2, p: Point2): (r: real)
    requires Weight(m, l) != 0.0 && P.IsFinite(p)
    ensures r == L.SignedDistanceTo(m, l, p)
    ensures r == 0.0 <==> Dot(p, l) == 0.0
  {
    Dot(p, l) / (Weight(m, l) * p.W)
  }

  // ---------------------------------------------------------------------------
  // Lines and points derived from a line

  /** `Line2.LineParallelThrough`: the parallel line through `p`. */
  function LineParallelThrough(l: Line2, p: Point2): (r: Line2)
    ensures Dot(p, r) == 0.0
    ensures r.A * l.B == r.B * l.A
    ensures r == L.ParallelThrough(l, p)
  {
    Line2(l.A * p.W, l.B * p.W, -l.A * p.U - l.B * p.V)
  }

  /** `Line2.LinePerpendicularThrough`: the line through `p` square to this one. */
  function LinePerpendicularThrough(l: Line2, p: Point2): (r: Line2)
    ensures Dot(p, r) == 0.0
    ensures r.A * l.A + r.B * l.B == 0.0
    ensures r == L.LinePerpendicularThrough(l, p)
  {
    Line2(-l.B * p.W, l.A * p.W, l.B * p.U - l.A * p.V)
  }

  /** `Line2.ProjectedPoint`: the same formula as the newer class; a point of the line,
      the foot of `p` when the normal has unit length. */
  function ProjectedPoint(m: MathLib, l: Line2, p: Point2): (r: Point2)
    ensures Lawful(m) ==> Dot(r, l) == 0.0
    ensures Lawful(m) && WeightSqr(l) == 1.0 ==> r == L.GetClosestPoint(l, p)
  {
    L.ProjectedPoint(m, l, p)
  }

  /** `Line2.IntersectWithLine`: the point common to both lines. */
  function IntersectWithLine(l: Line2, other: Line2): (r: Point2)
    ensures Dot(r, l) == 0.0 && Dot(r, other) == 0.0
    ensures r == LP.Meet(l, other)
  {
    Point2(l.B * other.C - other.B * l.C,
           other.A * l.C - l.A * other.C,
           l.A * other.B - other.A * l.B)
  }

  /** `Line2.Offset(float)`: the parallel line moved `distance` against the normal. */
  function Offset(m: MathLib, l: Line2, distance: real): (r: Line2)
    ensures r.A == l.A && r.B == l.B
  {
    L.Offset(m, l, distance)
  }

  /** `Line2.RotateAbout`: the same formula as the newer class; the rotated line is
      scaled by the fulcrum's weight. */
  function RotateAbout(m: MathLib, l: Line2, fulcrum: Point2, angle: real): (r: Line2)
    ensures Dot(fulcrum, r) == fulcrum.W * Dot(fulcrum, l)
  {
    L.RotatedLineAtFulcrum(m, l, fulcrum, angle);
    L.RotateAbout(m, l, fulcrum, angle)
  }

  /** `Line2.MirrorAbout`: the same formula as the newer class; the reflection scaled by
      the axis's squared weight. */
  function MirrorAbout(l: Line2, axis: Line2): Line2 {
    L.MirrorAbout(l, axis)
  }

  // ---------------------------------------------------------------------------
  // Operators

  /** `Line2.Scale` and `operator *(float, Line2)`. */
  function Scale(factor: real, l: Line2): (r: Line2)
    ensures forall p: Point2 :: Dot(p, r) == factor * Dot(p, l)
  {
    Line2(factor * l.A, factor * l.B, factor * l.C)
  }

  /** `Line2.Flip`: negates the normal and keeps `c`, the line reflected through the
      origin. */
  function Flip(l: Line2): (r: Line2)
    ensures forall p: Point2 :: Dot(LP.Flip(p), r) == Dot(p, l)
  {
    Line2(-l.A, -l.B, l.C)
  }

  /** `Line2.Add` and `operator +(Line2, Line2)`. */
  function Add(l: Line2, k: Line2): (r: Line2)
    ensures forall p: Point2 :: Dot(p, r) == Dot(p, l) + Dot(p, k)
  {
    Line2(l.A + k.A, l.B + k.B, l.C + k.C)
  }

  /** `operator -(Line2, Line2)`, written in the source as `l.Add(k.Scale(-1))`. */
  function Subtract(l: Line2, k: Line2): (r: Line2)
    ensures r == L.Subtract(l, k)
    ensures forall p: Point2 :: Dot(p, r) == Dot(p, l) - Dot(p, k)
  {
    Add(l, Scale(-1.0, k))
  }

  /** `Line2.Offset(Line2)`: the triple `(a, b) / c + (a', b') / c'` over `c * c'`. */
  function OffsetBy(l: Line2, k: Line2): Line2 {
    Line2(l.A * k.C + k.A * l.C, l.B * k.C + k.B * l.C, l.C * k.C)
  }

  /** `Line2.Relative(Line2)`: the triple `(a, b) / c - (a', b') / c'` over `c * c'`. */
  function Relative(l: Line2, k: Line2): Line2 {
    Line2(l.A * k.C - k.A * l.C, l.B * k.C - k.B * l.C, l.C * k.C)
  }

  /** `Line2.Normalize` as written: rebuilt from `Position` and `Direction`, which
      gives the line scaled by its weight rather than divided by it. */
  function NormalizeAsWritten(m: MathLib, l: Line2): Line2
    requires Weight(m, l) != 0.0
  {
    FromPointAndDirection(Position(l), Direction(m, l))
  }

  /** `Line2.Normalize` as evidently intended: rebuilt from `Position` normalized to
      weight one, which divides the line by its weight. */
  function Normalize(m: MathLib, l: Line2): Line2
    requires L.IsFinite(l) && Weight(m, l) != 0.0
  {
    FromPointAndDirection(P.Normalized(Position(l)), Direction(m, l))
  }

  // ---------------------------------------------------------------------------
  // Indexers and equality

  /** `Line2.ToArray`: the three coefficients in order. */
  function ToArray(l: Line2): (r: seq<real>)
    ensures |r| == 3 && Line2(r[0], r[1], r[2]) == l
  {
    [l.A, l.B, l.C]
  }

  /** `Line2[int]`: coefficient `index`, or the exception for any other index. */
  function Item(l: Line2, index: int): (r: Result<real, LP.IndexError>)
    ensures r.Success? <==> 0 <= index < 3
    ensures r.Success? ==> r.value == ToArray(l)[index]
  {
    match index
    case 0 => Success(l.A)
    case 1 => Success(l.B)
    case 2 => Success(l.C)
    case _ => Failure(LP.IndexOutOfRange)
  }

  /** `Line2[int, int]`: a column vector, so only column zero exists. */
  function ItemAt(l: Line2, row: int, column: int): (r: Result<real, LP.IndexError>)
    ensures r.Success? <==> column == 0 && 0 <= row < 3
    ensures column == 0 ==> r == Item(l, row)
  {
    if column == 0 then Item(l, row) else Failure(LP.IndexOutOfRange)
  }

  /** `Line2.Equals(Line2)`: equal coefficients. */
  function Equals(l: Line2, k: Line2): (r: bool)
    ensures r <==> l == k
  {
    l.A == k.A && l.B == k.B && l.C == k.C
  }

  // ---------------------------------------------------------------------------
  // LineSegment2

  /** `LineSegment2`: the line through two locations and the parallel distances of
      its ends. */
  datatype LineSegment = LineSegment(line: Line2, t1: real, t2: real)

  /** The `LineSegment2` constructor as written, on the written parallel distance. Two
      equal locations give the empty line, where the source divides zero by zero. */
  function SegmentAsWritten(r1: V.Vector2, r2: V.Vector2): (s: LineSegment)
    requires r1 != r2
    ensures s.line == FromTwoLocations(r1, r2) && L.IsFinite(s.line)
  {
    var line := FromTwoLocations(r1, r2);
    SegmentLineIsFinite(r1, r2);
    LineSegment(line,
                ParallelDistanceToAsWritten(line, LP.FromLocation(r1)),
                ParallelDistanceToAsWritten(line, LP.FromLocation(r2)))
  }

  /** The `LineSegment2` constructor on the intended parallel distance. */
  function Segment(m: MathLib, r1: V.Vector2, r2: V.Vector2): (s: LineSegment)
    requires Lawful(m) && r1 != r2
    ensures s.line == FromTwoLocations(r1, r2) && Weight(m, s.line) != 0.0
  {
    var line := FromTwoLocations(r1, r2);
    SegmentLineIsFinite(r1, r2);
    WeightPositive(m, line);
    LineSegment(line,
                ParallelDistanceTo(m, line, LP.FromLocation(r1)),
                ParallelDistanceTo(m, line, LP.FromLocation(r2)))
  }

  /** `LineSegment2.Start`. */
  function Start(m: MathLib, s: LineSegment): (r: Point2)
    ensures Dot(r, s.line) == 0.0
  {
    GetPointAlong(m, s.line, s.t1)
  }

  /** `LineSegment2.End`. */
  function End(m: MathLib, s: LineSegment): (r: Point2)
    ensures Dot(r, s.line) == 0.0
  {
    GetPointAlong(m, s.line, s.t2)
  }

  // ---------------------------------------------------------------------------
  // Properties

  /** The line through two distinct locations has a normal. */
  lemma SegmentLineIsFinite(r1: V.Vector2, r2: V.Vector2)
    requires r1 != r2
    ensures L.IsFinite(FromTwoLocations(r1, r2))
  {
    var l := FromTwoLocations(r1, r2);
    assert l.A != 0.0 || l.B != 0.0;
    WeightSqrPositive(l);
  }

  /** `Line2.Ray` of the newer class is the line through a point along a direction,
      scaled by the point's weight. */
  lemma RayIsScaledLine(p: Point2, e: V.Vector2)
    ensures L.Ray(p, e) == L.Scale(p.W, FromPointAndDirection(p, e))
  {
    var q := P.AddVector(p, e);
    assert q == Point2(p.U + p.W * e.X, p.V + p.W * e.Y, p.W);
    assert p.V * q.W - p.W * q.V == p.W * (-e.Y * p.W);
    assert p.W * q.U - p.U * q.W == p.W * (e.X * p.W);
    assert p.U * q.V - p.V * q.U == p.W * (p.U * e.Y - p.V * e.X);
  }

  lemma StepIncidence(p: Point2, e: V.Vector2)
    ensures Dot(LP.StepBy(p, e), Line2(-e.Y * p.W, e.X * p.W, p.U * e.Y - p.V * e.X)) == 0.0
  {
    var q := LP.StepBy(p, e);
    assert q.U == p.U + p.W * e.X && q.V == p.V + p.W * e.Y && q.W == p.W;
  }

  /** Both `FromPosition` overloads give the same line for a location of weight one. */
  lemma FromPositionOverloadsAgree(r: V.Vector2)
    ensures FromPositionPoint(LP.FromLocation(r)) == FromPosition(r)
  {
  }

  /** Offsetting a line by `d` lowers the signed distance of the origin by `d`. */
  lemma DistanceAfterOffset(m: MathLib, l: Line2, d: real)
    requires Weight(m, l) != 0.0
    ensures Weight(m, Offset(m, l, d)) == Weight(m, l)
    ensures Distance(m, Offset(m, l, d)) == Distance(m, l) - d
  {
    L.OffsetShiftsSignedDistance(m, l, d, P.Origin);
  }

  /** Offsetting a line by `d` lowers the perpendicular distance of every finite point
      by `d`. */
  lemma PerpendicularDistanceAfterOffset(m: MathLib, l: Line2, d: real, p: Point2)
    requires Weight(m, l) != 0.0 && P.IsFinite(p)
    ensures Weight(m, Offset(m, l, d)) == Weight(m, l)
    ensures PerpendicularDistanceTo(m, Offset(m, l, d), p) == PerpendicularDistanceTo(m, l, p) - d
  {
    L.OffsetShiftsSignedDistance(m, l, d, p);
  }

  /** `GetPointAlong` with the weight written as `Weight`. */
  lemma GetPointAlongUnfold(m: MathLib, l: Line2, d: real)
    ensures GetPointAlong(m, l, d)
            == Point2(l.B * d * Weight(m, l) - l.A * l.C, -l.A * d * Weight(m, l) - l.B * l.C, WeightSqr(l))
  {
  }

  /** The coordinate along the line of the point `d` along it, before division. */
  lemma AlongNumerator(m: MathLib, l: Line2, d: real)
    ensures l.B * GetPointAlong(m, l, d).U - l.A * GetPointAlong(m, l, d).V
            == d * Weight(m, l) * WeightSqr(l)
  {
    var q := GetPointAlong(m, l, d);
    GetPointAlongUnfold(m, l, d);
    AlongCoordinates(l.A, l.B, l.C, d, Weight(m, l), WeightSqr(l), q.U, q.V);
  }

  /** The intended parallel distance of the point `d` along the line is `d`. */
  lemma ParallelDistanceInvertsGetPointAlong(m: MathLib, l: Line2, d: real)
    requires Lawful(m) && L.IsFinite(l)
    ensures Weight(m, l) != 0.0 && P.IsFinite(GetPointAlong(m, l, d))
    ensures ParallelDistanceTo(m, l, GetPointAlong(m, l, d)) == d
  {
    WeightPositive(m, l);
    var q := GetPointAlong(m, l, d);
    AlongNumerator(m, l, d);
    ProductNonZero(Weight(m, l), WeightSqr(l));
    LP.CancelFactor(ParallelDistanceTo(m, l, q), d, Weight(m, l) * WeightSqr(l));
  }

  /** The written parallel distance of the point `d` along the line is `d` divided by
      the line's weight. */
  lemma ParallelDistanceAsWrittenDividesByWeight(m: MathLib, l: Line2, d: real)
    requires Lawful(m) && L.IsFinite(l)
    ensures P.IsFinite(GetPointAlong(m, l, d))
    ensures ParallelDistanceToAsWritten(l, GetPointAlong(m, l, d)) * Weight(m, l) == d
  {
    WeightLaw(m, l);
    var q := GetPointAlong(m, l, d);
    AlongNumerator(m, l, d);
    OverSquaredWeight(ParallelDistanceToAsWritten(l, q), d, Weight(m, l), WeightSqr(l));
  }

  /** `GetPointFrom` moves `distance` further along the line, measured by the intended
      parallel distance. */
  lemma GetPointFromAdvances(m: MathLib, l: Line2, p: Point2, distance: real)
    requires Lawful(m) && L.IsFinite(l) && P.IsFinite(p)
    ensures Weight(m, l) != 0.0 && P.IsFinite(GetPointFrom(m, l, p, distance))
    ensures ParallelDistanceTo(m, l, GetPointFrom(m, l, p, distance))
            == ParallelDistanceTo(m, l, p) + distance
  {
    WeightPositive(m, l);
    ParallelDistanceInvertsGetPointAlong(m, l, ParallelDistanceTo(m, l, p) + distance);
  }

  /** `b*u - a*v` at the point `d` along the line, over plain numbers. */
  lemma AlongCoordinates(a: real, b: real, c: real, d: real, w: real, s: real, u: real, v: real)
    requires s == a * a + b * b
    requires u == b * d * w - a * c && v == -a * d * w - b * c
    ensures b * u - a * v == d * w * s
  {
  }

  /** `r * w == d` for `r * (s*s) == d*w*s` and `s == w*w` non-zero. */
  lemma OverSquaredWeight(r: real, d: real, w: real, s: real)
    requires s != 0.0 && s == w * w && r * (s * s) == d * w * s
    ensures r * w == d
  {
    LP.CancelFactor(r * s, d * w, s);
    assert w != 0.0;
    LP.CancelFactor(r * w, d, w);
  }

  /** Rotating a point and a line about the same fulcrum by the same angle keeps their
      incidence value, scaled by the square of the fulcrum's weight: a point of the line
      rotates onto the rotated line. */
  lemma RotationKeepsIncidence(m: MathLib, p: Point2, l: Line2, fulcrum: Point2, angle: real)
    requires Lawful(m)
    ensures Dot(LP.RotateAbout(m, p, fulcrum, angle), RotateAbout(m, l, fulcrum, angle))
            == fulcrum.W * fulcrum.W * Dot(p, l)
  {
    var c, s := Cos(m, angle), Sin(m, angle);
    var n, G, N := c * c + s * s, l.A * fulcrum.U + l.B * fulcrum.V, l.A * p.U + l.B * p.V;
    RotationIncidence(p, l, fulcrum, c, s, n, G, N);
    TrigLaw(m, angle);
    RotatedUnit(fulcrum.W, p.W, G, l.C, N, n);
  }

  /** The rotated incidence once the squares of cosine and sine add up to one. */
  lemma RotatedUnit(w: real, W: real, G: real, C: real, N: real, n: real)
    requires n == 1.0
    ensures w * n * (w * N - W * G) + w * W * G + W * w * w * C == w * w * (N + C * W)
  {
  }

  /** The incidence of the rotation formulas for points and lines, for any cosine `c`
      and sine `s`. */
  lemma RotationIncidence(p: Point2, l: Line2, f: Point2, c: real, s: real, n: real, G: real, N: real)
    requires n == c * c + s * s
    requires G == l.A * f.U + l.B * f.V && N == l.A * p.U + l.B * p.V
    ensures Dot(LP.Rotation(p, f.U, f.V, f.W, c, s), L.Rotation(l, f, c, s))
            == f.W * n * (f.W * N - p.W * G) + f.W * p.W * G + p.W * f.W * f.W * l.C
  {
    var q, k := LP.Rotation(p, f.U, f.V, f.W, c, s), L.Rotation(l, f, c, s);
    RotatedIncidence(p.U, p.V, p.W, l.A, l.B, l.C, f.U, f.V, f.W, c, s, n, G, N,
                     q.U, q.V, q.W, k.A, k.B, k.C);
  }

  /** The incidence of a rotated point with a rotated line, over plain numbers, for any
      `n == c*c + s*s`. */
  lemma RotatedIncidence(U: real, V: real, W: real, a: real, b: real, C: real,
                         u: real, v: real, w: real, c: real, s: real, n: real, G: real, N: real,
                         U1: real, V1: real, W1: real, a1: real, b1: real, C1: real)
    requires n == c * c + s * s && G == a * u + b * v && N == a * U + b * V
    requires U1 == u * W + (U * w - u * W) * c - (V * w - v * W) * s
    requires V1 == v * W + (U * w - u * W) * s + (V * w - v * W) * c
    requires W1 == W * w
    requires a1 == w * (a * c - b * s) && b1 == w * (b * c + a * s)
    requires C1 == (b * u - a * v) * s - (a * u + b * v) * c + a * u + b * v + C * w
    ensures a1 * U1 + b1 * V1 + C1 * W1 == w * n * (w * N - W * G) + w * W * G + W * w * w * C
  {
    var dx, dy := U * w - u * W, V * w - v * W;
    var H := a * v - b * u;
    RotatedNormalPart(a, b, c, s, n, u, v, W, w, dx, dy, U1, V1, a1, b1);
    RotatedSum(U, V, W, a, b, C, w, c, s, n, G, N, H, a * dx + b * dy, U1, V1, W1, a1, b1, C1);
  }

  /** The last step of `RotatedIncidence`, over plain numbers. */
  lemma RotatedSum(U: real, V: real, W: real, a: real, b: real, C: real, w: real, c: real, s: real,
                   n: real, G: real, N: real, H: real, X: real,
                   U1: real, V1: real, W1: real, a1: real, b1: real, C1: real)
    requires U1 * a1 + V1 * b1 == w * (W * (c * G + s * H) + n * X)
    requires X == w * N - W * G
    requires C1 == -H * s - G * c + G + C * w && W1 == W * w
    ensures a1 * U1 + b1 * V1 + C1 * W1 == w * n * (w * N - W * G) + w * W * G + W * w * w * C
  {
  }

  /** The normal part of the rotated incidence, over plain numbers. */
  lemma RotatedNormalPart(a: real, b: real, c: real, s: real, n: real, u: real, v: real, W: real,
                          w: real, dx: real, dy: real, U1: real, V1: real, a1: real, b1: real)
    requires n == c * c + s * s
    requires U1 == u * W + dx * c - dy * s && V1 == v * W + dx * s + dy * c
    requires a1 == w * (a * c - b * s) && b1 == w * (b * c + a * s)
    ensures U1 * a1 + V1 * b1
            == w * (W * (c * (a * u + b * v) + s * (a * v - b * u)) + n * (a * dx + b * dy))
  {
    RotatedNormalUnscaled(a, b, c, s, n, u, v, W, dx, dy, U1, V1);
  }

  lemma RotatedNormalUnscaled(a: real, b: real, c: real, s: real, n: real, u: real, v: real, W: real,
                              dx: real, dy: real, U1: real, V1: real)
    requires n == c * c + s * s
    requires U1 == u * W + dx * c - dy * s && V1 == v * W + dx * s + dy * c
    ensures U1 * (a * c - b * s) + V1 * (b * c + a * s)
            == W * (c * (a * u + b * v) + s * (a * v - b * u)) + n * (a * dx + b * dy)
  {
    assert (a * c - b * s) * (dx * c - dy * s) + (b * c + a * s) * (dx * s + dy * c)
           == (a * dx + b * dy) * (c * c + s * s);
  }

  /** Reflecting a point and a line in the same axis negates their incidence value,
      scaled by the square of the axis's squared weight: a point of the line reflects
      onto the reflected line. */
  lemma MirrorKeepsIncidence(p: Point2, l: Line2, axis: Line2)
    ensures Dot(LP.MirrorAbout(p, axis), MirrorAbout(l, axis))
            == -(WeightSqr(axis) * WeightSqr(axis)) * Dot(p, l)
  {
    var q := LP.MirrorAbout(p, axis);
    var k := MirrorAbout(l, axis);
    var oa, ob, oc := axis.A, axis.B, axis.C;
    MirroredIncidence(p.U, p.V, p.W, l.A, l.B, l.C, oa, ob, oc, oa * oa, ob * ob,
                      q.U, q.V, q.W, k.A, k.B, k.C);
  }

  /** The incidence of a reflected point with a reflected line, over plain numbers. */
  lemma MirroredIncidence(U: real, V: real, W: real, a: real, b: real, c: real,
                          oa: real, ob: real, oc: real, aa: real, bb: real,
                          U1: real, V1: real, W1: real, a1: real, b1: real, c1: real)
    requires aa == oa * oa && bb == ob * ob
    requires U1 == U * (bb - aa) - 2.0 * oa * (ob * V + oc * W)
    requires V1 == V * (aa - bb) - 2.0 * ob * (oa * U + oc * W)
    requires W1 == W * (aa + bb)
    requires a1 == a * (aa - bb) + 2.0 * oa * ob * b
    requires b1 == 2.0 * oa * ob * a + b * (bb - aa)
    requires c1 == 2.0 * oa * oc * a + 2.0 * ob * oc * b - c * (aa + bb)
    ensures U1 * a1 + V1 * b1 + W1 * c1 == -((aa + bb) * (aa + bb)) * (U * a + V * b + W * c)
  {
    var e := 2.0 * oa * ob;
    var x, y := U * (bb - aa) - e * V, V * (aa - bb) - e * U;
    assert e * e == 4.0 * aa * bb;
    MirrorLinearPart(U, V, a, b, aa, bb, e, x, y, a1, b1);
    MirrorNormalPart(oa, ob, aa, bb, a, b, a1, b1);
    MirrorCombine(x, y, a1, b1, oa, ob, 2.0 * oc, W, aa + bb, oa * a + ob * b, c, U * a + V * b,
                  U1, V1, W1, c1);
  }

  /** The last step of `MirroredIncidence`, over plain numbers. */
  lemma MirrorCombine(x: real, y: real, a1: real, b1: real, oa: real, ob: real, k: real,
                      W: real, s: real, g: real, c: real, N: real,
                      U1: real, V1: real, W1: real, c1: real)
    requires U1 == x - k * oa * W && V1 == y - k * ob * W && W1 == W * s && c1 == k * g - c * s
    requires x * a1 + y * b1 == -(s * s) * N
    requires oa * a1 + ob * b1 == s * g
    ensures U1 * a1 + V1 * b1 + W1 * c1 == -(s * s) * (N + W * c)
  {
    assert U1 * a1 + V1 * b1 == (x * a1 + y * b1) - k * W * (oa * a1 + ob * b1);
  }

  /** The linear part of a reflection applied to a point and to a line normal, over
      plain numbers: `(bb - aa)^2 + e^2 == (aa + bb)^2` when `e^2 == 4*aa*bb`. */
  lemma MirrorLinearPart(U: real, V: real, a: real, b: real, aa: real, bb: real, e: real,
                         x: real, y: real, a1: real, b1: real)
    requires e * e == 4.0 * aa * bb
    requires x == U * (bb - aa) - e * V && y == V * (aa - bb) - e * U
    requires a1 == a * (aa - bb) + e * b && b1 == e * a + b * (bb - aa)
    ensures x * a1 + y * b1 == -((aa + bb) * (aa + bb)) * (U * a + V * b)
  {
    assert x * a1 + y * b1 == -(U * a + V * b) * ((aa - bb) * (aa - bb) + e * e);
  }

  /** The reflected normal against the axis normal is the squared weight times the
      original normal against it, over plain numbers. */
  lemma MirrorNormalPart(oa: real, ob: real, aa: real, bb: real, a: real, b: real, a1: real, b1: real)
    requires aa == oa * oa && bb == ob * ob
    requires a1 == a * (aa - bb) + 2.0 * oa * ob * b && b1 == 2.0 * oa * ob * a + b * (bb - aa)
    ensures oa * a1 + ob * b1 == (aa + bb) * (oa * a + ob * b)
  {
  }

  /** Reflecting twice in the same axis gives the line back, scaled by the square of
      the axis's squared weight. */
  lemma MirrorTwice(l: Line2, axis: Line2)
    ensures MirrorAbout(MirrorAbout(l, axis), axis) == Scale(WeightSqr(axis) * WeightSqr(axis), l)
  {
    L.MirrorTwice(l, axis);
  }

  /** `Relative` undoes `OffsetBy`, up to the factor `k.C * k.C`. */
  lemma RelativeUndoesOffset(l: Line2, k: Line2)
    ensures Relative(OffsetBy(l, k), k).A == k.C * k.C * l.A
    ensures Relative(OffsetBy(l, k), k).B == k.C * k.C * l.B
    ensures Relative(OffsetBy(l, k), k).C == k.C * k.C * l.C
  {
  }

  /** `Normalize` as written multiplies the line by `WeightSqr(l) / Weight(l)`. */
  lemma NormalizeAsWrittenScales(m: MathLib, l: Line2)
    requires Weight(m, l) != 0.0
    ensures Scale(Weight(m, l), NormalizeAsWritten(m, l)) == Scale(WeightSqr(l), l)
  {
    var w, e, p, n := Weight(m, l), Direction(m, l), Position(l), NormalizeAsWritten(m, l);
    DirectionTimesWeight(m, l);
    PositionFields(l);
    PointAndDirectionFields(p, e);
    NormalizeShape(l, w, e, p, n);
  }

  /** The line through `p` along `e`, for `p` the coordinates of `Position(l)` and `e`
      the direction `(b, -a)` divided by `w`, is `l` scaled by `WeightSqr(l) / w`. */
  lemma NormalizeShape(l: Line2, w: real, e: V.Vector2, p: Point2, n: Line2)
    requires e.X * w == l.B && e.Y * w == -l.A
    requires p.U == -l.A * l.C && p.V == -l.B * l.C && p.W == WeightSqr(l)
    requires n.A == -e.Y * p.W && n.B == e.X * p.W && n.C == p.U * e.Y - p.V * e.X
    ensures Scale(w, n) == Scale(WeightSqr(l), l)
  {
    ScaledByWeight(l.A, l.B, l.C, w, WeightSqr(l), e.X, e.Y, p.U, p.V, p.W, n.A, n.B, n.C);
    ScalesAgree(w, n, WeightSqr(l), l);
  }

  /** The coordinates of `Position`. */
  lemma PositionFields(l: Line2)
    ensures Position(l).U == -l.A * l.C && Position(l).V == -l.B * l.C
    ensures Position(l).W == WeightSqr(l)
  {
  }

  /** The coefficients of `FromPointAndDirection`. */
  lemma PointAndDirectionFields(p: Point2, e: V.Vector2)
    ensures FromPointAndDirection(p, e) == Line2(-e.Y * p.W, e.X * p.W, p.U * e.Y - p.V * e.X)
  {
  }

  lemma ScalesAgree(w: real, n: Line2, s: real, l: Line2)
    requires w * n.A == s * l.A && w * n.B == s * l.B && w * n.C == s * l.C
    ensures Scale(w, n) == Scale(s, l)
  {
  }

  /** With a lawful square root, `Normalize` as written returns the line multiplied by
      its weight instead of divided by it. */
  lemma NormalizeAsWrittenMultiplies(m: MathLib, l: Line2)
    requires Lawful(m) && Weight(m, l) != 0.0
    ensures NormalizeAsWritten(m, l) == Scale(Weight(m, l), l)
  {
    NormalizeAsWrittenScales(m, l);
    WeightLaw(m, l);
    CancelWeight(Weight(m, l), WeightSqr(l), NormalizeAsWritten(m, l), l);
  }

  /** `w * n == (w * w) * l` gives `n == w * l` for non-zero `w`. */
  lemma CancelWeight(w: real, s: real, n: Line2, l: Line2)
    requires w != 0.0 && w * w == s && Scale(w, n) == Scale(s, l)
    ensures n == Scale(w, l)
  {
    assert w * n.A == w * (w * l.A);
    LP.CancelFactor(n.A, w * l.A, w);
    assert w * n.B == w * (w * l.B);
    LP.CancelFactor(n.B, w * l.B, w);
    assert w * n.C == w * (w * l.C);
    LP.CancelFactor(n.C, w * l.C, w);
  }

  /** The normal of `NormalizeAsWritten(l)` has squared length `WeightSqr(l)^2`, which is
      one only when the normal of `l` already had unit length. */
  lemma NormalizeAsWrittenWeightSqr(m: MathLib, l: Line2)
    requires Lawful(m) && Weight(m, l) != 0.0
    ensures WeightSqr(NormalizeAsWritten(m, l)) == WeightSqr(l) * WeightSqr(l)
  {
    var w := Weight(m, l);
    NormalizeAsWrittenMultiplies(m, l);
    WeightLaw(m, l);
    L.ScaledWeightSqr(w, l);
    SquareTimesSquare(w, WeightSqr(l));
  }

  lemma SquareTimesSquare(w: real, s: real)
    requires w * w == s
    ensures w * w * s == s * s
  {
  }

  /** The direction times the weight is `(b, -a)`. */
  lemma DirectionTimesWeight(m: MathLib, l: Line2)
    requires Weight(m, l) != 0.0
    ensures Direction(m, l).X * Weight(m, l) == l.B && Direction(m, l).Y * Weight(m, l) == -l.A
  {
  }

  /** The coefficients of `NormalizeAsWritten`, over plain numbers. */
  lemma ScaledByWeight(a: real, b: real, c: real, w: real, s: real, x: real, y: real,
                       u: real, v: real, W: real, a1: real, b1: real, c1: real)
    requires s == a * a + b * b && W == s
    requires x * w == b && y * w == -a && u == -a * c && v == -b * c
    requires a1 == -y * W && b1 == x * W && c1 == u * y - v * x
    ensures w * a1 == s * a && w * b1 == s * b && w * c1 == s * c
  {
    assert u * (y * w) == a * a * c;
    assert v * (x * w) == -b * b * c;
    assert w * c1 == u * (y * w) - v * (x * w);
  }

  /** `Normalize` as intended is the line divided by its weight, the newer class's
      `Normalized`, whose normal has unit length. */
  lemma NormalizeIsNormalized(m: MathLib, l: Line2)
    requires Lawful(m) && L.IsFinite(l) && Weight(m, l) != 0.0
    ensures Normalize(m, l) == L.Normalized(m, l)
    ensures WeightSqr(Normalize(m, l)) == 1.0
  {
    var w := Weight(m, l);
    WeightLaw(m, l);
    DirectionTimesWeight(m, l);
    NormalizedPosition(l);
    NormalizeDividedLine(l, w, Direction(m, l), P.Normalized(Position(l)), Normalize(m, l));
    NormalizedTimesWeight(m, l);
    SameTimesWeight(Normalize(m, l), L.Normalized(m, l), w);
  }

  /** `Position` normalized to weight one. */
  lemma NormalizedPosition(l: Line2)
    requires L.IsFinite(l)
    ensures P.IsFinite(Position(l))
    ensures P.Normalized(Position(l)).U * WeightSqr(l) == -l.A * l.C
    ensures P.Normalized(Position(l)).V * WeightSqr(l) == -l.B * l.C
    ensures P.Normalized(Position(l)).W == 1.0
  {
    var p := Position(l);
    var x := P.AsVector(p);
    var q := P.Normalized(p);
    assert q.U == x.X && q.V == x.Y;
  }

  /** The newer class's `Normalized` times the weight. */
  lemma NormalizedTimesWeight(m: MathLib, l: Line2)
    requires Weight(m, l) != 0.0
    ensures L.Normalized(m, l).A * Weight(m, l) == l.A
    ensures L.Normalized(m, l).B * Weight(m, l) == l.B
    ensures L.Normalized(m, l).C * Weight(m, l) == l.C
  {
  }

  /** Two lines whose coefficients times the same non-zero `w` agree are equal. */
  lemma SameTimesWeight(n: Line2, k: Line2, w: real)
    requires w != 0.0
    requires n.A * w == k.A * w && n.B * w == k.B * w && n.C * w == k.C * w
    ensures n == k
  {
    LP.CancelFactor(n.A, k.A, w);
    LP.CancelFactor(n.B, k.B, w);
    LP.CancelFactor(n.C, k.C, w);
  }

  /** The line through the normalized `Position(l)` along `e`, for `e` the direction
      times `1 / w`. */
  lemma NormalizeDividedLine(l: Line2, w: real, e: V.Vector2, q: Point2, n: Line2)
    requires w != 0.0 && w * w == WeightSqr(l)
    requires e.X * w == l.B && e.Y * w == -l.A
    requires q.U * WeightSqr(l) == -l.A * l.C && q.V * WeightSqr(l) == -l.B * l.C && q.W == 1.0
    requires n == FromPointAndDirection(q, e)
    ensures n.A * w == l.A && n.B * w == l.B && n.C * w == l.C
  {
    PointAndDirectionFields(q, e);
    DividedByWeight(l.A, l.B, l.C, w, WeightSqr(l), e.X, e.Y, q.U, q.V, q.W, n.A, n.B, n.C);
  }

  /** The coefficients of `Normalize`, over plain numbers. */
  lemma DividedByWeight(a: real, b: real, c: real, w: real, s: real, x: real, y: real,
                        u: real, v: real, W: real, a1: real, b1: real, c1: real)
    requires w != 0.0 && s == w * w && s == a * a + b * b
    requires x * w == b && y * w == -a && u * s == -a * c && v * s == -b * c
    requires W == 1.0 && a1 == -y * W && b1 == x * W && c1 == u * y - v * x
    ensures a1 * w == a && b1 * w == b && c1 * w == c
  {
    DividedConstant(a, b, c, w, s, x, y, u, v, c1);
  }

  lemma DividedConstant(a: real, b: real, c: real, w: real, s: real, x: real, y: real,
                        u: real, v: real, c1: real)
    requires w != 0.0 && s == w * w && s == a * a + b * b
    requires x * w == b && y * w == -a && u * s == -a * c && v * s == -b * c
    requires c1 == u * y - v * x
    ensures c1 * w == c
  {
    SumOverSquare(a, b, c, w, s, u, v);
    assert c1 * w == u * (y * w) - v * (x * w);
  }

  lemma NonZeroSquare(w: real, s: real)
    requires w != 0.0 && s == w * w
    ensures s != 0.0
  {
    if s == 0.0 {
      ZeroProduct(w, w);
    }
  }

  /** `a*u + b*v == -c` when `(u, v) * (a*a + b*b) == -c * (a, b)`. */
  lemma SumOverSquare(a: real, b: real, c: real, w: real, s: real, u: real, v: real)
    requires w != 0.0 && s == w * w && s == a * a + b * b
    requires u * s == -a * c && v * s == -b * c
    ensures a * u + b * v == -c
  {
    NonZeroSquare(w, s);
    assert s * (a * u + b * v) == a * (u * s) + b * (v * s);
    assert a * (u * s) + b * (v * s) == (a * a + b * b) * -c;
    LP.CancelFactor(a * u + b * v, -c, s);
  }

  /** The intended `LineSegment2` starts and ends at the two locations it was built
      from. */
  lemma SegmentEndsAtLocations(m: MathLib, r1: V.Vector2, r2: V.Vector2)
    requires Lawful(m) && r1 != r2
    ensures P.IsFinite(Start(m, Segment(m, r1, r2))) && P.AsVector(Start(m, Segment(m, r1, r2))) == r1
    ensures P.IsFinite(End(m, Segment(m, r1, r2))) && P.AsVector(End(m, Segment(m, r1, r2))) == r2
  {
    var s := Segment(m, r1, r2);
    SegmentLineIsFinite(r1, r2);
    assert s.t1 == ParallelDistanceTo(m, s.line, LP.FromLocation(r1));
    assert s.t2 == ParallelDistanceTo(m, s.line, LP.FromLocation(r2));
    SegmentEndAt(m, s.line, r1, s.t1);
    SegmentEndAt(m, s.line, r2, s.t2);
  }

  /** The point of a line at the intended parallel distance of one of its locations is
      that location. */
  lemma SegmentEndAt(m: MathLib, l: Line2, r: V.Vector2, t: real)
    requires Lawful(m) && L.IsFinite(l) && Dot(LP.FromLocation(r), l) == 0.0
    requires Weight(m, l) != 0.0 && t == ParallelDistanceTo(m, l, LP.FromLocation(r))
    ensures P.IsFinite(GetPointAlong(m, l, t)) && P.AsVector(GetPointAlong(m, l, t)) == r
  {
    var p := LP.FromLocation(r);
    L.GetPointFromZeroIsPoint(m, l, p);
    assert GetPointAlong(m, l, t) == L.GetPointFrom(m, l, p, 0.0);
  }

  /** The written `LineSegment2` from `(0, 0)` to `(x, 0)` ends at `(1, 0)` whatever the
      positive `x`, instead of at `(x, 0)`. */
  lemma SegmentAsWrittenMisplacesEnd(m: MathLib, x: real)
    requires Lawful(m) && 0.0 < x
    ensures P.AsVector(End(m, SegmentAsWritten(V.Vector2(0.0, 0.0), V.Vector2(x, 0.0))))
            == V.Vector2(1.0, 0.0)
  {
    SegmentAsWrittenAlongXAxis(x);
    UnitStepAlongXAxis(m, x);
  }

  /** The written `LineSegment2` from `(0, 0)` to `(x, 0)`: the line `x*y = 0` with
      parallel distances 0 and 1. */
  lemma SegmentAsWrittenAlongXAxis(x: real)
    requires x != 0.0
    ensures SegmentAsWritten(V.Vector2(0.0, 0.0), V.Vector2(x, 0.0))
            == LineSegment(Line2(0.0, x, 0.0), 0.0, 1.0)
  {
    var l := Line2(0.0, x, 0.0);
    assert FromTwoLocations(V.Vector2(0.0, 0.0), V.Vector2(x, 0.0)) == l;
    var s := WeightSqr(l);
    assert s == x * x;
    NonZeroSquare(x, s);
    var p1, p2 := LP.FromLocation(V.Vector2(0.0, 0.0)), LP.FromLocation(V.Vector2(x, 0.0));
    assert p1 == Point2(0.0, 0.0, 1.0) && p2 == Point2(x, 0.0, 1.0);
    var t1, t2 := ParallelDistanceToAsWritten(l, p1), ParallelDistanceToAsWritten(l, p2);
    assert s * t1 == s * 0.0;
    LP.CancelFactor(t1, 0.0, s);
    assert t2 * (s * p2.W) == l.B * p2.U - l.A * p2.V;
    assert l.B * p2.U - l.A * p2.V == s;
    assert s * t2 == s * 1.0;
    LP.CancelFactor(t2, 1.0, s);
  }

  /** One unit along the line `x*y = 0`, for positive `x`, is the location `(1, 0)`. */
  lemma UnitStepAlongXAxis(m: MathLib, x: real)
    requires Lawful(m) && 0.0 < x
    ensures P.IsFinite(GetPointAlong(m, Line2(0.0, x, 0.0), 1.0))
    ensures P.AsVector(GetPointAlong(m, Line2(0.0, x, 0.0), 1.0)) == V.Vector2(1.0, 0.0)
  {
    var l := Line2(0.0, x, 0.0);
    var s := WeightSqr(l);
    assert s == x * x;
    WeightUnfold(m, l);
    SqrtUnique(m, s, x);
    NonZeroSquare(x, s);
    GetPointAlongUnfold(m, l, 1.0);
    var q := GetPointAlong(m, l, 1.0);
    assert q == Point2(x * 1.0 * x - 0.0 * 0.0, -0.0 * 1.0 * x - x * 0.0, s);
    assert q.U == s && q.V == 0.0 && q.W == s;
    var r := P.AsVector(q);
    LP.CancelFactor(r.X, 1.0, q.W);
    LP.CancelFactor(r.Y, 0.0, q.W);
  }
}
