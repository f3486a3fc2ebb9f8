/**
 * `JA.Numerics.Geometry.Circle2`: a circle given by a homogeneous centre and a radius.
 * Distances to points, lines and other circles are signed: negative inside.
 */
module Circles {
  import opened RealMath
  import opened Homogeneous
  import V = Vectors
  import P = Points
  import L = Lines
  import G = Geometry

  datatype Circle2 = Circle2(Center: Point2, Radius: real)

  /** `Circle2.FromCenterAndPoint`: the circle about `center` through `point`. */
  function FromCenterAndPoint(m: MathLib, center: Point2, point: Point2): (r: Circle2)
    requires P.IsFinite(center) && P.IsFinite(point)
    ensures r.Center == center
    ensures Lawful(m) ==> 0.0 <= r.Radius
  {
    Circle2(center, P.DistanceTo(m, center, point))
  }

  /** `Circle2.FromDiagonals`: the circle whose centre is the homogeneous sum of the two
      points and which passes through the first. */
  function FromDiagonals(m: MathLib, point: Point2, other: Point2): (r: Circle2)
    requires P.IsFinite(point) && P.IsFinite(P.Add(point, other))
    ensures r.Center.W == point.W + other.W
    ensures Lawful(m) ==> 0.0 <= r.Radius
  {
    FromCenterAndPoint(m, P.Add(point, other), point)
  }

  /** `Circle2.GetPoint`: the point of the circle at angle `t` from the X axis. */
  function GetPoint(m: MathLib, c: Circle2, t: real): (r: Point2)
    ensures r.W == c.Center.W
  {
    P.AddVector(c.Center, G.Polar(m, c.Radius, t))
  }

  /** `Circle2.GetClosestPoint(Point2)`: the point of the circle on the bearing from the
      centre towards `point`. */
  function GetClosestPoint(m: MathLib, c: Circle2, point: Point2): (r: Point2)
    requires P.IsFinite(c.Center) && P.IsFinite(point)
    ensures r.W == c.Center.W
  {
    var delta := P.VectorTo(c.Center, point);
    var theta := G.ToPolar(m, delta).theta;
    P.AddVector(c.Center, G.Polar(m, c.Radius, theta))
  }

  /** `Circle2.GetClosestPoint(Line2)`: the point of the circle closest to the foot of
      the perpendicular from the centre to the line. */
  function GetClosestPointToLine(m: MathLib, c: Circle2, l: Line2): (r: Point2)
    requires P.IsFinite(c.Center) && L.IsFinite(l)
    ensures r.W == c.Center.W
  {
    L.FootIsFinite(l, c.Center);
    GetClosestPoint(m, c, L.GetClosestPoint(l, c.Center))
  }

  /** `Circle2.DistanceTo(Point2)`: the distance from the centre less the radius. */
  function DistanceTo(m: MathLib, c: Circle2, point: Point2): (r: real)
    requires P.IsFinite(c.Center) && P.IsFinite(point)
    ensures Lawful(m) ==> -c.Radius <= r
  {
    P.DistanceTo(m, c.Center, point) - c.Radius
  }

  /** `Circle2.DistanceTo(Circle2)`: the gap between the two circles. */
  function DistanceToCircle(m: MathLib, c: Circle2, other: Circle2): (r: real)
    requires P.IsFinite(c.Center) && P.IsFinite(other.Center)
    ensures Lawful(m) ==> -c.Radius - other.Radius <= r
  {
    P.DistanceTo(m, c.Center, other.Center) - c.Radius - other.Radius
  }

  /** `Circle2.DistanceTo(Line2)`: the signed distance of the centre from the line,
      less the radius. */
  function DistanceToLine(m: MathLib, c: Circle2, l: Line2): (r: real)
    requires P.IsFinite(c.Center) && Weight(m, l) != 0.0
    ensures (r + c.Radius) * (c.Center.W * Weight(m, l)) == Dot(c.Center, l)
  {
    P.DistanceToLine(m, c.Center, l) - c.Radius
  }

  /** `Line2.DistanceTo(Circle2)`: the distance from the line to the centre, less the radius. */
  function LineDistanceTo(m: MathLib, l: Line2, c: Circle2): (r: real)
    requires P.IsFinite(c.Center) && L.IsFinite(l)
    ensures Lawful(m) ==> -c.Radius <= r
  {
    L.DistanceTo(m, l, c.Center) - c.Radius
  }

  /** `Line2.SignedDistanceTo(Circle2)`: the signed distance of the centre, moved towards
      the line by the radius. A circle clear of the line keeps the side of its centre and
      is as far from the line as its nearest point; a centre on the line gives zero. */
  function LineSignedDistanceTo(m: MathLib, l: Line2, c: Circle2): (r: real)
    requires Weight(m, l) != 0.0 && P.IsFinite(c.Center)
    ensures var d := L.SignedDistanceTo(m, l, c.Center);
            0.0 <= c.Radius <= Abs(d) ==> Abs(r) == Abs(d) - c.Radius && 0.0 <= r * d
    ensures Dot(c.Center, l) == 0.0 ==> r == 0.0
  {
    var d := L.SignedDistanceTo(m, l, c.Center);
    d - (Sign(d) as real) * c.Radius
  }

  // ---------------------------------------------------------------------------
  // Intersection of two circles

  /** The answer of `Circle2.Intersect`: whether the circles meet, and the points. */
  datatype Intersection = Intersection(found: bool, solutions: seq<Point2>)

  /** The two candidate points of `Circle2.Intersect`. */
  datatype Crossing = Crossing(first: Point2, second: Point2)

  /** The early exit of `Circle2.Intersect`: the centres, `d` apart, are too far apart
      or one circle lies inside the other. */
  predicate Apart(d: real, radius: real, otherRadius: real) {
    d > radius + otherRadius || d < Abs(radius - otherRadius)
  }

  /** The two points at height `h` either side of the point `a` along the line of
      centres from `p0` towards `p1`, where the centres are `d` apart. */
  function CrossingPoints(p0: V.Vector2, p1: V.Vector2, d: real, a: real, h: real): (r: Crossing)
    requires d != 0.0
    ensures P.IsFinite(r.first) && P.IsFinite(r.second)
  {
    var p2 := V.Add(p0, V.Divide(V.Scale(a, V.Subtract(p1, p0)), d));
    var rx := -(p1.Y - p0.Y) * (h / d);
    var ry := (p1.X - p0.X) * (h / d);
    Crossing(P.FromVector(V.Vector2(p2.X + rx, p2.Y + ry)),
             P.FromVector(V.Vector2(p2.X - rx, p2.Y - ry)))
  }

  /** The distance from the first centre to the chord through the crossings. */
  function ChordOffset(d: real, radius: real, otherRadius: real): real
    requires d != 0.0
  {
    (radius * radius - otherRadius * otherRadius + d * d) / (2.0 * d)
  }

  /** The square of the half chord through the crossings. */
  function HalfChordSquare(d: real, radius: real, otherRadius: real): real
    requires d != 0.0
  {
    radius * radius - ChordOffset(d, radius, otherRadius) * ChordOffset(d, radius, otherRadius)
  }

  /** The candidates of `Circle2.Intersect` for centres a non-zero distance apart. */
  function Candidates(m: MathLib, c: Circle2, other: Circle2): (r: Crossing)
    requires P.IsFinite(c.Center) && P.IsFinite(other.Center)
    requires P.DistanceTo(m, c.Center, other.Center) != 0.0
    ensures P.IsFinite(r.first) && P.IsFinite(r.second)
  {
    var d := P.DistanceTo(m, c.Center, other.Center);
    CrossingPoints(P.AsVector(c.Center), P.AsVector(other.Center), d,
                   ChordOffset(d, c.Radius, other.Radius),
                   Sqrt(m, HalfChordSquare(d, c.Radius, other.Radius)))
  }

  /** `Circle2.Intersect`: no points when the circles are apart; otherwise one point, or
      two when the two candidates differ. Centres that coincide with equal radii are
      excluded: the chord offset divides zero by zero there. */
  function Intersect(m: MathLib, c: Circle2, other: Circle2): (r: Intersection)
    requires P.IsFinite(c.Center) && P.IsFinite(other.Center)
    requires var d := P.DistanceTo(m, c.Center, other.Center);
             !Apart(d, c.Radius, other.Radius) ==> d != 0.0
    ensures r.found <==> !Apart(P.DistanceTo(m, c.Center, other.Center), c.Radius, other.Radius)
    ensures !r.found ==> r.solutions == []
    ensures r.found ==> |r.solutions| == 1 || (|r.solutions| == 2 && r.solutions[0] != r.solutions[1])
    ensures r.found ==> var k := Candidates(m, c, other);
            r.solutions[0] == k.first && r.solutions[|r.solutions| - 1] == k.second
  {
    var d := P.DistanceTo(m, c.Center, other.Center);
    if Apart(d, c.Radius, other.Radius) then
      Intersection(false, [])
    else
      var k := Candidates(m, c, other);
      if k.first != k.second then
        Intersection(true, [k.first, k.second])
      else
        Intersection(true, [k.first])
  }

  // ---------------------------------------------------------------------------
  // Properties

  /** The circle through a point is at distance zero from it. */
  lemma FromCenterAndPointPassesThrough(m: MathLib, center: Point2, point: Point2)
    requires P.IsFinite(center) && P.IsFinite(point)
    ensures DistanceTo(m, FromCenterAndPoint(m, center, point), point) == 0.0
  {
  }

  /** `(x + y) / (2w)` is the mean of `x / w` and `y / w`. */
  lemma MeanOfQuotients(x: real, y: real, w: real)
    requires w != 0.0
    ensures (x + y) / (w + w) == (x / w + y / w) / 2.0
  {
    assert (x + y) / (w + w) * (w + w) == x + y;
    assert (x / w + y / w) / 2.0 * (w + w) == x + y;
  }

  /** For points of equal weight, the diagonal circle is centred at their midpoint and
      passes through both of them. */
  lemma FromDiagonalsMidpoint(m: MathLib, point: Point2, other: Point2)
    requires Lawful(m) && P.IsFinite(point) && other.W == point.W
    ensures P.IsFinite(P.Add(point, other))
    ensures var c := FromDiagonals(m, point, other).Center;
            P.AsVector(c) == V.Scale(0.5, V.Add(P.AsVector(point), P.AsVector(other)))
    ensures DistanceTo(m, FromDiagonals(m, point, other), other) == 0.0
  {
    var c := P.Add(point, other);
    assert c.W == point.W + point.W;
    MeanOfQuotients(point.U, other.U, point.W);
    MeanOfQuotients(point.V, other.V, point.W);
    assert P.AsVector(c) == V.Scale(0.5, V.Add(P.AsVector(point), P.AsVector(other)));
    assert P.VectorTo(c, other) == V.Negate(P.VectorTo(c, point));
    V.LengthOfNegation(m, P.VectorTo(c, point));
  }

  /** `GetPoint` lies on the circle: the centre is `Radius` away. */
  lemma GetPointOnCircle(m: MathLib, c: Circle2, t: real)
    requires Lawful(m) && P.IsFinite(c.Center) && 0.0 <= c.Radius
    ensures P.DistanceTo(m, c.Center, GetPoint(m, c, t)) == c.Radius
    ensures DistanceTo(m, c, GetPoint(m, c, t)) == 0.0
  {
    P.VectorToMoved(c.Center, G.Polar(m, c.Radius, t));
    G.PolarLength(m, c.Radius, t);
  }

  /** `GetClosestPoint(point)` is the point of the circle at the bearing of `point`. */
  lemma ClosestPointIsGetPoint(m: MathLib, c: Circle2, point: Point2)
    requires P.IsFinite(c.Center) && P.IsFinite(point)
    ensures GetClosestPoint(m, c, point)
            == GetPoint(m, c, G.ToPolar(m, P.VectorTo(c.Center, point)).theta)
  {
  }

  /** `GetClosestPoint(point)` lies on the circle. */
  lemma ClosestPointOnCircle(m: MathLib, c: Circle2, point: Point2)
    requires Lawful(m) && P.IsFinite(c.Center) && P.IsFinite(point) && 0.0 <= c.Radius
    ensures P.DistanceTo(m, c.Center, GetClosestPoint(m, c, point)) == c.Radius
  {
    ClosestPointIsGetPoint(m, c, point);
    GetPointOnCircle(m, c, G.ToPolar(m, P.VectorTo(c.Center, point)).theta);
  }

  /** `GetClosestPoint(point)` lies on the ray from the centre through `point`: its
      displacement from the centre is that of `point`, rescaled from the distance of
      `point` to the radius. */
  lemma ClosestPointOnRay(m: MathLib, c: Circle2, point: Point2)
    requires Lawful(m) && P.IsFinite(c.Center) && P.IsFinite(point)
    requires P.VectorTo(c.Center, point) != V.Zero
    ensures V.Scale(P.DistanceTo(m, c.Center, point), P.VectorTo(c.Center, GetClosestPoint(m, c, point)))
            == V.Scale(c.Radius, P.VectorTo(c.Center, point))
  {
    var delta := P.VectorTo(c.Center, point);
    var theta := G.ToPolar(m, delta).theta;
    var n := P.DistanceTo(m, c.Center, point);
    ClosestPointIsGetPoint(m, c, point);
    P.VectorToMoved(c.Center, G.Polar(m, c.Radius, theta));
    G.PolarOfToPolar(m, delta);
    G.ToPolarUnfold(m, delta);
    V.LengthUnfold(m, delta);
    assert G.ToPolar(m, delta).r == n;
    ScaledPolar(m, n, c.Radius, theta);
  }

  /** Rescaling a polar displacement exchanges its length. */
  lemma ScaledPolar(m: MathLib, n: real, radius: real, theta: real)
    ensures V.Scale(n, G.Polar(m, radius, theta)) == V.Scale(radius, G.Polar(m, n, theta))
  {
    var c, s := Cos(m, theta), Sin(m, theta);
    assert n * (c * radius) == radius * (c * n);
    assert n * (s * radius) == radius * (s * n);
  }

  /** `GetClosestPoint(line)` lies on the circle. */
  lemma ClosestPointToLineOnCircle(m: MathLib, c: Circle2, l: Line2)
    requires Lawful(m) && P.IsFinite(c.Center) && L.IsFinite(l) && 0.0 <= c.Radius
    ensures P.DistanceTo(m, c.Center, GetClosestPointToLine(m, c, l)) == c.Radius
  {
    L.FootIsFinite(l, c.Center);
    ClosestPointOnCircle(m, c, L.GetClosestPoint(l, c.Center));
  }

  /** The gap between two circles does not depend on their order. */
  lemma DistanceToCircleSymmetric(m: MathLib, c: Circle2, other: Circle2)
    requires P.IsFinite(c.Center) && P.IsFinite(other.Center)
    ensures DistanceToCircle(m, c, other) == DistanceToCircle(m, other, c)
  {
    P.DistanceSymmetric(m, c.Center, other.Center);
  }

  /** The distance from a circle to a line is the line's signed distance to the centre
      less the radius. */
  lemma DistanceToLineIsSignedDistance(m: MathLib, c: Circle2, l: Line2)
    requires P.IsFinite(c.Center) && Weight(m, l) != 0.0
    ensures DistanceToLine(m, c, l) == L.SignedDistanceTo(m, l, c.Center) - c.Radius
  {
    assert c.Center.W * Weight(m, l) == Weight(m, l) * c.Center.W;
  }

  // Intersection: arithmetic of the construction.

  /** A number whose product with a positive number is non-negative is non-negative. */
  lemma NonNegativeFactor(x: real, y: real)
    requires 0.0 < y && 0.0 <= x * y
    ensures 0.0 <= x
  {
    if x < 0.0 {
      assert false;
    }
  }

  /** A product of non-negative numbers is non-negative. */
  lemma NonNegativeProduct(x: real, y: real)
    requires 0.0 <= x && 0.0 <= y
    ensures 0.0 <= x * y
  {
  }

  /** Under the triangle inequalities the chord offset is at most the radius, so the
      half chord `Sqrt(radius² - a²)` is real. */
  lemma HalfChordReal(d: real, radius: real, otherRadius: real, a: real)
    requires 0.0 < d && d <= radius + otherRadius && Abs(radius - otherRadius) <= d
    requires a * (2.0 * d) == radius * radius - otherRadius * otherRadius + d * d
    ensures 0.0 <= radius * radius - a * a
  {
    var R, r := radius, otherRadius;
    assert (R - a) * (2.0 * d) == (r - d + R) * (r + d - R);
    NonNegativeProduct(r - d + R, r + d - R);
    NonNegativeFactor(R - a, 2.0 * d);
    assert (R + a) * (2.0 * d) == (d + R - r) * (d + R + r);
    NonNegativeProduct(d + R - r, d + R + r);
    NonNegativeFactor(R + a, 2.0 * d);
    NonNegativeProduct(R - a, R + a);
    assert (R - a) * (R + a) == R * R - a * a;
  }

  /** A displacement rotated a quarter turn and combined with a multiple of itself
      keeps the squared norm of the combination times the squared norm. */
  lemma RotatedCombination(k: real, j: real, dx: real, dy: real)
    ensures (k * dx - j * dy) * (k * dx - j * dy) + (k * dy + j * dx) * (k * dy + j * dx)
            == (k * k + j * j) * (dx * dx + dy * dy)
  {
  }

  /** The squared norm of `(a, h)` in units of `d`. */
  lemma ScaledNorm(k: real, j: real, d: real, a: real, h: real, s: real)
    requires d != 0.0 && k == a / d && j == h / d && s == d * d
    ensures (k * k + j * j) * s == a * a + h * h
  {
    MultiplyBack(a, d);
    MultiplyBack(h, d);
    ScaledSquares(k, j, d, k * d, j * d);
  }

  /** Componentwise, the first crossing lies `a` along and `h` across the line of
      centres, measured in units of `d`. */
  lemma CrossingFirstDisplacement(p0: V.Vector2, p1: V.Vector2, d: real, a: real, h: real)
    requires d != 0.0
    ensures var q := P.AsVector(CrossingPoints(p0, p1, d, a, h).first);
            && q.X - p0.X == a / d * (p1.X - p0.X) - h / d * (p1.Y - p0.Y)
            && q.Y - p0.Y == a / d * (p1.Y - p0.Y) + h / d * (p1.X - p0.X)
  {
    var dx, dy, k, j := p1.X - p0.X, p1.Y - p0.Y, a / d, h / d;
    assert (a * dx) / d == k * dx;
    assert (a * dy) / d == k * dy;
  }

  /** Componentwise, the second crossing lies `a` along and `-h` across the line of
      centres, measured in units of `d`. */
  lemma CrossingSecondDisplacement(p0: V.Vector2, p1: V.Vector2, d: real, a: real, h: real)
    requires d != 0.0
    ensures var q := P.AsVector(CrossingPoints(p0, p1, d, a, h).second);
            && q.X - p0.X == a / d * (p1.X - p0.X) + h / d * (p1.Y - p0.Y)
            && q.Y - p0.Y == a / d * (p1.Y - p0.Y) - h / d * (p1.X - p0.X)
  {
    var dx, dy, k := p1.X - p0.X, p1.Y - p0.Y, a / d;
    assert (a * dx) / d == k * dx;
    assert (a * dy) / d == k * dy;
  }

  /** `a / d - 1` is `(a - d) / d`. */
  lemma ShiftedQuotient(a: real, d: real)
    requires d != 0.0
    ensures a / d - 1.0 == (a - d) / d
  {
    assert (a - d) / d == a / d - d / d;
  }

  /** The squared norm of `k` along and `j` across a displacement of length `d`. */
  lemma OffsetNorm(k: real, j: real, dx: real, dy: real, d: real, a: real, hh: real)
    requires dx * dx + dy * dy == d * d && k * d == a && j * j * (d * d) == hh
    ensures (k * dx - j * dy) * (k * dx - j * dy) + (k * dy + j * dx) * (k * dy + j * dx)
            == a * a + hh
  {
    RotatedCombination(k, j, dx, dy);
    calc {
      (k * k + j * j) * (dx * dx + dy * dy);
      (k * k + j * j) * (d * d);
      (k * d) * (k * d) + j * j * (d * d);
      a * a + hh;
    }
  }

  /** The second centre's share of the chord offset: `(a - d)² + h² = r²`. */
  lemma OtherShare(d: real, radius: real, otherRadius: real, a: real)
    requires a * (2.0 * d) == radius * radius - otherRadius * otherRadius + d * d
    ensures (a - d) * (a - d) + (radius * radius - a * a) == otherRadius * otherRadius
  {
  }

  /** A point `a` along and `j * d` across the line of centres, `d` apart, is `radius`
      from the first centre when `j * d` is the half chord. */
  lemma CrossingOnFirstCircle(p0: V.Vector2, p1: V.Vector2, q: V.Vector2,
                              d: real, radius: real, a: real, j: real)
    requires d != 0.0 && V.LengthSquared(V.Subtract(p1, p0)) == d * d
    requires j * j * (d * d) == radius * radius - a * a
    requires q.X - p0.X == a / d * (p1.X - p0.X) - j * (p1.Y - p0.Y)
    requires q.Y - p0.Y == a / d * (p1.Y - p0.Y) + j * (p1.X - p0.X)
    ensures V.LengthSquared(V.Subtract(q, p0)) == radius * radius
  {
    var dx, dy, k := p1.X - p0.X, p1.Y - p0.Y, a / d;
    MultiplyBack(a, d);
    OffsetNorm(k, j, dx, dy, d, a, radius * radius - a * a);
  }

  /** The same point is `otherRadius` from the second centre when `a` is the chord
      offset. */
  lemma CrossingOnSecondCircle(p0: V.Vector2, p1: V.Vector2, q: V.Vector2,
                               d: real, radius: real, otherRadius: real, a: real, j: real)
    requires d != 0.0 && V.LengthSquared(V.Subtract(p1, p0)) == d * d
    requires a * (2.0 * d) == radius * radius - otherRadius * otherRadius + d * d
    requires j * j * (d * d) == radius * radius - a * a
    requires q.X - p0.X == a / d * (p1.X - p0.X) - j * (p1.Y - p0.Y)
    requires q.Y - p0.Y == a / d * (p1.Y - p0.Y) + j * (p1.X - p0.X)
    ensures V.LengthSquared(V.Subtract(q, p1)) == otherRadius * otherRadius
  {
    var dx, dy, k1 := p1.X - p0.X, p1.Y - p0.Y, a / d - 1.0;
    ShiftedQuotient(a, d);
    MultiplyBack(a - d, d);
    assert q.X - p1.X == k1 * dx - j * dy;
    assert q.Y - p1.Y == k1 * dy + j * dx;
    OffsetNorm(k1, j, dx, dy, d, a - d, radius * radius - a * a);
    OtherShare(d, radius, otherRadius, a);
  }

  /** Two non-negative numbers with equal squares are equal. */
  lemma EqualSquares(x: real, y: real)
    requires 0.0 <= x && 0.0 <= y && x * x == y * y
    ensures x == y
  {
    assert (x - y) * (x + y) == 0.0;
    ZeroProduct(x - y, x + y);
  }

  /** A point whose squared distance from a centre is the squared radius is `radius`
      away from it. */
  lemma DistanceFromSquare(m: MathLib, center: Point2, q: Point2, radius: real)
    requires Lawful(m) && P.IsFinite(center) && P.IsFinite(q) && 0.0 <= radius
    requires V.LengthSquared(V.Subtract(P.AsVector(q), P.AsVector(center))) == radius * radius
    ensures P.DistanceTo(m, center, q) == radius
  {
    P.DistanceSquared(m, center, q);
    EqualSquares(P.DistanceTo(m, center, q), radius);
  }

  /** The chord offset times twice the centre distance. */
  lemma ChordOffsetRelation(d: real, radius: real, otherRadius: real, a: real)
    requires d != 0.0 && a == ChordOffset(d, radius, otherRadius)
    ensures a * (2.0 * d) == radius * radius - otherRadius * otherRadius + d * d
  {
    MultiplyBack(radius * radius - otherRadius * otherRadius + d * d, 2.0 * d);
  }

  /** The half chord `h = Sqrt(s)` in units of `d` squares back to `s`. */
  lemma HalfChordRelation(m: MathLib, d: real, s: real, h: real)
    requires Lawful(m) && d != 0.0 && 0.0 <= s && h == Sqrt(m, s)
    ensures (h / d) * (h / d) * (d * d) == s
  {
    SqrtLaw(m, s);
    MultiplyBack(h, d);
  }

  /** The chord offset `a` and half chord `h` of two circles, `d > 0` apart, that are
      not apart satisfy the relations of the construction. */
  lemma ConstructionRelations(m: MathLib, d: real, radius: real, otherRadius: real, a: real, h: real)
    requires Lawful(m) && 0.0 < d && !Apart(d, radius, otherRadius)
    requires a == ChordOffset(d, radius, otherRadius)
    requires h == Sqrt(m, HalfChordSquare(d, radius, otherRadius))
    ensures a * (2.0 * d) == radius * radius - otherRadius * otherRadius + d * d
    ensures (h / d) * (h / d) * (d * d) == radius * radius - a * a
  {
    ChordOffsetRelation(d, radius, otherRadius, a);
    HalfChordReal(d, radius, otherRadius, a);
    assert HalfChordSquare(d, radius, otherRadius) == radius * radius - a * a;
    HalfChordRelation(m, d, HalfChordSquare(d, radius, otherRadius), h);
  }

  /** `Candidates` spelled out through the construction's quantities. */
  lemma CandidatesUnfold(m: MathLib, c: Circle2, other: Circle2, d: real, a: real, h: real)
    requires P.IsFinite(c.Center) && P.IsFinite(other.Center)
    requires d == P.DistanceTo(m, c.Center, other.Center) && d != 0.0
    requires a == ChordOffset(d, c.Radius, other.Radius)
    requires h == Sqrt(m, HalfChordSquare(d, c.Radius, other.Radius))
    ensures Candidates(m, c, other)
            == CrossingPoints(P.AsVector(c.Center), P.AsVector(other.Center), d, a, h)
  {
  }

  /** The first crossing point is `radius` from `p0` and `otherRadius` from `p1`,
      given the relations of the construction. */
  lemma FirstCrossingOnCircles(p0: V.Vector2, p1: V.Vector2, d: real, radius: real, otherRadius: real,
                               a: real, h: real)
    requires d != 0.0 && V.LengthSquared(V.Subtract(p1, p0)) == d * d
    requires a * (2.0 * d) == radius * radius - otherRadius * otherRadius + d * d
    requires (h / d) * (h / d) * (d * d) == radius * radius - a * a
    ensures V.LengthSquared(V.Subtract(P.AsVector(CrossingPoints(p0, p1, d, a, h).first), p0))
            == radius * radius
    ensures V.LengthSquared(V.Subtract(P.AsVector(CrossingPoints(p0, p1, d, a, h).first), p1))
            == otherRadius * otherRadius
  {
    var q := P.AsVector(CrossingPoints(p0, p1, d, a, h).first);
    CrossingFirstDisplacement(p0, p1, d, a, h);
    CrossingOnFirstCircle(p0, p1, q, d, radius, a, h / d);
    CrossingOnSecondCircle(p0, p1, q, d, radius, otherRadius, a, h / d);
  }

  /** The second crossing point is `radius` from `p0` and `otherRadius` from `p1`,
      given the relations of the construction. */
  lemma SecondCrossingOnCircles(p0: V.Vector2, p1: V.Vector2, d: real, radius: real, otherRadius: real,
                                a: real, h: real)
    requires d != 0.0 && V.LengthSquared(V.Subtract(p1, p0)) == d * d
    requires a * (2.0 * d) == radius * radius - otherRadius * otherRadius + d * d
    requires (h / d) * (h / d) * (d * d) == radius * radius - a * a
    ensures V.LengthSquared(V.Subtract(P.AsVector(CrossingPoints(p0, p1, d, a, h).second), p0))
            == radius * radius
    ensures V.LengthSquared(V.Subtract(P.AsVector(CrossingPoints(p0, p1, d, a, h).second), p1))
            == otherRadius * otherRadius
  {
    var q := P.AsVector(CrossingPoints(p0, p1, d, a, h).second);
    var j := -(h / d);
    CrossingSecondDisplacement(p0, p1, d, a, h);
    assert j * j == (h / d) * (h / d);
    CrossingOnFirstCircle(p0, p1, q, d, radius, a, j);
    CrossingOnSecondCircle(p0, p1, q, d, radius, otherRadius, a, j);
  }

  /** Both candidates of `Intersect` lie on both circles. */
  lemma CandidatesOnBothCircles(m: MathLib, c: Circle2, other: Circle2)
    requires Lawful(m) && P.IsFinite(c.Center) && P.IsFinite(other.Center)
    requires var d := P.DistanceTo(m, c.Center, other.Center);
             d != 0.0 && !Apart(d, c.Radius, other.Radius)
    ensures P.DistanceTo(m, c.Center, Candidates(m, c, other).first) == c.Radius
    ensures P.DistanceTo(m, other.Center, Candidates(m, c, other).first) == other.Radius
    ensures P.DistanceTo(m, c.Center, Candidates(m, c, other).second) == c.Radius
    ensures P.DistanceTo(m, other.Center, Candidates(m, c, other).second) == other.Radius
  {
    RadiiNonNegative(m, c, other);
    var R, r := c.Radius, other.Radius;
    var d := P.DistanceTo(m, c.Center, other.Center);
    var p0, p1 := P.AsVector(c.Center), P.AsVector(other.Center);
    P.DistanceSquared(m, c.Center, other.Center);
    var a := ChordOffset(d, R, r);
    var h := Sqrt(m, HalfChordSquare(d, R, r));
    ConstructionRelations(m, d, R, r, a, h);
    CandidatesUnfold(m, c, other, d, a, h);
    FirstCrossingOnCircles(p0, p1, d, R, r, a, h);
    SecondCrossingOnCircles(p0, p1, d, R, r, a, h);
    var k := CrossingPoints(p0, p1, d, a, h);
    DistanceFromSquare(m, c.Center, k.first, R);
    DistanceFromSquare(m, other.Center, k.first, r);
    DistanceFromSquare(m, c.Center, k.second, R);
    DistanceFromSquare(m, other.Center, k.second, r);
  }

  /** Every point `Intersect` reports lies on both circles. */
  lemma IntersectionsOnBothCircles(m: MathLib, c: Circle2, other: Circle2)
    requires Lawful(m) && P.IsFinite(c.Center) && P.IsFinite(other.Center)
    requires var d := P.DistanceTo(m, c.Center, other.Center);
             d != 0.0 && !Apart(d, c.Radius, other.Radius)
    ensures Intersect(m, c, other).found
    ensures var s := Intersect(m, c, other).solutions;
            forall i :: 0 <= i < |s| ==>
              && P.IsFinite(s[i])
              && P.DistanceTo(m, c.Center, s[i]) == c.Radius
              && P.DistanceTo(m, other.Center, s[i]) == other.Radius
  {
    CandidatesOnBothCircles(m, c, other);
  }

  /** Circles whose centres are a positive distance apart and that are not apart have
      non-negative radii: `|R - r| <= R + r` holds only when both are. */
  lemma RadiiNonNegative(m: MathLib, c: Circle2, other: Circle2)
    requires Lawful(m) && P.IsFinite(c.Center) && P.IsFinite(other.Center)
    requires !Apart(P.DistanceTo(m, c.Center, other.Center), c.Radius, other.Radius)
    ensures 0.0 <= c.Radius && 0.0 <= other.Radius
  {
    assert 0.0 <= P.DistanceTo(m, c.Center, other.Center);
  }
}
