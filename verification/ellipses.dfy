/**
 * `JA.Numerics.Geometry.Ellipse2`: an axis-aligned ellipse given by its centre and
 * its two radii, its conic coefficients, its parametrisation, and its three
 * closest-point constructions.
 *
 * The two iterative closest-point constructions run `GaussPointIteration` and test
 * the final iterate for Infinity and NaN. Over `real` every iterate is a number, so the
 * model takes the non-finite branch exactly on the inputs where the C# code divides by
 * zero in the iteration function: an ellipse with equal radii (for a point), and a
 * line through the centre or a zero major radius (for a line).
 */
module Ellipses {
  import opened RealMath
  import opened Homogeneous
  import opened Outcomes
  import V = Vectors
  import P = Points
  import G = Geometry
  import C = Circles
  import N = NumericalMethods

  datatype Ellipse2 = Ellipse2(Center: Point2, MajorAxis: real, MinorAxis: real)

  /** The coefficients of the conic `A x² + 2B xy + C y² + 2D x + 2E y + F`. */
  datatype Conic = Conic(A: real, B: real, C: real, D: real, E: real, F: real)

  /** Both radii are non-zero, so that the coefficients exist. */
  predicate HasProperAxes(e: Ellipse2) {
    e.MajorAxis != 0.0 && e.MinorAxis != 0.0
  }

  /** `Ellipse2.Deconstruct`: the conic coefficients. The centre enters through its raw
      `U` and `V`, and the constant term has no `- 1`, so the conic as written takes the
      value 1, not 0, on the ellipse (see `GetPointOnConic`). */
  function Deconstruct(e: Ellipse2): Conic
    requires HasProperAxes(e)
  {
    var a2, b2 := Square(e.MajorAxis), Square(e.MinorAxis);
    SquareNonZero(e.MajorAxis);
    SquareNonZero(e.MinorAxis);
    var cx, cy := e.Center.U, e.Center.V;
    Conic(1.0 / a2, 0.0, 1.0 / b2, -cx / a2, -cy / b2, cx * cx / a2 + cy * cy / b2)
  }

  /** `Ellipse2.GetCoefficients`: the symmetric 3×3 matrix of the same conic. */
  function GetCoefficients(e: Ellipse2): (r: seq<seq<real>>)
    requires HasProperAxes(e)
    ensures |r| == 3 && forall i :: 0 <= i < 3 ==> |r[i]| == 3
    ensures forall i, j :: 0 <= i < 3 && 0 <= j < 3 ==> r[i][j] == r[j][i]
    ensures var k := Deconstruct(e);
            r[0][0] == k.A && r[0][1] == k.B && r[1][1] == k.C &&
            r[0][2] == k.D && r[1][2] == k.E && r[2][2] == k.F
  {
    var a2, b2 := Square(e.MajorAxis), Square(e.MinorAxis);
    SquareNonZero(e.MajorAxis);
    SquareNonZero(e.MinorAxis);
    var cx, cy := e.Center.U, e.Center.V;
    [[1.0 / a2, 0.0, -cx / a2],
     [0.0, 1.0 / b2, -cy / b2],
     [-cx / a2, -cy / b2, cx * cx / a2 + cy * cy / b2]]
  }

  /** The conic evaluated at the homogeneous point `p`. */
  function EvaluateAt(k: Conic, p: Point2): real {
    k.A * p.U * p.U + 2.0 * k.B * p.U * p.V + k.C * p.V * p.V
    + 2.0 * k.D * p.U * p.W + 2.0 * k.E * p.V * p.W + k.F * p.W * p.W
  }

  /** `Ellipse2.GetPoint`: the point at parameter `t`, the centre moved by the
      elliptical displacement. */
  function GetPoint(m: MathLib, e: Ellipse2, t: real): (r: Point2)
    ensures r.W == e.Center.W
    ensures P.IsFinite(e.Center) ==> P.AsVector(r) == V.Add(P.AsVector(e.Center), G.Elliptical(m, e.MajorAxis, e.MinorAxis, t))
  {
    P.AddVector(e.Center, G.Elliptical(m, e.MajorAxis, e.MinorAxis, t))
  }

  /** `x / y` for a divisor that a lawful library never makes zero (a square root of a
      number at least 1); a zero divisor gives 0. */
  function Ratio(x: real, y: real): real {
    if y == 0.0 then 0.0 else x / y
  }

  // ---------------------------------------------------------------------------
  // Closest point to a point

  /** The iteration function of `GetClosestPoint(Point2, tol)`, with `k` the reciprocal
      of its `A`. */
  function PointIteration(m: MathLib, k: real, b: real, sign: int): real -> real {
    z => k * (b + Ratio((sign as real) * 2.0 * z, Sqrt(m, 1.0 + z * z)))
  }

  /** `a² - b²`, the `Q` of `GetClosestPoint(Point2, tol)`; zero when the radii agree in
      magnitude. */
  function AxisGap(e: Ellipse2): real {
    e.MajorAxis * e.MajorAxis - e.MinorAxis * e.MinorAxis
  }

  /** The `A` of `GetClosestPoint(Point2, tol)`: `2·dx·a / Q`. */
  function MajorCoefficient(e: Ellipse2, point: Point2): real
    requires P.IsFinite(e.Center) && P.IsFinite(point) && AxisGap(e) != 0.0
  {
    2.0 * P.VectorTo(e.Center, point).X * e.MajorAxis / AxisGap(e)
  }

  /** The `B` of `GetClosestPoint(Point2, tol)`: `2·dy·b / Q`. */
  function MinorCoefficient(e: Ellipse2, point: Point2): real
    requires P.IsFinite(e.Center) && P.IsFinite(point) && AxisGap(e) != 0.0
  {
    2.0 * P.VectorTo(e.Center, point).Y * e.MinorAxis / AxisGap(e)
  }

  /** The parameter `t` that `GetClosestPoint(Point2, tol)` hands to `GetPoint`. With
      radii of equal magnitude the C# `A` and `B` divide by zero, the iterate is not
      finite and `t` falls back to 0. Otherwise, with the point straight above or below
      the centre, `t` is `Sign(B)·π/2`; else `t` comes from the final iterate, whether or
      not the iteration reported convergence. */
  function PointParameter(m: MathLib, e: Ellipse2, point: Point2, tol: real): real
    requires P.IsFinite(e.Center) && P.IsFinite(point)
  {
    var sign := Sign(P.VectorTo(e.Center, point).X);
    if AxisGap(e) == 0.0 then
      0.0
    else
      var a := MajorCoefficient(e, point);
      var b := MinorCoefficient(e, point);
      if a != 0.0 then
        var z := N.Gauss(PointIteration(m, 1.0 / a, b, sign), 0.0, tol).x;
        if sign == 1 then Atan(m, z) else Atan(m, z) + Pi(m)
      else
        (Sign(b) as real) * (Pi(m) / 2.0)
  }

  /** `Ellipse2.GetClosestPoint(Point2, tol)`. */
  function GetClosestPoint(m: MathLib, e: Ellipse2, point: Point2, tol: real): (r: Point2)
    requires P.IsFinite(e.Center) && P.IsFinite(point)
    ensures r.W == e.Center.W
  {
    GetPoint(m, e, PointParameter(m, e, point, tol))
  }

  /** `Ellipse2.GetClosestPoint(Circle2, tol)`: the closest point to the circle's centre. */
  function GetClosestPointToCircle(m: MathLib, e: Ellipse2, circle: C.Circle2, tol: real): (r: Point2)
    requires P.IsFinite(e.Center) && P.IsFinite(circle.Center)
    ensures r.W == e.Center.W
  {
    GetClosestPoint(m, e, circle.Center, tol)
  }

  // ---------------------------------------------------------------------------
  // Closest point to a line, by iteration

  /** The iteration function of `GetClosestPoint(Line2, tol)` for the line `(a, b, c)`
      moved to the ellipse's centre. */
  function LineIteration(m: MathLib, a: real, b: real, c: real, rx: real, ry: real): real -> real
    requires a * rx != 0.0
  {
    z => LineStep(m, a, b, c, rx, ry, z)
  }

  /** One step of `LineIteration`. */
  function LineStep(m: MathLib, a: real, b: real, c: real, rx: real, ry: real, z: real): real
    requires a * rx != 0.0
  {
    Ratio((b * ry - a * rx * z) * (a * rx + b * ry * z), a * c * rx * Sqrt(m, 1.0 + z * z)) + (b * ry) / (a * rx)
  }

  /** The line's constant term once the line is moved so that the ellipse's centre is
      the origin. */
  function CenteredOffset(e: Ellipse2, l: Line2): real
    requires P.IsFinite(e.Center)
  {
    var cen := P.AsVector(e.Center);
    l.C + l.A * cen.X + l.B * cen.Y
  }

  /** The parameter `t` that `GetClosestPoint(Line2, tol)` hands to `GetPoint`. A line
      with `a == 0` gives `π/2`. A line through the centre, or a zero major radius,
      divides by zero in the iteration function, and `t` falls back to 0. Otherwise `t`
      is the arc tangent of the final iterate, whether or not it converged. */
  function LineParameter(m: MathLib, e: Ellipse2, l: Line2, tol: real): real
    requires P.IsFinite(e.Center)
  {
    var c := CenteredOffset(e, l);
    var rx, ry := e.MajorAxis, e.MinorAxis;
    if l.A != 0.0 then
      if c == 0.0 || rx == 0.0 then
        0.0
      else
        ProductNonZero(l.A, rx);
        Atan(m, N.Gauss(LineIteration(m, l.A, l.B, c, rx, ry), 0.0, tol).x)
    else
      Pi(m) / 2.0
  }

  /** `Ellipse2.GetClosestPoint(Line2, tol)`. */
  function GetClosestPointToLine(m: MathLib, e: Ellipse2, l: Line2, tol: real): (r: Point2)
    requires P.IsFinite(e.Center)
    ensures r.W == e.Center.W
  {
    GetPoint(m, e, LineParameter(m, e, l, tol))
  }

  // ---------------------------------------------------------------------------
  // Closest point to a line, in closed form

  /** The exception of `GetClosestPoint(Line2, SolutionSet)` when the quadratic has no
      real root (`NotImplementedException`). */
  datatype EllipseError = NotImplemented

  /** The products `u`, `v`, `w` of the conic coefficients with the line's: the points
      where the conic's gradient is parallel to the line's normal are the points of the
      line `u x + v y + w = 0`. */
  datatype Projection = Projection(u: real, v: real, w: real)

  function Project(k: Conic, l: Line2): Projection {
    Projection(k.A * l.B - k.B * l.A, k.B * l.B - k.C * l.A, k.D * l.B - k.E * l.A)
  }

  /** `u² + v²`, the `W` of the constructed point. */
  function Spread(s: Projection): real {
    s.u * s.u + s.v * s.v
  }

  /** The coefficients of the quadratic `p t² + 2 q t + r` in the line parameter. */
  datatype Quadratic = Quadratic(p: real, q: real, r: real)

  /** The leading coefficient `P` of the closed form. */
  function Leading(k: Conic, s: Projection): real {
    k.A * s.v * s.v - s.u * (2.0 * k.B * s.v - k.C * s.u)
  }

  /** The coefficient `Q` of the closed form. */
  function Linear(k: Conic, s: Projection): real
    requires Spread(s) != 0.0
  {
    LinearNumerator(k, s) / Spread(s) + (k.E * s.u - k.D * s.v - k.B * s.w)
  }

  /** `v w (2B v + u (A - C))`, the numerator in `Linear`. */
  function LinearNumerator(k: Conic, s: Projection): real {
    s.v * s.w * (2.0 * k.B * s.v + s.u * (k.A - k.C))
  }

  /** The quadratic part of the conic at the foot `-(u, v) w / (u² + v²)`. */
  function FootValue(k: Conic, s: Projection): real
    requires Spread(s) != 0.0
  {
    FootNumerator(k, s) / Spread(s) / Spread(s)
  }

  /** `w² (A u² + 2B uv + C v²)`, the numerator of `FootValue`. */
  function FootNumerator(k: Conic, s: Projection): real {
    s.w * s.w * (k.A * (s.u * s.u) + 2.0 * k.B * s.u * s.v + k.C * (s.v * s.v))
  }

  /** `2 w (E v + D u) / (u² + v²)`: minus twice the linear part of the conic at the foot. */
  function FootSlope(k: Conic, s: Projection): real
    requires Spread(s) != 0.0
  {
    SlopeNumerator(k, s) / Spread(s)
  }

  /** `2 w (E v + D u)`, the numerator of `FootSlope`. */
  function SlopeNumerator(k: Conic, s: Projection): real {
    2.0 * s.w * (k.E * s.v + k.D * s.u)
  }

  /** The quadratic of `GetClosestPoint(Line2, SolutionSet)` as written, whose constant
      term adds `FootSlope` and keeps `F`. */
  function LineQuadratic(k: Conic, l: Line2): Quadratic
    requires Spread(Project(k, l)) != 0.0
  {
    var s := Project(k, l);
    Quadratic(Leading(k, s), Linear(k, s), FootValue(k, s) + FootSlope(k, s) + k.F)
  }

  /** The inputs on which the closed form divides by non-zero numbers only. */
  predicate Solvable(e: Ellipse2, l: Line2) {
    && HasProperAxes(e)
    && Spread(Project(Deconstruct(e), l)) != 0.0
    && LineQuadratic(Deconstruct(e), l).p != 0.0
  }

  /** `First` takes the negative square root and `Second` the positive one. */
  function SolutionSign(solution: N.SolutionSet): real {
    if solution == N.First then -1.0 else 1.0
  }

  function Discriminant(k: Quadratic): real {
    k.q * k.q - k.p * k.r
  }

  /** The root of `p t² + 2 q t + r` of the chosen solution, or the exception when the
      discriminant is negative. */
  function QuadraticSolution(m: MathLib, k: Quadratic, solution: N.SolutionSet): (r: Result<real, EllipseError>)
    requires k.p != 0.0
    ensures r.Failure? <==> Discriminant(k) < 0.0
  {
    var d := Discriminant(k);
    if d >= 0.0 then Success((SolutionSign(solution) * Sqrt(m, d) - k.q) / k.p)
    else Failure(NotImplemented)
  }

  /** `Ellipse2.GetClosestPoint(Line2, SolutionSet)` as written: the point of the chosen
      root, with weight `u² + v²` and both Cartesian coordinates along `v`, so that
      it leaves the line `u x + v y + w = 0` (`ClosestPointBySolutionOffProjection`). */
  function GetClosestPointBySolution(m: MathLib, e: Ellipse2, l: Line2, solution: N.SolutionSet): (r: Result<Point2, EllipseError>)
    requires Solvable(e, l)
    ensures r.Failure? <==> Discriminant(LineQuadratic(Deconstruct(e), l)) < 0.0
    ensures r.Success? ==> r.value.W == Spread(Project(Deconstruct(e), l))
  {
    var k := Deconstruct(e);
    match QuadraticSolution(m, LineQuadratic(k, l), solution)
    case Failure(err) => Failure(err)
    case Success(t) =>
      var s := Project(k, l);
      var uuvv := Spread(s);
      Success(Point2(-t * s.v * uuvv - s.u * s.w, t * s.v * uuvv - s.v * s.w, uuvv))
  }

  /** The quadratic whose roots are the points of the ellipse on the line `u x + v y + w
      = 0`: the conic along that line minus 1, because `Deconstruct` gives a conic whose
      value is 1 on the ellipse. It differs from `LineQuadratic` only in the constant
      term, which subtracts `FootSlope` and 1 (`ClosestPointBySolutionThrowsOnTiltedLine`
      and `TangentPointOnTiltedLine` show an input where only this one has a root). */
  function TangentQuadratic(k: Conic, l: Line2): Quadratic
    requires Spread(Project(k, l)) != 0.0
  {
    var s := Project(k, l);
    Quadratic(Leading(k, s), Linear(k, s), FootValue(k, s) - FootSlope(k, s) + k.F - 1.0)
  }

  /** The point of the line `u x + v y + w = 0` at parameter `t`, in the direction
      `(-v, u)` from the foot `-(u, v) w / (u² + v²)`, with weight `u² + v²`. */
  function PolarPoint(s: Projection, t: real): Point2 {
    var uuvv := Spread(s);
    Point2(-t * s.v * uuvv - s.u * s.w, t * s.u * uuvv - s.v * s.w, uuvv)
  }

  /** `GetClosestPoint(Line2, SolutionSet)` as evidently intended: the point of the
      ellipse where the tangent is parallel to the line, on the chosen side. */
  function TangentPoint(m: MathLib, e: Ellipse2, l: Line2, solution: N.SolutionSet): (r: Result<Point2, EllipseError>)
    requires Solvable(e, l)
    ensures r.Failure? <==> Discriminant(TangentQuadratic(Deconstruct(e), l)) < 0.0
    ensures r.Success? ==> r.value.W == Spread(Project(Deconstruct(e), l))
  {
    var k := Deconstruct(e);
    match QuadraticSolution(m, TangentQuadratic(k, l), solution)
    case Failure(err) => Failure(err)
    case Success(t) => Success(PolarPoint(Project(k, l), t))
  }

  // ---------------------------------------------------------------------------
  // Distances

  /** `Ellipse2.DistanceTo(Point2, tol)`: the distance from the closest point. */
  function DistanceTo(m: MathLib, e: Ellipse2, point: Point2, tol: real): (r: real)
    requires P.IsFinite(e.Center) && P.IsFinite(point)
    ensures Lawful(m) ==> 0.0 <= r
  {
    P.DistanceTo(m, GetClosestPoint(m, e, point, tol), point)
  }

  /** `Ellipse2.DistanceTo(Circle2, tol)`: the circle's distance from the point closest
      to its centre. */
  function DistanceToCircle(m: MathLib, e: Ellipse2, circle: C.Circle2, tol: real): (r: real)
    requires P.IsFinite(e.Center) && P.IsFinite(circle.Center)
    ensures Lawful(m) ==> -circle.Radius <= r
  {
    C.DistanceTo(m, circle, GetClosestPointToCircle(m, e, circle, tol))
  }

  /** `Ellipse2.DistanceTo(Line2, tol)`: the signed distance of the closest point. */
  function DistanceToLine(m: MathLib, e: Ellipse2, l: Line2, tol: real): (r: real)
    requires P.IsFinite(e.Center) && Weight(m, l) != 0.0
    ensures var q := GetClosestPointToLine(m, e, l, tol); r * (q.W * Weight(m, l)) == Dot(q, l)
  {
    P.DistanceToLine(m, GetClosestPointToLine(m, e, l, tol), l)
  }

  /** `Ellipse2.DistanceTo(Line2, SolutionSet)` as written: the signed distance of the
      point the closed form constructs, or its exception. */
  function DistanceToLineBySolution(m: MathLib, e: Ellipse2, l: Line2, solution: N.SolutionSet): (r: Result<real, EllipseError>)
    requires Solvable(e, l) && Weight(m, l) != 0.0
    ensures r.Failure? <==> Discriminant(LineQuadratic(Deconstruct(e), l)) < 0.0
    ensures r.Success? ==> var q := GetClosestPointBySolution(m, e, l, solution).value;
                           r.value * (q.W * Weight(m, l)) == Dot(q, l)
  {
    var point := GetClosestPointBySolution(m, e, l, solution);
    if point.Failure? then Failure(point.error)
    else Success(P.DistanceToLine(m, point.value, l))
  }

  /** `Ellipse2.DistanceTo(Line2, SolutionSet)` as evidently intended: the signed
      distance of the tangent point, or the exception when there is none. */
  function DistanceToLineByTangent(m: MathLib, e: Ellipse2, l: Line2, solution: N.SolutionSet): (r: Result<real, EllipseError>)
    requires Solvable(e, l) && Weight(m, l) != 0.0
    ensures r.Failure? <==> Discriminant(TangentQuadratic(Deconstruct(e), l)) < 0.0
    ensures r.Success? ==> var q := TangentPoint(m, e, l, solution).value;
                           r.value * (q.W * Weight(m, l)) == Dot(q, l)
  {
    var point := TangentPoint(m, e, l, solution);
    if point.Failure? then Failure(point.error)
    else Success(P.DistanceToLine(m, point.value, l))
  }

  // ---------------------------------------------------------------------------
  // Properties

  lemma SpreadPositive(s: Projection)
    requires Spread(s) != 0.0
    ensures 0.0 < Spread(s)
  {
    SquaresNonNegative(s.u, s.v);
  }

  /** The coefficients of `Deconstruct`, with the squared radii named. */
  lemma DeconstructUnfold(e: Ellipse2)
    requires HasProperAxes(e)
    ensures Square(e.MajorAxis) != 0.0 && Square(e.MinorAxis) != 0.0
    ensures var k, a2, b2, cx, cy := Deconstruct(e), Square(e.MajorAxis), Square(e.MinorAxis), e.Center.U, e.Center.V;
            k == Conic(1.0 / a2, 0.0, 1.0 / b2, -cx / a2, -cy / b2, cx * cx / a2 + cy * cy / b2)
  {
    SquareNonZero(e.MajorAxis);
    SquareNonZero(e.MinorAxis);
  }

  /** One axis of the conic at a point of the ellipse: with `x = cx + a·c` and `n = a²`,
      `x²/n - 2·cx·x/n + cx²/n = c²`. */
  lemma AxisTerm(n: real, a: real, cx: real, c: real, x: real)
    requires n == Square(a) && n != 0.0 && x == cx + a * c
    ensures (1.0 / n) * x * x + 2.0 * (-cx / n) * x + cx * cx / n == c * c
  {
    calc {
      (1.0 / n) * x * x + 2.0 * (-cx / n) * x + cx * cx / n;
      (x * x - 2.0 * cx * x + cx * cx) / n;
      ((x - cx) * (x - cx)) / n;
      ((a * c) * (a * c)) / n;
      (n * (c * c)) / n;
      c * c;
    }
  }

  /** The conic at a point of weight 1, grouped by axis. */
  lemma EvaluateAtUnitWeight(k: Conic, p: Point2, fx: real, fy: real)
    requires p.W == 1.0 && k.B == 0.0 && k.F == fx + fy
    ensures EvaluateAt(k, p) == (k.A * p.U * p.U + 2.0 * k.D * p.U + fx) + (k.C * p.V * p.V + 2.0 * k.E * p.V + fy)
  {
  }

  /** With the centre's weight 1, `GetPoint(t)` is `(cx + a·cos t, cy + b·sin t, 1)`. */
  lemma GetPointUnitWeight(m: MathLib, e: Ellipse2, t: real)
    requires e.Center.W == 1.0
    ensures GetPoint(m, e, t) == Point2(e.Center.U + e.MajorAxis * Cos(m, t), e.Center.V + e.MinorAxis * Sin(m, t), 1.0)
  {
  }

  /** With the centre's weight 1, the conic as written takes the value 1 at every point
      `GetPoint(t)` of the ellipse: the constant term lacks the `- 1` that would make the
      ellipse its zero set. */
  lemma GetPointOnConic(m: MathLib, e: Ellipse2, t: real)
    requires Lawful(m) && HasProperAxes(e) && e.Center.W == 1.0
    ensures EvaluateAt(Deconstruct(e), GetPoint(m, e, t)) == 1.0
  {
    var p := GetPoint(m, e, t);
    var k := Deconstruct(e);
    var c, s := Cos(m, t), Sin(m, t);
    var a2, b2, cx, cy := Square(e.MajorAxis), Square(e.MinorAxis), e.Center.U, e.Center.V;
    TrigLaw(m, t);
    DeconstructUnfold(e);
    GetPointUnitWeight(m, e, t);
    AxisTerm(a2, e.MajorAxis, cx, c, p.U);
    AxisTerm(b2, e.MinorAxis, cy, s, p.V);
    EvaluateAtUnitWeight(k, p, cx * cx / a2, cy * cy / b2);
  }

  /** The closest points to a point and to a line are points of the ellipse: with the
      centre's weight 1 the conic takes the value 1 at both. */
  lemma ClosestPointsOnConic(m: MathLib, e: Ellipse2, point: Point2, l: Line2, tol: real)
    requires Lawful(m) && HasProperAxes(e) && e.Center.W == 1.0 && P.IsFinite(point)
    ensures EvaluateAt(Deconstruct(e), GetClosestPoint(m, e, point, tol)) == 1.0
    ensures EvaluateAt(Deconstruct(e), GetClosestPointToLine(m, e, l, tol)) == 1.0
  {
    GetPointOnConic(m, e, PointParameter(m, e, point, tol));
    GetPointOnConic(m, e, LineParameter(m, e, l, tol));
  }

  /** The vertex at the end of the major radius, `GetPoint(0)`. */
  lemma GetPointAtZero(m: MathLib, e: Ellipse2)
    requires Lawful(m)
    ensures GetPoint(m, e, 0.0) == P.AddVector(e.Center, V.Vector2(e.MajorAxis, 0.0))
  {
    G.EllipticalAtZero(m, e.MajorAxis, e.MinorAxis);
  }

  /** The vertices `GetPoint(π)`, `GetPoint(π/2)` and `GetPoint(-π/2)`. */
  lemma GetPointAtQuarters(m: MathLib, e: Ellipse2)
    requires Lawful(m)
    ensures GetPoint(m, e, Pi(m)) == P.AddVector(e.Center, V.Vector2(-e.MajorAxis, 0.0))
    ensures GetPoint(m, e, Pi(m) / 2.0) == P.AddVector(e.Center, V.Vector2(0.0, e.MinorAxis))
    ensures GetPoint(m, e, -(Pi(m) / 2.0)) == P.AddVector(e.Center, V.Vector2(0.0, -e.MinorAxis))
  {
  }

  /** With radii of equal magnitude (a circle) the iteration is never run and the
      closest point to any point is the vertex `GetPoint(0)`. */
  lemma ClosestPointOfCircularEllipse(m: MathLib, e: Ellipse2, point: Point2, tol: real)
    requires P.IsFinite(e.Center) && P.IsFinite(point)
    requires e.MajorAxis == e.MinorAxis || e.MajorAxis == -e.MinorAxis
    ensures GetClosestPoint(m, e, point, tol) == GetPoint(m, e, 0.0)
    ensures Lawful(m) ==> GetClosestPoint(m, e, point, tol) == P.AddVector(e.Center, V.Vector2(e.MajorAxis, 0.0))
  {
    assert AxisGap(e) == 0.0;
    if Lawful(m) {
      GetPointAtZero(m, e);
    }
  }

  /** A point straight above or below the centre (the centre itself included) gets the
      vertex on the minor axis on the side of `B`, or the major vertex when `B` is zero. */
  lemma ClosestPointOnMinorAxisLine(m: MathLib, e: Ellipse2, point: Point2, tol: real)
    requires Lawful(m) && P.IsFinite(e.Center) && P.IsFinite(point)
    requires AxisGap(e) != 0.0 && P.VectorTo(e.Center, point).X == 0.0
    ensures var s, r := Sign(MinorCoefficient(e, point)), GetClosestPoint(m, e, point, tol);
            && (s == 0 ==> r == P.AddVector(e.Center, V.Vector2(e.MajorAxis, 0.0)))
            && (s == 1 ==> r == P.AddVector(e.Center, V.Vector2(0.0, e.MinorAxis)))
            && (s == -1 ==> r == P.AddVector(e.Center, V.Vector2(0.0, -e.MinorAxis)))
  {
    assert MajorCoefficient(e, point) == 0.0;
    GetPointAtZero(m, e);
    GetPointAtQuarters(m, e);
  }

  /** The iteration function of a point level with the centre has the fixed point 0, so
      the iteration started there converges at once. */
  lemma PointIterationFixesZero(m: MathLib, k: real, sign: int, tol: real)
    requires 0.0 <= tol
    ensures PointIteration(m, k, 0.0, sign)(0.0) == 0.0
    ensures N.Gauss(PointIteration(m, k, 0.0, sign), 0.0, tol) == N.Iteration(true, 0.0, 1)
  {
    assert PointIteration(m, k, 0.0, sign)(0.0) == 0.0;
    N.GaussAtFixedPoint(PointIteration(m, k, 0.0, sign), 0.0, tol);
  }

  /** The parameter for a point level with the centre, off to one side: 0 on the right
      and `π` on the left, once the iteration has started at its fixed point; 0 for a
      zero major radius, where `A` vanishes. */
  lemma PointParameterOnMajorAxisLine(m: MathLib, e: Ellipse2, point: Point2, tol: real)
    requires Lawful(m) && P.IsFinite(e.Center) && P.IsFinite(point) && 0.0 <= tol
    requires AxisGap(e) != 0.0
    requires P.VectorTo(e.Center, point).Y == 0.0 && P.VectorTo(e.Center, point).X != 0.0
    ensures var dx := P.VectorTo(e.Center, point).X;
            && (e.MajorAxis != 0.0 && 0.0 < dx ==> PointParameter(m, e, point, tol) == 0.0)
            && (e.MajorAxis != 0.0 && dx < 0.0 ==> PointParameter(m, e, point, tol) == Pi(m))
            && (e.MajorAxis == 0.0 ==> PointParameter(m, e, point, tol) == 0.0)
  {
    if e.MajorAxis != 0.0 {
      MajorCoefficientNonZero(e, point);
      PointParameterIterated(m, e, point, tol);
    } else {
      assert MajorCoefficient(e, point) == 0.0 && MinorCoefficient(e, point) == 0.0;
    }
  }

  /** `A` vanishes only with `dx` or the major radius. */
  lemma MajorCoefficientNonZero(e: Ellipse2, point: Point2)
    requires P.IsFinite(e.Center) && P.IsFinite(point) && AxisGap(e) != 0.0
    requires P.VectorTo(e.Center, point).X != 0.0 && e.MajorAxis != 0.0
    ensures MajorCoefficient(e, point) != 0.0
  {
    var n := 2.0 * P.VectorTo(e.Center, point).X * e.MajorAxis;
    ProductNonZero(2.0 * P.VectorTo(e.Center, point).X, e.MajorAxis);
    MultiplyBack(n, AxisGap(e));
  }

  /** With `A` non-zero and `B` zero the iteration stays at 0, and `t` is `Atan(0)`
      or `Atan(0) + π` by the side of the point. */
  lemma PointParameterIterated(m: MathLib, e: Ellipse2, point: Point2, tol: real)
    requires Lawful(m) && P.IsFinite(e.Center) && P.IsFinite(point) && 0.0 <= tol
    requires AxisGap(e) != 0.0 && MajorCoefficient(e, point) != 0.0 && P.VectorTo(e.Center, point).Y == 0.0
    ensures PointParameter(m, e, point, tol) == (if Sign(P.VectorTo(e.Center, point).X) == 1 then 0.0 else Pi(m))
  {
    assert MinorCoefficient(e, point) == 0.0;
    PointIterationFixesZero(m, 1.0 / MajorCoefficient(e, point), Sign(P.VectorTo(e.Center, point).X), tol);
  }

  /** A point level with the centre, off to one side, gets the major vertex on its own
      side: the iteration starts at its fixed point 0 and converges at once. */
  lemma ClosestPointOnMajorAxisLine(m: MathLib, e: Ellipse2, point: Point2, tol: real)
    requires Lawful(m) && P.IsFinite(e.Center) && P.IsFinite(point) && 0.0 <= tol
    requires AxisGap(e) != 0.0
    requires P.VectorTo(e.Center, point).Y == 0.0 && P.VectorTo(e.Center, point).X != 0.0
    ensures 0.0 < P.VectorTo(e.Center, point).X ==>
              GetClosestPoint(m, e, point, tol) == P.AddVector(e.Center, V.Vector2(e.MajorAxis, 0.0))
    ensures P.VectorTo(e.Center, point).X < 0.0 ==>
              GetClosestPoint(m, e, point, tol) == P.AddVector(e.Center, V.Vector2(-e.MajorAxis, 0.0))
  {
    PointParameterOnMajorAxisLine(m, e, point, tol);
    GetPointAtZero(m, e);
    GetPointAtQuarters(m, e);
  }

  /** A horizontal line (`a == 0`) gets the top of the ellipse, `GetPoint(π/2)`. */
  lemma ClosestPointToHorizontalLine(m: MathLib, e: Ellipse2, l: Line2, tol: real)
    requires Lawful(m) && P.IsFinite(e.Center) && l.A == 0.0
    ensures GetClosestPointToLine(m, e, l, tol) == P.AddVector(e.Center, V.Vector2(0.0, e.MinorAxis))
  {
    GetPointAtQuarters(m, e);
  }

  /** A line through the centre that is not horizontal gets the major vertex
      `GetPoint(0)`: the iteration function divides by zero. */
  lemma ClosestPointToLineThroughCentre(m: MathLib, e: Ellipse2, l: Line2, tol: real)
    requires Lawful(m) && P.IsFinite(e.Center) && l.A != 0.0 && CenteredOffset(e, l) == 0.0
    ensures GetClosestPointToLine(m, e, l, tol) == P.AddVector(e.Center, V.Vector2(e.MajorAxis, 0.0))
  {
    GetPointAtZero(m, e);
  }

  /** The iteration function of a vertical line has the fixed point 0. */
  lemma LineIterationFixesZero(m: MathLib, a: real, c: real, rx: real, ry: real)
    requires a * rx != 0.0
    ensures LineIteration(m, a, 0.0, c, rx, ry)(0.0) == 0.0
  {
    assert (0.0 * ry - a * rx * 0.0) * (a * rx + 0.0 * ry * 0.0) == 0.0;
    assert LineStep(m, a, 0.0, c, rx, ry, 0.0) == 0.0;
  }

  /** Every vertical line gets the major vertex `GetPoint(0)`, on whichever side of the
      ellipse it lies: `t` is an arc tangent, so the iteration only ever reaches the half
      of the ellipse with `cos t > 0`. */
  lemma ClosestPointToVerticalLine(m: MathLib, e: Ellipse2, l: Line2, tol: real)
    requires Lawful(m) && P.IsFinite(e.Center) && 0.0 <= tol
    requires l.A != 0.0 && l.B == 0.0
    ensures GetClosestPointToLine(m, e, l, tol) == P.AddVector(e.Center, V.Vector2(e.MajorAxis, 0.0))
  {
    var c := CenteredOffset(e, l);
    GetPointAtZero(m, e);
    if c != 0.0 && e.MajorAxis != 0.0 {
      ProductNonZero(l.A, e.MajorAxis);
      LineIterationFixesZero(m, l.A, c, e.MajorAxis, e.MinorAxis);
      N.GaussAtFixedPoint(LineIteration(m, l.A, l.B, c, e.MajorAxis, e.MinorAxis), 0.0, tol);
      assert N.Gauss(LineIteration(m, l.A, l.B, c, e.MajorAxis, e.MinorAxis), 0.0, tol).x == 0.0;
      assert LineParameter(m, e, l, tol) == Atan(m, 0.0);
    }
    assert LineParameter(m, e, l, tol) == 0.0;
  }

  // ---------------------------------------------------------------------------
  // The closed form

  /** The root the closed form picks solves its quadratic. */
  lemma QuadraticSolutionIsRoot(m: MathLib, k: Quadratic, solution: N.SolutionSet)
    requires Lawful(m) && k.p != 0.0
    ensures QuadraticSolution(m, k, solution).Success? ==>
              QuadraticAt(k, QuadraticSolution(m, k, solution).value) == 0.0
  {
    var d := Discriminant(k);
    if d >= 0.0 {
      SqrtLaw(m, d);
      QuadraticRoot(k.p, k.q, k.r, Sqrt(m, d), SolutionSign(solution), QuadraticSolution(m, k, solution).value);
    }
  }

  /** `t = (s·√d - q) / p` with `s = ±1` and `(√d)² = q² - p r` solves `p t² + 2 q t + r = 0`. */
  lemma QuadraticRoot(p: real, q: real, r: real, root: real, sign: real, t: real)
    requires p != 0.0 && root * root == q * q - p * r
    requires sign == 1.0 || sign == -1.0
    requires t == (sign * root - q) / p
    ensures p * t * t + 2.0 * q * t + r == 0.0
  {
    var pt := sign * root - q;
    assert p * t == pt;
    assert sign * sign == 1.0;
    calc {
      p * (p * t * t + 2.0 * q * t + r);
      (p * t) * (p * t) + 2.0 * q * (p * t) + p * r;
      pt * pt + 2.0 * q * pt + p * r;
      sign * sign * (root * root) - q * q + p * r;
      0.0;
    }
    ZeroProduct(p, p * t * t + 2.0 * q * t + r);
  }

  /** The two solutions exist together, their sum is `-2q/p` and their difference
      `2√d/p`: `Second` lies beyond `First` in the direction of the sign of `p`. */
  lemma QuadraticSolutionsPair(m: MathLib, k: Quadratic)
    requires k.p != 0.0
    ensures QuadraticSolution(m, k, N.First).Success? <==> QuadraticSolution(m, k, N.Second).Success?
    ensures QuadraticSolution(m, k, N.First).Success? ==>
              var t1, t2 := QuadraticSolution(m, k, N.First).value, QuadraticSolution(m, k, N.Second).value;
              && k.p * (t1 + t2) == -2.0 * k.q
              && k.p * (t2 - t1) == 2.0 * Sqrt(m, Discriminant(k))
  {
    var d := Discriminant(k);
    if d >= 0.0 {
      var t1, t2 := QuadraticSolution(m, k, N.First).value, QuadraticSolution(m, k, N.Second).value;
      MultiplyBack(-Sqrt(m, d) - k.q, k.p);
      MultiplyBack(Sqrt(m, d) - k.q, k.p);
      assert k.p * t1 == -Sqrt(m, d) - k.q;
      assert k.p * t2 == Sqrt(m, d) - k.q;
    }
  }

  /** The conic's gradient at a homogeneous point, halved. */
  function Gradient(k: Conic, p: Point2): V.Vector2 {
    V.Vector2(k.A * p.U + k.B * p.V + k.D * p.W, k.B * p.U + k.C * p.V + k.E * p.W)
  }

  /** The gradient `g` is parallel to the normal `(a, b)` of the line, so the tangent
      there is parallel to the line. */
  predicate AlongNormal(g: V.Vector2, l: Line2) {
    g.X * l.B == g.Y * l.A
  }

  /** The cross product of the gradient with the line's normal is the line `(u, v, w)`
      of `Project` evaluated at the point. */
  lemma GradientAgainstNormal(k: Conic, l: Line2, p: Point2)
    ensures var g, s := Gradient(k, p), Project(k, l);
            g.X * l.B - g.Y * l.A == s.u * p.U + s.v * p.V + s.w * p.W
  {
  }

  /** The value of the line `u x + v y + w` at a homogeneous point. */
  function ProjectionAt(s: Projection, p: Point2): real {
    s.u * p.U + s.v * p.V + s.w * p.W
  }

  /** The point lies on the line `u x + v y + w = 0`. */
  predicate OnProjection(s: Projection, p: Point2) {
    ProjectionAt(s, p) == 0.0
  }

  /** Every `PolarPoint` lies on the line `u x + v y + w = 0`. */
  lemma PolarPointOnLine(s: Projection, t: real)
    ensures OnProjection(s, PolarPoint(s, t))
  {
    var x := PolarPoint(s, t);
    var uuvv := Spread(s);
    calc {
      s.u * x.U + s.v * x.V + s.w * x.W;
      s.u * (-t * s.v * uuvv - s.u * s.w) + s.v * (t * s.u * uuvv - s.v * s.w) + s.w * uuvv;
      s.w * (uuvv - (s.u * s.u + s.v * s.v));
      0.0;
    }
  }

  /** The tangent at every `PolarPoint` of the projection of a conic and a line is
      parallel to that line. */
  lemma PolarPointTangent(k: Conic, l: Line2, t: real)
    ensures AlongNormal(Gradient(k, PolarPoint(Project(k, l), t)), l)
  {
    PolarPointOnLine(Project(k, l), t);
    TangentWhereProjectionVanishes(k, l, PolarPoint(Project(k, l), t));
  }

  /** Wherever the line `(u, v, w)` of `Project` vanishes, the tangent is parallel to
      the line. */
  lemma TangentWhereProjectionVanishes(k: Conic, l: Line2, p: Point2)
    requires OnProjection(Project(k, l), p)
    ensures AlongNormal(Gradient(k, p), l)
  {
    GradientAgainstNormal(k, l, p);
  }

  /** The conic at a scaled homogeneous point is the square of the scale times the conic
      at the Cartesian point. */
  lemma HomogeneousScaling(k: Conic, x: real, y: real, n: real)
    ensures EvaluateAt(k, Point2(n * x, n * y, n)) == n * n * EvaluateAt(k, Point2(x, y, 1.0))
  {
  }

  /** The conic along the line through `-(u, v)·a` in direction `(-v, u)`, as a quadratic
      in the parameter. */
  lemma ConicAlongLine(k: Conic, u: real, v: real, a: real, t: real)
    ensures EvaluateAt(k, Point2(-u * a - t * v, -v * a + t * u, 1.0)) == QuadraticAt(ConicAlong(k, u, v, a), t)
  {
    var x, y := -u * a - t * v, -v * a + t * u;
    var c := ConicAlong(k, u, v, a);
    ProductsAlong(u, v, a, t, x, y);
    QuadraticPartAlong(k, u, v, a, t, x * x, x * y, y * y);
    LinearPartAlong(k, u, v, a, t, x, y);
    assert EvaluateAt(k, Point2(x, y, 1.0))
        == (k.A * (x * x) + 2.0 * k.B * (x * y) + k.C * (y * y)) + (2.0 * k.D * x + 2.0 * k.E * y) + k.F;
    assert QuadraticAt(c, t) == c.p * t * t + 2.0 * c.q * t + c.r;
  }

  /** The products of the coordinates along the line `x = -u a - t v`, `y = -v a + t u`. */
  lemma ProductsAlong(u: real, v: real, a: real, t: real, x: real, y: real)
    requires x == -u * a - t * v && y == -v * a + t * u
    ensures x * x == u * u * a * a + 2.0 * u * v * a * t + v * v * t * t
    ensures x * y == u * v * a * a + (v * v - u * u) * a * t - u * v * t * t
    ensures y * y == v * v * a * a - 2.0 * u * v * a * t + u * u * t * t
  {
  }

  /** The quadratic part of the conic along the line, by powers of the parameter. */
  lemma QuadraticPartAlong(k: Conic, u: real, v: real, a: real, t: real, xx: real, xy: real, yy: real)
    requires xx == u * u * a * a + 2.0 * u * v * a * t + v * v * t * t
    requires xy == u * v * a * a + (v * v - u * u) * a * t - u * v * t * t
    requires yy == v * v * a * a - 2.0 * u * v * a * t + u * u * t * t
    ensures k.A * xx + 2.0 * k.B * xy + k.C * yy
            == ConicAlong(k, u, v, a).p * t * t
               + 2.0 * a * (u * v * (k.A - k.C) + k.B * (v * v - u * u)) * t
               + a * a * (k.A * u * u + 2.0 * k.B * u * v + k.C * v * v)
  {
  }

  /** The linear part of the conic along the line, by powers of the parameter. */
  lemma LinearPartAlong(k: Conic, u: real, v: real, a: real, t: real, x: real, y: real)
    requires x == -u * a - t * v && y == -v * a + t * u
    ensures 2.0 * k.D * x + 2.0 * k.E * y == 2.0 * (k.E * u - k.D * v) * t - 2.0 * a * (k.D * u + k.E * v)
  {
  }

  /** `x / n = y` when `x = y·n`. */
  lemma DivideOut(x: real, n: real, y: real)
    requires n != 0.0 && x == y * n
    ensures x / n == y
  {
  }

  /** The coefficients of the conic along the line through `-(u, v)·a` in direction
      `(-v, u)`, as a quadratic `p t² + 2 q t + r` in the parameter. */
  function ConicAlong(k: Conic, u: real, v: real, a: real): Quadratic {
    Quadratic(
      k.A * v * v - 2.0 * k.B * u * v + k.C * u * u,
      a * (u * v * (k.A - k.C) + k.B * (v * v - u * u)) + k.E * u - k.D * v,
      a * a * (k.A * u * u + 2.0 * k.B * u * v + k.C * v * v) - 2.0 * a * (k.D * u + k.E * v) + k.F)
  }

  /** `Leading` is the leading coefficient of the conic along the line. */
  lemma LeadingAlong(k: Conic, s: Projection)
    requires Spread(s) != 0.0
    ensures Leading(k, s) == ConicAlong(k, s.u, s.v, s.w / Spread(s)).p
  {
    assert k.A * s.v * s.v - s.u * (2.0 * k.B * s.v - k.C * s.u)
        == k.A * s.v * s.v - 2.0 * k.B * s.u * s.v + k.C * s.u * s.u;
  }

  /** `Linear` is the middle coefficient of the conic along the line, from its foot
      `-(u, v)·a` with `a = w / (u² + v²)`. */
  lemma LinearAlong(k: Conic, s: Projection)
    requires Spread(s) != 0.0
    ensures Linear(k, s) == ConicAlong(k, s.u, s.v, s.w / Spread(s)).q
  {
    MultiplyBack(s.w, Spread(s));
    LinearAt(k, s, s.w / Spread(s));
  }

  lemma LinearAt(k: Conic, s: Projection, a: real)
    requires Spread(s) != 0.0 && s.w == a * Spread(s)
    ensures Linear(k, s) == ConicAlong(k, s.u, s.v, a).q
  {
    LinearQuotient(k, s, a);
    LinearRegroup(k.A, k.B, k.C, s.u, s.v, a, Spread(s));
  }

  lemma LinearQuotient(k: Conic, s: Projection, a: real)
    requires Spread(s) != 0.0 && s.w == a * Spread(s)
    ensures LinearNumerator(k, s) / Spread(s) == s.v * a * (2.0 * k.B * s.v + s.u * (k.A - k.C))
  {
    var f := 2.0 * k.B * s.v + s.u * (k.A - k.C);
    assert LinearNumerator(k, s) == (s.v * a * f) * Spread(s);
    DivideOut(LinearNumerator(k, s), Spread(s), s.v * a * f);
  }

  lemma LinearRegroup(A: real, B: real, C: real, u: real, v: real, a: real, n: real)
    requires n == u * u + v * v
    ensures v * a * (2.0 * B * v + u * (A - C)) - B * (a * n)
            == a * (u * v * (A - C) + B * (v * v - u * u))
  {
  }

  /** `FootValue` is the quadratic part of the conic at the foot `-(u, v)·a`. */
  lemma FootValueAlong(k: Conic, s: Projection)
    requires Spread(s) != 0.0
    ensures var a := s.w / Spread(s);
            FootValue(k, s) == a * a * (k.A * s.u * s.u + 2.0 * k.B * s.u * s.v + k.C * s.v * s.v)
  {
    var a := s.w / Spread(s);
    var x := k.A * (s.u * s.u) + 2.0 * k.B * s.u * s.v + k.C * (s.v * s.v);
    MultiplyBack(s.w, Spread(s));
    assert FootNumerator(k, s) == (a * a * x * Spread(s)) * Spread(s);
    DivideOut(FootNumerator(k, s), Spread(s), a * a * x * Spread(s));
    DivideOut(a * a * x * Spread(s), Spread(s), a * a * x);
  }

  /** `FootSlope` is minus twice the linear part of the conic at the foot. */
  lemma FootSlopeAlong(k: Conic, s: Projection)
    requires Spread(s) != 0.0
    ensures FootSlope(k, s) == 2.0 * (s.w / Spread(s)) * (k.D * s.u + k.E * s.v)
  {
    var a := s.w / Spread(s);
    MultiplyBack(s.w, Spread(s));
    assert SlopeNumerator(k, s) == (2.0 * a * (k.D * s.u + k.E * s.v)) * Spread(s);
    DivideOut(SlopeNumerator(k, s), Spread(s), 2.0 * a * (k.D * s.u + k.E * s.v));
  }

  /** `TangentQuadratic` is the conic along the line `u x + v y + w = 0`, from its foot
      `-(u, v)·a` with `a = w / (u² + v²)`, minus 1. */
  lemma TangentQuadraticShape(k: Conic, l: Line2)
    requires Spread(Project(k, l)) != 0.0
    ensures var s := Project(k, l);
            var c := ConicAlong(k, s.u, s.v, s.w / Spread(s));
            && TangentQuadratic(k, l).p == c.p
            && TangentQuadratic(k, l).q == c.q
            && TangentQuadratic(k, l).r == c.r - 1.0
  {
    var s := Project(k, l);
    LeadingAlong(k, s);
    LinearAlong(k, s);
    FootValueAlong(k, s);
    FootSlopeAlong(k, s);
  }

  /** The Cartesian point of `PolarPoint`: `-(u, v)·a + t·(-v, u)` with
      `a = w / (u² + v²)`. */
  function PolarFoot(s: Projection, t: real): Point2
    requires Spread(s) != 0.0
  {
    var a := s.w / Spread(s);
    Point2(-s.u * a - t * s.v, -s.v * a + t * s.u, 1.0)
  }

  /** `PolarPoint` is `PolarFoot` scaled by `u² + v²`. */
  lemma PolarPointScaled(s: Projection, t: real)
    requires Spread(s) != 0.0
    ensures var n, f := Spread(s), PolarFoot(s, t);
            PolarPoint(s, t) == Point2(n * f.U, n * f.V, n)
  {
    MultiplyBack(s.w, Spread(s));
  }

  /** Along the line `u x + v y + w = 0` the conic minus 1 is `TangentQuadratic`. */
  lemma PolarFootOnConic(k: Conic, l: Line2, t: real)
    requires Spread(Project(k, l)) != 0.0
    ensures EvaluateAt(k, PolarFoot(Project(k, l), t)) == QuadraticAt(TangentQuadratic(k, l), t) + 1.0
  {
    var s := Project(k, l);
    TangentQuadraticShape(k, l);
    ConicAlongLine(k, s.u, s.v, s.w / Spread(s), t);
  }

  /** At a root of `TangentQuadratic` the polar point lies on the ellipse: the conic is
      1 at its Cartesian location. */
  lemma PolarPointOnConic(k: Conic, l: Line2, t: real)
    requires Spread(Project(k, l)) != 0.0 && QuadraticAt(TangentQuadratic(k, l), t) == 0.0
    ensures var x := PolarPoint(Project(k, l), t); EvaluateAt(k, x) == x.W * x.W
  {
    var s := Project(k, l);
    PolarFootOnConic(k, l, t);
    PolarPointScaled(s, t);
    HomogeneousScaling(k, PolarFoot(s, t).U, PolarFoot(s, t).V, Spread(s));
  }

  /** The tangent point lies on the ellipse (the conic, which is 1 on the ellipse, is 1
      at its Cartesian location) and the tangent there is parallel to the line. */
  lemma TangentPointOnEllipse(m: MathLib, e: Ellipse2, l: Line2, solution: N.SolutionSet)
    requires Lawful(m) && Solvable(e, l)
    ensures var r := TangentPoint(m, e, l, solution);
            r.Success? ==> && EvaluateAt(Deconstruct(e), r.value) == r.value.W * r.value.W
                           && AlongNormal(Gradient(Deconstruct(e), r.value), l)
  {
    var k := Deconstruct(e);
    var q := TangentQuadratic(k, l);
    if QuadraticSolution(m, q, solution).Success? {
      var t := QuadraticSolution(m, q, solution).value;
      QuadraticSolutionIsRoot(m, q, solution);
      PolarPointOnConic(k, l, t);
      PolarPointTangent(k, l, t);
    }
  }

  /** The coefficients when the projected line has `v = w = 0`. */
  lemma CoefficientsOnAxis(k: Conic, s: Projection)
    requires Spread(s) != 0.0 && s.v == 0.0 && s.w == 0.0
    ensures Leading(k, s) == k.C * s.u * s.u
    ensures Linear(k, s) == k.E * s.u
    ensures FootValue(k, s) == 0.0 && FootSlope(k, s) == 0.0
  {
    assert LinearNumerator(k, s) == 0.0;
    assert FootNumerator(k, s) == 0.0;
    assert SlopeNumerator(k, s) == 0.0;
  }

  /** For an ellipse centred at the origin and a horizontal line, the projected line is
      `(u, 0, 0)` with `u = l.B / a²`. */
  lemma ProjectHorizontal(e: Ellipse2, l: Line2)
    requires HasProperAxes(e) && e.Center == Point2(0.0, 0.0, 1.0) && l.A == 0.0 && l.B != 0.0
    ensures var k, s := Deconstruct(e), Project(Deconstruct(e), l);
            && s.v == 0.0 && s.w == 0.0 && s.u != 0.0 && Spread(s) != 0.0
            && k.B == 0.0 && k.C != 0.0 && k.D == 0.0 && k.E == 0.0 && k.F == 0.0
  {
    DeconstructUnfold(e);
    var k, s := Deconstruct(e), Project(Deconstruct(e), l);
    assert 1.0 / Square(e.MajorAxis) != 0.0;
    assert 1.0 / Square(e.MinorAxis) != 0.0;
    ProductNonZero(k.A, l.B);
    assert s.u == k.A * l.B;
    ProductNonZero(s.u, s.u);
  }

  /** The closed form as written misses the ellipse: for an ellipse centred at the
      origin and any horizontal line, it returns the centre, where the conic is 0
      rather than the 1 it takes on the ellipse. */
  lemma ClosestPointBySolutionMissesEllipse(m: MathLib, e: Ellipse2, l: Line2, solution: N.SolutionSet)
    requires HasProperAxes(e) && e.Center == Point2(0.0, 0.0, 1.0) && l.A == 0.0 && l.B != 0.0
    ensures Solvable(e, l)
    ensures var r := GetClosestPointBySolution(m, e, l, solution);
            && r.Success? && r.value.U == 0.0 && r.value.V == 0.0 && r.value.W != 0.0
            && EvaluateAt(Deconstruct(e), r.value) == 0.0
  {
    var k, s := Deconstruct(e), Project(Deconstruct(e), l);
    ProjectHorizontal(e, l);
    CoefficientsOnAxis(k, s);
    ProductNonZero(k.C, s.u);
    ProductNonZero(k.C * s.u, s.u);
    assert LineQuadratic(k, l) == Quadratic(k.C * s.u * s.u, 0.0, 0.0);
  }

  /** The point the closed form constructs lies on the line `u x + v y + w = 0` (where
      every `PolarPoint` lies, see `PolarPointOnLine`) only if its root is 0, `v` is 0 or
      `v = u`: its `Y` takes `v` where the direction `(-v, u)` needs `u`. */
  lemma ClosestPointBySolutionOffProjection(m: MathLib, e: Ellipse2, l: Line2, solution: N.SolutionSet)
    requires Solvable(e, l)
    ensures var k := Deconstruct(e);
            var s, r := Project(k, l), GetClosestPointBySolution(m, e, l, solution);
            r.Success? ==>
              ProjectionAt(s, r.value) == YDefect(s, QuadraticSolution(m, LineQuadratic(k, l), solution).value)
  {
    var k := Deconstruct(e);
    var s, r := Project(k, l), GetClosestPointBySolution(m, e, l, solution);
    if r.Success? {
      var t := QuadraticSolution(m, LineQuadratic(k, l), solution).value;
      var S := Spread(s);
      assert r.value == Point2(-t * s.v * S - s.u * s.w, t * s.v * S - s.v * s.w, S);
      OffProjectionAt(s, t, r.value);
    }
  }

  /** `t (u² + v²) v (v - u)`, by which the point of the closed form at root `t` misses
      the line `u x + v y + w = 0`. */
  function YDefect(s: Projection, t: real): real {
    t * Spread(s) * s.v * (s.v - s.u)
  }

  lemma OffProjectionAt(s: Projection, t: real, p: Point2)
    requires p == Point2(-t * s.v * Spread(s) - s.u * s.w, t * s.v * Spread(s) - s.v * s.w, Spread(s))
    ensures ProjectionAt(s, p) == YDefect(s, t)
  {
    OffProjectionShape(s.u, s.v, s.w, t, Spread(s), p.U, p.V, p.W);
  }

  lemma OffProjectionShape(u: real, v: real, w: real, t: real, S: real, x: real, y: real, z: real)
    requires S == u * u + v * v && z == S
    requires x == -t * v * S - u * w && y == t * v * S - v * w
    ensures u * x + v * y + w * z == t * S * v * (v - u)
  {
    assert u * x + v * y + w * z == t * S * v * (v - u) + w * (S - (u * u + v * v));
  }

  /** The unit circle centred at `(1, 0)` and the line `x + y + c = 0`. */
  predicate TiltedCase(e: Ellipse2, l: Line2) {
    e == Ellipse2(Point2(1.0, 0.0, 1.0), 1.0, 1.0) && l.A == 1.0 && l.B == 1.0
  }

  /** The tilted case is solvable, with projected line `(1, -1, -1)` and the quadratic
      as written `2 t² - 2 t + 5/2`, whose discriminant is -4. */
  lemma TiltedLineCase(e: Ellipse2, l: Line2)
    requires TiltedCase(e, l)
    ensures Solvable(e, l)
    ensures Discriminant(LineQuadratic(Deconstruct(e), l)) == -4.0
  {
    TiltedConic(e);
    TiltedLineConic(Deconstruct(e), l);
  }

  lemma TiltedLineConic(k: Conic, l: Line2)
    requires k == Conic(1.0, 0.0, 1.0, -1.0, 0.0, 1.0) && l.A == 1.0 && l.B == 1.0
    ensures Spread(Project(k, l)) == 2.0
    ensures LineQuadratic(k, l).p == 2.0 && Discriminant(LineQuadratic(k, l)) == -4.0
  {
    TiltedLineQuadratic(k, l);
    TiltedDiscriminant(LineQuadratic(k, l));
  }

  /** In the tilted case the tangent quadratic is `2 t² - 2 t - 1/2`, whose
      discriminant is 2. */
  lemma TiltedTangentCase(e: Ellipse2, l: Line2)
    requires TiltedCase(e, l)
    ensures Solvable(e, l)
    ensures Discriminant(TangentQuadratic(Deconstruct(e), l)) == 2.0
  {
    TiltedConic(e);
    TiltedTangentConic(Deconstruct(e), l);
  }

  lemma TiltedTangentConic(k: Conic, l: Line2)
    requires k == Conic(1.0, 0.0, 1.0, -1.0, 0.0, 1.0) && l.A == 1.0 && l.B == 1.0
    ensures Spread(Project(k, l)) == 2.0
    ensures LineQuadratic(k, l).p == 2.0 && Discriminant(TangentQuadratic(k, l)) == 2.0
  {
    TiltedTangentQuadratic(k, l);
    SameLeading(k, l);
    TiltedDiscriminant(TangentQuadratic(k, l));
  }

  /** The two quadratics share their leading and linear coefficients. */
  lemma SameLeading(k: Conic, l: Line2)
    requires Spread(Project(k, l)) != 0.0
    ensures LineQuadratic(k, l).p == TangentQuadratic(k, l).p
    ensures LineQuadratic(k, l).q == TangentQuadratic(k, l).q
  {
  }

  /** The unit circle centred at `(1, 0)` is `x² + y² - 2x + 1`. */
  lemma TiltedConic(e: Ellipse2)
    requires e == Ellipse2(Point2(1.0, 0.0, 1.0), 1.0, 1.0)
    ensures HasProperAxes(e) && Deconstruct(e) == Conic(1.0, 0.0, 1.0, -1.0, 0.0, 1.0)
  {
    DeconstructUnfold(e);
  }

  lemma TiltedProjection(k: Conic, l: Line2)
    requires k == Conic(1.0, 0.0, 1.0, -1.0, 0.0, 1.0) && l.A == 1.0 && l.B == 1.0
    ensures Project(k, l) == Projection(1.0, -1.0, -1.0)
  {
  }

  lemma TiltedLineQuadratic(k: Conic, l: Line2)
    requires k == Conic(1.0, 0.0, 1.0, -1.0, 0.0, 1.0) && l.A == 1.0 && l.B == 1.0
    ensures Spread(Project(k, l)) == 2.0
    ensures LineQuadratic(k, l).p == 2.0 && LineQuadratic(k, l).q == -1.0 && LineQuadratic(k, l).r == 2.5
  {
    TiltedProjection(k, l);
    TiltedCoefficients(k, Project(k, l));
  }

  lemma TiltedTangentQuadratic(k: Conic, l: Line2)
    requires k == Conic(1.0, 0.0, 1.0, -1.0, 0.0, 1.0) && l.A == 1.0 && l.B == 1.0
    ensures Spread(Project(k, l)) == 2.0
    ensures TangentQuadratic(k, l).p == 2.0 && TangentQuadratic(k, l).q == -1.0 && TangentQuadratic(k, l).r == -0.5
  {
    TiltedProjection(k, l);
    TiltedCoefficients(k, Project(k, l));
  }

  /** The discriminant of `2 t² - 2 t + r`. */
  lemma TiltedDiscriminant(q: Quadratic)
    requires q.p == 2.0 && q.q == -1.0
    ensures Discriminant(q) == 1.0 - 2.0 * q.r
  {
  }

  /** The closed-form coefficients of the tilted case. */
  lemma TiltedCoefficients(k: Conic, s: Projection)
    requires k == Conic(1.0, 0.0, 1.0, -1.0, 0.0, 1.0) && s == Projection(1.0, -1.0, -1.0)
    ensures Spread(s) == 2.0 && Leading(k, s) == 2.0 && Linear(k, s) == -1.0
    ensures FootValue(k, s) == 0.5 && FootSlope(k, s) == 1.0 && k.F == 1.0
  {
    TiltedLinear(k, s);
    TiltedFoot(k, s);
    TiltedSlope(k, s);
  }

  lemma TiltedLinear(k: Conic, s: Projection)
    requires k == Conic(1.0, 0.0, 1.0, -1.0, 0.0, 1.0) && s == Projection(1.0, -1.0, -1.0)
    ensures Spread(s) == 2.0 && Linear(k, s) == -1.0
  {
    Halved(LinearNumerator(k, s), Spread(s));
  }

  lemma TiltedFoot(k: Conic, s: Projection)
    requires k == Conic(1.0, 0.0, 1.0, -1.0, 0.0, 1.0) && s == Projection(1.0, -1.0, -1.0)
    ensures Spread(s) == 2.0 && FootValue(k, s) == 0.5
  {
    Halved(FootNumerator(k, s), Spread(s));
    Halved(FootNumerator(k, s) / Spread(s), Spread(s));
  }

  lemma TiltedSlope(k: Conic, s: Projection)
    requires k == Conic(1.0, 0.0, 1.0, -1.0, 0.0, 1.0) && s == Projection(1.0, -1.0, -1.0)
    ensures Spread(s) == 2.0 && FootSlope(k, s) == 1.0
  {
    assert SlopeNumerator(k, s) == 2.0;
    Halved(SlopeNumerator(k, s), Spread(s));
  }

  lemma Halved(n: real, d: real)
    requires d == 2.0
    ensures n / d == n * 0.5
  {
  }

  /** The closed form as written throws where a tangent point exists: for the unit
      circle centred at `(1, 0)` and any line `x + y + c = 0`, the constant term
      `+ FootSlope` without the `- 1` makes the discriminant -4 (see
      `TangentPointOnTiltedLine` for the tangent point it misses). */
  lemma ClosestPointBySolutionThrowsOnTiltedLine(m: MathLib, e: Ellipse2, l: Line2, solution: N.SolutionSet)
    requires Lawful(m) && TiltedCase(e, l)
    ensures Solvable(e, l) && Weight(m, l) != 0.0
    ensures GetClosestPointBySolution(m, e, l, solution) == Failure(NotImplemented)
    ensures DistanceToLineBySolution(m, e, l, solution) == Failure(NotImplemented)
  {
    TiltedLineCase(e, l);
    WeightPositive(m, l);
  }

  /** For the unit circle centred at `(1, 0)` and any line `x + y + c = 0` the tangent
      quadratic has discriminant 2, and its point lies on the circle with the tangent
      there parallel to the line. */
  lemma TangentPointOnTiltedLine(m: MathLib, e: Ellipse2, l: Line2, solution: N.SolutionSet)
    requires Lawful(m) && TiltedCase(e, l)
    ensures Solvable(e, l)
    ensures var r := TangentPoint(m, e, l, solution);
            && r.Success?
            && EvaluateAt(Deconstruct(e), r.value) == r.value.W * r.value.W
            && AlongNormal(Gradient(Deconstruct(e), r.value), l)
  {
    TiltedTangentCase(e, l);
    TangentPointOnEllipse(m, e, l, solution);
  }

  /** The value of `p t² + 2 q t + r` at `t`. */
  function QuadraticAt(k: Quadratic, t: real): real {
    k.p * t * t + 2.0 * k.q * t + k.r
  }

}
