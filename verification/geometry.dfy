/**
 * `JA.Numerics.Geometry.Geometry`: polar and elliptical parametrisation of
 * displacements, and the fillet centre `TanTanRadius` of a corner.
 */
module Geometry {
  import opened RealMath
  import opened Homogeneous
  import V = Vectors
  import P = Points
  import L = Lines

  /** The result of `ToPolar`: a radius and a bearing. */
  datatype PolarForm = PolarForm(r: real, theta: real)

  /** `Geometry.ToPolar`: the length of the vector and its bearing from the X axis. */
  function ToPolar(m: MathLib, v: V.Vector2): (r: PolarForm)
    ensures Lawful(m) ==> 0.0 <= r.r
  {
    PolarForm(V.Length(m, v), Atan2(m, v.Y, v.X))
  }

  /** `Geometry.Polar`: the displacement of length `radius` at bearing `angle`. */
  function Polar(m: MathLib, radius: real, angle: real): V.Vector2 {
    V.Vector2(Cos(m, angle) * radius, Sin(m, angle) * radius)
  }

  /** `Geometry.Elliptical`: the point at parameter `angle` of the axis-aligned ellipse
      with the given radii, relative to its centre. */
  function Elliptical(m: MathLib, majorRadius: real, minorRadius: real, angle: real): V.Vector2 {
    V.Vector2(Cos(m, angle) * majorRadius, Sin(m, angle) * minorRadius)
  }

  /** `CornerSolution`: which of the four circles tangent to both edges of a corner. */
  datatype CornerSolution = Inside | Opposing | Outside1 | Outside2

  /** The pair of offset signs `(s1, s2)` applied to the two edges. */
  datatype Signs = Signs(s1: int, s2: int)

  /** The sign table of `TanTanRadius`: each corner solution moves each edge by plus or
      minus the radius, and no two solutions share a pair. */
  function CornerSigns(corner: CornerSolution): (r: Signs)
    ensures r.s1 == 1 || r.s1 == -1
    ensures r.s2 == 1 || r.s2 == -1
    ensures r.s1 == r.s2 <==> corner == Outside1 || corner == Outside2
    ensures r.s1 == 1 <==> corner == Inside || corner == Outside1
  {
    match corner
    case Inside => Signs(1, -1)
    case Opposing => Signs(-1, 1)
    case Outside1 => Signs(1, 1)
    case Outside2 => Signs(-1, -1)
  }

  /** The offset lines whose meeting point `TanTanRadius` returns. */
  function OffsetEdge(m: MathLib, apex: Point2, side: Point2, s: int, radius: real): Line2 {
    L.Offset(m, L.Join(apex, side), (s as real) * radius)
  }

  /** `Geometry.TanTanRadius`: the centre of the circle of the given radius tangent to
      the edges from `apex` through `side1` and through `side2`. It lies on both edges
      moved by the signed radius, and it is at infinity exactly when the two edges are
      parallel. The corner defaults to `Inside`, as in the source. */
  function TanTanRadius(m: MathLib, apex: Point2, side1: Point2, side2: Point2, radius: real,
                        corner: CornerSolution := Inside): (r: Point2)
    ensures Dot(r, OffsetEdge(m, apex, side1, CornerSigns(corner).s1, radius)) == 0.0
    ensures Dot(r, OffsetEdge(m, apex, side2, CornerSigns(corner).s2, radius)) == 0.0
    ensures var e1, e2 := L.Join(apex, side1), L.Join(apex, side2);
            P.IsFinite(r) <==> e1.A * e2.B != e1.B * e2.A
  {
    var signs := CornerSigns(corner);
    P.Meet(OffsetEdge(m, apex, side1, signs.s1, radius),
           OffsetEdge(m, apex, side2, signs.s2, radius))
  }

  // ---------------------------------------------------------------------------
  // Properties

  /** Inside and Opposing are mirror images of each other, and so are the two outside
      solutions. */
  lemma CornerSignsPairUp()
    ensures CornerSigns(Opposing) == Signs(-CornerSigns(Inside).s1, -CornerSigns(Inside).s2)
    ensures CornerSigns(Outside2) == Signs(-CornerSigns(Outside1).s1, -CornerSigns(Outside1).s2)
  {
  }

  /** Distinct corner solutions have distinct sign pairs. */
  lemma CornerSignsInjective(c1: CornerSolution, c2: CornerSolution)
    ensures CornerSigns(c1) == CornerSigns(c2) <==> c1 == c2
  {
  }

  /** A point on an edge moved by `d` is at signed distance `d` from the edge. */
  lemma OnOffsetMeansSignedDistance(m: MathLib, l: Line2, d: real, p: Point2)
    requires Weight(m, l) != 0.0 && P.IsFinite(p)
    requires Dot(p, L.Offset(m, l, d)) == 0.0
    ensures L.SignedDistanceTo(m, l, p) == d
  {
    L.OffsetShiftsSignedDistance(m, l, d, p);
  }

  /** When the fillet centre is a finite point and the edges are proper lines, its
      signed distance from edge `i` is `s_i * radius`. */
  lemma TanTanRadiusDistances(m: MathLib, apex: Point2, side1: Point2, side2: Point2,
                              radius: real, corner: CornerSolution)
    requires P.IsFinite(TanTanRadius(m, apex, side1, side2, radius, corner))
    requires Weight(m, L.Join(apex, side1)) != 0.0 && Weight(m, L.Join(apex, side2)) != 0.0
    ensures var c := TanTanRadius(m, apex, side1, side2, radius, corner);
            L.SignedDistanceTo(m, L.Join(apex, side1), c) == (CornerSigns(corner).s1 as real) * radius
    ensures var c := TanTanRadius(m, apex, side1, side2, radius, corner);
            L.SignedDistanceTo(m, L.Join(apex, side2), c) == (CornerSigns(corner).s2 as real) * radius
  {
    var c := TanTanRadius(m, apex, side1, side2, radius, corner);
    var signs := CornerSigns(corner);
    OnOffsetMeansSignedDistance(m, L.Join(apex, side1), (signs.s1 as real) * radius, c);
    OnOffsetMeansSignedDistance(m, L.Join(apex, side2), (signs.s2 as real) * radius, c);
  }

  /** `ToPolar` reports the length of the vector. */
  lemma ToPolarRadius(m: MathLib, v: V.Vector2)
    requires Lawful(m)
    ensures ToPolar(m, v).r * ToPolar(m, v).r == V.LengthSquared(v)
  {
    V.LengthLaw(m, v);
  }

  /** `Polar` inverts `ToPolar`: the displacement at the bearing and length of a
      non-zero vector is that vector. */
  lemma PolarOfToPolar(m: MathLib, v: V.Vector2)
    requires Lawful(m) && v != V.Zero
    ensures Polar(m, ToPolar(m, v).r, ToPolar(m, v).theta) == v
  {
    BearingLaw(m, v.Y, v.X);
    ToPolarUnfold(m, v);
  }

  lemma ToPolarUnfold(m: MathLib, v: V.Vector2)
    ensures ToPolar(m, v).r == Sqrt(m, v.X * v.X + v.Y * v.Y)
    ensures ToPolar(m, v).theta == Atan2(m, v.Y, v.X)
  {
    V.LengthUnfold(m, v);
    assert ToPolar(m, v).r == V.Length(m, v);
    assert V.LengthSquared(v) == v.X * v.X + v.Y * v.Y;
  }

  /** The squared length of `Polar(radius, angle)` is the squared radius. */
  lemma PolarLengthSquared(m: MathLib, radius: real, angle: real)
    requires Lawful(m)
    ensures V.LengthSquared(Polar(m, radius, angle)) == radius * radius
  {
    var c, s := Cos(m, angle), Sin(m, angle);
    TrigLaw(m, angle);
    calc {
      V.LengthSquared(Polar(m, radius, angle));
      (c * radius) * (c * radius) + (s * radius) * (s * radius);
      (s * s + c * c) * (radius * radius);
      radius * radius;
    }
  }

  /** `Polar(radius, angle)` has length `|radius|`. */
  lemma PolarLength(m: MathLib, radius: real, angle: real)
    requires Lawful(m)
    ensures V.Length(m, Polar(m, radius, angle)) == Abs(radius)
  {
    PolarLengthSquared(m, radius, angle);
    V.LengthUnfold(m, Polar(m, radius, angle));
    SqrtOfSquare(m, radius);
  }

  /** At angle zero the elliptical displacement is the major radius along X. */
  lemma EllipticalAtZero(m: MathLib, majorRadius: real, minorRadius: real)
    requires Lawful(m)
    ensures Elliptical(m, majorRadius, minorRadius, 0.0) == V.Vector2(majorRadius, 0.0)
  {
  }

  /** An ellipse with equal radii is the circle of that radius. */
  lemma EllipticalWithEqualRadii(m: MathLib, radius: real, angle: real)
    ensures Elliptical(m, radius, radius, angle) == Polar(m, radius, angle)
  {
  }
}
