/**
 * `JA.Point2`, the older homogeneous point that the repository keeps beside
 * `JA.Numerics.Geometry.Point2`. It stores a `Vector2` for `(U, V)` and a scalar `W`,
 * the same triple as `Homogeneous.Point2`, which this module reuses. Where the older
 * class computes what the newer one computes, the contracts say so.
 */
module LegacyPoints {
  import opened RealMath
  import opened Outcomes
  import opened Homogeneous
  import V = Vectors
  import P = Points
  import L = Lines

  /** The exception the indexers throw. */
  datatype IndexError = IndexOutOfRange

  /** `Point2.FromLocation`: a Cartesian location with weight one. */
  function FromLocation(r: V.Vector2): (p: Point2)
    ensures P.IsFinite(p) && p.W == 1.0
    ensures P.AsVector(p) == r
  {
    Point2(r.X, r.Y, 1.0)
  }

  /** `Point2.Meet`: the point common to two lines. */
  function Meet(l: Line2, k: Line2): (r: Point2)
    ensures r == P.Meet(l, k)
    ensures Dot(r, l) == 0.0 && Dot(r, k) == 0.0
  {
    Point2(l.B * k.C - k.B * l.C,
           k.A * l.C - l.A * k.C,
           l.A * k.B - k.A * l.B)
  }

  /** `Point2.Polar`: the location at `radius` along the bearing `angle`. */
  function Polar(m: MathLib, radius: real, angle: real): (r: Point2)
    ensures P.IsFinite(r)
    ensures Lawful(m) && angle == 0.0 ==> r == Point2(radius, 0.0, 1.0)
  {
    Point2(radius * Cos(m, angle), radius * Sin(m, angle), 1.0)
  }

  /** `Point2.LocationVector` (also `ToVector`, `LX`, `LY`): the Cartesian location. */
  function LocationVector(p: Point2): (r: V.Vector2)
    requires P.IsFinite(p)
    ensures r == P.AsVector(p)
  {
    V.Vector2(p.U / p.W, p.V / p.W)
  }

  /** `Point2.Scale` and `operator *(float, Point2)`. */
  function Scale(factor: real, p: Point2): (r: Point2)
    ensures r == P.Scale(factor, p)
  {
    Point2(factor * p.U, factor * p.V, factor * p.W)
  }

  /** `Point2.Flip`: negates the vector part and keeps the weight, so the location is
      reflected through the origin. */
  function Flip(p: Point2): (r: Point2)
    ensures r.W == p.W
    ensures P.IsFinite(p) ==> P.AsVector(r) == V.Negate(P.AsVector(p))
  {
    Point2(-p.U, -p.V, p.W)
  }

  /** `Point2.Add` and `operator +(Point2, Point2)`: componentwise sum, so the incidence
      value with any line adds up. */
  function Add(p: Point2, q: Point2): (r: Point2)
    ensures forall l: Line2 :: Dot(r, l) == Dot(p, l) + Dot(q, l)
  {
    Point2(p.U + q.U, p.V + q.V, p.W + q.W)
  }

  /** `operator -(Point2, Point2)`, written in the source as `p.Add(q.Scale(-1))`. */
  function Subtract(p: Point2, q: Point2): (r: Point2)
    ensures r == P.Subtract(p, q)
  {
    Add(p, Scale(-1.0, q))
  }

  /** `Point2.StepBy` and `operator +(Point2, Vector2)`: moves the location by `step`. */
  function StepBy(p: Point2, step: V.Vector2): (r: Point2)
    ensures r.W == p.W
    ensures r == P.AddVector(p, step)
    ensures P.IsFinite(p) ==> P.AsVector(r) == V.Add(P.AsVector(p), step)
  {
    Point2(p.U + p.W * step.X, p.V + p.W * step.Y, p.W)
  }

  /** `Point2.StepFrom`: the displacement from `other`'s location to this location. */
  function StepFrom(p: Point2, other: Point2): (r: V.Vector2)
    requires P.IsFinite(p) && P.IsFinite(other)
    ensures r == P.Difference(p, other)
  {
    V.Subtract(LocationVector(p), LocationVector(other))
  }

  /** `Point2.Offset(Point2)`: the triple whose location is the sum of the two locations. */
  function Offset(p: Point2, q: Point2): Point2
  {
    Point2(p.U * q.W + q.U * p.W, p.V * q.W + q.V * p.W, p.W * q.W)
  }

  /** `Point2.Relative(Point2)`: the triple whose location is the difference of the
      two locations. */
  function Relative(p: Point2, q: Point2): Point2
  {
    Point2(p.U * q.W - q.U * p.W, p.V * q.W - q.V * p.W, p.W * q.W)
  }

  /** The rotation formula of `Point2.RotateAbout`, given the fulcrum coordinates
      `(fu, fv, fw)` it reads and the cosine `c` and sine `s` of the angle. */
  function Rotation(p: Point2, fu: real, fv: real, fw: real, c: real, s: real): Point2 {
    var dx := p.U * fw - fu * p.W;
    var dy := p.V * fw - fv * p.W;
    Point2(fu * p.W + dx * c - dy * s, fv * p.W + dx * s + dy * c, p.W * fw)
  }

  /** `Point2.RotateAbout` as written: the fulcrum's first coordinate is read from its
      `Y` component and its second from its `X` component. */
  function RotateAboutAsWritten(m: MathLib, p: Point2, fulcrum: Point2, angle: real): (r: Point2)
    ensures r.W == p.W * fulcrum.W
  {
    Rotation(p, fulcrum.V, fulcrum.U, fulcrum.W, Cos(m, angle), Sin(m, angle))
  }

  /** `Point2.RotateAbout` as evidently intended: rotation by `angle` about `fulcrum`,
      the result scaled by the fulcrum's weight. */
  function RotateAbout(m: MathLib, p: Point2, fulcrum: Point2, angle: real): (r: Point2)
    ensures r.W == p.W * fulcrum.W
    ensures p == fulcrum ==> r == Scale(fulcrum.W, p)
  {
    Rotation(p, fulcrum.U, fulcrum.V, fulcrum.W, Cos(m, angle), Sin(m, angle))
  }

  /** `Point2.DistanceTo(Point2)`: the length of the displacement over the product of the
      weights, so its sign follows the sign of that product. */
  function DistanceTo(m: MathLib, p: Point2, other: Point2): (r: real)
    requires P.IsFinite(p) && P.IsFinite(other)
    ensures Lawful(m) && 0.0 < WeightProduct(p, other) ==> 0.0 <= r
  {
    ProductNonZero(other.W, p.W);
    var d := V.Length(m, Separation(p, other));
    assert Lawful(m) && 0.0 < WeightProduct(p, other) ==> 0.0 <= d / WeightProduct(p, other) by {
      if Lawful(m) && 0.0 < WeightProduct(p, other) {
        NonNegativeQuotient(d, WeightProduct(p, other));
      }
    }
    d / WeightProduct(p, other)
  }

  /** The divisor of `DistanceTo(Point2)`: the product of the two weights. */
  function WeightProduct(p: Point2, other: Point2): real {
    other.W * p.W
  }

  /** The vector whose length `DistanceTo(Point2)` takes. */
  function Separation(p: Point2, other: Point2): V.Vector2 {
    V.Vector2(other.W * p.U - other.U * p.W, other.W * p.V - other.V * p.W)
  }

  /** `Point2.DistanceTo(Line2)` as written: divides the incidence value by the squared
      length of the normal instead of by its length. */
  function DistanceToLineAsWritten(p: Point2, l: Line2): (r: real)
    requires P.IsFinite(p) && WeightSqr(l) != 0.0
    ensures r == 0.0 <==> Dot(p, l) == 0.0
  {
    ProductNonZero(p.W, WeightSqr(l));
    Dot(p, l) / (p.W * WeightSqr(l))
  }

  /** `Point2.DistanceTo(Line2)` as evidently intended: the signed distance of
      `JA.Numerics.Geometry.Line2`. */
  function DistanceToLine(m: MathLib, p: Point2, l: Line2): (r: real)
    requires P.IsFinite(p) && Weight(m, l) != 0.0
    ensures r * (p.W * Weight(m, l)) == Dot(p, l)
    ensures r == L.SignedDistanceTo(m, l, p)
  {
    ProductNonZero(p.W, Weight(m, l));
    Dot(p, l) / (p.W * Weight(m, l))
  }

  /** `Point2.MirrorAbout`: the reflection in `line`, scaled by its squared weight. */
  function MirrorAbout(p: Point2, line: Line2): (r: Point2)
    ensures r.W == p.W * WeightSqr(line)
  {
    var a, b, c := line.A, line.B, line.C;
    Point2(p.U * (b * b - a * a) - 2.0 * a * (b * p.V + c * p.W),
           p.V * (a * a - b * b) - 2.0 * b * (a * p.U + c * p.W),
           p.W * (a * a + b * b))
  }

  /** `Point2.ToArray`: the three components in order. */
  function ToArray(p: Point2): (r: seq<real>)
    ensures |r| == 3 && Point2(r[0], r[1], r[2]) == p
  {
    [p.U, p.V, p.W]
  }

  /** `Point2[int]`: component `index`, or the exception for any other index. */
  function Item(p: Point2, index: int): (r: Result<real, IndexError>)
    ensures r.Success? <==> 0 <= index < 3
    ensures r.Success? ==> r.value == ToArray(p)[index]
  {
    match index
    case 0 => Success(p.U)
    case 1 => Success(p.V)
    case 2 => Success(p.W)
    case _ => Failure(IndexOutOfRange)
  }

  /** `Point2[int, int]`: a column vector, so only column zero exists. */
  function ItemAt(p: Point2, row: int, column: int): (r: Result<real, IndexError>)
    ensures r.Success? <==> column == 0 && 0 <= row < 3
    ensures column == 0 ==> r == Item(p, row)
  {
    if column == 0 then Item(p, row) else Failure(IndexOutOfRange)
  }

  /** `Point2.IsZero`: the vector part is `Vector2.Zero` and the weight is zero. */
  function IsZero(p: Point2): (r: bool)
    ensures r <==> p == P.Empty
  {
    V.Vector2(p.U, p.V) == V.Zero && p.W == 0.0
  }

  /** `Point2.Equals(Point2)`: equal vector parts and equal weights. */
  function Equals(p: Point2, q: Point2): (r: bool)
    ensures r <==> p == q
  {
    V.Vector2(p.U, p.V) == V.Vector2(q.U, q.V) && p.W == q.W
  }

  // ---------------------------------------------------------------------------
  // Properties

  /** A polar location lies at distance `|radius|` from the origin. */
  lemma PolarRadius(m: MathLib, radius: real, angle: real)
    requires Lawful(m)
    ensures Polar(m, radius, angle).U * Polar(m, radius, angle).U
            + Polar(m, radius, angle).V * Polar(m, radius, angle).V == radius * radius
  {
    TrigLaw(m, angle);
    ScaledUnit(radius, Cos(m, angle), Sin(m, angle));
  }

  /** `r*c` and `r*s` have squared length `r*r` when `c*c + s*s` is one. */
  lemma ScaledUnit(r: real, c: real, s: real)
    requires s * s + c * c == 1.0
    ensures (r * c) * (r * c) + (r * s) * (r * s) == r * r
  {
    assert (r * c) * (r * c) + (r * s) * (r * s) == r * r * (s * s + c * c);
  }

  /** Scaling by a non-zero factor keeps the location. */
  lemma ScaleKeepsLocation(k: real, p: Point2)
    requires k != 0.0 && P.IsFinite(p)
    ensures P.IsFinite(Scale(k, p)) && LocationVector(Scale(k, p)) == LocationVector(p)
  {
    P.ScaleKeepsLocation(k, p);
  }

  /** Flipping twice gives the point back. */
  lemma FlipTwice(p: Point2)
    ensures Flip(Flip(p)) == p
  {
  }

  /** Stepping from a finite point and measuring the step back gives the step. */
  lemma StepFromUndoesStepBy(p: Point2, step: V.Vector2)
    requires P.IsFinite(p)
    ensures P.IsFinite(StepBy(p, step))
    ensures StepFrom(StepBy(p, step), p) == step
  {
    P.VectorToMoved(p, step);
  }

  /** `Relative` undoes `Offset`, up to the square of the offset's weight. */
  lemma RelativeUndoesOffset(p: Point2, q: Point2)
    ensures Relative(Offset(p, q), q).U == q.W * q.W * p.U
    ensures Relative(Offset(p, q), q).V == q.W * q.W * p.V
    ensures Relative(Offset(p, q), q).W == q.W * q.W * p.W
  {
  }

  /** The location of `Offset(p, q)` is the sum of the two locations. */
  lemma OffsetAddsLocations(p: Point2, q: Point2)
    requires P.IsFinite(p) && P.IsFinite(q)
    ensures P.IsFinite(Offset(p, q))
    ensures LocationVector(Offset(p, q)) == V.Add(LocationVector(p), LocationVector(q))
  {
    ProductNonZero(p.W, q.W);
    QuotientSum(p.U, p.W, q.U, q.W);
    QuotientSum(p.V, p.W, q.V, q.W);
  }

  /** `(x/w) + (y/z)` over the common denominator `w*z`. */
  lemma QuotientSum(x: real, w: real, y: real, z: real)
    requires w != 0.0 && z != 0.0
    ensures w * z != 0.0
    ensures (x * z + y * w) / (w * z) == x / w + y / z
  {
    ProductNonZero(w, z);
    assert (x / w) * w == x;
    assert (y / z) * z == y;
    assert x * z + y * w == (x / w + y / z) * (w * z);
  }

  /** The location of `Relative(p, q)` is the displacement `StepFrom(p, q)`. */
  lemma RelativeSubtractsLocations(p: Point2, q: Point2)
    requires P.IsFinite(p) && P.IsFinite(q)
    ensures P.IsFinite(Relative(p, q))
    ensures LocationVector(Relative(p, q)) == StepFrom(p, q)
  {
    ProductNonZero(p.W, q.W);
    P.QuotientDifference(p.U, p.W, q.U, q.W);
    P.QuotientDifference(p.V, p.W, q.V, q.W);
  }

  /** Rotating by zero, as written, scales the point by the fulcrum's weight. */
  lemma RotateAsWrittenByZero(m: MathLib, p: Point2, fulcrum: Point2)
    requires Lawful(m)
    ensures RotateAboutAsWritten(m, p, fulcrum, 0.0) == Scale(fulcrum.W, p)
  {
  }

  /** As written, a half turn about a finite fulcrum leaves the fulcrum where it was only
      when its two coordinates are equal: the half turn about `(1, 0)` sends `(1, 0)`
      to `(-1, 2)`. */
  lemma RotatedFulcrumAsWritten(m: MathLib, fulcrum: Point2)
    requires Lawful(m) && P.IsFinite(fulcrum)
    ensures P.IsFinite(RotateAboutAsWritten(m, fulcrum, fulcrum, Pi(m)))
    ensures P.IsCoincident(RotateAboutAsWritten(m, fulcrum, fulcrum, Pi(m)), fulcrum)
            <==> fulcrum.U == fulcrum.V
  {
    var f := fulcrum;
    var r := RotateAboutAsWritten(m, f, f, Pi(m));
    HalfTurnAsWritten(f.U, f.V, f.W, r);
    ProductNonZero(f.W, f.W);
    P.CoincidentIffProportional(r, f);
    CancelWeight(2.0 * f.V - f.U, f.U, f.W);
    CancelWeight(2.0 * f.U - f.V, f.V, f.W);
  }

  /** The half turn of the fulcrum about itself under the written formula. */
  lemma HalfTurnAsWritten(u: real, v: real, w: real, r: Point2)
    requires r == Rotation(Point2(u, v, w), v, u, w, -1.0, 0.0)
    ensures r == Point2(w * (2.0 * v - u), w * (2.0 * u - v), w * w)
  {
  }

  /** `w*x*w == y*(w*w)` exactly when `x == y`, for a non-zero `w`. */
  lemma CancelWeight(x: real, y: real, w: real)
    requires w != 0.0
    ensures w * x * w == y * (w * w) <==> x == y
  {
    ProductNonZero(w, w);
    if w * x * w == y * (w * w) {
      assert (x - y) * (w * w) == 0.0;
      ZeroProduct(x - y, w * w);
    }
  }

  /** Rotating by zero scales the point by the fulcrum's weight. */
  lemma RotateByZero(m: MathLib, p: Point2, fulcrum: Point2)
    requires Lawful(m)
    ensures RotateAbout(m, p, fulcrum, 0.0) == Scale(fulcrum.W, p)
  {
  }

  /** The intended rotation keeps every finite fulcrum in place, at every angle. */
  lemma RotateFixesFulcrum(m: MathLib, fulcrum: Point2, angle: real)
    requires P.IsFinite(fulcrum)
    ensures P.IsFinite(RotateAbout(m, fulcrum, fulcrum, angle))
    ensures P.IsCoincident(RotateAbout(m, fulcrum, fulcrum, angle), fulcrum)
  {
    ProductNonZero(fulcrum.W, fulcrum.W);
    P.ScaleKeepsLocation(fulcrum.W, fulcrum);
  }

  /** The intended rotation keeps the distance of a finite point from a finite fulcrum. */
  lemma RotateKeepsDistance(m: MathLib, p: Point2, fulcrum: Point2, angle: real)
    requires Lawful(m) && P.IsFinite(p) && P.IsFinite(fulcrum)
    ensures P.IsFinite(RotateAbout(m, p, fulcrum, angle))
    ensures P.DistanceTo(m, fulcrum, RotateAbout(m, p, fulcrum, angle)) == P.DistanceTo(m, fulcrum, p)
  {
    var f := fulcrum;
    var r := RotateAbout(m, p, f, angle);
    ProductNonZero(p.W, f.W);
    TrigLaw(m, angle);
    ScaledRotatedLengths(f, p, r, Cos(m, angle), Sin(m, angle));
    EqualLengthsOfScaled(m, p.W * f.W, P.VectorTo(f, r), P.VectorTo(f, p));
  }

  /** Scaled by both weights, the displacements from the fulcrum to the rotated point
      and to the original point have equal squared lengths. */
  lemma ScaledRotatedLengths(f: Point2, p: Point2, r: Point2, c: real, s: real)
    requires P.IsFinite(p) && P.IsFinite(f) && s * s + c * c == 1.0
    requires r == Rotation(p, f.U, f.V, f.W, c, s)
    ensures P.IsFinite(r)
    ensures V.LengthSquared(V.Scale(p.W * f.W, P.VectorTo(f, r)))
            == V.LengthSquared(V.Scale(p.W * f.W, P.VectorTo(f, p)))
  {
    ProductNonZero(p.W, f.W);
    RotationDisplacement(p, f, c, s, r);
    RotatedDisplacement(f, r, p.W);
    PointDisplacement(f, p);
    RotationKeepsSquaredLength(p, f, c, s, r);
  }

  /** The rotated offset from the fulcrum has the squared length of the original one. */
  lemma RotationKeepsSquaredLength(p: Point2, f: Point2, c: real, s: real, r: Point2)
    requires s * s + c * c == 1.0
    requires r == Rotation(p, f.U, f.V, f.W, c, s)
    ensures V.LengthSquared(V.Vector2(r.U - f.U * p.W, r.V - f.V * p.W))
            == V.LengthSquared(V.Vector2(p.U * f.W - f.U * p.W, p.V * f.W - f.V * p.W))
  {
    var x := V.Vector2(r.U - f.U * p.W, r.V - f.V * p.W);
    var d := V.Vector2(p.U * f.W - f.U * p.W, p.V * f.W - f.V * p.W);
    RotationDisplacement(p, f, c, s, r);
    RotatedLength(d.X, d.Y, c, s, x.X, x.Y);
  }

  /** The rotated point's offset from the fulcrum is the rotated displacement. */
  lemma RotationDisplacement(p: Point2, f: Point2, c: real, s: real, r: Point2)
    requires r == Rotation(p, f.U, f.V, f.W, c, s)
    ensures r.W == p.W * f.W
    ensures r.U - f.U * p.W == (p.U * f.W - f.U * p.W) * c - (p.V * f.W - f.V * p.W) * s
    ensures r.V - f.V * p.W == (p.U * f.W - f.U * p.W) * s + (p.V * f.W - f.V * p.W) * c
  {
  }


  /** A rotated pair of coordinates keeps its squared length. */
  lemma RotatedLength(dx: real, dy: real, c: real, s: real, x: real, y: real)
    requires s * s + c * c == 1.0
    requires x == dx * c - dy * s && y == dx * s + dy * c
    ensures x * x + y * y == dx * dx + dy * dy
  {
    assert x * x + y * y == (dx * dx + dy * dy) * (s * s + c * c);
  }

  /** The displacement from a finite `f` to a finite `q` of weight `k * f.W`, scaled by
      that weight, as a polynomial in the coordinates. */
  lemma RotatedDisplacement(f: Point2, q: Point2, k: real)
    requires P.IsFinite(f) && P.IsFinite(q) && q.W == k * f.W
    ensures V.Scale(k * f.W, P.VectorTo(f, q)) == V.Vector2(q.U - f.U * k, q.V - f.V * k)
  {
    var a, b := P.AsVector(q), P.AsVector(f);
    assert (k * f.W) * (a.X - b.X) == a.X * q.W - k * (b.X * f.W);
    assert (k * f.W) * (a.Y - b.Y) == a.Y * q.W - k * (b.Y * f.W);
  }

  /** The displacement from a finite `f` to a finite `q`, scaled by both weights, as a
      polynomial in the coordinates. */
  lemma PointDisplacement(f: Point2, q: Point2)
    requires P.IsFinite(f) && P.IsFinite(q)
    ensures V.Scale(q.W * f.W, P.VectorTo(f, q)) == V.Vector2(q.U * f.W - f.U * q.W, q.V * f.W - f.V * q.W)
  {
    var a, b := P.AsVector(q), P.AsVector(f);
    assert (q.W * f.W) * (a.X - b.X) == (a.X * q.W) * f.W - (b.X * f.W) * q.W;
    assert (q.W * f.W) * (a.Y - b.Y) == (a.Y * q.W) * f.W - (b.Y * f.W) * q.W;
  }

  /** Two vectors that a non-zero factor scales to vectors of equal squared length have
      equal lengths. */
  lemma EqualLengthsOfScaled(m: MathLib, k: real, a: V.Vector2, b: V.Vector2)
    requires k != 0.0
    requires V.LengthSquared(V.Scale(k, a)) == V.LengthSquared(V.Scale(k, b))
    ensures V.Length(m, a) == V.Length(m, b)
  {
    assert V.LengthSquared(V.Scale(k, a)) == Square(k) * V.LengthSquared(a);
    assert V.LengthSquared(V.Scale(k, b)) == Square(k) * V.LengthSquared(b);
    SquareNonZero(k);
    CancelFactor(V.LengthSquared(a), V.LengthSquared(b), Square(k));
    V.LengthUnfold(m, a);
    V.LengthUnfold(m, b);
  }

  lemma NonNegativeQuotient(d: real, k: real)
    requires 0.0 <= d && 0.0 < k
    ensures 0.0 <= d / k
  {
  }

  /** A non-zero factor cancels from both sides of an equation. */
  lemma CancelFactor(x: real, y: real, n: real)
    requires n != 0.0 && n * x == n * y
    ensures x == y
  {
    assert (x - y) * n == 0.0;
    ZeroProduct(x - y, n);
  }

  /** For weights of the same sign `DistanceTo(Point2)` is the Euclidean distance of
      `JA.Numerics.Geometry.Point2`; otherwise it is that distance negated. */
  lemma DistanceAgreesWithNumerics(m: MathLib, p: Point2, q: Point2)
    requires Lawful(m) && P.IsFinite(p) && P.IsFinite(q)
    ensures Abs(DistanceTo(m, p, q)) == P.DistanceTo(m, p, q)
    ensures 0.0 < p.W * q.W ==> DistanceTo(m, p, q) == P.DistanceTo(m, p, q)
  {
    DistanceToUnfold(m, p, q);
    SeparationLength(m, p, q);
    AbsOfQuotient(V.Length(m, Separation(p, q)), WeightProduct(p, q), P.DistanceTo(m, p, q));
  }

  /** The separation vector is the displacement scaled by the weights, up to sign. */
  lemma SeparationLength(m: MathLib, p: Point2, q: Point2)
    requires Lawful(m) && P.IsFinite(p) && P.IsFinite(q)
    ensures V.Length(m, Separation(p, q)) == Abs(WeightProduct(p, q)) * P.DistanceTo(m, p, q)
  {
    SeparationNegatesDisplacement(p, q);
    V.LengthOfScaled(m, WeightProduct(p, q), P.VectorTo(p, q));
    V.LengthOfNegation(m, Separation(p, q));
  }

  lemma SeparationNegatesDisplacement(p: Point2, q: Point2)
    requires P.IsFinite(p) && P.IsFinite(q)
    ensures V.Scale(WeightProduct(p, q), P.VectorTo(p, q)) == V.Negate(Separation(p, q))
  {
    PointDisplacement(p, q);
  }

  lemma DistanceToUnfold(m: MathLib, p: Point2, q: Point2)
    requires P.IsFinite(p) && P.IsFinite(q)
    ensures WeightProduct(p, q) != 0.0
    ensures DistanceTo(m, p, q) == V.Length(m, Separation(p, q)) / WeightProduct(p, q)
  {
    ProductNonZero(q.W, p.W);
  }

  /** `x / k` for `x == |k| * y` with `y` non-negative. */
  lemma AbsOfQuotient(x: real, k: real, y: real)
    requires k != 0.0 && 0.0 <= y && x == Abs(k) * y
    ensures Abs(x / k) == y
    ensures 0.0 < k ==> x / k == y
  {
    if k < 0.0 {
      assert x / k == -y;
    }
  }

  /** The written distance to a line is the signed distance divided once more by the
      weight of the line. */
  lemma DistanceToLineAsWrittenScaled(m: MathLib, p: Point2, l: Line2)
    requires Lawful(m) && P.IsFinite(p) && L.IsFinite(l)
    ensures Weight(m, l) != 0.0
    ensures DistanceToLineAsWritten(p, l) * Weight(m, l) == DistanceToLine(m, p, l)
  {
    WeightPositive(m, l);
    WeightLaw(m, l);
    ProductNonZero(p.W, WeightSqr(l));
    ProductNonZero(p.W, Weight(m, l));
    QuotientOverSquare(Dot(p, l), p.W, WeightSqr(l), Weight(m, l));
  }

  /** `d / (z*s) * w == d / (z*w)` when `s == w*w`. */
  lemma QuotientOverSquare(d: real, z: real, s: real, w: real)
    requires z * s != 0.0 && z * w != 0.0 && s == w * w
    ensures d / (z * s) * w == d / (z * w)
  {
    assert w != 0.0;
    assert d / (z * s) * w == d * w / (z * w * w);
  }

  /** The point `(0, 1)` lies at distance one from the line `2y = 0`, but the written
      formula gives one half. */
  lemma DistanceToLineAsWrittenHalves(m: MathLib)
    requires Lawful(m)
    ensures Weight(m, Line2(0.0, 2.0, 0.0)) == 2.0
    ensures DistanceToLineAsWritten(Point2(0.0, 1.0, 1.0), Line2(0.0, 2.0, 0.0)) == 0.5
    ensures DistanceToLine(m, Point2(0.0, 1.0, 1.0), Line2(0.0, 2.0, 0.0)) == 1.0
  {
    assert WeightSqr(Line2(0.0, 2.0, 0.0)) == 4.0;
    SqrtUnique(m, 4.0, 2.0);
    WeightUnfold(m, Line2(0.0, 2.0, 0.0));
  }

  /** Reflecting twice in the same line gives the point back, scaled by the square of the
      line's squared weight. */
  lemma MirrorTwice(p: Point2, line: Line2)
    ensures MirrorAbout(MirrorAbout(p, line), line).U == WeightSqr(line) * WeightSqr(line) * p.U
    ensures MirrorAbout(MirrorAbout(p, line), line).V == WeightSqr(line) * WeightSqr(line) * p.V
    ensures MirrorAbout(MirrorAbout(p, line), line).W == WeightSqr(line) * WeightSqr(line) * p.W
  {
    MirrorTwiceU(p, line, MirrorAbout(p, line));
    MirrorTwiceV(p, line, MirrorAbout(p, line));
  }

  /** The first coordinate after two reflections. */
  lemma MirrorTwiceU(p: Point2, line: Line2, q: Point2)
    requires q == MirrorAbout(p, line)
    ensures MirrorAbout(q, line).U == WeightSqr(line) * WeightSqr(line) * p.U
  {
    var a, b, c := line.A, line.B, line.C;
    MirrorComposite(a, b, c, p.U, p.V, p.W, a * a, b * b, q.U, q.V, q.W, MirrorAbout(q, line).U);
  }

  /** The second coordinate after two reflections. */
  lemma MirrorTwiceV(p: Point2, line: Line2, q: Point2)
    requires q == MirrorAbout(p, line)
    ensures MirrorAbout(q, line).V == WeightSqr(line) * WeightSqr(line) * p.V
  {
    var a, b, c := line.A, line.B, line.C;
    MirrorComposite(b, a, c, p.V, p.U, p.W, b * b, a * a, q.V, q.U, q.W, MirrorAbout(q, line).V);
  }

  /** One coordinate of a double reflection, over plain numbers: `u2` is `u` scaled by
      `(aa + bb)^2`. */
  lemma MirrorComposite(a: real, b: real, c: real, u: real, v: real, w: real, aa: real, bb: real,
                        u1: real, v1: real, w1: real, u2: real)
    requires aa == a * a && bb == b * b
    requires u1 == u * (bb - aa) - 2.0 * a * (b * v + c * w)
    requires v1 == v * (aa - bb) - 2.0 * b * (a * u + c * w)
    requires w1 == w * (aa + bb)
    requires u2 == u1 * (bb - aa) - 2.0 * a * (b * v1 + c * w1)
    ensures u2 == (aa + bb) * (aa + bb) * u
  {
    var g := b * v + c * w;
    MirrorInner(a, b, c, u, v, w, aa, bb, v1, w1);
    MirrorOuter(a, aa, bb, u, g, u1, b * v1 + c * w1);
  }

  /** The inner sum of a second reflection, over plain numbers. */
  lemma MirrorInner(a: real, b: real, c: real, u: real, v: real, w: real, aa: real, bb: real, v1: real, w1: real)
    requires aa == a * a && bb == b * b
    requires v1 == v * (aa - bb) - 2.0 * b * (a * u + c * w)
    requires w1 == w * (aa + bb)
    ensures b * v1 + c * w1 == (aa - bb) * (b * v + c * w) - 2.0 * a * bb * u
  {
  }

  /** The first coordinate after reflecting twice, given the inner sum `x`. */
  lemma MirrorOuter(a: real, aa: real, bb: real, u: real, g: real, u1: real, x: real)
    requires aa == a * a
    requires u1 == u * (bb - aa) - 2.0 * a * g
    requires x == (aa - bb) * g - 2.0 * a * bb * u
    ensures u1 * (bb - aa) - 2.0 * a * x == (aa + bb) * (aa + bb) * u
  {
  }

  /** A point of the line reflects onto itself, scaled by the line's squared weight. */
  lemma MirrorKeepsLinePoints(p: Point2, line: Line2)
    requires Dot(p, line) == 0.0
    ensures MirrorAbout(p, line) == P.Scale(WeightSqr(line), p)
  {
    var a, b, c := line.A, line.B, line.C;
    assert c * p.W == -(a * p.U) - b * p.V;
  }

  /** Reflection negates the incidence value, scaled by the line's squared weight: the
      image lies as far from the line as the point, on the other side. */
  lemma MirrorNegatesIncidence(p: Point2, line: Line2)
    ensures Dot(MirrorAbout(p, line), line) == -(WeightSqr(line) * Dot(p, line))
  {
  }
}
