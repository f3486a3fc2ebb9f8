/**
 * `JA.Numerics.Geometry.Point2`: a homogeneous point `(U, V, W)`.
 * Vectors from `System.Numerics` are Cartesian displacements; adding one to a
 * point scales it by the point's weight `W` so the sum stays homogeneous.
 */
module Points {
  import opened RealMath
  import opened Homogeneous
  import V = Vectors

  /** `Point2.FromVector` / `Point2.FromCoordinates`: a Cartesian location with weight one. */
  function FromVector(v: V.Vector2): (r: Point2)
    ensures IsFinite(r) && AsVector(r) == v
  {
    Point2(v.X, v.Y, 1.0)
  }

  /** The `Point2(Vector2, w = 1)` constructor: the triple of the vector and the weight,
      whose location is the vector divided by the weight. The weight defaults to one. */
  function Weighted(v: V.Vector2, w: real := 1.0): (r: Point2)
    ensures r.W == w
    ensures w != 0.0 ==> V.Scale(w, AsVector(r)) == v
    ensures w == 1.0 ==> r == FromVector(v)
  {
    Point2(v.X, v.Y, w)
  }

  /** `Point2.Meet`: the point common to two lines (their cross product). */
  function Meet(l1: Line2, l2: Line2): (r: Point2)
    ensures Dot(r, l1) == 0.0 && Dot(r, l2) == 0.0
  {
    Point2(l1.B * l2.C - l1.C * l2.B,
           l1.C * l2.A - l1.A * l2.C,
           l1.A * l2.B - l1.B * l2.A)
  }

  const Empty := Point2(0.0, 0.0, 0.0)
  const Origin := Point2(0.0, 0.0, 1.0)
  const AlongX := Point2(1.0, 0.0, 0.0)
  const AlongY := Point2(0.0, 1.0, 0.0)

  /** `Point2.IsFinite`: the point is not at infinity. */
  predicate IsFinite(p: Point2) {
    p.W != 0.0
  }

  /** `Point2.IsEmpty` as written: every coordinate is non-zero. */
  predicate IsEmptyAsWritten(p: Point2) {
    p.U != 0.0 && p.V != 0.0 && p.W != 0.0
  }

  /** `Point2.IsEmpty` as evidently intended: the triple is `Empty`. */
  predicate IsEmpty(p: Point2) {
    p.U == 0.0 && p.V == 0.0 && p.W == 0.0
  }

  /** `Point2.AsVector`: the Cartesian location of a finite point. */
  function AsVector(p: Point2): (r: V.Vector2)
    requires IsFinite(p)
    ensures r.X * p.W == p.U && r.Y * p.W == p.V
  {
    V.Vector2(p.U / p.W, p.V / p.W)
  }

  /** `Point2.Normalized`: the same location with weight one. */
  function Normalized(p: Point2): (r: Point2)
    requires IsFinite(p)
    ensures r.W == 1.0 && AsVector(r) == AsVector(p)
  {
    AddVector(Origin, AsVector(p))
  }

  /** `Point2.IsCoincident(Line2)`: the point lies on the line. */
  predicate IsOnLine(p: Point2, l: Line2) {
    Dot(p, l) == 0.0
  }

  /** `Point2.IsCoincident(Point2)`: the two finite points have the same location. */
  predicate IsCoincident(p: Point2, q: Point2)
    requires IsFinite(p) && IsFinite(q)
  {
    AsVector(p) == AsVector(q)
  }

  /** `Point2.IsCoincident(Point2, float)`: the locations agree within `tolerance` per axis. */
  predicate IsCoincidentWithin(p: Point2, q: Point2, tolerance: real)
    requires IsFinite(p) && IsFinite(q)
  {
    Abs(AsVector(p).X - AsVector(q).X) <= tolerance
    && Abs(AsVector(p).Y - AsVector(q).Y) <= tolerance
  }

  /** `Point2.Difference`: the Cartesian displacement from `reference` to `target`. */
  function Difference(target: Point2, reference: Point2): (r: V.Vector2)
    requires IsFinite(target) && IsFinite(reference)
    ensures r == V.Subtract(AsVector(target), AsVector(reference))
  {
    var wa, wb := target.W, reference.W;
    var dx := wb * target.U - wa * reference.U;
    var dy := wb * target.V - wa * reference.V;
    QuotientDifference(target.U, wa, reference.U, wb);
    QuotientDifference(target.V, wa, reference.V, wb);
    V.Divide(V.Vector2(dx, dy), wa * wb)
  }

  /** `Point2.VectorTo`: the displacement from `p` to `target`. */
  function VectorTo(p: Point2, target: Point2): (r: V.Vector2)
    requires IsFinite(p) && IsFinite(target)
    ensures V.Add(AsVector(p), r) == AsVector(target)
  {
    Difference(target, p)
  }

  /** `Point2.DistanceTo(Point2)`: the Euclidean distance between two finite points. */
  function DistanceTo(m: MathLib, p: Point2, q: Point2): (r: real)
    requires IsFinite(p) && IsFinite(q)
    ensures Lawful(m) ==> 0.0 <= r
  {
    V.Length(m, VectorTo(p, q))
  }

  /** `Point2.DistanceTo(Line2)`: the incidence value divided by both weights, a signed
      distance whose sign also follows the sign of `W`. */
  function DistanceToLine(m: MathLib, p: Point2, l: Line2): (r: real)
    requires IsFinite(p) && Weight(m, l) != 0.0
    ensures r * (p.W * Weight(m, l)) == Dot(p, l)
  {
    Dot(p, l) / (p.W * Weight(m, l))
  }

  /** `Point2.Negate`. */
  function Negate(a: Point2): Point2 {
    Point2(-a.U, -a.V, -a.W)
  }

  /** `Point2.Scale`. */
  function Scale(factor: real, a: Point2): Point2 {
    Point2(factor * a.U, factor * a.V, factor * a.W)
  }

  /** `Point2.Add(Point2, Point2)`. */
  function Add(a: Point2, b: Point2): Point2 {
    Point2(a.U + b.U, a.V + b.V, a.W + b.W)
  }

  /** `Point2.Subtract(Point2, Point2)`. */
  function Subtract(a: Point2, b: Point2): Point2 {
    Point2(a.U - b.U, a.V - b.V, a.W - b.W)
  }

  /** `Point2.Add(Point2, Vector2)`: moves the point by a Cartesian displacement. */
  function AddVector(a: Point2, b: V.Vector2): (r: Point2)
    ensures r.W == a.W
    ensures IsFinite(a) ==> AsVector(r) == V.Add(AsVector(a), b)
  {
    Point2(a.U + a.W * b.X, a.V + a.W * b.Y, a.W)
  }

  /** `Point2.Subtract(Point2, Vector2)`: moves the point back by a displacement. */
  function SubtractVector(a: Point2, b: V.Vector2): (r: Point2)
    ensures r.W == a.W
    ensures IsFinite(a) ==> AsVector(r) == V.Subtract(AsVector(a), b)
  {
    Point2(a.U - a.W * b.X, a.V - a.W * b.Y, a.W)
  }

  // ---------------------------------------------------------------------------
  // Properties

  /** `(t/a) - (s/b)` over the common denominator `a*b`. */
  lemma QuotientDifference(t: real, a: real, s: real, b: real)
    requires a != 0.0 && b != 0.0
    ensures (b * t - a * s) / (a * b) == t / a - s / b
  {
    assert (t / a) * a == t;
    assert (s / b) * b == s;
    assert (b * t - a * s) == (t / a - s / b) * (a * b);
  }

  /** The written test rejects `Empty` itself and accepts the ordinary point `(1, 1, 1)`. */
  lemma IsEmptyAsWrittenMisclassifies()
    ensures !IsEmptyAsWritten(Empty)
    ensures IsEmptyAsWritten(Point2(1.0, 1.0, 1.0)) && IsFinite(Point2(1.0, 1.0, 1.0))
  {
  }

  /** The intended test holds of `Empty` and of nothing else. */
  lemma IsEmptyExactlyEmpty(p: Point2)
    ensures IsEmpty(p) <==> p == Empty
  {
  }

  /** Meeting two lines in the other order gives the opposite triple. */
  lemma MeetAntiCommutes(l1: Line2, l2: Line2)
    ensures Meet(l2, l1) == Negate(Meet(l1, l2))
  {
  }

  /** Lines with proportional normals (parallel lines) meet at infinity. */
  lemma ParallelLinesMeetAtInfinity(l1: Line2, l2: Line2)
    requires l1.A * l2.B == l1.B * l2.A
    ensures !IsFinite(Meet(l1, l2))
  {
  }

  /** Moving by a displacement and back restores the point exactly. */
  lemma SubtractUndoesAdd(p: Point2, v: V.Vector2)
    ensures SubtractVector(AddVector(p, v), v) == p
  {
  }

  /** The displacement to a moved point is the displacement it was moved by. */
  lemma VectorToMoved(p: Point2, v: V.Vector2)
    requires IsFinite(p)
    ensures VectorTo(p, AddVector(p, v)) == v
  {
  }

  /** Swapping the points of a difference negates it. */
  lemma DifferenceAntiSymmetric(p: Point2, q: Point2)
    requires IsFinite(p) && IsFinite(q)
    ensures Difference(p, q) == V.Negate(Difference(q, p))
  {
  }

  /** Distance is symmetric. */
  lemma DistanceSymmetric(m: MathLib, p: Point2, q: Point2)
    requires IsFinite(p) && IsFinite(q)
    ensures DistanceTo(m, p, q) == DistanceTo(m, q, p)
  {
    DifferenceAntiSymmetric(p, q);
    V.LengthOfNegation(m, VectorTo(q, p));
  }

  /** The distance squares back to the squared length of the displacement. */
  lemma DistanceSquared(m: MathLib, p: Point2, q: Point2)
    requires Lawful(m) && IsFinite(p) && IsFinite(q)
    ensures 0.0 <= DistanceTo(m, p, q)
    ensures DistanceTo(m, p, q) * DistanceTo(m, p, q)
            == V.LengthSquared(V.Subtract(AsVector(q), AsVector(p)))
  {
    V.LengthLaw(m, VectorTo(p, q));
  }

  /** A point is at distance zero from itself. */
  lemma DistanceToSelf(m: MathLib, p: Point2)
    requires Lawful(m) && IsFinite(p)
    ensures DistanceTo(m, p, p) == 0.0
  {
    assert VectorTo(p, p) == V.Zero;
    SqrtZero(m);
  }

  /** Two finite points coincide exactly when their triples are proportional. */
  lemma CoincidentIffProportional(p: Point2, q: Point2)
    requires IsFinite(p) && IsFinite(q)
    ensures IsCoincident(p, q) <==> p.U * q.W == q.U * p.W && p.V * q.W == q.V * p.W
  {
    CrossMultiply(p.U, p.W, q.U, q.W);
    CrossMultiply(p.V, p.W, q.V, q.W);
  }

  /** Two quotients are equal exactly when their cross products are. */
  lemma CrossMultiply(x: real, a: real, y: real, b: real)
    requires a != 0.0 && b != 0.0
    ensures x / a == y / b <==> x * b == y * a
  {
    assert (x / a) * a == x;
    assert (y / b) * b == y;
    if x * b == y * a {
      assert x / a == (x * b) / (a * b);
      assert y / b == (y * a) / (a * b);
    }
  }

  /** A finite point is within every non-negative tolerance of itself. */
  lemma CoincidentWithinReflexive(p: Point2, tolerance: real)
    requires IsFinite(p) && 0.0 <= tolerance
    ensures IsCoincidentWithin(p, p, tolerance)
  {
  }

  /** Scaling a finite point by a non-zero factor keeps its location. */
  lemma ScaleKeepsLocation(k: real, p: Point2)
    requires k != 0.0 && IsFinite(p)
    ensures IsFinite(Scale(k, p)) && AsVector(Scale(k, p)) == AsVector(p)
  {
    CrossMultiply(k * p.U, k * p.W, p.U, p.W);
    CrossMultiply(k * p.V, k * p.W, p.V, p.W);
  }
}
