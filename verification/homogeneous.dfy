/**
 * The homogeneous triples shared by the points and lines of `JA.Numerics.Geometry`.
 * A point `(U, V, W)` with `W != 0` stands for the Cartesian location `(U/W, V/W)`;
 * `W == 0` is a point at infinity. A line `(A, B, C)` is the set of points with
 * `A*U + B*V + C*W == 0`.
 */
module Homogeneous {
  import opened RealMath

  datatype Point2 = Point2(U: real, V: real, W: real)

  datatype Line2 = Line2(A: real, B: real, C: real)

  /** The incidence pairing of a point and a line; zero exactly when the point is on the line.
      `Point2.Dot(point, line)` and `Line2.Dot(line, point)` compute the same sum. */
  function Dot(p: Point2, l: Line2): real {
    l.A * p.U + l.B * p.V + l.C * p.W
  }

  /** `Line2.WeightSqr`: the squared length of the line's normal `(A, B)`. */
  function WeightSqr(l: Line2): real {
    l.A * l.A + l.B * l.B
  }

  /** The squared weight is never negative. */
  lemma WeightSqrNonNegative(l: Line2)
    ensures 0.0 <= WeightSqr(l)
  {
  }

  /** Only a line with a zero normal has weight zero. */
  lemma WeightSqrPositive(l: Line2)
    requires l.A != 0.0 || l.B != 0.0
    ensures 0.0 < WeightSqr(l)
  {
    SumOfSquaresPositive(l.A, l.B);
    calc {
      WeightSqr(l);
      l.A * l.A + l.B * l.B;
    >
      0.0;
    }
  }

  /** `Line2.Weight`: the length of the line's normal. */
  function Weight(m: MathLib, l: Line2): (r: real)
    ensures Lawful(m) ==> 0.0 <= r
  {
    assert Lawful(m) ==> SqrtLawAt(m, WeightSqr(l)) by {
      if Lawful(m) {
        WeightSqrNonNegative(l);
        SqrtLaw(m, WeightSqr(l));
      }
    }
    Sqrt(m, WeightSqr(l))
  }

  /** The weight is the non-negative square root of the squared weight. */
  lemma WeightLaw(m: MathLib, l: Line2)
    requires Lawful(m)
    ensures 0.0 <= Weight(m, l) && Weight(m, l) * Weight(m, l) == WeightSqr(l)
  {
    WeightSqrNonNegative(l);
    SqrtLaw(m, WeightSqr(l));
  }

  lemma WeightUnfold(m: MathLib, l: Line2)
    ensures Weight(m, l) == Sqrt(m, WeightSqr(l))
  {
  }

  /** A line with a non-zero normal has a positive weight. */
  lemma WeightPositive(m: MathLib, l: Line2)
    requires Lawful(m)
    requires l.A != 0.0 || l.B != 0.0
    ensures 0.0 < Weight(m, l)
  {
    WeightSqrPositive(l);
    SqrtPositive(m, WeightSqr(l));
  }
}
