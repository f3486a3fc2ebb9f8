/** The two-component vector of `System.Numerics`, over `real`. */
module Vectors {
  import opened RealMath

  datatype Vector2 = Vector2(X: real, Y: real)

  const Zero := Vector2(0.0, 0.0)

  function Add(a: Vector2, b: Vector2): Vector2 {
    Vector2(a.X + b.X, a.Y + b.Y)
  }

  function Subtract(a: Vector2, b: Vector2): Vector2 {
    Vector2(a.X - b.X, a.Y - b.Y)
  }

  function Negate(a: Vector2): Vector2 {
    Vector2(-a.X, -a.Y)
  }

  function Scale(k: real, a: Vector2): Vector2 {
    Vector2(k * a.X, k * a.Y)
  }

  /** Division of both components by a scalar. */
  function Divide(a: Vector2, d: real): (r: Vector2)
    requires d != 0.0
    ensures Scale(d, r) == a
  {
    Vector2(a.X / d, a.Y / d)
  }

  function Dot(a: Vector2, b: Vector2): real {
    a.X * b.X + a.Y * b.Y
  }

  function LengthSquared(a: Vector2): real {
    a.X * a.X + a.Y * a.Y
  }

  /** `Vector2.Length`: the Euclidean norm. */
  function Length(m: MathLib, a: Vector2): (r: real)
    ensures Lawful(m) ==> 0.0 <= r
  {
    assert Lawful(m) ==> SqrtLawAt(m, LengthSquared(a)) by {
      if Lawful(m) {
        SquaresNonNegative(a.X, a.Y);
        SqrtLaw(m, LengthSquared(a));
      }
    }
    Sqrt(m, LengthSquared(a))
  }

  lemma LengthUnfold(m: MathLib, a: Vector2)
    ensures Length(m, a) == Sqrt(m, LengthSquared(a))
  {
  }

  /** The length is the non-negative square root of the squared length. */
  lemma LengthLaw(m: MathLib, a: Vector2)
    requires Lawful(m)
    ensures 0.0 <= Length(m, a) && Length(m, a) * Length(m, a) == LengthSquared(a)
  {
    SquaresNonNegative(a.X, a.Y);
    SqrtLaw(m, LengthSquared(a));
  }

  /** `Vector2.Normalize`: the vector divided by its length. */
  function Normalize(m: MathLib, a: Vector2): (r: Vector2)
    requires Length(m, a) != 0.0
    ensures Scale(Length(m, a), r) == a
    ensures Lawful(m) ==> LengthSquared(r) == 1.0
  {
    var r := Divide(a, Length(m, a));
    assert Lawful(m) ==> LengthSquared(r) == 1.0 by {
      if Lawful(m) {
        LengthLaw(m, a);
        UnitAfterDivision(a, Length(m, a));
      }
    }
    r
  }

  /** Dividing a vector by a number whose square is its squared length gives a unit vector. */
  lemma UnitAfterDivision(a: Vector2, n: real)
    requires n != 0.0 && n * n == LengthSquared(a)
    ensures LengthSquared(Divide(a, n)) == 1.0
  {
    UnitOfScaled(a.X / n, a.Y / n, n, a.X, a.Y);
  }

  /** Opposite vectors have the same length. */
  lemma LengthOfNegation(m: MathLib, a: Vector2)
    ensures Length(m, Negate(a)) == Length(m, a)
  {
    assert LengthSquared(Negate(a)) == LengthSquared(a);
  }

  /** Scaling a vector scales its length by the absolute factor. */
  lemma LengthOfScaled(m: MathLib, k: real, a: Vector2)
    requires Lawful(m)
    ensures Length(m, Scale(k, a)) == Abs(k) * Length(m, a)
  {
    var s := LengthSquared(a);
    assert LengthSquared(Scale(k, a)) == k * k * s;
    SqrtScale(m, k, s);
    assert Length(m, Scale(k, a)) == Sqrt(m, k * k * s);
  }

  /** Only the zero vector has squared length zero. */
  lemma LengthSquaredPositive(a: Vector2)
    requires a != Zero
    ensures 0.0 < LengthSquared(a)
  {
    SumOfSquaresPositive(a.X, a.Y);
    calc {
      LengthSquared(a);
      a.X * a.X + a.Y * a.Y;
    >
      0.0;
    }
  }

  /** Only the zero vector has length zero. */
  lemma LengthZero(m: MathLib, a: Vector2)
    requires Lawful(m)
    ensures Length(m, a) == 0.0 <==> a == Zero
  {
    if a == Zero {
      SqrtZero(m);
    } else {
      LengthSquaredPositive(a);
      SqrtPositive(m, LengthSquared(a));
    }
  }
}
