/**
 * The scalar layer. The C# code computes in `float` with `System.Math`; this model
 * computes in `real`. The transcendental functions of the runtime library are not
 * defined here: they are a record of functions passed to every operation that uses
 * them, and `Lawful` collects the only facts about them that any proof relies on.
 */
module RealMath {

  /** `System.Math` as seen by the geometry code: square root, sine, cosine,
      arc tangent, two-argument arc tangent and the constant pi. */
  datatype MathLib = MathLib(
    sqrt: real -> real,
    sin: real -> real,
    cos: real -> real,
    atan: real -> real,
    atan2: (real, real) -> real,
    pi: real)

  /** `Math.Sqrt`. Every use of a library function goes through these wrappers, so
      that proofs speak of one term per application. */
  function Sqrt(m: MathLib, x: real): real {
    m.sqrt(x)
  }

  /** `Math.Sin`. */
  function Sin(m: MathLib, t: real): real {
    m.sin(t)
  }

  /** `Math.Cos`. */
  function Cos(m: MathLib, t: real): real {
    m.cos(t)
  }

  /** `Math.Atan`. */
  function Atan(m: MathLib, x: real): real {
    m.atan(x)
  }

  /** `Math.Atan2`, with the ordinate first as in the runtime library. */
  function Atan2(m: MathLib, y: real, x: real): real {
    m.atan2(y, x)
  }

  /** `Math.PI`. */
  function Pi(m: MathLib): real {
    m.pi
  }

  /** The square-root law at `x`: the root of a non-negative number is non-negative
      and squares back to it. */
  ghost predicate SqrtLawAt(m: MathLib, x: real) {
    0.0 <= x ==> 0.0 <= Sqrt(m, x) && Sqrt(m, x) * Sqrt(m, x) == x
  }

  /** The Pythagorean identity at `t`. */
  ghost predicate TrigLawAt(m: MathLib, t: real) {
    Sin(m, t) * Sin(m, t) + Cos(m, t) * Cos(m, t) == 1.0
  }

  /** The bearing law at `(x, y)`: the cosine and sine of `Atan2(y, x)` scale back to
      `x` and `y` by the length of `(x, y)`. */
  ghost predicate BearingLawAt(m: MathLib, y: real, x: real) {
    x != 0.0 || y != 0.0 ==>
      && Cos(m, Atan2(m, y, x)) * Sqrt(m, x * x + y * y) == x
      && Sin(m, Atan2(m, y, x)) * Sqrt(m, x * x + y * y) == y
  }

  /** The laws assumed of the library. Nothing else about `m` is ever used. Each
      quantified law is reached only through the lemma that names it. */
  ghost predicate Lawful(m: MathLib) {
    && (forall x: real :: SqrtLawAt(m, x))
    && (forall t: real :: TrigLawAt(m, t))
    && Sin(m, 0.0) == 0.0 && Cos(m, 0.0) == 1.0
    && Sin(m, Pi(m) / 2.0) == 1.0 && Cos(m, Pi(m) / 2.0) == 0.0
    && Sin(m, -(Pi(m) / 2.0)) == -1.0 && Cos(m, -(Pi(m) / 2.0)) == 0.0
    && Sin(m, Pi(m)) == 0.0 && Cos(m, Pi(m)) == -1.0
    && Atan(m, 0.0) == 0.0
    && (forall y: real, x: real :: BearingLawAt(m, y, x))
  }

  lemma SqrtLaw(m: MathLib, x: real)
    requires Lawful(m) && 0.0 <= x
    ensures 0.0 <= Sqrt(m, x) && Sqrt(m, x) * Sqrt(m, x) == x
  {
    assert SqrtLawAt(m, x);
  }

  lemma TrigLaw(m: MathLib, t: real)
    requires Lawful(m)
    ensures Sin(m, t) * Sin(m, t) + Cos(m, t) * Cos(m, t) == 1.0
  {
    assert TrigLawAt(m, t);
  }

  lemma BearingLaw(m: MathLib, y: real, x: real)
    requires Lawful(m) && (x != 0.0 || y != 0.0)
    ensures Cos(m, Atan2(m, y, x)) * Sqrt(m, x * x + y * y) == x
    ensures Sin(m, Atan2(m, y, x)) * Sqrt(m, x * x + y * y) == y
  {
    assert BearingLawAt(m, y, x);
  }

  /** `Math.Abs`. */
  function Abs(x: real): (r: real)
    ensures 0.0 <= r && (r == x || r == -x)
  {
    if x < 0.0 then -x else x
  }

  /** `Math.Sign`: -1, 0 or 1 according to the sign of `x`. */
  function Sign(x: real): (s: int)
    ensures -1 <= s <= 1
    ensures (s as real) * x == Abs(x)
    ensures s == 0 <==> x == 0.0
  {
    if x < 0.0 then -1 else if x > 0.0 then 1 else 0
  }

  /** A non-negative number whose square is `x` is the square root of `x`. */
  lemma SqrtUnique(m: MathLib, x: real, y: real)
    requires Lawful(m)
    requires 0.0 <= y && y * y == x
    ensures Sqrt(m, x) == y
  {
    SqrtLaw(m, x);
    var s := Sqrt(m, x);
    assert (s - y) * (s + y) == 0.0;
    ZeroProduct(s - y, s + y);
  }

  /** A quotient multiplied back by its divisor gives the dividend. */
  lemma MultiplyBack(x: real, n: real)
    requires n != 0.0
    ensures (x / n) * n == x
    ensures (x / n) * (x / n) * (n * n) == x * x
  {
  }

  /** A factor that leaves a non-zero square unchanged is one. */
  lemma CancelSquare(s: real, n: real)
    requires n != 0.0
    requires s * (n * n) == n * n
    ensures s == 1.0
  {
    assert (s - 1.0) * (n * n) == 0.0;
    assert n * n > 0.0;
  }

  /** Squares of multiples of `n` are multiples of `n * n`. */
  lemma ScaledSquares(p: real, q: real, n: real, x: real, y: real)
    requires x == p * n && y == q * n
    ensures x * x + y * y == (p * p + q * q) * (n * n)
  {
  }

  /** If `(x, y) = n (p, q)` and `n * n = x * x + y * y`, then `(p, q)` has unit square length. */
  lemma UnitOfScaled(p: real, q: real, n: real, x: real, y: real)
    requires n != 0.0 && x == p * n && y == q * n
    requires n * n == x * x + y * y
    ensures p * p + q * q == 1.0
  {
    ScaledSquares(p, q, n, x, y);
    calc {
      (p * p + q * q) * (n * n);
      x * x + y * y;
      n * n;
    }
    CancelSquare(p * p + q * q, n);
  }

  /** A sum of two squares is never negative. */
  lemma SquaresNonNegative(x: real, y: real)
    ensures 0.0 <= x * x + y * y
  {
  }

  /** A sum of two squares vanishes only at the origin. */
  lemma SumOfSquaresPositive(x: real, y: real)
    requires x != 0.0 || y != 0.0
    ensures 0.0 < x * x + y * y
  {
    if x != 0.0 {
      assert 0.0 < x * x;
    } else {
      assert 0.0 < y * y;
    }
  }

  /** The square of a positive number is positive. */
  lemma PositiveSquare(w: real, s: real)
    requires 0.0 < w && s == w * w
    ensures 0.0 < s
  {
    calc {
      s;
      w * w;
    > 0.0;
    }
  }

  /** Scaling by a positive factor commutes with the absolute value. */
  lemma AbsOfPositiveMultiple(q: real, w: real)
    requires 0.0 < w
    ensures Abs(q) * w == Abs(q * w)
  {
    if q < 0.0 {
      assert q * w < 0.0;
    }
  }

  /** A product of non-zero factors is non-zero. */
  lemma ProductNonZero(a: real, b: real)
    requires a != 0.0 && b != 0.0
    ensures a * b != 0.0
  {
    if a * b == 0.0 {
      ZeroProduct(a, b);
      assert false;
    }
  }

  /** A product is zero only when a factor is. */
  lemma ZeroProduct(a: real, b: real)
    requires a * b == 0.0
    ensures a == 0.0 || b == 0.0
  {
    if a != 0.0 {
      assert b == (a * b) / a;
    }
  }

  lemma SqrtZero(m: MathLib)
    requires Lawful(m)
    ensures Sqrt(m, 0.0) == 0.0
  {
    SqrtUnique(m, 0.0, 0.0);
  }

  lemma SqrtOne(m: MathLib)
    requires Lawful(m)
    ensures Sqrt(m, 1.0) == 1.0
  {
    SqrtUnique(m, 1.0, 1.0);
  }

  lemma SqrtPositive(m: MathLib, x: real)
    requires Lawful(m) && 0.0 < x
    ensures 0.0 < Sqrt(m, x)
  {
    SqrtLaw(m, x);
  }

  /** The square root of a square is the absolute value. */
  lemma SqrtOfSquare(m: MathLib, k: real)
    requires Lawful(m)
    ensures Sqrt(m, k * k) == Abs(k)
  {
    SqrtUnique(m, k * k, Abs(k));
  }

  /** A square factor leaves the square root as its absolute value. */
  lemma SqrtScale(m: MathLib, k: real, s: real)
    requires Lawful(m) && 0.0 <= s
    ensures Sqrt(m, k * k * s) == Abs(k) * Sqrt(m, s)
  {
    SqrtLaw(m, s);
    var r := Sqrt(m, s);
    assert (Abs(k) * r) * (Abs(k) * r) == (Abs(k) * Abs(k)) * (r * r);
    assert Abs(k) * Abs(k) == k * k;
    SqrtUnique(m, k * k * s, Abs(k) * r);
  }

  /** `x * x`, named so that a quotient by it can be proved defined. */
  function Square(x: real): real {
    x * x
  }

  lemma SquareNonZero(x: real)
    requires x != 0.0
    ensures Square(x) != 0.0
  {
    if x < 0.0 {
      assert (-x) * (-x) == x * x;
      PositiveSquare(-x, x * x);
    } else {
      PositiveSquare(x, x * x);
    }
  }
}
