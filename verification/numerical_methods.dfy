/**
 * `JA.Numerics.NumericalMethods`: fixed-point ("Gauss point") iteration and bisection
 * with geometric bracket expansion, over `real`. The function whose fixed point or root
 * is sought is a total `real -> real` parameter.
 *
 * Each root finder appears twice: a recursive reference definition that carries the
 * properties, and a method with the loops of the C# code, proved to agree with it.
 */
module NumericalMethods {
  import opened RealMath
  import opened Outcomes

  /** `SolutionSet`: which of the two roots of a quadratic a caller asks for. */
  datatype SolutionSet = First | Second

  /** `NumericalMethods.MaxIterations`. */
  const MaxIterations: nat := 512

  /** `NumericalMethods.LooseTolerance` (the `1e-6f` of the source). */
  const LooseTolerance: real := 0.000001

  // ---------------------------------------------------------------------------
  // Fixed-point iteration

  /** `f` applied `n` times to `x`. */
  function Iterate(f: real -> real, x: real, n: nat): real {
    if n == 0 then x else f(Iterate(f, x, n - 1))
  }

  /** How far step `n + 1` of the iteration moves `x`. */
  function Move(f: real -> real, xInit: real, n: nat): real {
    Abs(Iterate(f, xInit, n + 1) - Iterate(f, xInit, n))
  }

  /** The outcome of `GaussPointIteration`: the returned flag, the final value of `x`,
      and the number of times `f` was applied (the source's `iter`). */
  datatype Iteration = Iteration(converged: bool, x: real, steps: nat)

  /** The do-while of `GaussPointIteration` resumed after `iter` applications of `f`
      to `xInit`. It stops after the first step that moves by at most `tol`, or after
      the `MaxIterations`-th step, and reports success exactly when fewer than
      `MaxIterations` steps were taken. */
  function GaussFrom(f: real -> real, xInit: real, tol: real, iter: nat): (r: Iteration)
    requires iter < MaxIterations
    ensures iter < r.steps <= MaxIterations
    ensures r.x == Iterate(f, xInit, r.steps)
    ensures r.converged <==> r.steps < MaxIterations
    ensures r.converged ==> Move(f, xInit, r.steps - 1) <= tol
    ensures forall k :: iter <= k < r.steps - 1 ==> Move(f, xInit, k) > tol
    decreases MaxIterations - iter
  {
    var previous := Iterate(f, xInit, iter);
    var next := f(previous);
    if iter + 1 < MaxIterations && Abs(next - previous) > tol then
      GaussFrom(f, xInit, tol, iter + 1)
    else
      Iteration(iter + 1 < MaxIterations, next, iter + 1)
  }

  /** The reference outcome of `GaussPointIteration(f, xInit, tol)`. */
  function Gauss(f: real -> real, xInit: real, tol: real): Iteration {
    GaussFrom(f, xInit, tol, 0)
  }

  /** One step of `GaussFrom`, with the current and next values named. */
  lemma GaussFromStep(f: real -> real, xInit: real, tol: real, iter: nat, xOld: real, x: real)
    requires 1 <= iter <= MaxIterations
    requires xOld == Iterate(f, xInit, iter - 1) && x == f(xOld)
    ensures x == Iterate(f, xInit, iter)
    ensures GaussFrom(f, xInit, tol, iter - 1) ==
              if iter < MaxIterations && Abs(x - xOld) > tol then GaussFrom(f, xInit, tol, iter)
              else Iteration(iter < MaxIterations, x, iter)
  {
  }

  /** `NumericalMethods.GaussPointIteration`, with the loop of the source. */
  method GaussPointIteration(f: real -> real, xInit: real, tol: real) returns (converged: bool, x: real)
    ensures converged == Gauss(f, xInit, tol).converged
    ensures x == Gauss(f, xInit, tol).x
  {
    x := xInit;
    var iter := 1;
    var xOld := x;
    x := f(x);
    GaussFromStep(f, xInit, tol, iter, xOld, x);
    while iter < MaxIterations && Abs(x - xOld) > tol
      invariant 1 <= iter <= MaxIterations
      invariant x == Iterate(f, xInit, iter)
      invariant Gauss(f, xInit, tol) == GaussFrom(f, xInit, tol, iter - 1)
      invariant GaussFrom(f, xInit, tol, iter - 1) ==
                  if iter < MaxIterations && Abs(x - xOld) > tol then GaussFrom(f, xInit, tol, iter)
                  else Iteration(iter < MaxIterations, x, iter)
      decreases MaxIterations - iter
    {
      iter := iter + 1;
      xOld := x;
      x := f(x);
      GaussFromStep(f, xInit, tol, iter, xOld, x);
    }
    converged := iter < MaxIterations;
  }

  /** Started at a fixed point, the iteration converges after one step, at the starting value. */
  lemma GaussAtFixedPoint(f: real -> real, xInit: real, tol: real)
    requires f(xInit) == xInit
    requires 0.0 <= tol
    ensures Gauss(f, xInit, tol) == Iteration(true, xInit, 1)
  {
    assert Iterate(f, xInit, 1) == f(xInit);
  }

  /** Counts up by one until it reaches 511, then stays there. */
  function StepUntil511(y: real): real {
    if y < 511.0 then y + 1.0 else y
  }

  lemma StepUntil511Iterates(n: nat)
    ensures Iterate(StepUntil511, 0.0, n) == if n <= 511 then n as real else 511.0
  {
  }

  lemma StepUntil511Tail(iter: nat)
    requires iter < MaxIterations
    ensures GaussFrom(StepUntil511, 0.0, 0.5, iter) == Iteration(false, 511.0, MaxIterations)
    decreases MaxIterations - iter
  {
    StepUntil511Iterates(iter);
    StepUntil511Iterates(iter + 1);
    if iter + 1 < MaxIterations {
      StepUntil511Tail(iter + 1);
    }
  }

  /** As written, a run whose 512th step is the first to settle within `tol` is still
      reported as not converged, although the last step moved by zero. */
  lemma GaussReportsFailureOnLastStep()
    ensures Gauss(StepUntil511, 0.0, 0.5) == Iteration(false, 511.0, MaxIterations)
    ensures Iterate(StepUntil511, 0.0, MaxIterations) == Iterate(StepUntil511, 0.0, MaxIterations - 1)
  {
    StepUntil511Tail(0);
    StepUntil511Iterates(MaxIterations);
    StepUntil511Iterates(MaxIterations - 1);
  }

  // ---------------------------------------------------------------------------
  // Bisection

  /** An interval `[low, high]` believed to hold a root. */
  datatype Bracket = Bracket(low: real, high: real)

  function Width(b: Bracket): real {
    b.high - b.low
  }

  /** The two ends have values of the same strict sign: no sign change is seen. */
  predicate SameSign(f: real -> real, b: Bracket) {
    f(b.low) * f(b.high) > 0.0
  }

  /** The two ends have values of opposite strict sign. */
  predicate Straddles(f: real -> real, b: Bracket) {
    f(b.low) * f(b.high) < 0.0
  }

  /** One expansion step of `BisectionRoot`: each end moves away from the other by half
      the width, so the midpoint stays and the width doubles. */
  function Expand(b: Bracket): (r: Bracket)
    ensures r.low + r.high == b.low + b.high
    ensures Width(r) == 2.0 * Width(b)
  {
    Bracket((3.0 * b.low - b.high) / 2.0, (3.0 * b.high - b.low) / 2.0)
  }

  /** `b` expanded `n` times. */
  function Expanded(b: Bracket, n: nat): Bracket
    decreases n
  {
    if n == 0 then b else Expanded(Expand(b), n - 1)
  }

  function Pow2(n: nat): real {
    if n == 0 then 1.0 else 2.0 * Pow2(n - 1)
  }

  /** After `n` expansions the midpoint is unchanged and the width is `2^n` times the
      original. */
  lemma {:induction false} ExpandedShape(b: Bracket, n: nat)
    ensures Expanded(b, n).low + Expanded(b, n).high == b.low + b.high
    ensures Width(Expanded(b, n)) == Pow2(n) * Width(b)
    decreases n
  {
    if n > 0 {
      ExpandedShape(Expand(b), n - 1);
      calc {
        Width(Expanded(b, n));
        Pow2(n - 1) * Width(Expand(b));
        Pow2(n - 1) * (2.0 * Width(b));
        (2.0 * Pow2(n - 1)) * Width(b);
      }
    }
  }

  /** The exceptions of `BisectionRoot`: `ArgumentException` when no sign change was found
      by expanding, `InvalidOperationException` when neither half of a bracket shows one. */
  datatype BisectionError = InvalidInitialConditions | InvalidOperation

  /** The value of `BisectionRoot` and its `out` parameter. */
  datatype Root = Root(found: bool, x: real)

  /** No sign change is seen at `b` nor at any of its next `n` expansions. */
  predicate NeverChanges(f: real -> real, b: Bracket, n: int)
    decreases n
  {
    n < 0 || (SameSign(f, b) && NeverChanges(f, Expand(b), n - 1))
  }

  /** `NeverChanges` is the statement that every one of the first `n + 1` brackets of the
      expansion sequence shows no sign change. */
  lemma {:induction false} NeverChangesMeansAllSameSign(f: real -> real, b: Bracket, n: int)
    ensures NeverChanges(f, b, n) <==> forall k :: 0 <= k <= n ==> SameSign(f, Expanded(b, k))
    decreases n
  {
    if n >= 0 {
      NeverChangesMeansAllSameSign(f, Expand(b), n - 1);
      if NeverChanges(f, b, n) {
        assert SameSign(f, b) && NeverChanges(f, Expand(b), n - 1);
        forall k | 0 <= k <= n
          ensures SameSign(f, Expanded(b, k))
        {
          if k > 0 {
            assert Expanded(b, k) == Expanded(Expand(b), k - 1);
            assert 0 <= k - 1 <= n - 1;
            assert SameSign(f, Expanded(Expand(b), k - 1));
          } else {
            assert Expanded(b, k) == b;
          }
        }
      }
      if !NeverChanges(f, b, n) {
        if !SameSign(f, b) {
          assert Expanded(b, 0) == b;
          assert !SameSign(f, Expanded(b, 0));
        } else {
          assert !NeverChanges(f, Expand(b), n - 1);
          var j :| 0 <= j <= n - 1 && !SameSign(f, Expanded(Expand(b), j));
          assert Expanded(b, j + 1) == Expanded(Expand(b), j);
          assert !SameSign(f, Expanded(b, j + 1));
        }
      }
    }
  }

  /** The expansion loop resumed at counter `iter` with bracket `b`: expand while the
      counter is at most `MaxIterations` and no sign change is seen; throw once the
      counter has passed `MaxIterations`. */
  function ExpandFrom(f: real -> real, b: Bracket, iter: nat): (r: Result<Bracket, BisectionError>)
    requires iter <= MaxIterations + 1
    ensures r.Failure? <==> NeverChanges(f, b, MaxIterations - iter)
    ensures r.Failure? ==> r.error == InvalidInitialConditions
    ensures r.Success? ==> !SameSign(f, r.value)
    ensures r.Success? ==> r.value.low + r.value.high == b.low + b.high
    decreases MaxIterations + 1 - iter
  {
    if iter <= MaxIterations && SameSign(f, b) then
      ExpandFrom(f, Expand(b), iter + 1)
    else if iter > MaxIterations then
      Failure(InvalidInitialConditions)
    else
      Success(b)
  }

  /** The bracket the expansion loop hands to bisection is the starting bracket expanded
      a number of times that stays within the loop's budget. */
  lemma {:induction false} ExpandFromReached(f: real -> real, b: Bracket, iter: nat)
    requires iter <= MaxIterations + 1
    ensures ExpandFrom(f, b, iter).Success? ==>
              exists k :: 0 <= k <= MaxIterations - iter && ExpandFrom(f, b, iter).value == Expanded(b, k)
    decreases MaxIterations + 1 - iter
  {
    if iter <= MaxIterations && SameSign(f, b) {
      ExpandFromReached(f, Expand(b), iter + 1);
      if ExpandFrom(f, b, iter).Success? {
        var j :| 0 <= j <= MaxIterations - (iter + 1) && ExpandFrom(f, Expand(b), iter + 1).value == Expanded(Expand(b), j);
        assert Expanded(b, j + 1) == Expanded(Expand(b), j);
      }
    } else if iter <= MaxIterations {
      assert ExpandFrom(f, b, iter).value == Expanded(b, 0);
    }
  }

  /** The midpoint of a bracket. */
  function Middle(b: Bracket): real {
    (b.low + b.high) / 2.0
  }

  /** One bisection step, once the midpoint is known not to be a root within tolerance:
      keep the half whose ends change sign, or fail when neither does. */
  function Narrow(f: real -> real, b: Bracket): (r: Result<Bracket, BisectionError>)
    ensures r.Success? ==> Width(r.value) == Width(b) / 2.0
    ensures r.Success? ==> Straddles(f, r.value)
    ensures r.Success? ==> r.value.low == Middle(b) || r.value.high == Middle(b)
    ensures r.Failure? <==> f(b.low) * f(Middle(b)) >= 0.0 && f(b.high) * f(Middle(b)) >= 0.0
    ensures r.Failure? ==> r.error == InvalidOperation
  {
    var x := Middle(b);
    if f(b.low) * f(x) < 0.0 then Success(Bracket(b.low, x))
    else if f(b.high) * f(x) < 0.0 then Success(Bracket(x, b.high))
    else Failure(InvalidOperation)
  }

  /** A sign change of `f` across a bracket of width at most `width` that has `x` as one
      of its ends. */
  ghost predicate SignChangeNear(f: real -> real, x: real, width: real) {
    exists b :: Straddles(f, b) && (b.low == x || b.high == x) && Abs(Width(b)) <= width
  }

  /** The bisection do-while resumed after `iter` steps with bracket `b`. It returns as
      soon as a midpoint is within `tol` of a root, throws when neither half of a bracket
      changes sign, and otherwise stops once the bracket is `2 tol` wide or the budget
      of steps is spent; only the latter is reported as failure to converge. */
  function BisectFrom(f: real -> real, b: Bracket, tol: real, iter: nat): (r: Result<Root, BisectionError>)
    requires iter < MaxIterations
    ensures Abs(f(Middle(b))) <= tol ==> r == Success(Root(true, Middle(b)))
    ensures r.Failure? ==> r.error == InvalidOperation
    ensures r.Success? && !r.value.found ==> Abs(f(r.value.x)) > tol
    decreases MaxIterations - iter
  {
    var x := Middle(b);
    if Abs(f(x)) <= tol then
      Success(Root(true, x))
    else
      match Narrow(f, b)
      case Failure(e) => Failure(e)
      case Success(nb) =>
        if iter + 1 < MaxIterations && Abs(Width(nb)) > 2.0 * tol then
          BisectFrom(f, nb, tol, iter + 1)
        else
          Success(Root(iter + 1 < MaxIterations, x))
  }

  /** A point reported as a root by the bisection loop is within `tol` of zero, or else an
      end of a sign-changing bracket no wider than `2 tol`. */
  lemma {:induction false} BisectFromBrackets(f: real -> real, b: Bracket, tol: real, iter: nat)
    requires iter < MaxIterations
    ensures var r := BisectFrom(f, b, tol, iter);
            r.Success? && r.value.found && Abs(f(r.value.x)) > tol ==> SignChangeNear(f, r.value.x, 2.0 * tol)
    decreases MaxIterations - iter
  {
    var x := Middle(b);
    if Abs(f(x)) > tol && Narrow(f, b).Success? {
      var nb := Narrow(f, b).value;
      if iter + 1 < MaxIterations && Abs(Width(nb)) > 2.0 * tol {
        BisectFromBrackets(f, nb, tol, iter + 1);
      } else if iter + 1 < MaxIterations {
        assert Straddles(f, nb) && (nb.low == x || nb.high == x) && Abs(Width(nb)) <= 2.0 * tol;
      }
    }
  }

  /** The bracket after `n` bisection steps, or the exception of the first step at which
      neither half changes sign. */
  function Narrowed(f: real -> real, b: Bracket, n: nat): Result<Bracket, BisectionError>
    decreases n
  {
    if n == 0 then Success(b)
    else
      match Narrow(f, b)
      case Failure(e) => Failure(e)
      case Success(nb) => Narrowed(f, nb, n - 1)
  }

  /** Each of `steps` bisection steps from `b` misses a root by more than `tol` at its
      midpoint and finds a half that changes sign, and each but the last leaves a bracket
      wider than `2 tol`: the loop runs all its steps without returning early. */
  predicate Exhausted(f: real -> real, b: Bracket, tol: real, steps: nat) {
    forall j: nat :: j < steps ==> StepPasses(f, b, tol, steps, j)
  }

  /** Step `j` of `steps` from `b` neither returns nor throws, and does not end the loop
      early. */
  predicate StepPasses(f: real -> real, b: Bracket, tol: real, steps: nat, j: nat) {
    && Narrowed(f, b, j).Success?
    && Abs(f(Middle(Narrowed(f, b, j).value))) > tol
    && Narrowed(f, b, j + 1).Success?
    && (j + 1 < steps ==> Abs(Width(Narrowed(f, b, j + 1).value)) > 2.0 * tol)
  }

  /** Exhausting `n + 1` steps from `b` is passing the first step into `nb` and exhausting
      the other `n` from there. */
  lemma ExhaustedStep(f: real -> real, b: Bracket, nb: Bracket, tol: real, n: nat)
    requires Narrow(f, b) == Success(nb) && Abs(f(Middle(b))) > tol
    ensures Exhausted(f, b, tol, n + 1) <==> (n == 0 || Abs(Width(nb)) > 2.0 * tol) && Exhausted(f, nb, tol, n)
  {
    assert Narrowed(f, b, 1) == Narrowed(f, nb, 0) == Success(nb);
    if Exhausted(f, b, tol, n + 1) {
      assert StepPasses(f, b, tol, n + 1, 0);
      forall j: nat | j < n
        ensures StepPasses(f, nb, tol, n, j)
      {
        assert StepPasses(f, b, tol, n + 1, j + 1);
        assert Narrowed(f, b, j + 1) == Narrowed(f, nb, j);
        assert Narrowed(f, b, j + 2) == Narrowed(f, nb, j + 1);
      }
    }
    if (n == 0 || Abs(Width(nb)) > 2.0 * tol) && Exhausted(f, nb, tol, n) {
      var steps := n + 1;
      forall j: nat | j < steps
        ensures StepPasses(f, b, tol, steps, j)
      {
        if j > 0 {
          assert StepPasses(f, nb, tol, n, j - 1);
          assert Narrowed(f, b, j) == Narrowed(f, nb, j - 1);
          assert Narrowed(f, b, j + 1) == Narrowed(f, nb, j);
        }
      }
    }
  }

  /** The bisection loop resumed after `iter` steps reports a point that is not a root
      (`found` false) exactly when it exhausts all its remaining steps. */
  lemma {:induction false} BisectFromExhausted(f: real -> real, b: Bracket, tol: real, iter: nat)
    requires iter < MaxIterations
    ensures var r := BisectFrom(f, b, tol, iter);
            r.Success? && !r.value.found <==> Exhausted(f, b, tol, MaxIterations - iter)
    decreases MaxIterations - iter
  {
    var n: nat := MaxIterations - iter - 1;
    if Abs(f(Middle(b))) <= tol || Narrow(f, b).Failure? {
      assert !StepPasses(f, b, tol, MaxIterations - iter, 0);
    } else {
      var nb := Narrow(f, b).value;
      ExhaustedStep(f, b, nb, tol, n);
      if iter + 1 < MaxIterations && Abs(Width(nb)) > 2.0 * tol {
        BisectFromExhausted(f, nb, tol, iter + 1);
      }
    }
  }

  /** The reference outcome of `BisectionRoot(f, xLow, xHigh, tol)`. */
  function Bisection(f: real -> real, xLow: real, xHigh: real, tol: real): (r: Result<Root, BisectionError>)
    ensures Abs(f(xLow)) <= tol ==> r == Success(Root(true, xLow))
    ensures Abs(f(xLow)) > tol && Abs(f(xHigh)) <= tol ==> r == Success(Root(true, xHigh))
    ensures r.Success? && !r.value.found ==> Abs(f(r.value.x)) > tol
  {
    if Abs(f(xLow)) <= tol then Success(Root(true, xLow))
    else if Abs(f(xHigh)) <= tol then Success(Root(true, xHigh))
    else
      match ExpandFrom(f, Bracket(xLow, xHigh), 0)
      case Failure(e) => Failure(e)
      case Success(b) => BisectFrom(f, b, tol, 0)
  }

  /** A root reported by `BisectionRoot` is within `tol` of zero, or an end of a
      sign-changing bracket no wider than `2 tol`. */
  lemma BisectionReportsRoot(f: real -> real, xLow: real, xHigh: real, tol: real)
    ensures var r := Bisection(f, xLow, xHigh, tol);
            r.Success? && r.value.found && Abs(f(r.value.x)) > tol ==> SignChangeNear(f, r.value.x, 2.0 * tol)
  {
    if Abs(f(xLow)) > tol && Abs(f(xHigh)) > tol {
      var e := ExpandFrom(f, Bracket(xLow, xHigh), 0);
      if e.Success? {
        BisectFromBrackets(f, e.value, tol, 0);
      }
    }
  }

  /** `BisectionRoot` returns false exactly when neither end is a root within `tol`,
      the expansion finds a sign change, and the bisection runs all `MaxIterations`
      steps without a midpoint within `tol` of a root. */
  lemma BisectionNotFound(f: real -> real, xLow: real, xHigh: real, tol: real)
    ensures var r, e := Bisection(f, xLow, xHigh, tol), ExpandFrom(f, Bracket(xLow, xHigh), 0);
            r.Success? && !r.value.found
            <==> Abs(f(xLow)) > tol && Abs(f(xHigh)) > tol && e.Success? && Exhausted(f, e.value, tol, MaxIterations)
  {
    var e := ExpandFrom(f, Bracket(xLow, xHigh), 0);
    if Abs(f(xLow)) > tol && Abs(f(xHigh)) > tol && e.Success? {
      BisectFromExhausted(f, e.value, tol, 0);
    }
  }

  /** The expansion loop of `BisectionRoot`: widen `[xLow, xHigh]` about its midpoint
      until its ends show no common sign, giving up after `MaxIterations` expansions. */
  method ExpandBracket(f: real -> real, xLow0: real, xHigh0: real) returns (r: Result<Bracket, BisectionError>)
    ensures r == ExpandFrom(f, Bracket(xLow0, xHigh0), 0)
  {
    var xLow, xHigh := xLow0, xHigh0;
    var fLow, fHigh := f(xLow), f(xHigh);
    var iter := 0;
    while iter <= MaxIterations && fLow * fHigh > 0.0
      invariant iter <= MaxIterations + 1
      invariant fLow == f(xLow) && fHigh == f(xHigh)
      invariant ExpandFrom(f, Bracket(xLow0, xHigh0), 0) == ExpandFrom(f, Bracket(xLow, xHigh), iter)
      decreases MaxIterations + 1 - iter
    {
      iter := iter + 1;
      xLow, xHigh := (3.0 * xLow - xHigh) / 2.0, (3.0 * xHigh - xLow) / 2.0;
      fLow, fHigh := f(xLow), f(xHigh);
    }
    if iter > MaxIterations {
      return Failure(InvalidInitialConditions);
    }
    return Success(Bracket(xLow, xHigh));
  }

  /** The bisection loop of `BisectionRoot` on the bracket the expansion produced. */
  method BisectBracket(f: real -> real, b0: Bracket, tol: real) returns (r: Result<Root, BisectionError>)
    ensures r == BisectFrom(f, b0, tol, 0)
  {
    var b := b0;
    var iter := 0;
    while true
      invariant iter < MaxIterations
      invariant BisectFrom(f, b0, tol, 0) == BisectFrom(f, b, tol, iter)
      decreases MaxIterations - iter
    {
      var x := Middle(b);
      if Abs(f(x)) <= tol {
        return Success(Root(true, x));
      }
      var narrowed := Narrow(f, b);
      if narrowed.Failure? {
        return Failure(InvalidOperation);
      }
      b := narrowed.value;
      iter := iter + 1;
      if !(iter < MaxIterations && Abs(Width(b)) > 2.0 * tol) {
        return Success(Root(iter < MaxIterations, x));
      }
    }
  }

  /** `NumericalMethods.BisectionRoot`. The exceptions it throws are its `Failure` results. */
  method BisectionRoot(f: real -> real, xLow: real, xHigh: real, tol: real) returns (r: Result<Root, BisectionError>)
    ensures r == Bisection(f, xLow, xHigh, tol)
  {
    var fLow, fHigh := f(xLow), f(xHigh);
    if Abs(fLow) <= tol {
      return Success(Root(true, xLow));
    }
    if Abs(fHigh) <= tol {
      return Success(Root(true, xHigh));
    }
    var expanded := ExpandBracket(f, xLow, xHigh);
    match expanded {
      case Failure(e) => r := Failure(e);
      case Success(b) => r := BisectBracket(f, b, tol);
    }
  }

  /** `BisectionRoot` throws `ArgumentException` exactly when neither end is a root within
      `tol` and none of the starting bracket and its first `MaxIterations` expansions
      shows a sign change. */
  lemma BisectionThrowsArgumentException(f: real -> real, xLow: real, xHigh: real, tol: real)
    ensures Bisection(f, xLow, xHigh, tol) == Failure(InvalidInitialConditions) <==>
              Abs(f(xLow)) > tol && Abs(f(xHigh)) > tol &&
              forall k :: 0 <= k <= MaxIterations ==> SameSign(f, Expanded(Bracket(xLow, xHigh), k))
  {
    NeverChangesMeansAllSameSign(f, Bracket(xLow, xHigh), MaxIterations);
  }

  /** When the starting bracket already shows a sign change, bisection starts from it
      without expanding. */
  lemma BisectionWithoutExpansion(f: real -> real, xLow: real, xHigh: real, tol: real)
    requires Abs(f(xLow)) > tol && Abs(f(xHigh)) > tol
    requires Straddles(f, Bracket(xLow, xHigh))
    ensures Bisection(f, xLow, xHigh, tol) == BisectFrom(f, Bracket(xLow, xHigh), tol, 0)
  {
  }
}
