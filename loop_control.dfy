/**
  Loop control of the AMG-DD solve and of one AMG-DD cycle.  The numerical
  work inside the loops (the residual communication, the FAC cycles, the
  fine-grid residual) is not modelled: the residual norm reached after k
  cycles is an oracle function `residNorm(k)`, and the status returned by a
  cycle an oracle `cycleError(k)`.  Divisions of norms follow IEEE floating
  point where the divisor is zero; elsewhere they are exact.
 */
module LoopControl {

  /** The value of an IEEE division of two finite reals, without rounding. */
  datatype Quotient = Finite(value: real) | PosInf | NegInf | NaN

  /** x / y: a zero divisor gives an infinity of the numerator's sign, or NaN for 0 / 0. */
  function Divide(x: real, y: real): (q: Quotient)
    ensures q.Finite? <==> y != 0.0
    ensures q.Finite? ==> q.value * y == x
    ensures q == NaN <==> x == 0.0 && y == 0.0
  {
    if y != 0.0 then Finite(x / y)
    else if x > 0.0 then PosInf
    else if x < 0.0 then NegInf
    else NaN
  }

  /** q >= t; every comparison with NaN is false. */
  predicate AtLeast(q: Quotient, t: real)
  {
    match q
    case Finite(v) => v >= t
    case PosInf => true
    case NegInf => false
    case NaN => false
  }

  /** q <= t; every comparison with NaN is false. */
  predicate AtMost(q: Quotient, t: real)
  {
    match q
    case Finite(v) => v <= t
    case PosInf => false
    case NegInf => true
    case NaN => false
  }

  /**
    When a loop goes on after k cycles (the part of its condition other
    than the maximum count).
      Solve:      the relative residual is at least tol, or fewer than
                  minIter cycles were done;
      Fixed:      always (a fixed number of FAC cycles);
      Tolerance:  the FAC relative residual is at least facTol, or fewer
                  than minIter cycles were done;
      ConvFactor: the convergence factor is at most t or at least 1, or
                  fewer than minIter cycles were done.
   */
  datatype LoopRule =
    | Solve(tol: real, minIter: int, convergeType: int, rhsNorm: real, residNorm: nat -> real)
    | Fixed
    | Tolerance(facTol: real, minIter: int, residNorm: nat -> real)
    | ConvFactor(t: real, minIter: int, residNorm: nat -> real)

  /**
    The relative residual of the solve after k cycles: 1 when no tolerance
    is set; otherwise the residual norm over the right-hand side norm (the
    norm itself when that is zero), or over the initial residual norm
    (1 before the first cycle) when convergeType is not 0.
   */
  function SolveRelativeResidual(tol: real, convergeType: int, rhsNorm: real, residNorm: nat -> real, k: nat)
    : (q: Quotient)
    ensures tol <= 0.0 || (convergeType != 0 && k == 0) ==> q == Finite(1.0)
    ensures tol > 0.0 && convergeType == 0 ==>
              q.Finite? && q.value * (if rhsNorm != 0.0 then rhsNorm else 1.0) == residNorm(k)
    ensures tol > 0.0 && convergeType != 0 && k > 0 ==>
              (q.Finite? <==> residNorm(0) != 0.0) && (q.Finite? ==> q.value * residNorm(0) == residNorm(k))
  {
    if tol <= 0.0 then Finite(1.0)
    else if convergeType == 0 then
      (if rhsNorm != 0.0 then Divide(residNorm(k), rhsNorm) else Finite(residNorm(k)))
    else if k == 0 then Finite(1.0)
    else Divide(residNorm(k), residNorm(0))
  }

  /** The FAC relative residual after k cycles: 1 before the first, then the norm over the initial norm. */
  function FacRelativeResidual(residNorm: nat -> real, k: nat): (q: Quotient)
    ensures k == 0 ==> q == Finite(1.0)
    ensures k > 0 ==> (q.Finite? <==> residNorm(0) != 0.0) && (q.Finite? ==> q.value * residNorm(0) == residNorm(k))
  {
    if k == 0 then Finite(1.0) else Divide(residNorm(k), residNorm(0))
  }

  /** The convergence factor after k FAC cycles: 0 before the first, then the last cycle's norm reduction. */
  function ConvergenceFactor(residNorm: nat -> real, k: nat): (q: Quotient)
    ensures k == 0 ==> q == Finite(0.0)
    ensures k > 0 ==>
              (q.Finite? <==> residNorm(k - 1) != 0.0) && (q.Finite? ==> q.value * residNorm(k - 1) == residNorm(k))
  {
    if k == 0 then Finite(0.0) else Divide(residNorm(k), residNorm(k - 1))
  }

  predicate Continues(rule: LoopRule, k: nat)
  {
    match rule
    case Solve(tol, minIter, convergeType, rhsNorm, residNorm) =>
      AtLeast(SolveRelativeResidual(tol, convergeType, rhsNorm, residNorm, k), tol) || k < minIter
    case Fixed => true
    case Tolerance(facTol, minIter, residNorm) =>
      AtLeast(FacRelativeResidual(residNorm, k), facTol) || k < minIter
    case ConvFactor(t, minIter, residNorm) =>
      var c := ConvergenceFactor(residNorm, k);
      AtMost(c, t) || AtLeast(c, 1.0) || k < minIter
  }

  /** Comparing x / y with t is comparing x with t * y; a zero divisor compares its infinity, and 0 / 0 fails. */
  lemma AtLeastDivide(x: real, y: real, t: real)
    ensures AtLeast(Divide(x, y), t) <==> if y > 0.0 then x >= t * y else if y < 0.0 then x <= t * y else x > 0.0
  {
    if y != 0.0 {
      var v := x / y;
      assert v * y == x;
      if y > 0.0 {
        assert v >= t <==> v * y >= t * y;
      } else {
        assert v >= t <==> v * y <= t * y;
      }
    }
  }

  /** As AtLeastDivide, for the comparison x / y <= t. */
  lemma AtMostDivide(x: real, y: real, t: real)
    ensures AtMost(Divide(x, y), t) <==> if y > 0.0 then x <= t * y else if y < 0.0 then x >= t * y else x < 0.0
  {
    if y != 0.0 {
      var v := x / y;
      assert v * y == x;
      if y > 0.0 {
        assert v <= t <==> v * y <= t * y;
      } else {
        assert v <= t <==> v * y >= t * y;
      }
    }
  }

  /**
    The solve loop, with a tolerance set and k cycles done, goes on exactly
    while fewer than minIter cycles were done or the residual norm is at
    least tol times the reference norm: ||b|| (1 when ||b|| = 0) for
    convergeType 0, ||r_0|| otherwise (before the first cycle that ratio is
    1).  With ||r_0|| = 0 it goes on only while the norm is positive: the
    ratio is +infinity, and 0 / 0 is NaN.
   */
  lemma SolveContinuesInNorms(tol: real, minIter: int, convergeType: int, rhsNorm: real, residNorm: nat -> real, k: nat)
    requires tol > 0.0 && rhsNorm >= 0.0 && residNorm(0) >= 0.0
    ensures Continues(Solve(tol, minIter, convergeType, rhsNorm, residNorm), k) <==>
              k < minIter ||
              if convergeType == 0 then residNorm(k) >= tol * (if rhsNorm > 0.0 then rhsNorm else 1.0)
              else if k == 0 then 1.0 >= tol
              else if residNorm(0) > 0.0 then residNorm(k) >= tol * residNorm(0)
              else residNorm(k) > 0.0
  {
    if convergeType == 0 {
      if rhsNorm > 0.0 {
        AtLeastDivide(residNorm(k), rhsNorm, tol);
      }
    } else if k > 0 {
      AtLeastDivide(residNorm(k), residNorm(0), tol);
    }
  }

  /**
    The relative-residual FAC loop after k > 0 cycles goes on exactly while
    fewer than minIter cycles were done or ||r_k|| >= facTol * ||r_0||
    (||r_k|| > 0 when ||r_0|| = 0).
   */
  lemma ToleranceContinuesInNorms(facTol: real, minIter: int, residNorm: nat -> real, k: nat)
    requires k > 0 && residNorm(0) >= 0.0
    ensures Continues(Tolerance(facTol, minIter, residNorm), k) <==>
              k < minIter || (if residNorm(0) > 0.0 then residNorm(k) >= facTol * residNorm(0) else residNorm(k) > 0.0)
  {
    AtLeastDivide(residNorm(k), residNorm(0), facTol);
  }

  /**
    The convergence-factor FAC loop after k > 0 cycles, with a positive
    previous norm, goes on exactly while fewer than minIter cycles were done,
    or the norm fell to at most t times the previous one, or did not fall.
   */
  lemma ConvFactorContinuesInNorms(t: real, minIter: int, residNorm: nat -> real, k: nat)
    requires k > 0 && residNorm(k - 1) > 0.0
    ensures Continues(ConvFactor(t, minIter, residNorm), k) <==>
              k < minIter || residNorm(k) <= t * residNorm(k - 1) || residNorm(k) >= residNorm(k - 1)
  {
    AtMostDivide(residNorm(k), residNorm(k - 1), t);
    AtLeastDivide(residNorm(k), residNorm(k - 1), 1.0);
  }

  /** The number of cycles a loop with this rule and this maximum has done when it stops, counting from k. */
  function Iterations(rule: LoopRule, maxIter: int, k: nat): (n: nat)
    ensures k <= n
    decreases if k < maxIter then maxIter - k else 0
  {
    if k < maxIter && Continues(rule, k) then Iterations(rule, maxIter, k + 1) else k
  }

  /**
    A loop stops at the first count where its rule says stop or the
    maximum is reached; every count before that went on, and it never
    passes the maximum.
   */
  lemma {:induction false} IterationsStop(rule: LoopRule, maxIter: int, k: nat)
    ensures var n := Iterations(rule, maxIter, k);
            (n == k || n <= maxIter) && (maxIter <= n || !Continues(rule, n))
    ensures forall j :: k <= j < Iterations(rule, maxIter, k) ==> j < maxIter && Continues(rule, j)
    decreases if k < maxIter then maxIter - k else 0
  {
    if k < maxIter && Continues(rule, k) {
      IterationsStop(rule, maxIter, k + 1);
    }
  }

  /** A loop whose rule goes on for every count below m does at least min(m, maxIter) cycles. */
  lemma {:induction false} IterationsAtLeast(rule: LoopRule, maxIter: int, k: nat, m: int)
    requires forall j: nat :: k <= j < m ==> Continues(rule, j)
    ensures Iterations(rule, maxIter, k) >= m || Iterations(rule, maxIter, k) >= maxIter
    decreases if k < maxIter then maxIter - k else 0
  {
    if k < maxIter && Continues(rule, k) {
      IterationsAtLeast(rule, maxIter, k + 1, m);
    }
  }

  /** The minimum count is always reached, unless the maximum is smaller; the maximum is never passed. */
  lemma IterationsBounds(rule: LoopRule, maxIter: int)
    requires rule.Solve? || rule.Tolerance? || rule.ConvFactor?
    ensures Iterations(rule, maxIter, 0) >= rule.minIter || Iterations(rule, maxIter, 0) >= maxIter
    ensures Iterations(rule, maxIter, 0) == 0 || Iterations(rule, maxIter, 0) <= maxIter
  {
    IterationsAtLeast(rule, maxIter, 0, rule.minIter);
    IterationsStop(rule, maxIter, 0);
  }

  /** A rule that always goes on runs exactly max(0, maxIter) cycles. */
  lemma AlwaysContinuing(rule: LoopRule, maxIter: int)
    requires forall j: nat :: Continues(rule, j)
    ensures Iterations(rule, maxIter, 0) == if maxIter > 0 then maxIter else 0
  {
    IterationsAtLeast(rule, maxIter, 0, maxIter);
    IterationsStop(rule, maxIter, 0);
  }

  /** Some of the first n cycles returned a nonzero status. */
  function AnyCycleFailed(cycleError: nat -> int, n: nat): (failed: bool)
    ensures failed <==> exists j :: 0 <= j < n && cycleError(j) != 0
  {
    if n == 0 then false
    else AnyCycleFailed(cycleError, n - 1) || cycleError(n - 1) != 0
  }

  /**
    The solve loop: cycles run while the relative residual is at least tol
    or fewer than minIter cycles were done, and fewer than maxIter were
    done.  The result is 1 when some cycle returned a nonzero status; the
    iteration count and the stored relative residual norm are written only
    by cycles that ran (the norm only when tol is positive).
   */
  method BoomerAMGDDSolve(tol: real, minIter: int, maxIter: int, convergeType: int, rhsNorm: real,
                          residNorm: nat -> real, cycleError: nat -> int,
                          numIterations0: int, relativeResidualNorm0: Quotient)
    returns (testFailed: int, cycleCount: nat, numIterations: int, relativeResidualNorm: Quotient)
    ensures cycleCount == Iterations(Solve(tol, minIter, convergeType, rhsNorm, residNorm), maxIter, 0)
    ensures testFailed == if AnyCycleFailed(cycleError, cycleCount) then 1 else 0
    ensures numIterations == if cycleCount > 0 then cycleCount else numIterations0
    ensures relativeResidualNorm
            == if tol > 0.0 && cycleCount > 0 then SolveRelativeResidual(tol, convergeType, rhsNorm, residNorm, cycleCount)
               else relativeResidualNorm0
  {
    ghost var rule := Solve(tol, minIter, convergeType, rhsNorm, residNorm);
    testFailed := 0;
    cycleCount := 0;
    numIterations := numIterations0;
    relativeResidualNorm := relativeResidualNorm0;
    var relativeResid: Quotient;
    if tol > 0.0 {
      var residNormInit := residNorm(0);
      if convergeType == 0 {
        if rhsNorm != 0.0 {
          relativeResid := Divide(residNormInit, rhsNorm);
        } else {
          relativeResid := Finite(residNormInit);
        }
      } else {
        relativeResid := Finite(1.0);
      }
    } else {
      relativeResid := Finite(1.0);
    }
    while (AtLeast(relativeResid, tol) || cycleCount < minIter) && cycleCount < maxIter
      invariant relativeResid == SolveRelativeResidual(tol, convergeType, rhsNorm, residNorm, cycleCount)
      invariant Iterations(rule, maxIter, cycleCount) == Iterations(rule, maxIter, 0)
      invariant testFailed == if AnyCycleFailed(cycleError, cycleCount) then 1 else 0
      invariant numIterations == if cycleCount > 0 then cycleCount else numIterations0
      invariant relativeResidualNorm == if tol > 0.0 && cycleCount > 0 then relativeResid else relativeResidualNorm0
      decreases maxIter - cycleCount
    {
      var errorCode := cycleError(cycleCount);
      if errorCode != 0 {
        testFailed := 1;
      }
      if tol > 0.0 {
        var r := residNorm(cycleCount + 1);
        if convergeType == 0 {
          if rhsNorm != 0.0 {
            relativeResid := Divide(r, rhsNorm);
          } else {
            relativeResid := Finite(r);
          }
        } else {
          relativeResid := Divide(r, residNorm(0));
        }
        relativeResidualNorm := relativeResid;
      }
      cycleCount := cycleCount + 1;
      numIterations := cycleCount;
    }
  }

  /** Without a positive tolerance the relative residual stays 1, so the solve runs max(0, maxIter) cycles. */
  lemma SolveWithoutTolerance(tol: real, minIter: int, maxIter: int, convergeType: int, rhsNorm: real,
                              residNorm: nat -> real)
    requires tol <= 0.0
    ensures Iterations(Solve(tol, minIter, convergeType, rhsNorm, residNorm), maxIter, 0)
            == if maxIter > 0 then maxIter else 0
  {
    AlwaysContinuing(Solve(tol, minIter, convergeType, rhsNorm, residNorm), maxIter);
  }

  /**
    A solve that stops before maxIter cycles has done at least minIter
    cycles and its relative residual is not at least tol (it is below tol,
    or NaN).
   */
  lemma SolveStopsConverged(tol: real, minIter: int, maxIter: int, convergeType: int, rhsNorm: real,
                            residNorm: nat -> real)
    ensures var n := Iterations(Solve(tol, minIter, convergeType, rhsNorm, residNorm), maxIter, 0);
            n < maxIter ==>
              n >= minIter && !AtLeast(SolveRelativeResidual(tol, convergeType, rhsNorm, residNorm, n), tol)
  {
    IterationsStop(Solve(tol, minIter, convergeType, rhsNorm, residNorm), maxIter, 0);
  }

  /** The continuation rule of the FAC loop chosen by the sign of facTol. */
  function FacRule(facTol: real, minFacIter: int, residNorm: nat -> real): (r: LoopRule)
    ensures r.Fixed? <==> facTol == 0.0
    ensures r.Tolerance? <==> facTol > 0.0
    ensures r.ConvFactor? <==> facTol < 0.0
    ensures r.Tolerance? ==> r.facTol == facTol && r.minIter == minFacIter
    ensures r.ConvFactor? ==> r.t > 0.0 && r.t + facTol == 0.0 && r.minIter == minFacIter
  {
    if facTol == 0.0 then Fixed
    else if facTol > 0.0 then Tolerance(facTol, minFacIter, residNorm)
    else ConvFactor(-facTol, minFacIter, residNorm)
  }

  /**
    The FAC loop of one AMG-DD cycle.  facTol = 0 runs maxFacIter cycles;
    facTol > 0 runs while the relative residual is at least facTol;
    facTol < 0 runs while the convergence factor is at most -facTol or at
    least 1 (both with minFacIter and maxFacIter as in the solve).  The
    result is the status of the residual communication; the FAC iteration
    count is written only by cycles that ran.
   */
  method BoomerAMGDDCycle(residualCommunicationStatus: int, facTol: real, minFacIter: int, maxFacIter: int,
                          residNorm: nat -> real, numFacIterations0: int)
    returns (testFailed: int, cycleCount: nat, numFacIterations: int)
    ensures testFailed == residualCommunicationStatus
    ensures cycleCount == Iterations(FacRule(facTol, minFacIter, residNorm), maxFacIter, 0)
    ensures numFacIterations == if cycleCount > 0 then cycleCount else numFacIterations0
  {
    ghost var rule := FacRule(facTol, minFacIter, residNorm);
    testFailed := residualCommunicationStatus;
    cycleCount := 0;
    numFacIterations := numFacIterations0;
    var residNrmInit := if facTol != 0.0 then residNorm(0) else 1.0;
    if facTol == 0.0 {
      while cycleCount < maxFacIter
        invariant Iterations(rule, maxFacIter, cycleCount) == Iterations(rule, maxFacIter, 0)
        invariant numFacIterations == if cycleCount > 0 then cycleCount else numFacIterations0
        decreases maxFacIter - cycleCount
      {
        cycleCount := cycleCount + 1;
        numFacIterations := cycleCount;
      }
    } else if facTol > 0.0 {
      var relativeResid := Finite(1.0);
      while (AtLeast(relativeResid, facTol) || cycleCount < minFacIter) && cycleCount < maxFacIter
        invariant relativeResid == FacRelativeResidual(residNorm, cycleCount)
        invariant Iterations(rule, maxFacIter, cycleCount) == Iterations(rule, maxFacIter, 0)
        invariant numFacIterations == if cycleCount > 0 then cycleCount else numFacIterations0
        decreases maxFacIter - cycleCount
      {
        relativeResid := Divide(residNorm(cycleCount + 1), residNrmInit);
        cycleCount := cycleCount + 1;
        numFacIterations := cycleCount;
      }
    } else {
      var t := -facTol;
      var convFact := Finite(0.0);
      while (AtMost(convFact, t) || AtLeast(convFact, 1.0) || cycleCount < minFacIter) && cycleCount < maxFacIter
        invariant convFact == ConvergenceFactor(residNorm, cycleCount)
        invariant residNrmInit == residNorm(cycleCount)
        invariant Iterations(rule, maxFacIter, cycleCount) == Iterations(rule, maxFacIter, 0)
        invariant numFacIterations == if cycleCount > 0 then cycleCount else numFacIterations0
        decreases maxFacIter - cycleCount
      {
        var r := residNorm(cycleCount + 1);
        convFact := Divide(r, residNrmInit);
        residNrmInit := r;
        cycleCount := cycleCount + 1;
        numFacIterations := cycleCount;
      }
    }
  }

  /** With facTol = 0 the cycle runs exactly max(0, maxFacIter) FAC cycles. */
  lemma FixedFacCycles(minFacIter: int, maxFacIter: int, residNorm: nat -> real)
    ensures Iterations(FacRule(0.0, minFacIter, residNorm), maxFacIter, 0)
            == if maxFacIter > 0 then maxFacIter else 0
  {
    AlwaysContinuing(Fixed, maxFacIter);
  }

  /**
    With facTol > 0, a FAC loop that stops before maxFacIter cycles has
    done at least minFacIter cycles and its relative residual is not at
    least facTol.
   */
  lemma ToleranceStopsConverged(facTol: real, minFacIter: int, maxFacIter: int, residNorm: nat -> real)
    requires facTol > 0.0
    ensures var n := Iterations(FacRule(facTol, minFacIter, residNorm), maxFacIter, 0);
            n < maxFacIter ==> n >= minFacIter && !AtLeast(FacRelativeResidual(residNorm, n), facTol)
  {
    IterationsStop(FacRule(facTol, minFacIter, residNorm), maxFacIter, 0);
  }

  /**
    With facTol < 0, a FAC loop that stops before maxFacIter cycles has done
    at least minFacIter cycles and its convergence factor is neither at
    most -facTol nor at least 1: it lies strictly between them, or is NaN.
    The starting factor 0 lets at least one cycle run when maxFacIter > 0.
   */
  lemma ConvFactorStops(facTol: real, minFacIter: int, maxFacIter: int, residNorm: nat -> real)
    requires facTol < 0.0
    ensures var n := Iterations(FacRule(facTol, minFacIter, residNorm), maxFacIter, 0);
            n < maxFacIter ==>
              && n >= minFacIter
              && !AtMost(ConvergenceFactor(residNorm, n), -facTol)
              && !AtLeast(ConvergenceFactor(residNorm, n), 1.0)
    ensures maxFacIter > 0 ==> Iterations(FacRule(facTol, minFacIter, residNorm), maxFacIter, 0) >= 1
  {
    IterationsStop(FacRule(facTol, minFacIter, residNorm), maxFacIter, 0);
  }
}
