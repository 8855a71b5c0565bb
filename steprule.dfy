/**
 The fraction-to-boundary step rule shared by both solvers
 (asg01/main.cpp:101-109 and asg02/main.cpp:101-109): starting from
 alpha = 1, every index i < n offers the candidate -(x_i / dy_i) * tau, and a
 candidate replaces alpha when it is positive and strictly smaller than alpha.
 Entries of the direction at index n or beyond are never looked at.

 A zero direction entry is skipped. In the C++ loop it yields -(x_i/0) * tau,
 which in IEEE arithmetic is -inf, NaN or +inf; none of these passes the test
 `newAlpha > 0 && alpha > newAlpha`, so skipping it is the same decision.
 */
module StepRule {
  import opened Linalg

  /** The damping factor `tau` of both C++ solvers. */
  const Tau: real := 0.995

  /** `newAlpha` for one index. */
  function Candidate(xi: real, di: real, tau: real): real
    requires di != 0.0
  {
    -(xi / di) * tau
  }

  /** Index i offers a positive candidate (the first half of the C++ test `newAlpha > 0 && alpha > newAlpha`). */
  predicate Admissible(x: Vector, dy: Vector, tau: real, i: nat)
    requires i < |x| <= |dy|
  {
    dy[i] != 0.0 && Candidate(x[i], dy[i], tau) > 0.0
  }

  /** alpha after the loop has examined the indices 0 .. k-1. */
  function StepAfter(x: Vector, dy: Vector, tau: real, k: nat): (alpha: real)
    requires k <= |x| <= |dy|
    ensures 0.0 < alpha <= 1.0
    decreases k
  {
    if k == 0 then 1.0
    else
      var a := StepAfter(x, dy, tau, k - 1);
      if Admissible(x, dy, tau, k - 1) && a > Candidate(x[k - 1], dy[k - 1], tau)
      then Candidate(x[k - 1], dy[k - 1], tau)
      else a
  }

  /** The step length chosen for the iterate x and the Newton direction dy. */
  function StepLength(x: Vector, dy: Vector, tau: real): (alpha: real)
    requires |x| <= |dy|
    ensures 0.0 < alpha <= 1.0
  {
    StepAfter(x, dy, tau, |x|)
  }

  /** The C++ step-length loop, proved to compute StepLength with tau = 0.995. */
  method FractionToBoundary(x: Vector, dy: Vector) returns (alpha: real)
    requires |x| <= |dy|
    ensures alpha == StepLength(x, dy, Tau)
    ensures 0.0 < alpha <= 1.0
  {
    var tau := Tau;
    alpha := 1.0;
    for i := 0 to |x|
      invariant alpha == StepAfter(x, dy, tau, i)
    {
      if dy[i] != 0.0 {
        var newAlpha := -(x[i] / dy[i]) * tau;
        if newAlpha > 0.0 && alpha > newAlpha {
          alpha := newAlpha;
        }
      }
    }
  }

  /** alpha is the minimum of 1 and every positive candidate met so far:
      it is no larger than any of them, and it is 1 or one of them. */
  lemma {:induction false} StepAfterIsMinimum(x: Vector, dy: Vector, tau: real, k: nat)
    requires k <= |x| <= |dy|
    ensures forall i :: 0 <= i < k && Admissible(x, dy, tau, i) ==>
              StepAfter(x, dy, tau, k) <= Candidate(x[i], dy[i], tau)
    ensures StepAfter(x, dy, tau, k) == 1.0 ||
            exists i :: 0 <= i < k && Admissible(x, dy, tau, i) &&
                        StepAfter(x, dy, tau, k) == Candidate(x[i], dy[i], tau)
  {
    if k > 0 {
      StepAfterIsMinimum(x, dy, tau, k - 1);
    }
  }

  /** For a strictly positive iterate and tau > 0, an index offers a positive
      candidate exactly when its direction entry is negative. */
  lemma AdmissibleIffDescent(x: Vector, dy: Vector, tau: real, i: nat)
    requires i < |x| <= |dy|
    requires Positive(x) && tau > 0.0
    ensures Admissible(x, dy, tau, i) <==> dy[i] < 0.0
  {
    if dy[i] < 0.0 {
      assert x[i] / dy[i] < 0.0;
    } else if dy[i] > 0.0 {
      assert x[i] / dy[i] > 0.0;
    }
  }

  /** The rule as a closed formula: for x > 0 and tau > 0,
      alpha == min(1, tau * min { -x_i / dy_i : dy_i < 0, i < n }). */
  lemma StepLengthIsFractionToBoundary(x: Vector, dy: Vector, tau: real)
    requires |x| <= |dy|
    requires Positive(x) && tau > 0.0
    ensures forall i :: 0 <= i < |x| && dy[i] < 0.0 ==>
              StepLength(x, dy, tau) <= tau * (-x[i] / dy[i])
    ensures StepLength(x, dy, tau) == 1.0 ||
            exists i :: 0 <= i < |x| && dy[i] < 0.0 &&
                        StepLength(x, dy, tau) == tau * (-x[i] / dy[i])
  {
    var alpha := StepLength(x, dy, tau);
    StepAfterIsMinimum(x, dy, tau, |x|);
    forall i | 0 <= i < |x|
      ensures Admissible(x, dy, tau, i) <==> dy[i] < 0.0
      ensures dy[i] != 0.0 ==> Candidate(x[i], dy[i], tau) == tau * (-x[i] / dy[i])
    {
      AdmissibleIffDescent(x, dy, tau, i);
    }
    if alpha != 1.0 {
      var i :| 0 <= i < |x| && Admissible(x, dy, tau, i) && alpha == Candidate(x[i], dy[i], tau);
      assert dy[i] < 0.0;
    }
  }

  /** A direction with no negative entry among the first n is taken in full. */
  lemma NoDescentGivesFullStep(x: Vector, dy: Vector, tau: real)
    requires |x| <= |dy|
    requires Positive(x) && tau > 0.0
    requires forall i :: 0 <= i < |x| ==> dy[i] >= 0.0
    ensures StepLength(x, dy, tau) == 1.0
  {
    StepLengthIsFractionToBoundary(x, dy, tau);
  }

  /** The full step is taken exactly when every negative entry's damped
      ratio -tau * x_i / dy_i is at least 1. */
  lemma FullStepIff(x: Vector, dy: Vector, tau: real)
    requires |x| <= |dy|
    requires Positive(x) && tau > 0.0
    ensures StepLength(x, dy, tau) == 1.0 <==>
            forall i :: 0 <= i < |x| && dy[i] < 0.0 ==> tau * (-x[i] / dy[i]) >= 1.0
  {
    StepLengthIsFractionToBoundary(x, dy, tau);
  }

  /** A negative direction entry does not by itself shorten the step: for
      x = [1] and dy = [-0.5] the only candidate is 1.99, so alpha stays 1. */
  lemma FullStepDespiteDescent()
    ensures StepLength([1.0], [-0.5], Tau) == 1.0
  {
    assert Candidate(1.0, -0.5, Tau) == 1.99;
    assert StepAfter([1.0], [-0.5], Tau, 0) == 1.0;
    assert StepLength([1.0], [-0.5], Tau) == StepAfter([1.0], [-0.5], Tau, 1);
  }

  /** Only the first |x| entries of the direction influence the step length. */
  lemma {:induction false} StepAfterReadsHeadOnly(x: Vector, dy: Vector, dy': Vector, tau: real, k: nat)
    requires k <= |x| <= |dy| && |x| <= |dy'|
    requires dy[..|x|] == dy'[..|x|]
    ensures StepAfter(x, dy, tau, k) == StepAfter(x, dy', tau, k)
  {
    if k > 0 {
      StepAfterReadsHeadOnly(x, dy, dy', tau, k - 1);
      assert dy[k - 1] == dy[..|x|][k - 1] == dy'[k - 1];
    }
  }

  lemma StepLengthReadsHeadOnly(x: Vector, dy: Vector, tau: real)
    requires |x| <= |dy|
    ensures StepLength(x, dy, tau) == StepLength(x, dy[..|x|], tau)
  {
    StepAfterReadsHeadOnly(x, dy, dy[..|x|], tau, |x|);
  }

  lemma MulLeNegative(a: real, c: real, d: real)
    requires a <= c && d < 0.0
    ensures a * d >= c * d
  {
    assert (c - a) * d <= 0.0;
  }

  /** One coordinate with a negative direction entry stays positive. */
  lemma DampedStepStaysPositive(xi: real, di: real, tau: real, alpha: real)
    requires xi > 0.0 && di < 0.0 && 0.0 < tau < 1.0
    requires 0.0 < alpha <= Candidate(xi, di, tau)
    ensures xi + alpha * di > 0.0
  {
    var c := Candidate(xi, di, tau);
    MulLeNegative(alpha, c, di);
    var p := xi * tau;
    assert c * di == -p;
    assert p < xi;
    var q := alpha * di;
    assert q >= -p;
  }

  /** One coordinate stays positive when alpha respects its candidate. */
  lemma CoordinateStaysPositive(xi: real, di: real, tau: real, alpha: real)
    requires xi > 0.0 && 0.0 < tau < 1.0 && alpha > 0.0
    requires di < 0.0 ==> alpha <= Candidate(xi, di, tau)
    ensures xi + alpha * di > 0.0
  {
    if di < 0.0 {
      DampedStepStaysPositive(xi, di, tau, alpha);
    } else {
      assert alpha * di >= 0.0;
    }
  }

  /** Coordinate i of the update x + alpha * dy stays positive. */
  lemma StepKeepsCoordinate(x: Vector, dy: Vector, tau: real, i: nat)
    requires i < |x| <= |dy|
    requires Positive(x) && 0.0 < tau < 1.0
    ensures x[i] + StepLength(x, dy, tau) * dy[i] > 0.0
  {
    var alpha := StepLength(x, dy, tau);
    if dy[i] < 0.0 {
      AdmissibleIffDescent(x, dy, tau, i);
      StepAfterIsMinimum(x, dy, tau, |x|);
      assert alpha <= Candidate(x[i], dy[i], tau);
    }
    CoordinateStaysPositive(x[i], dy[i], tau, alpha);
  }

  /** The central interior-point invariant: for x > 0 and 0 < tau < 1, the
      update x + alpha * dy[..n] is again strictly positive, whatever dy is. */
  lemma StepKeepsPositive(x: Vector, dy: Vector, tau: real)
    requires |x| <= |dy|
    requires Positive(x) && 0.0 < tau < 1.0
    ensures Positive(Axpy(x, StepLength(x, dy, tau), dy[..|x|]))
  {
    var alpha := StepLength(x, dy, tau);
    var head := dy[..|x|];
    var r := Axpy(x, alpha, head);
    forall i | 0 <= i < |x| ensures r[i] > 0.0 {
      assert head[i] == dy[i];
      StepKeepsCoordinate(x, dy, tau, i);
    }
  }
}
