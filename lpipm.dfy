/**
 solveLPbyIPM (asg01/main.cpp:17-133): the primal-dual log-barrier method
 for the linear program  min c^T x  s.t.  A x = b, x >= 0.
 The caller's vectors x and nu are updated in place; mu is decayed
 geometrically between outer rounds, and every inner round is a damped
 Newton iteration on the barrier KKT system at fixed mu.
 */
module LpIpm {
  import opened Linalg
  import opened StepRule
  import opened Barrier
  import opened Kkt

  /** The shapes the solver relies on: A is m x n with n = x.size() and
      m = b.size(), c has n entries and nu has m. */
  predicate Shaped(A: Matrix, b: Vector, c: Vector, x: Vector, nu: Vector) {
    IsMatrix(A, |b|, |x|) && |c| == |x| && |nu| == |b|
  }

  /** Fy = [Fy1; Fy2] with Fy1 = c - mu * d - A^T nu and Fy2 = b - A x. */
  function Residual(A: Matrix, b: Vector, c: Vector, x: Vector, nu: Vector, mu: real): (Fy: Vector)
    requires Shaped(A, b, c, x, nu) && NonZero(x)
    ensures |Fy| == |x| + |b|
  {
    var Fy1 := Sub(Sub(c, Scale(mu, Reciprocals(x))), MatVec(Transpose(A, |x|), nu));
    var Fy2 := Sub(b, MatVec(A, x));
    Fy1 + Fy2
  }

  /** J = [[mu * XXi, -A^T], [-A, 0]]. */
  function Jacobian(A: Matrix, x: Vector, mu: real, m: nat): (J: Matrix)
    requires IsMatrix(A, m, |x|) && NonZero(x)
    ensures IsMatrix(J, |x| + m, |x| + m)
  {
    var n := |x|;
    Blocks(MatScale(mu, InverseSquares(x), n, n), MatNeg(Transpose(A, n), n, m),
           MatNeg(A, m, n), ZeroMatrix(m, m), n, m)
  }

  lemma BarrierArithmetic(r: real, ci: real, mu: real, xi: real, di: real, a: real)
    requires xi != 0.0 && di * xi == 1.0
    requires r == (ci - mu * di) - a
    ensures r == ci - mu / xi - a
  {
    assert di == 1.0 / xi;
    assert mu * di == mu / xi;
  }

  /** One entry of c - mu * d - v, for any vector v. */
  lemma BarrierEntry(c: Vector, x: Vector, v: Vector, mu: real, i: nat)
    requires |c| == |x| == |v| && NonZero(x) && i < |x|
    ensures Sub(Sub(c, Scale(mu, Reciprocals(x))), v)[i] == c[i] - mu / x[i] - v[i]
  {
    var d := Reciprocals(x);
    BarrierArithmetic(Sub(Sub(c, Scale(mu, d)), v)[i], c[i], mu, x[i], d[i], v[i]);
  }

  /** Entry by entry, the residual is the barrier stationarity condition
      c_i - mu / x_i - (A^T nu)_i stacked over primal feasibility b_j - (A x)_j. */
  lemma ResidualLayout(A: Matrix, b: Vector, c: Vector, x: Vector, nu: Vector, mu: real)
    requires Shaped(A, b, c, x, nu) && NonZero(x)
    ensures forall i :: 0 <= i < |x| ==>
              Residual(A, b, c, x, nu, mu)[i] == c[i] - mu / x[i] - Dot(Column(A, i), nu)
    ensures forall j :: 0 <= j < |b| ==>
              Residual(A, b, c, x, nu, mu)[|x| + j] == b[j] - Dot(A[j], x)
  {
    var At := Transpose(A, |x|);
    var v := MatVec(At, nu);
    forall i | 0 <= i < |x|
      ensures Residual(A, b, c, x, nu, mu)[i] == c[i] - mu / x[i] - Dot(Column(A, i), nu)
    {
      BarrierEntry(c, x, v, mu, i);
      assert At[i] == Column(A, i);
    }
  }

  /** The second block of the residual vanishes exactly when x satisfies the
      equality constraints, and the first exactly when (x, nu) is
      stationary for the barrier problem at this mu. */
  lemma ResidualVanishesIff(A: Matrix, b: Vector, c: Vector, x: Vector, nu: Vector, mu: real)
    requires Shaped(A, b, c, x, nu) && NonZero(x)
    ensures Residual(A, b, c, x, nu, mu)[|x|..] == Zeros(|b|) <==> MatVec(A, x) == b
    ensures Residual(A, b, c, x, nu, mu)[..|x|] == Zeros(|x|) <==>
            forall i :: 0 <= i < |x| ==> Dot(Column(A, i), nu) + mu / x[i] == c[i]
  {
    var n, m := |x|, |b|;
    var Fy := Residual(A, b, c, x, nu, mu);
    ResidualLayout(A, b, c, x, nu, mu);
    if Fy[n..] == Zeros(m) {
      forall j | 0 <= j < m ensures MatVec(A, x)[j] == b[j] {
        assert Fy[n..][j] == Fy[n + j];
      }
    }
    if MatVec(A, x) == b {
      forall j | 0 <= j < m ensures Fy[n..][j] == 0.0 {
        assert Fy[n..][j] == Fy[n + j];
      }
    }
    if Fy[..n] == Zeros(n) {
      forall i | 0 <= i < n ensures Dot(Column(A, i), nu) + mu / x[i] == c[i] {
        assert Fy[..n][i] == Fy[i];
      }
    }
    if forall i :: 0 <= i < n ==> Dot(Column(A, i), nu) + mu / x[i] == c[i] {
      forall i | 0 <= i < n ensures Fy[..n][i] == 0.0 {
        assert Fy[..n][i] == Fy[i];
      }
    }
  }

  /** Block layout of J: a diagonal top-left block with mu / x_i^2, -A^T top
      right, -A bottom left and an m x m zero block bottom right. */
  lemma JacobianLayout(A: Matrix, x: Vector, mu: real, m: nat)
    requires IsMatrix(A, m, |x|) && NonZero(x)
    ensures forall i, j :: 0 <= i < |x| && 0 <= j < |x| ==>
              Jacobian(A, x, mu, m)[i][j] == if i == j then mu / (x[i] * x[i]) else 0.0
    ensures forall i, j :: 0 <= i < |x| && |x| <= j < |x| + m ==>
              Jacobian(A, x, mu, m)[i][j] == -A[j - |x|][i]
    ensures forall i, j :: |x| <= i < |x| + m && 0 <= j < |x| ==>
              Jacobian(A, x, mu, m)[i][j] == -A[i - |x|][j]
    ensures forall i, j :: |x| <= i < |x| + m && |x| <= j < |x| + m ==>
              Jacobian(A, x, mu, m)[i][j] == 0.0
  {
    var n := |x|;
    var J := Jacobian(A, x, mu, m);
    var D := InverseSquares(x);
    forall i, j | 0 <= i < n && 0 <= j < n
      ensures J[i][j] == if i == j then mu / (x[i] * x[i]) else 0.0
    {
      assert J[i][j] == mu * D[i][j];
      if i == j {
        assert D[i][i] == 1.0 / (x[i] * x[i]);
      }
    }
  }

  /** J is symmetric, as the Jacobian of a gradient system should be. */
  lemma JacobianSymmetric(A: Matrix, x: Vector, mu: real, m: nat)
    requires IsMatrix(A, m, |x|) && NonZero(x)
    ensures Symmetric(Jacobian(A, x, mu, m))
  {
    JacobianLayout(A, x, mu, m);
  }

  /** With mu > 0 and x > 0 the top-left diagonal of J is strictly positive. */
  lemma JacobianDiagonalPositive(A: Matrix, x: Vector, mu: real, m: nat)
    requires IsMatrix(A, m, |x|) && Positive(x) && mu > 0.0
    ensures forall i :: 0 <= i < |x| ==> Jacobian(A, x, mu, m)[i][i] > 0.0
  {
    var J := Jacobian(A, x, mu, m);
    forall i | 0 <= i < |x| ensures J[i][i] > 0.0 {
      InverseSquaresPositive(x, i);
      assert J[i][i] == mu * InverseSquares(x)[i][i];
    }
  }

  /** The residual as the loop body computes it, via the vector d. */
  method ComputeResidual(A: Matrix, b: Vector, c: Vector, x: Vector, nu: Vector, mu: real)
    returns (Fy: Vector)
    requires Shaped(A, b, c, x, nu) && NonZero(x)
    ensures Fy == Residual(A, b, c, x, nu, mu)
  {
    var d := FillReciprocals(x);
    var Fy1 := Sub(Sub(c, Scale(mu, d)), MatVec(Transpose(A, |x|), nu));
    var Fy2 := Sub(b, MatVec(A, x));
    Fy := Fy1 + Fy2;
  }

  /** The Jacobian as the loop body assembles it, via the matrix XXi. */
  method BuildJacobian(A: Matrix, x: Vector, mu: real, m: nat) returns (J: Matrix)
    requires IsMatrix(A, m, |x|) && NonZero(x)
    ensures J == Jacobian(A, x, mu, m)
  {
    var n := |x|;
    var XXi := FillInverseSquares(x);
    J := Blocks(MatScale(mu, XXi, n, n), MatNeg(Transpose(A, n), n, m),
                MatNeg(A, m, n), ZeroMatrix(m, m), n, m);
  }

  /** One recorded Newton update at fixed mu: it was taken from a strictly
      positive iterate whose residual norm was not below tol, along a
      direction of length n + m, with the fraction-to-boundary step length. */
  ghost predicate NewtonStep(A: Matrix, b: Vector, c: Vector, mu: real,
                             before: (Vector, Vector), dy: Vector, after: (Vector, Vector))
  {
    Shaped(A, b, c, before.0, before.1) && Positive(before.0) &&
    |dy| == |before.0| + |before.1| &&
    SquaredNorm(Residual(A, b, c, before.0, before.1, mu)) >= Tol * Tol &&
    after == NewtonUpdate(before.0, before.1, dy)
  }

  /** A run of Newton updates: iterates[k + 1] follows from iterates[k] along directions[k]. */
  ghost predicate NewtonTrace(A: Matrix, b: Vector, c: Vector, mu: real,
                              iterates: seq<(Vector, Vector)>, directions: seq<Vector>)
  {
    |iterates| == |directions| + 1 &&
    forall k :: 0 <= k < |directions| ==>
      NewtonStep(A, b, c, mu, iterates[k], directions[k], iterates[k + 1])
  }

  lemma NewtonTraceExtend(A: Matrix, b: Vector, c: Vector, mu: real,
                          iterates: seq<(Vector, Vector)>, directions: seq<Vector>,
                          dy: Vector, next: (Vector, Vector))
    requires NewtonTrace(A, b, c, mu, iterates, directions)
    requires NewtonStep(A, b, c, mu, iterates[|iterates| - 1], dy, next)
    ensures NewtonTrace(A, b, c, mu, iterates + [next], directions + [dy])
  {
    var its, dirs := iterates + [next], directions + [dy];
    forall k | 0 <= k < |dirs| ensures NewtonStep(A, b, c, mu, its[k], dirs[k], its[k + 1]) {
      if k < |directions| {
        assert its[k] == iterates[k] && its[k + 1] == iterates[k + 1] && dirs[k] == directions[k];
      }
    }
  }

  /** One pass of the inner loop body: either the residual norm is already
      below tol and nothing changes, or one Newton update is made. */
  method NewtonIteration(A: Matrix, b: Vector, c: Vector, x: array<real>, nu: array<real>, mu: real)
    returns (done: bool, ghost DeltaY: Vector)
    requires x != nu
    requires Shaped(A, b, c, x[..], nu[..]) && Positive(x[..])
    modifies x, nu
    ensures Positive(x[..])
    ensures done ==> x[..] == old(x[..]) && nu[..] == old(nu[..]) &&
                     SquaredNorm(Residual(A, b, c, x[..], nu[..], mu)) < Tol * Tol
    ensures !done ==> NewtonStep(A, b, c, mu, (old(x[..]), old(nu[..])), DeltaY, (x[..], nu[..]))
  {
    var m := nu.Length;
    var xv, nuv := x[..], nu[..];
    var Fy := ComputeResidual(A, b, c, xv, nuv, mu);
    if SquaredNorm(Fy) < Tol * Tol {
      return true, [];
    }
    var J := BuildJacobian(A, xv, mu, m);
    var dy := NewtonDirection(J, Fy);
    ApplyNewtonUpdate(x, nu, dy);
    NewtonUpdateKeepsPositive(xv, nuv, dy);
    done, DeltaY := false, dy;
  }

  /** The inner loop (asg01/main.cpp:41-117): Newton updates at fixed mu until
      the residual norm drops below tol or MaxInnerIter updates were made.
      The ghost results record every iterate and every direction taken. */
  method NewtonLoop(A: Matrix, b: Vector, c: Vector, x: array<real>, nu: array<real>, mu: real)
    returns (updates: nat, converged: bool,
             ghost iterates: seq<(Vector, Vector)>, ghost directions: seq<Vector>)
    requires x != nu
    requires Shaped(A, b, c, x[..], nu[..]) && Positive(x[..])
    modifies x, nu
    ensures Positive(x[..])
    ensures updates <= MaxInnerIter
    ensures converged ==> updates < MaxInnerIter &&
                          SquaredNorm(Residual(A, b, c, x[..], nu[..], mu)) < Tol * Tol
    ensures !converged ==> updates == MaxInnerIter
    ensures |directions| == updates && NewtonTrace(A, b, c, mu, iterates, directions)
    ensures iterates[0] == (old(x[..]), old(nu[..])) && iterates[updates] == (x[..], nu[..])
  {
    updates, converged := 0, false;
    iterates, directions := [(x[..], nu[..])], [];
    for innerIter := 0 to MaxInnerIter
      invariant updates == innerIter && !converged
      invariant Positive(x[..])
      invariant |directions| == updates && NewtonTrace(A, b, c, mu, iterates, directions)
      invariant iterates[0] == (old(x[..]), old(nu[..])) && iterates[updates] == (x[..], nu[..])
    {
      var done;
      ghost var DeltaY;
      done, DeltaY := NewtonIteration(A, b, c, x, nu, mu);
      if done {
        converged := true;
        break;
      }
      NewtonTraceExtend(A, b, c, mu, iterates, directions, DeltaY, (x[..], nu[..]));
      directions := directions + [DeltaY];
      iterates := iterates + [(x[..], nu[..])];
      updates := updates + 1;
    }
  }

  /** One outer round at barrier weight mu: a run of Newton updates at that
      mu from a well-shaped start to a strictly positive end, which stopped
      either with the residual norm below tol after fewer than MaxInnerIter
      updates or after exactly MaxInnerIter updates. */
  ghost predicate InnerRun(A: Matrix, b: Vector, c: Vector, mu: real,
                           run: seq<(Vector, Vector)>, dirs: seq<Vector>)
  {
    NewtonTrace(A, b, c, mu, run, dirs) && |dirs| <= MaxInnerIter &&
    Shaped(A, b, c, run[0].0, run[0].1) &&
    Shaped(A, b, c, Final(run).0, Final(run).1) && Positive(Final(run).0) &&
    (|dirs| < MaxInnerIter ==>
       SquaredNorm(Residual(A, b, c, Final(run).0, Final(run).1, mu)) < Tol * Tol)
  }

  /** Outer round r ran the inner loop at mu = MuAfter(r). */
  ghost predicate Schedule(A: Matrix, b: Vector, c: Vector,
                           runs: seq<seq<(Vector, Vector)>>, dirs: seq<seq<Vector>>)
  {
    |runs| == |dirs| &&
    forall r {:trigger InnerRun(A, b, c, MuAfter(r), runs[r], dirs[r])} :: 0 <= r < |runs| ==>
      InnerRun(A, b, c, MuAfter(r), runs[r], dirs[r])
  }

  lemma ScheduleExtend(A: Matrix, b: Vector, c: Vector,
                       runs: seq<seq<(Vector, Vector)>>, dirs: seq<seq<Vector>>,
                       run: seq<(Vector, Vector)>, d: seq<Vector>)
    requires Schedule(A, b, c, runs, dirs)
    requires InnerRun(A, b, c, MuAfter(|runs|), run, d)
    ensures Schedule(A, b, c, runs + [run], dirs + [d])
  {
    AllRoundsExtend((r, rn, dr) => InnerRun(A, b, c, MuAfter(r), rn, dr), runs, dirs, run, d);
  }

  /** The first |runs| outer rounds as the solver has run them so far: round r
      ran the inner loop at MuAfter(r), the rounds chain from y0, the first
      `moved` of them failed the small-step test, and the current iterate is
      where the last round ended (y0 before the first). */
  ghost predicate Progress(A: Matrix, b: Vector, c: Vector, y0: (Vector, Vector),
                           runs: seq<seq<(Vector, Vector)>>, dirs: seq<seq<Vector>>,
                           moved: nat, current: (Vector, Vector))
  {
    Schedule(A, b, c, runs, dirs) && Chained(y0, runs) &&
    moved <= |runs| && KeptMoving(runs, moved) &&
    current == if |runs| == 0 then y0 else Final(runs[|runs| - 1])
  }

  /** Appending round k, run at MuAfter(k) from where round k - 1 ended,
      keeps the progress of the solve and adds its updates to the count. */
  lemma RecordRound(A: Matrix, b: Vector, c: Vector, y0: (Vector, Vector),
                    runs: seq<seq<(Vector, Vector)>>, dirs: seq<seq<Vector>>,
                    current: (Vector, Vector), run: seq<(Vector, Vector)>, d: seq<Vector>)
    requires Progress(A, b, c, y0, runs, dirs, |runs|, current)
    requires InnerRun(A, b, c, MuAfter(|runs|), run, d) && run[0] == current
    ensures Progress(A, b, c, y0, runs + [run], dirs + [d], |runs|, Final(run))
    ensures Moved(run) ==> Progress(A, b, c, y0, runs + [run], dirs + [d], |runs| + 1, Final(run))
    ensures TotalUpdates(dirs + [d]) == TotalUpdates(dirs) + |d|
  {
    ScheduleExtend(A, b, c, runs, dirs, run, d);
    ChainedExtend(y0, runs, run);
    TotalUpdatesExtend(dirs, d);
    KeptMovingExtend(runs, |runs|, run);
  }

  /** One outer round: `xOld = x`, the inner loop at mu, and the
      small-step test `(x - xOld).squaredNorm() < tol`. */
  method OuterRound(A: Matrix, b: Vector, c: Vector, x: array<real>, nu: array<real>, mu: real)
    returns (updates: nat, small: bool, ghost run: seq<(Vector, Vector)>, ghost dirs: seq<Vector>)
    requires x != nu
    requires Shaped(A, b, c, x[..], nu[..]) && Positive(x[..])
    modifies x, nu
    ensures Shaped(A, b, c, x[..], nu[..]) && Positive(x[..])
    ensures updates <= MaxInnerIter
    ensures InnerRun(A, b, c, mu, run, dirs) && updates == |dirs|
    ensures run[0] == (old(x[..]), old(nu[..])) && Final(run) == (x[..], nu[..])
    ensures small <==> SquaredNorm(Sub(x[..], old(x[..]))) < Tol
  {
    var xOld := x[..];
    var converged;
    updates, converged, run, dirs := NewtonLoop(A, b, c, x, nu, mu);
    small := SquaredNorm(Sub(x[..], xOld)) < Tol;
  }

  /** The whole solver (asg01/main.cpp:17-133): at most MaxOuterIter rounds, round r an
      inner Newton loop at mu = 0.1^r, stopping as soon as x moved by a
      squared distance below tol during a round, and otherwise decaying mu by
      beta. `runs[r]` and `dirs[r]` are the iterates (x, nu) and directions of
      round r; the rounds chain from the caller's (x, nu) to the final one. */
  method SolveLPbyIPM(A: Matrix, b: Vector, c: Vector, x: array<real>, nu: array<real>)
    returns (report: Report, ghost runs: seq<seq<(Vector, Vector)>>, ghost dirs: seq<seq<Vector>>)
    requires x != nu
    requires Shaped(A, b, c, x[..], nu[..]) && Positive(x[..])
    modifies x, nu
    ensures Positive(x[..])
    ensures 1 <= report.rounds <= MaxOuterIter && |runs| == report.rounds
    ensures Schedule(A, b, c, runs, dirs)
    ensures Chained((old(x[..]), old(nu[..])), runs)
    ensures Final(runs[report.rounds - 1]) == (x[..], nu[..])
    ensures report.updates == TotalUpdates(dirs)
    ensures report.updates <= MaxInnerIter * report.rounds <= MaxInnerIter * MaxOuterIter
    ensures report.mu == MuAfter(report.Decays()) == Pow(0.1, report.Decays()) && report.mu > 0.0
    ensures !report.stoppedEarly ==> report.rounds == MaxOuterIter
    ensures KeptMoving(runs, report.Decays())
    ensures report.stoppedEarly ==> SmallStep(runs[report.rounds - 1])
  {
    ghost var y0 := (x[..], nu[..]);
    var mu := Mu0;
    var updates: nat, rounds: nat, stopped := 0, 0, false;
    runs, dirs := [], [];
    for outerIter := 0 to MaxOuterIter
      invariant rounds == outerIter && !stopped && |runs| == outerIter
      invariant mu == MuAfter(outerIter)
      invariant Shaped(A, b, c, x[..], nu[..]) && Positive(x[..])
      invariant updates == TotalUpdates(dirs) && updates <= MaxInnerIter * outerIter
      invariant Progress(A, b, c, y0, runs, dirs, outerIter, (x[..], nu[..]))
    {
      var k, small;
      ghost var current, run, d := (x[..], nu[..]), [], [];
      k, small, run, d := OuterRound(A, b, c, x, nu, mu);
      RecordRound(A, b, c, y0, runs, dirs, current, run, d);
      runs, dirs := runs + [run], dirs + [d];
      UpdateBudget(outerIter, updates, k);
      updates, rounds := updates + k, rounds + 1;
      if small {
        stopped := true;
        break;
      }
      mu := Beta * mu;
    }
    report := Report(rounds, updates, mu, stopped);
    MuSchedule(report.Decays());
    MuAfterIsPower(report.Decays());
    UpdateBudgetWithin(rounds);
  }
}
