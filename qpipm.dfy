/**
 solveQPbyIPM (asg02/main.cpp:16-132): the same primal-dual log-barrier
 method for the quadratic program  min 1/2 x^T Q x + c^T x  s.t.  A x = b,
 x >= 0. It differs from the LP solver only in the term
 `1/2 * (Q + Q.transpose())` that the residual (asg02/main.cpp:68) and the
 top-left Jacobian block (asg02/main.cpp:92) add.

 In C++ `1/2` is an int division and evaluates to 0, so that term is the
 zero matrix and the solver behaves exactly like the LP solver. The
 coefficient is therefore a parameter `half` here: HalfAsWritten (0) is
 solveQPbyIPM as written, HalfIntended (1/2) the evident intent.
 */
module QpIpm {
  import opened Linalg
  import opened StepRule
  import opened Barrier
  import opened Kkt
  import LpIpm

  /** `1/2` evaluated the way C++ evaluates it: int division, giving 0. */
  const HalfAsWritten: real := (1 / 2) as real
  /** The coefficient the formula means. */
  const HalfIntended: real := 0.5

  /** The symmetrised quadratic term `half * (Q + Q^T)` of an n x n matrix Q. */
  function HessianTerm(half: real, Q: Matrix, n: nat): (H: Matrix)
    requires IsMatrix(Q, n, n)
    ensures Symmetric(H) && |H| == n
    ensures forall i, j :: 0 <= i < n && 0 <= j < n ==> H[i][j] == half * (Q[i][j] + Q[j][i])
  {
    SymmetricPart(Q, n);
    ScaleKeepsSymmetric(half, MatAdd(Q, Transpose(Q, n), n, n), n);
    MatScale(half, MatAdd(Q, Transpose(Q, n), n, n), n, n)
  }

  /** Q is n x n, and A, b, c, x, nu are shaped as for the LP solver. */
  predicate Shaped(Q: Matrix, A: Matrix, b: Vector, c: Vector, x: Vector, nu: Vector) {
    IsMatrix(Q, |x|, |x|) && LpIpm.Shaped(A, b, c, x, nu)
  }

  /** Fy = [Fy1; Fy2] with Fy1 = half (Q + Q^T) x + c - mu * d - A^T nu and Fy2 = b - A x. */
  function Residual(half: real, Q: Matrix, A: Matrix, b: Vector, c: Vector, x: Vector, nu: Vector, mu: real)
    : (Fy: Vector)
    requires Shaped(Q, A, b, c, x, nu) && NonZero(x)
    ensures |Fy| == |x| + |b|
  {
    var n := |x|;
    var Fy1 := Sub(Sub(Add(MatVec(HessianTerm(half, Q, n), x), c), Scale(mu, Reciprocals(x))),
                   MatVec(Transpose(A, n), nu));
    var Fy2 := Sub(b, MatVec(A, x));
    Fy1 + Fy2
  }

  /** J = [[half (Q + Q^T) + mu * XXi, -A^T], [-A, 0]]. */
  function Jacobian(half: real, Q: Matrix, A: Matrix, x: Vector, mu: real, m: nat): (J: Matrix)
    requires IsMatrix(Q, |x|, |x|) && IsMatrix(A, m, |x|) && NonZero(x)
    ensures IsMatrix(J, |x| + m, |x| + m)
  {
    var n := |x|;
    Blocks(MatAdd(HessianTerm(half, Q, n), MatScale(mu, InverseSquares(x), n, n), n, n),
           MatNeg(Transpose(A, n), n, m), MatNeg(A, m, n), ZeroMatrix(m, m), n, m)
  }

  lemma HeadArithmetic(r: real, h: real, ci: real, mu: real, xi: real, di: real, a: real)
    requires xi != 0.0 && di * xi == 1.0
    requires r == ((h + ci) - mu * di) - a
    ensures r == h + ci - mu / xi - a
  {
    assert di == 1.0 / xi;
    assert mu * di == mu / xi;
  }

  /** One entry of g + c - mu * d - v, for any vectors g and v. */
  lemma HeadEntry(g: Vector, c: Vector, x: Vector, v: Vector, mu: real, i: nat)
    requires |g| == |c| == |x| == |v| && NonZero(x) && i < |x|
    ensures Sub(Sub(Add(g, c), Scale(mu, Reciprocals(x))), v)[i] == g[i] + c[i] - mu / x[i] - v[i]
  {
    var d := Reciprocals(x);
    HeadArithmetic(Sub(Sub(Add(g, c), Scale(mu, d)), v)[i], g[i], c[i], mu, x[i], d[i], v[i]);
  }

  /** One entry of the first block: Fy1_i = (H x)_i + c_i - mu / x_i - (A^T nu)_i. */
  lemma ResidualHeadEntry(half: real, Q: Matrix, A: Matrix, b: Vector, c: Vector, x: Vector, nu: Vector,
                          mu: real, i: nat)
    requires Shaped(Q, A, b, c, x, nu) && NonZero(x) && i < |x|
    ensures Residual(half, Q, A, b, c, x, nu, mu)[i] ==
            Dot(HessianTerm(half, Q, |x|)[i], x) + c[i] - mu / x[i] - Dot(Column(A, i), nu)
  {
    var n := |x|;
    var H := HessianTerm(half, Q, n);
    var At := Transpose(A, n);
    var g, v := MatVec(H, x), MatVec(At, nu);
    HeadEntry(g, c, x, v, mu, i);
    assert g[i] == Dot(H[i], x);
    assert At[i] == Column(A, i);
    assert v[i] == Dot(Column(A, i), nu);
  }

  /** Entry by entry: Fy1_i = (H x)_i + c_i - mu / x_i - (A^T nu)_i above
      Fy2_j = b_j - (A x)_j, with H the symmetrised quadratic term. */
  lemma ResidualLayout(half: real, Q: Matrix, A: Matrix, b: Vector, c: Vector, x: Vector, nu: Vector, mu: real)
    requires Shaped(Q, A, b, c, x, nu) && NonZero(x)
    ensures forall i :: 0 <= i < |x| ==>
              Residual(half, Q, A, b, c, x, nu, mu)[i] ==
              Dot(HessianTerm(half, Q, |x|)[i], x) + c[i] - mu / x[i] - Dot(Column(A, i), nu)
    ensures forall j :: 0 <= j < |b| ==>
              Residual(half, Q, A, b, c, x, nu, mu)[|x| + j] == b[j] - Dot(A[j], x)
  {
    forall i | 0 <= i < |x|
      ensures Residual(half, Q, A, b, c, x, nu, mu)[i] ==
              Dot(HessianTerm(half, Q, |x|)[i], x) + c[i] - mu / x[i] - Dot(Column(A, i), nu)
    {
      ResidualHeadEntry(half, Q, A, b, c, x, nu, mu, i);
    }
  }

  /** Block layout of J: top-left half (Q + Q^T) plus the diagonal mu / x_i^2,
      -A^T top right, -A bottom left, an m x m zero block bottom right. */
  lemma JacobianLayout(half: real, Q: Matrix, A: Matrix, x: Vector, mu: real, m: nat)
    requires IsMatrix(Q, |x|, |x|) && IsMatrix(A, m, |x|) && NonZero(x)
    ensures forall i, j :: 0 <= i < |x| && 0 <= j < |x| ==>
              Jacobian(half, Q, A, x, mu, m)[i][j] ==
              half * (Q[i][j] + Q[j][i]) + (if i == j then mu / (x[i] * x[i]) else 0.0)
    ensures forall i, j :: 0 <= i < |x| && |x| <= j < |x| + m ==>
              Jacobian(half, Q, A, x, mu, m)[i][j] == -A[j - |x|][i]
    ensures forall i, j :: |x| <= i < |x| + m && 0 <= j < |x| ==>
              Jacobian(half, Q, A, x, mu, m)[i][j] == -A[i - |x|][j]
    ensures forall i, j :: |x| <= i < |x| + m && |x| <= j < |x| + m ==>
              Jacobian(half, Q, A, x, mu, m)[i][j] == 0.0
  {
    var n := |x|;
    forall i, j | 0 <= i < n && 0 <= j < n
      ensures Jacobian(half, Q, A, x, mu, m)[i][j] ==
              half * (Q[i][j] + Q[j][i]) + (if i == j then mu / (x[i] * x[i]) else 0.0)
    {
      JacobianTopLeftEntry(half, Q, A, x, mu, m, i, j);
    }
  }

  /** One entry of the top-left block of J. */
  lemma JacobianTopLeftEntry(half: real, Q: Matrix, A: Matrix, x: Vector, mu: real, m: nat, i: nat, j: nat)
    requires IsMatrix(Q, |x|, |x|) && IsMatrix(A, m, |x|) && NonZero(x) && i < |x| && j < |x|
    ensures Jacobian(half, Q, A, x, mu, m)[i][j] ==
            half * (Q[i][j] + Q[j][i]) + (if i == j then mu / (x[i] * x[i]) else 0.0)
  {
    var n := |x|;
    var D := InverseSquares(x);
    var H := HessianTerm(half, Q, n);
    TopLeftOfBlocks(H, D, mu, A, n, m, i, j);
    if i == j {
      assert D[i][i] == 1.0 / (x[i] * x[i]);
    }
  }

  /** In the block assembly of J, the top-left entry is H_ij + mu D_ij. */
  lemma TopLeftOfBlocks(H: Matrix, D: Matrix, mu: real, A: Matrix, n: nat, m: nat, i: nat, j: nat)
    requires IsMatrix(H, n, n) && IsMatrix(D, n, n) && IsMatrix(A, m, n) && i < n && j < n
    ensures Blocks(MatAdd(H, MatScale(mu, D, n, n), n, n), MatNeg(Transpose(A, n), n, m),
                   MatNeg(A, m, n), ZeroMatrix(m, m), n, m)[i][j] == H[i][j] + mu * D[i][j]
  {
  }

  /** J is symmetric for every coefficient and every Q, symmetric or not. */
  lemma JacobianSymmetric(half: real, Q: Matrix, A: Matrix, x: Vector, mu: real, m: nat)
    requires IsMatrix(Q, |x|, |x|) && IsMatrix(A, m, |x|) && NonZero(x)
    ensures Symmetric(Jacobian(half, Q, A, x, mu, m))
  {
    JacobianLayout(half, Q, A, x, mu, m);
  }

  /** As written, the Q term is zero: for every Q the residual and the
      Jacobian are exactly those of the LP solver. */
  lemma AsWrittenIgnoresQ(Q: Matrix, A: Matrix, b: Vector, c: Vector, x: Vector, nu: Vector, mu: real)
    requires Shaped(Q, A, b, c, x, nu) && NonZero(x)
    ensures Residual(HalfAsWritten, Q, A, b, c, x, nu, mu) == LpIpm.Residual(A, b, c, x, nu, mu)
    ensures Jacobian(HalfAsWritten, Q, A, x, mu, |b|) == LpIpm.Jacobian(A, x, mu, |b|)
  {
    var n, m := |x|, |b|;
    assert HalfAsWritten == 0.0;
    var H := HessianTerm(HalfAsWritten, Q, n);
    ZeroMatVec(H, x);
    assert Add(MatVec(H, x), c) == c;
    var J, L := Jacobian(HalfAsWritten, Q, A, x, mu, m), LpIpm.Jacobian(A, x, mu, m);
    JacobianLayout(HalfAsWritten, Q, A, x, mu, m);
    LpIpm.JacobianLayout(A, x, mu, m);
    forall i | 0 <= i < n + m ensures J[i] == L[i] {
      assert forall j :: 0 <= j < n + m ==> J[i][j] == L[i][j];
    }
  }

  /** The one-variable problem Q = [2], c = [0], x = [1], mu = 1 with no
      constraints, for any coefficient: J_00 = 4 half + 1 and Fy_0 = 4 half - 1. */
  lemma OneVariableExample(half: real)
    ensures Jacobian(half, [[2.0]], [], [1.0], 1.0, 0)[0][0] == 4.0 * half + 1.0
    ensures Residual(half, [[2.0]], [], [], [0.0], [1.0], [], 1.0)[0] == 4.0 * half - 1.0
  {
    JacobianLayout(half, [[2.0]], [], [1.0], 1.0, 0);
    ResidualHeadEntry(half, [[2.0]], [], [], [0.0], [1.0], [], 1.0, 0);
    assert Column([], 0) == [];
    var H := HessianTerm(half, [[2.0]], 1);
    assert H[0] == [4.0 * half];
    assert Dot(H[0], [1.0]) == 4.0 * half;
  }

  /** As written, the quadratic term is lost: for Q = [2], x = [1], mu = 1 and
      no constraints, the top-left Jacobian entry is 1 where the Hessian of
      the barrier objective is 3, and Fy1 is -1 where the gradient is 1. */
  lemma AsWrittenDropsHessian()
    ensures Jacobian(HalfAsWritten, [[2.0]], [], [1.0], 1.0, 0)[0][0] == 1.0
    ensures Jacobian(HalfIntended, [[2.0]], [], [1.0], 1.0, 0)[0][0] == 3.0
    ensures Residual(HalfAsWritten, [[2.0]], [], [], [0.0], [1.0], [], 1.0)[0] == -1.0
    ensures Residual(HalfIntended, [[2.0]], [], [], [0.0], [1.0], [], 1.0)[0] == 1.0
  {
    OneVariableExample(HalfAsWritten);
    OneVariableExample(HalfIntended);
  }

  /** With the intended coefficient 1/2 and a symmetric Q, the symmetrised
      term is Q itself, so Fy1 is the gradient Q x + c - mu / x - A^T nu of the
      barrier Lagrangian and the top-left block is its Hessian
      Q + mu diag(1 / x_i^2). */
  lemma IntendedIsGradientAndHessian(Q: Matrix, A: Matrix, b: Vector, c: Vector, x: Vector, nu: Vector, mu: real)
    requires Shaped(Q, A, b, c, x, nu) && NonZero(x) && Symmetric(Q)
    ensures HessianTerm(HalfIntended, Q, |x|) == Q
    ensures forall i :: 0 <= i < |x| ==>
              Residual(HalfIntended, Q, A, b, c, x, nu, mu)[i] ==
              Dot(Q[i], x) + c[i] - mu / x[i] - Dot(Column(A, i), nu)
    ensures forall i, j :: 0 <= i < |x| && 0 <= j < |x| ==>
              Jacobian(HalfIntended, Q, A, x, mu, |b|)[i][j] ==
              Q[i][j] + (if i == j then mu / (x[i] * x[i]) else 0.0)
  {
    var n := |x|;
    var H := HessianTerm(HalfIntended, Q, n);
    forall i | 0 <= i < n ensures H[i] == Q[i] {
      assert forall j :: 0 <= j < n ==> H[i][j] == Q[i][j];
    }
    assert H == Q;
    ResidualLayout(HalfIntended, Q, A, b, c, x, nu, mu);
    JacobianLayout(HalfIntended, Q, A, x, mu, |b|);
  }

  /** The residual as the loop body computes it, via the vector d. */
  method ComputeResidual(half: real, Q: Matrix, A: Matrix, b: Vector, c: Vector, x: Vector, nu: Vector, mu: real)
    returns (Fy: Vector)
    requires Shaped(Q, A, b, c, x, nu) && NonZero(x)
    ensures Fy == Residual(half, Q, A, b, c, x, nu, mu)
  {
    var n := |x|;
    var d := FillReciprocals(x);
    var Fy1 := Sub(Sub(Add(MatVec(HessianTerm(half, Q, n), x), c), Scale(mu, d)), MatVec(Transpose(A, n), nu));
    var Fy2 := Sub(b, MatVec(A, x));
    Fy := Fy1 + Fy2;
  }

  /** The Jacobian as the loop body assembles it, via the matrix XXi. */
  method BuildJacobian(half: real, Q: Matrix, A: Matrix, x: Vector, mu: real, m: nat) returns (J: Matrix)
    requires IsMatrix(Q, |x|, |x|) && IsMatrix(A, m, |x|) && NonZero(x)
    ensures J == Jacobian(half, Q, A, x, mu, m)
  {
    var n := |x|;
    var XXi := FillInverseSquares(x);
    J := Blocks(MatAdd(HessianTerm(half, Q, n), MatScale(mu, XXi, n, n), n, n),
                MatNeg(Transpose(A, n), n, m), MatNeg(A, m, n), ZeroMatrix(m, m), n, m);
  }

  /** One recorded Newton update at fixed mu, as in the LP solver but with the
      QP residual. */
  ghost predicate NewtonStep(half: real, Q: Matrix, A: Matrix, b: Vector, c: Vector, mu: real,
                             before: (Vector, Vector), dy: Vector, after: (Vector, Vector))
  {
    Shaped(Q, A, b, c, before.0, before.1) && Positive(before.0) &&
    |dy| == |before.0| + |before.1| &&
    SquaredNorm(Residual(half, Q, A, b, c, before.0, before.1, mu)) >= Tol * Tol &&
    after == NewtonUpdate(before.0, before.1, dy)
  }

  ghost predicate NewtonTrace(half: real, Q: Matrix, A: Matrix, b: Vector, c: Vector, mu: real,
                              iterates: seq<(Vector, Vector)>, directions: seq<Vector>)
  {
    |iterates| == |directions| + 1 &&
    forall k :: 0 <= k < |directions| ==>
      NewtonStep(half, Q, A, b, c, mu, iterates[k], directions[k], iterates[k + 1])
  }

  lemma NewtonTraceExtend(half: real, Q: Matrix, A: Matrix, b: Vector, c: Vector, mu: real,
                          iterates: seq<(Vector, Vector)>, directions: seq<Vector>,
                          dy: Vector, next: (Vector, Vector))
    requires NewtonTrace(half, Q, A, b, c, mu, iterates, directions)
    requires NewtonStep(half, Q, A, b, c, mu, iterates[|iterates| - 1], dy, next)
    ensures NewtonTrace(half, Q, A, b, c, mu, iterates + [next], directions + [dy])
  {
    var its, dirs := iterates + [next], directions + [dy];
    forall k | 0 <= k < |dirs| ensures NewtonStep(half, Q, A, b, c, mu, its[k], dirs[k], its[k + 1]) {
      if k < |directions| {
        assert its[k] == iterates[k] && its[k + 1] == iterates[k + 1] && dirs[k] == directions[k];
      }
    }
  }

  /** One pass of the inner loop body: either the residual norm is already
      below tol and nothing changes, or one Newton update is made. */
  method NewtonIteration(half: real, Q: Matrix, A: Matrix, b: Vector, c: Vector, x: array<real>, nu: array<real>, mu: real)
    returns (done: bool, ghost DeltaY: Vector)
    requires x != nu
    requires Shaped(Q, A, b, c, x[..], nu[..]) && Positive(x[..])
    modifies x, nu
    ensures Positive(x[..])
    ensures done ==> x[..] == old(x[..]) && nu[..] == old(nu[..]) &&
                     SquaredNorm(Residual(half, Q, A, b, c, x[..], nu[..], mu)) < Tol * Tol
    ensures !done ==> NewtonStep(half, Q, A, b, c, mu, (old(x[..]), old(nu[..])), DeltaY, (x[..], nu[..]))
  {
    var m := nu.Length;
    var xv, nuv := x[..], nu[..];
    var Fy := ComputeResidual(half, Q, A, b, c, xv, nuv, mu);
    if SquaredNorm(Fy) < Tol * Tol {
      return true, [];
    }
    var J := BuildJacobian(half, Q, A, xv, mu, m);
    var dy := NewtonDirection(J, Fy);
    ApplyNewtonUpdate(x, nu, dy);
    NewtonUpdateKeepsPositive(xv, nuv, dy);
    done, DeltaY := false, dy;
  }

  /** The inner loop (asg02/main.cpp:40-116). */
  method NewtonLoop(half: real, Q: Matrix, A: Matrix, b: Vector, c: Vector,
                    x: array<real>, nu: array<real>, mu: real)
    returns (updates: nat, converged: bool,
             ghost iterates: seq<(Vector, Vector)>, ghost directions: seq<Vector>)
    requires x != nu
    requires Shaped(Q, A, b, c, x[..], nu[..]) && Positive(x[..])
    modifies x, nu
    ensures Positive(x[..])
    ensures updates <= MaxInnerIter
    ensures converged ==> updates < MaxInnerIter &&
                          SquaredNorm(Residual(half, Q, A, b, c, x[..], nu[..], mu)) < Tol * Tol
    ensures !converged ==> updates == MaxInnerIter
    ensures |directions| == updates && NewtonTrace(half, Q, A, b, c, mu, iterates, directions)
    ensures iterates[0] == (old(x[..]), old(nu[..])) && iterates[updates] == (x[..], nu[..])
  {
    updates, converged := 0, false;
    iterates, directions := [(x[..], nu[..])], [];
    for innerIter := 0 to MaxInnerIter
      invariant updates == innerIter && !converged
      invariant Positive(x[..])
      invariant |directions| == updates && NewtonTrace(half, Q, A, b, c, mu, iterates, directions)
      invariant iterates[0] == (old(x[..]), old(nu[..])) && iterates[updates] == (x[..], nu[..])
    {
      var done;
      ghost var DeltaY;
      done, DeltaY := NewtonIteration(half, Q, A, b, c, x, nu, mu);
      if done {
        converged := true;
        break;
      }
      NewtonTraceExtend(half, Q, A, b, c, mu, iterates, directions, DeltaY, (x[..], nu[..]));
      directions := directions + [DeltaY];
      iterates := iterates + [(x[..], nu[..])];
      updates := updates + 1;
    }
  }

  /** One outer round at barrier weight mu: a run of Newton updates at that
      mu from a well-shaped start to a strictly positive end, which stopped
      either with the residual norm below tol after fewer than MaxInnerIter
      updates or after exactly MaxInnerIter updates. */
  ghost predicate InnerRun(half: real, Q: Matrix, A: Matrix, b: Vector, c: Vector, mu: real,
                           run: seq<(Vector, Vector)>, dirs: seq<Vector>)
  {
    NewtonTrace(half, Q, A, b, c, mu, run, dirs) && |dirs| <= MaxInnerIter &&
    Shaped(Q, A, b, c, run[0].0, run[0].1) &&
    Shaped(Q, A, b, c, Final(run).0, Final(run).1) && Positive(Final(run).0) &&
    (|dirs| < MaxInnerIter ==>
       SquaredNorm(Residual(half, Q, A, b, c, Final(run).0, Final(run).1, mu)) < Tol * Tol)
  }

  /** Outer round r ran the inner loop at mu = MuAfter(r). */
  ghost predicate Schedule(half: real, Q: Matrix, A: Matrix, b: Vector, c: Vector,
                           runs: seq<seq<(Vector, Vector)>>, dirs: seq<seq<Vector>>)
  {
    |runs| == |dirs| &&
    forall r {:trigger InnerRun(half, Q, A, b, c, MuAfter(r), runs[r], dirs[r])} :: 0 <= r < |runs| ==>
      InnerRun(half, Q, A, b, c, MuAfter(r), runs[r], dirs[r])
  }

  lemma ScheduleExtend(half: real, Q: Matrix, A: Matrix, b: Vector, c: Vector,
                       runs: seq<seq<(Vector, Vector)>>, dirs: seq<seq<Vector>>,
                       run: seq<(Vector, Vector)>, d: seq<Vector>)
    requires Schedule(half, Q, A, b, c, runs, dirs)
    requires InnerRun(half, Q, A, b, c, MuAfter(|runs|), run, d)
    ensures Schedule(half, Q, A, b, c, runs + [run], dirs + [d])
  {
    AllRoundsExtend((r, rn, dr) => InnerRun(half, Q, A, b, c, MuAfter(r), rn, dr), runs, dirs, run, d);
  }

  /** The first |runs| outer rounds as the solver has run them so far: round r
      ran the inner loop at MuAfter(r), the rounds chain from y0, the first
      `moved` of them failed the small-step test, and the current iterate is
      where the last round ended (y0 before the first). */
  ghost predicate Progress(half: real, Q: Matrix, A: Matrix, b: Vector, c: Vector, y0: (Vector, Vector),
                           runs: seq<seq<(Vector, Vector)>>, dirs: seq<seq<Vector>>,
                           moved: nat, current: (Vector, Vector))
  {
    Schedule(half, Q, A, b, c, runs, dirs) && Chained(y0, runs) &&
    moved <= |runs| && KeptMoving(runs, moved) &&
    current == if |runs| == 0 then y0 else Final(runs[|runs| - 1])
  }

  /** Appending round k, run at MuAfter(k) from where round k - 1 ended,
      keeps the progress of the solve and adds its updates to the count. */
  lemma RecordRound(half: real, Q: Matrix, A: Matrix, b: Vector, c: Vector, y0: (Vector, Vector),
                    runs: seq<seq<(Vector, Vector)>>, dirs: seq<seq<Vector>>,
                    current: (Vector, Vector), run: seq<(Vector, Vector)>, d: seq<Vector>)
    requires Progress(half, Q, A, b, c, y0, runs, dirs, |runs|, current)
    requires InnerRun(half, Q, A, b, c, MuAfter(|runs|), run, d) && run[0] == current
    ensures Progress(half, Q, A, b, c, y0, runs + [run], dirs + [d], |runs|, Final(run))
    ensures Moved(run) ==> Progress(half, Q, A, b, c, y0, runs + [run], dirs + [d], |runs| + 1, Final(run))
    ensures TotalUpdates(dirs + [d]) == TotalUpdates(dirs) + |d|
  {
    ScheduleExtend(half, Q, A, b, c, runs, dirs, run, d);
    ChainedExtend(y0, runs, run);
    TotalUpdatesExtend(dirs, d);
    KeptMovingExtend(runs, |runs|, run);
  }

  /** One outer round: `xOld = x`, the inner loop at mu, and the
      small-step test `(x - xOld).squaredNorm() < tol`. */
  method OuterRound(half: real, Q: Matrix, A: Matrix, b: Vector, c: Vector, x: array<real>, nu: array<real>, mu: real)
    returns (updates: nat, small: bool, ghost run: seq<(Vector, Vector)>, ghost dirs: seq<Vector>)
    requires x != nu
    requires Shaped(Q, A, b, c, x[..], nu[..]) && Positive(x[..])
    modifies x, nu
    ensures Shaped(Q, A, b, c, x[..], nu[..]) && Positive(x[..])
    ensures updates <= MaxInnerIter
    ensures InnerRun(half, Q, A, b, c, mu, run, dirs) && updates == |dirs|
    ensures run[0] == (old(x[..]), old(nu[..])) && Final(run) == (x[..], nu[..])
    ensures small <==> SquaredNorm(Sub(x[..], old(x[..]))) < Tol
  {
    var xOld := x[..];
    var converged;
    updates, converged, run, dirs := NewtonLoop(half, Q, A, b, c, x, nu, mu);
    small := SquaredNorm(Sub(x[..], xOld)) < Tol;
  }

  /** The whole solver (asg02/main.cpp:16-132): at most MaxOuterIter rounds, round r an
      inner Newton loop at mu = 0.1^r, stopping as soon as x moved by a
      squared distance below tol during a round, and otherwise decaying mu by
      beta. `runs[r]` and `dirs[r]` are the iterates (x, nu) and directions of
      round r; the rounds chain from the caller's (x, nu) to the final one. */
  method SolveQPbyIPM(half: real, Q: Matrix, A: Matrix, b: Vector, c: Vector, x: array<real>, nu: array<real>)
    returns (report: Report, ghost runs: seq<seq<(Vector, Vector)>>, ghost dirs: seq<seq<Vector>>)
    requires x != nu
    requires Shaped(Q, A, b, c, x[..], nu[..]) && Positive(x[..])
    modifies x, nu
    ensures Positive(x[..])
    ensures 1 <= report.rounds <= MaxOuterIter && |runs| == report.rounds
    ensures Schedule(half, Q, A, b, c, runs, dirs)
    ensures Chained((old(x[..]), old(nu[..])), runs)
    ensures Final(runs[report.rounds - 1]) == (x[..], nu[..])
    ensures report.updates == TotalUpdates(dirs)
    ensures report.updates <= MaxInnerIter * report.rounds <= MaxInnerIter * MaxOuterIter
    ensures report.mu == MuAfter(report.Decays()) == Pow(0.1, report.Decays()) && report.mu > 0.0
    ensures !report.stoppedEarly ==> report.rounds == MaxOuterIter
    ensures KeptMoving(runs, report.Decays())
    ensures report.stoppedEarly ==> SmallStep(runs[report.rounds - 1])
  {
    ghost var y0 := (x[..], nu[..]);
    var mu := Mu0;
    var updates: nat, rounds: nat, stopped := 0, 0, false;
    runs, dirs := [], [];
    for outerIter := 0 to MaxOuterIter
      invariant rounds == outerIter && !stopped && |runs| == outerIter
      invariant mu == MuAfter(outerIter)
      invariant Shaped(Q, A, b, c, x[..], nu[..]) && Positive(x[..])
      invariant updates == TotalUpdates(dirs) && updates <= MaxInnerIter * outerIter
      invariant Progress(half, Q, A, b, c, y0, runs, dirs, outerIter, (x[..], nu[..]))
    {
      var k, small;
      ghost var current, run, d := (x[..], nu[..]), [], [];
      k, small, run, d := OuterRound(half, Q, A, b, c, x, nu, mu);
      RecordRound(half, Q, A, b, c, y0, runs, dirs, current, run, d);
      runs, dirs := runs + [run], dirs + [d];
      UpdateBudget(outerIter, updates, k);
      updates, rounds := updates + k, rounds + 1;
      if small {
        stopped := true;
        break;
      }
      mu := Beta * mu;
    }
    report := Report(rounds, updates, mu, stopped);
    MuSchedule(report.Decays());
    MuAfterIsPower(report.Decays());
    UpdateBudgetWithin(rounds);
  }
}
