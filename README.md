# Primal-dual interior-point solvers for LP and QP, in Dafny

This project models the two solvers of the internal-point-method repository:

- `solveLPbyIPM` (asg01/main.cpp) is written for the linear program min c^T x subject to A x = b and x >= 0, as its header comment states (asg01/main.cpp:11-14).
- `solveQPbyIPM` (asg02/main.cpp) is written for the quadratic program min 1/2 x^T Q x + c^T x under the same constraints (its header comment, asg02/main.cpp:11-14, writes the equality as A x = 0, but the code uses A x = b). As written, the `1/2` is an integer division, so the Q term vanishes and the function runs the LP iteration for any Q (see Findings).

Neither function is shown here to reach the optimum: the model states what each iteration and each round does, not that the iterates converge (see Left out).

Both run a log-barrier method with two nested loops over the caller's `x` and `nu`, which are updated in place:

- **Outer loop.** The barrier weight mu starts at 1 and is multiplied by beta = 0.1 after each round, for at most 10 rounds. The solve stops early when one round moves x by a squared distance below tol = 1e-6.
- **Inner loop.** At fixed mu, up to 100 damped Newton iterations are run on the barrier KKT system F(y) = [Fy1; Fy2] = 0. Each iteration:
  - computes the residual: the vector d of reciprocals 1/x_i, Fy1 and Fy2;
  - stops when ||F(y)|| < tol;
  - builds the Jacobian J from the diagonal matrix XXi of inverse squares;
  - takes the direction -J^{-1} F(y);
  - scales it by the fraction-to-boundary step length with tau = 0.995.

Modules:

- `Linalg`: dense vectors and row-major matrices over `real`, with the Eigen operations the solvers use.
- `StepRule`: the fraction-to-boundary loop, its reference definition and its properties. The main property is that x stays strictly positive whatever the Newton direction is.
- `Barrier`: the hard-coded constants, the geometric mu schedule, the record of outer rounds, and the `Report` datatype.
- `Kkt`: the pieces the two solvers share: d, XXi, the inverse, and the update of x and nu.
- `LpIpm`: the LP residual, the LP Jacobian, the inner loop and the solver.
- `QpIpm`: the QP versions of the same. They are parameterised by the coefficient written `1/2` in `solveQPbyIPM` (see Findings).

In the model, x and nu are `array<real>`, because the C++ functions take them by reference and assign them. The locals d, XXi, Fy and J are sequence values. The loops over d, XXi and the step length are `for` loops proved against their specification functions. Each solver method also returns two things the C++ functions do not:

- a `Report`: rounds started, Newton updates, final mu, and whether the solve stopped early;
- ghost traces: for every outer round, the iterates (x, nu) and the Newton directions of its inner loop. Its contract states through them what each round did: an inner loop at mu = 0.1^r, starting where the previous round ended.

## Model

| member | source | states |
|---|---|---|
| StepRule.StepAfter | asg01/main.cpp:102-109 | alpha after the first k indices of the loop lies in (0, 1] |
| StepRule.FractionToBoundary | asg01/main.cpp:101-109 | the step-length loop computes exactly StepLength with tau = 0.995, a value in (0, 1] |
| StepRule.StepLength | asg01/main.cpp:101-109 | the step length chosen for x and the Newton direction lies in (0, 1] |
| StepRule.StepAfterIsMinimum | asg01/main.cpp:102-109 | alpha is at most every positive candidate -(x_i/dy_i) tau met so far, and it is either 1 or one of those candidates |
| StepRule.AdmissibleIffDescent | asg01/main.cpp:105-107 | for x > 0 and tau > 0, an index offers a positive candidate exactly when its direction entry is negative |
| StepRule.StepLengthIsFractionToBoundary | asg01/main.cpp:101-109 | for x > 0 the step is min(1, tau * min{ -x_i/dy_i : dy_i < 0 }) |
| StepRule.NoDescentGivesFullStep | asg01/main.cpp:101-109 | a direction with no negative entry among the first n is taken with alpha = 1 |
| StepRule.FullStepIff | asg01/main.cpp:101-109 | alpha = 1 exactly when every negative entry has damped ratio tau * (-x_i/dy_i) >= 1 |
| StepRule.FullStepDespiteDescent | asg01/main.cpp:104-109 | for x = [1] and dy = [-0.5] the step is still 1: a negative entry alone does not shorten it |
| StepRule.StepAfterReadsHeadOnly | asg01/main.cpp:104-105 | the first k steps of the rule read only the first n direction entries |
| StepRule.StepLengthReadsHeadOnly | asg01/main.cpp:104-105 | the step length depends only on the head dy[..n] of the direction |
| StepRule.DampedStepStaysPositive | asg01/main.cpp:105-114 | a coordinate with a negative entry stays positive under any alpha up to its own candidate |
| StepRule.CoordinateStaysPositive | asg01/main.cpp:105-114 | one coordinate stays positive when alpha respects its candidate |
| StepRule.StepKeepsCoordinate | asg01/main.cpp:101-114 | for x > 0 and 0 < tau < 1, coordinate i of x + alpha * dy is positive |
| StepRule.StepKeepsPositive | asg01/main.cpp:101-114 | for x > 0 and 0 < tau < 1, x + alpha * dy[..n] is strictly positive for every direction dy |
| Barrier.MuAfter | asg01/main.cpp:128-129 | mu after k executions of `mu = beta*mu` from mu = 1 lies in (0, 1] |
| Barrier.MuAfterIsPower | asg01/main.cpp:21-22 | after k decays the barrier weight is 0.1^k |
| Barrier.MuSchedule | asg01/main.cpp:128-129 | mu stays positive, strictly decreases with each decay, and never exceeds its initial value 1 |
| Barrier.ChainedExtend | asg01/main.cpp:31-34 | appending a round that starts where the previous round ended (`xOld = x`) keeps the rounds chained from the caller's (x, nu) |
| Barrier.KeptMovingExtend | asg01/main.cpp:119-129 | appending a round keeps the record of rounds that moved x by squared distance >= tol, and extends it when the new round moved too |
| Barrier.TotalUpdatesExtend | asg01/main.cpp:31-41 | the total number of Newton updates grows by the updates of the appended round |
| Kkt.Reciprocals | asg01/main.cpp:64-67 | d has n entries with d_i * x_i = 1, and d > 0 when x > 0 |
| Kkt.FillReciprocals | asg01/main.cpp:65-67 | the element loop produces Reciprocals(x) |
| Kkt.InverseSquares | asg01/main.cpp:84-86 | XXi is n x n, its diagonal times x_i^2 is 1, and every off-diagonal entry is 0 |
| Kkt.InverseSquaresPositive | asg01/main.cpp:84-86 | for x > 0 the diagonal of XXi is strictly positive |
| Kkt.FillInverseSquares | asg01/main.cpp:84-86 | the diagonal-setting loop over the zero matrix produces InverseSquares(x) |
| Kkt.Inverse | asg01/main.cpp:98 | J.inverse() is a matrix of J's size and shape (nothing more, see Left out) |
| Kkt.NewtonDirection | asg01/main.cpp:95-98 | `-J.inverse() * Fy` is a direction with one entry per row of J |
| Kkt.NewtonUpdate | asg01/main.cpp:111-115 | the updated x keeps n entries and nu keeps m |
| Kkt.NewtonUpdateEntries | asg01/main.cpp:111-115 | x_i moves by alpha * dy_i for i < n and nu_j by alpha * dy_{n+j}, with the one step length alpha chosen from x and the head of dy |
| Kkt.NewtonUpdateKeepsPositive | asg01/main.cpp:100-115 | the new x of every Newton update from x > 0 is strictly positive |
| Kkt.AxpyInPlace | asg01/main.cpp:114-115 | the in-place `v = v + alpha * w` leaves v equal to Axpy of its old value |
| Kkt.ApplyNewtonUpdate | asg01/main.cpp:100-115 | the in-place update of x and nu yields exactly NewtonUpdate of the old values |
| LpIpm.Residual | asg01/main.cpp:74-75 | Fy has n + m entries |
| LpIpm.Jacobian | asg01/main.cpp:91-93 | J is (n+m) x (n+m) |
| LpIpm.ResidualLayout | asg01/main.cpp:63-75 | Fy_i = c_i - mu/x_i - (A^T nu)_i for i < n, and Fy_{n+j} = b_j - (A x)_j |
| LpIpm.ResidualVanishesIff | asg01/main.cpp:60-75 | Fy2 = 0 exactly when A x = b, and Fy1 = 0 exactly when (A^T nu)_i + mu/x_i = c_i for every i |
| LpIpm.JacobianLayout | asg01/main.cpp:82-93 | J has mu/x_i^2 on the top-left diagonal, 0 elsewhere in that block, -A^T top right, -A bottom left and a zero block bottom right |
| LpIpm.JacobianSymmetric | asg01/main.cpp:91-93 | J is symmetric |
| LpIpm.JacobianDiagonalPositive | asg01/main.cpp:84-93 | for x > 0 and mu > 0 the first n diagonal entries of J are positive |
| LpIpm.ComputeResidual | asg01/main.cpp:63-75 | the body's computation via d and the block concatenation equals Residual |
| LpIpm.BuildJacobian | asg01/main.cpp:82-93 | the body's assembly via XXi equals Jacobian |
| LpIpm.NewtonTraceExtend | asg01/main.cpp:41-117 | appending one Newton update to a valid trace gives a valid trace |
| LpIpm.NewtonIteration | asg01/main.cpp:43-115 | one pass of the inner body either finds ‖Fy‖ < tol and changes nothing, or makes one Newton update from a point with ‖Fy‖ >= tol; x stays positive |
| LpIpm.NewtonLoop | asg01/main.cpp:41-117 | at most 100 updates, each a Newton update from a point whose residual norm is >= tol; the loop ends converged (fewer than 100 updates and ‖Fy‖ < tol at the final point) or after exactly 100; x stays positive; the trace runs from the old state to the new one |
| LpIpm.ScheduleExtend | asg01/main.cpp:31-129 | appending a round run at mu = MuAfter(r) to r rounds that each ran at their own mu keeps that true of all rounds |
| LpIpm.RecordRound | asg01/main.cpp:31-129 | appending a round that ran at MuAfter(r) from where round r - 1 ended keeps the solver's progress (schedule, chain, record of moved rounds, current iterate) and adds its updates to the total |
| LpIpm.OuterRound | asg01/main.cpp:34-120 | one outer round: an inner Newton loop at mu from the current (x, nu) to the new one, with at most 100 updates, x kept positive, and the small-step flag set exactly when the squared movement of x is below tol |
| LpIpm.SolveLPbyIPM | asg01/main.cpp:17-133 | x stays positive; 1 to 10 rounds; round r is an inner loop at mu = MuAfter(r) = 0.1^r: a Newton trace of at most 100 updates that ends converged (fewer than 100 updates and ‖Fy‖ < tol at its last iterate) or after exactly 100; the rounds' (x, nu) chain from the caller's to the final (x, nu); the reported update count is the total of the rounds', at most 100 per round; final mu = 0.1^decays > 0; every round before the last moved x by squared distance >= tol; an early stop means the last round moved x by less than tol, and otherwise all 10 rounds ran |
| QpIpm.HessianTerm | asg02/main.cpp:68 | half (Q + Q^T) is symmetric and its entries are half * (Q_ij + Q_ji) |
| QpIpm.Residual | asg02/main.cpp:72-73 | Fy has n + m entries |
| QpIpm.Jacobian | asg02/main.cpp:91-93 | J is (n+m) x (n+m) |
| QpIpm.ResidualHeadEntry | asg02/main.cpp:62-68 | Fy_i = (half (Q+Q^T) x)_i + c_i - mu/x_i - (A^T nu)_i |
| QpIpm.ResidualLayout | asg02/main.cpp:62-73 | the first block entry by entry as above, and Fy_{n+j} = b_j - (A x)_j |
| QpIpm.JacobianLayout | asg02/main.cpp:82-93 | the top-left block is half (Q_ij + Q_ji) plus mu/x_i^2 on the diagonal; -A^T top right, -A bottom left, zero bottom right |
| QpIpm.JacobianTopLeftEntry | asg02/main.cpp:84-92 | one top-left entry of J is half (Q_ij + Q_ji), plus mu/x_i^2 on the diagonal |
| QpIpm.JacobianSymmetric | asg02/main.cpp:91-93 | J is symmetric for every coefficient and every Q, symmetric or not |
| QpIpm.OneVariableExample | asg02/main.cpp:68-92 | for Q = [2], c = [0], x = [1], mu = 1 with no constraints, J_00 = 4 half + 1 and Fy_0 = 4 half - 1 for any coefficient |
| QpIpm.AsWrittenIgnoresQ | asg02/main.cpp:68 | with `1/2` evaluated as C++ does (0), the QP residual and Jacobian equal the LP ones for every Q |
| QpIpm.AsWrittenDropsHessian | asg02/main.cpp:92 | for Q = [2], x = [1], mu = 1 and no constraints, the as-written J_00 is 1 and Fy_0 is -1, where the intended values are 3 and 1 |
| QpIpm.IntendedIsGradientAndHessian | asg02/main.cpp:68 | with the coefficient 1/2 and symmetric Q, the quadratic term is Q itself, Fy1 = Q x + c - mu/x - A^T nu, and the top-left block is Q + mu diag(1/x_i^2) |
| QpIpm.ComputeResidual | asg02/main.cpp:62-73 | the body's computation via d equals Residual |
| QpIpm.BuildJacobian | asg02/main.cpp:82-93 | the body's assembly via XXi equals Jacobian |
| QpIpm.NewtonTraceExtend | asg02/main.cpp:40-116 | appending one Newton update to a valid trace gives a valid trace |
| QpIpm.NewtonIteration | asg02/main.cpp:42-114 | the contract of LpIpm.NewtonIteration, with the QP residual |
| QpIpm.NewtonLoop | asg02/main.cpp:40-116 | the contract of LpIpm.NewtonLoop, with the QP residual |
| QpIpm.ScheduleExtend | asg02/main.cpp:30-128 | the contract of LpIpm.ScheduleExtend, with QP rounds |
| QpIpm.RecordRound | asg02/main.cpp:30-128 | the contract of LpIpm.RecordRound, with QP rounds |
| QpIpm.OuterRound | asg02/main.cpp:33-119 | the contract of LpIpm.OuterRound, with the QP inner loop |
| QpIpm.SolveQPbyIPM | asg02/main.cpp:16-132 | the contract of LpIpm.SolveLPbyIPM, for the QP solver |

## Left out

- Console output (all `cout` lines) and the values `f` and `logX`. They are computed only to be printed and influence nothing.
- The `main` drivers with their fixed example problems.
- Kkt.Inverse: Eigen's dense `J.inverse()` is not part of this model. The result is constrained only to be a matrix of J's size. The Newton direction is therefore arbitrary, and the properties proved about the loops (positivity of x, iteration bounds, the stopping tests, the mu schedule) hold for any direction. Nothing is claimed about J * Jinv.
- LpIpm.NewtonLoop and QpIpm.NewtonLoop: no convergence claim. Whether the residual falls below tol depends on the inverse and on floating-point behaviour, neither of which is modelled.
- Floating point: the model computes in exact `real` arithmetic, so rounding, overflow, infinities and NaN are not modelled. A zero direction entry, for which the C++ loop divides by zero, is skipped. Under IEEE arithmetic the resulting -inf, +inf or NaN never passes `newAlpha > 0 && alpha > newAlpha`, so skipping it is the same decision.
- The norm test `Fy.norm() < tol` is stated as `SquaredNorm(Fy) < Tol * Tol`. Both sides are non-negative (Linalg.SquaredNormNonNegative), so this is the same test without the square root.
- LpIpm.SolveLPbyIPM and QpIpm.SolveQPbyIPM require the initial x to be strictly positive. A zero entry makes `d(i) = 1 / x(i)` divide by zero. A negative entry does not stop the C++ code, because `logX` is only printed; but the positivity invariant (StepRule.StepKeepsPositive) and the closed form of the step rule hold only from x > 0. Both drivers start from x = 1 (asg01/main.cpp:167, asg02/main.cpp:162). Runs from an x with a negative entry are not modelled.
- StepRule.NoDescentGivesFullStep: only one direction of "alpha = 1 exactly when no direction entry is negative" holds. StepRule.FullStepDespiteDescent is an input with a negative entry and alpha = 1. StepRule.FullStepIff states the exact condition instead.
- Kkt.ApplyNewtonUpdate, LpIpm.NewtonIteration, LpIpm.NewtonLoop, LpIpm.OuterRound, LpIpm.SolveLPbyIPM and their QpIpm counterparts require `x != nu`. The C++ parameters `VectorXd& x, VectorXd& nu` could name the same vector when n = m; that aliased call is not modelled.
- The shapes of the Eigen objects (A is m x n, |c| = n, |nu| = m, Q is n x n) are preconditions. Eigen checks them only by assertion.

## Findings

| source | as written | input that shows it | evidently intended | confidence | as-written member | corrected member |
|---|---|---|---|---|---|---|
| asg02/main.cpp:68, asg02/main.cpp:92 | `1/2 * (Q+Q.transpose())` uses C++ int division, so the coefficient is 0; the quadratic term vanishes from Fy1 and from J, and the QP solver computes the LP solver's iterates whatever Q is | Q = [2], x = [1], mu = 1, no constraints: J_00 = 1 and Fy_0 = -1, where the Hessian is 3 and the gradient 1 | coefficient 0.5, giving Fy1 = Q x + c - mu/x - A^T nu and top-left block Q + mu XXi for symmetric Q | not executed | QpIpm.AsWrittenIgnoresQ | QpIpm.IntendedIsGradientAndHessian |

In `QpIpm` the coefficient is the parameter `half`. `QpIpm.HalfAsWritten` is the value as written (0). `QpIpm.HalfIntended` is the corrected value (0.5). Every contract of `QpIpm.SolveQPbyIPM` holds for both.
