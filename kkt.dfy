/**
 Pieces of the barrier-KKT Newton step that the LP and the QP solver share
 word for word: the vector d of reciprocals (asg01/main.cpp:65-67), the
 diagonal matrix XXi of inverse squares (asg01/main.cpp:84-86), the dense
 inverse of the Jacobian (asg01/main.cpp:98) and the update of x and nu with
 one step length (asg01/main.cpp:111-115); asg02/main.cpp repeats each of them.
 */
module Kkt {
  import opened Linalg
  import opened StepRule

  /** The vector d with d_i = 1 / x_i. */
  function Reciprocals(x: Vector): (d: Vector)
    requires NonZero(x)
    ensures |d| == |x|
    ensures forall i :: 0 <= i < |x| ==> d[i] * x[i] == 1.0
    ensures Positive(x) ==> Positive(d)
  {
    seq(|x|, i requires 0 <= i < |x| => 1.0 / x[i])
  }

  /** The loop that fills d element by element. */
  method FillReciprocals(x: Vector) returns (d: Vector)
    requires NonZero(x)
    ensures d == Reciprocals(x)
  {
    d := Zeros(|x|);
    for i := 0 to |x|
      invariant |d| == |x|
      invariant forall j :: 0 <= j < i ==> d[j] == 1.0 / x[j]
    {
      d := d[i := 1.0 / x[i]];
    }
  }

  lemma SquareOfPositive(a: real)
    requires a > 0.0
    ensures a * a > 0.0
  {
  }

  /** XXi: the n x n diagonal matrix with 1 / x_i^2 on its diagonal. */
  function InverseSquares(x: Vector): (D: Matrix)
    requires NonZero(x)
    ensures IsMatrix(D, |x|, |x|)
    ensures forall i :: 0 <= i < |x| ==> D[i][i] * (x[i] * x[i]) == 1.0
    ensures forall i, j :: 0 <= i < |x| && 0 <= j < |x| && i != j ==> D[i][j] == 0.0
  {
    seq(|x|, i requires 0 <= i < |x| =>
      seq(|x|, j requires 0 <= j < |x| => if i == j then 1.0 / (x[i] * x[i]) else 0.0))
  }

  /** For x > 0 the diagonal of XXi is strictly positive. */
  lemma InverseSquaresPositive(x: Vector, i: nat)
    requires Positive(x) && i < |x|
    ensures InverseSquares(x)[i][i] > 0.0
  {
    SquareOfPositive(x[i]);
  }

  /** The loop that sets the diagonal of the zero matrix XXi. */
  method FillInverseSquares(x: Vector) returns (D: Matrix)
    requires NonZero(x)
    ensures D == InverseSquares(x)
  {
    var n := |x|;
    D := ZeroMatrix(n, n);
    for i := 0 to n
      invariant IsMatrix(D, n, n)
      invariant forall r, c :: 0 <= r < n && 0 <= c < n ==>
                  D[r][c] == if r == c && r < i then 1.0 / (x[r] * x[r]) else 0.0
    {
      D := D[i := D[i][i := 1.0 / (x[i] * x[i])]];
    }
    forall r | 0 <= r < n ensures D[r] == InverseSquares(x)[r] {
      assert forall c :: 0 <= c < n ==> D[r][c] == InverseSquares(x)[r][c];
    }
  }

  /** `J.inverse()`. Eigen's dense inverse is not part of this model: the
      result is some square matrix of J's size, and nothing else is assumed
      about its entries. */
  method Inverse(J: Matrix) returns (Jinv: Matrix)
    requires IsMatrix(J, |J|, |J|)
    ensures IsMatrix(Jinv, |J|, |J|)
  {
    assert IsMatrix(ZeroMatrix(|J|, |J|), |J|, |J|);
    Jinv :| IsMatrix(Jinv, |J|, |J|);
  }

  /** `DeltaY = -J.inverse() * Fy`: a direction with one entry per row of J. */
  method NewtonDirection(J: Matrix, Fy: Vector) returns (DeltaY: Vector)
    requires IsMatrix(J, |Fy|, |Fy|)
    ensures |DeltaY| == |Fy|
  {
    var Jinv := Inverse(J);
    DeltaY := MatVec(MatNeg(Jinv, |Fy|, |Fy|), Fy);
  }

  /** The new (x, nu) after one Newton update of `x = x + alpha * dy.head(n)`
      and `nu = nu + alpha * dy.tail(m)`, both scaled by the step length
      the fraction-to-boundary rule picks from x and the head of dy. */
  function NewtonUpdate(x: Vector, nu: Vector, dy: Vector): (r: (Vector, Vector))
    requires |dy| == |x| + |nu|
    ensures |r.0| == |x| && |r.1| == |nu|
  {
    var alpha := StepLength(x, dy, Tau);
    (Axpy(x, alpha, dy[..|x|]), Axpy(nu, alpha, dy[|x|..]))
  }

  /** x moves along the first n entries of dy and nu along the last m, both
      with the same step length. */
  lemma NewtonUpdateEntries(x: Vector, nu: Vector, dy: Vector)
    requires |dy| == |x| + |nu|
    ensures forall i :: 0 <= i < |x| ==>
              NewtonUpdate(x, nu, dy).0[i] == x[i] + StepLength(x, dy, Tau) * dy[i]
    ensures forall j :: 0 <= j < |nu| ==>
              NewtonUpdate(x, nu, dy).1[j] == nu[j] + StepLength(x, dy, Tau) * dy[|x| + j]
  {
    var alpha := StepLength(x, dy, Tau);
    AxpyHead(x, alpha, dy);
    AxpyTail(nu, alpha, dy, |x|);
  }

  lemma AxpyHead(x: Vector, alpha: real, dy: Vector)
    requires |x| <= |dy|
    ensures forall i :: 0 <= i < |x| ==> Axpy(x, alpha, dy[..|x|])[i] == x[i] + alpha * dy[i]
  {
    assert forall i :: 0 <= i < |x| ==> dy[..|x|][i] == dy[i];
  }

  lemma AxpyTail(nu: Vector, alpha: real, dy: Vector, n: nat)
    requires |dy| == n + |nu|
    ensures forall j :: 0 <= j < |nu| ==> Axpy(nu, alpha, dy[n..])[j] == nu[j] + alpha * dy[n + j]
  {
    assert forall j :: 0 <= j < |nu| ==> dy[n..][j] == dy[n + j];
  }

  /** Whatever the direction, the update keeps x strictly positive. */
  lemma NewtonUpdateKeepsPositive(x: Vector, nu: Vector, dy: Vector)
    requires |dy| == |x| + |nu|
    requires Positive(x)
    ensures Positive(NewtonUpdate(x, nu, dy).0)
  {
    StepKeepsPositive(x, dy, Tau);
  }

  /** `v = v + alpha * w`, assigned in place. */
  method AxpyInPlace(v: array<real>, alpha: real, w: Vector)
    requires |w| == v.Length
    modifies v
    ensures v[..] == Axpy(old(v[..]), alpha, w)
  {
    forall i | 0 <= i < v.Length {
      v[i] := v[i] + alpha * w[i];
    }
  }

  /** The step-length loop followed by the in-place update of x and nu. */
  method ApplyNewtonUpdate(x: array<real>, nu: array<real>, DeltaY: Vector)
    requires x != nu && |DeltaY| == x.Length + nu.Length
    modifies x, nu
    ensures (x[..], nu[..]) == NewtonUpdate(old(x[..]), old(nu[..]), DeltaY)
  {
    var n := x.Length;
    var alpha := FractionToBoundary(x[..], DeltaY);
    AxpyInPlace(x, alpha, DeltaY[..n]);
    AxpyInPlace(nu, alpha, DeltaY[n..]);
  }
}
