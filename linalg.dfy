/**
 Dense vectors and matrices over exact reals: the fragment of Eigen's
 VectorXd / MatrixXd algebra that the interior-point solvers use.
 A matrix is a sequence of rows.
 */
module Linalg {

  type Vector = seq<real>
  type Matrix = seq<seq<real>>

  /** M has `rows` rows, each of length `cols`. */
  predicate IsMatrix(M: Matrix, rows: nat, cols: nat) {
    |M| == rows && forall i :: 0 <= i < rows ==> |M[i]| == cols
  }

  /** Every entry of v is strictly positive. */
  predicate Positive(v: Vector) {
    forall i :: 0 <= i < |v| ==> v[i] > 0.0
  }

  /** No entry of v is zero, so its reciprocal exists. */
  predicate NonZero(v: Vector) {
    forall i :: 0 <= i < |v| ==> v[i] != 0.0
  }

  /** M is square and equal to its transpose. */
  predicate Symmetric(M: Matrix) {
    IsMatrix(M, |M|, |M|) &&
    forall i, j :: 0 <= i < |M| && 0 <= j < |M| ==> M[i][j] == M[j][i]
  }

  function Zeros(n: nat): (z: Vector)
    ensures |z| == n && forall i :: 0 <= i < n ==> z[i] == 0.0
  {
    seq(n, i => 0.0)
  }

  /** MatrixXd::Zero(rows, cols). */
  function ZeroMatrix(rows: nat, cols: nat): (Z: Matrix)
    ensures IsMatrix(Z, rows, cols)
    ensures forall i, j :: 0 <= i < rows && 0 <= j < cols ==> Z[i][j] == 0.0
  {
    seq(rows, i => seq(cols, j => 0.0))
  }

  function Dot(u: Vector, v: Vector): real
    requires |u| == |v|
    decreases |u|
  {
    if |u| == 0 then 0.0 else u[0] * v[0] + Dot(u[1..], v[1..])
  }

  /** u.squaredNorm(). */
  function SquaredNorm(v: Vector): real {
    Dot(v, v)
  }

  function Add(u: Vector, v: Vector): (r: Vector)
    requires |u| == |v|
    ensures |r| == |u| && forall i :: 0 <= i < |u| ==> r[i] == u[i] + v[i]
  {
    seq(|u|, i requires 0 <= i < |u| => u[i] + v[i])
  }

  function Sub(u: Vector, v: Vector): (r: Vector)
    requires |u| == |v|
    ensures |r| == |u| && forall i :: 0 <= i < |u| ==> r[i] == u[i] - v[i]
  {
    seq(|u|, i requires 0 <= i < |u| => u[i] - v[i])
  }

  function Scale(a: real, v: Vector): (r: Vector)
    ensures |r| == |v| && forall i :: 0 <= i < |v| ==> r[i] == a * v[i]
  {
    seq(|v|, i requires 0 <= i < |v| => a * v[i])
  }

  /** v + alpha * w, the update `x + alpha * DeltaY.head(n)`. */
  function Axpy(v: Vector, alpha: real, w: Vector): (r: Vector)
    requires |v| == |w|
    ensures |r| == |v| && forall i :: 0 <= i < |v| ==> r[i] == v[i] + alpha * w[i]
  {
    Add(v, Scale(alpha, w))
  }

  /** M * v. */
  function MatVec(M: Matrix, v: Vector): (r: Vector)
    requires forall i :: 0 <= i < |M| ==> |M[i]| == |v|
    ensures |r| == |M| && forall i :: 0 <= i < |M| ==> r[i] == Dot(M[i], v)
  {
    seq(|M|, i requires 0 <= i < |M| => Dot(M[i], v))
  }

  /** The column j of M, as a vector. */
  function Column(M: Matrix, j: nat): (col: Vector)
    requires forall i :: 0 <= i < |M| ==> j < |M[i]|
    ensures |col| == |M| && forall i :: 0 <= i < |M| ==> col[i] == M[i][j]
  {
    seq(|M|, i requires 0 <= i < |M| => M[i][j])
  }

  /** M.transpose() of a rows x cols matrix; cols is explicit so that a matrix
      with no rows still transposes to the right shape. */
  function Transpose(M: Matrix, cols: nat): (T: Matrix)
    requires IsMatrix(M, |M|, cols)
    ensures IsMatrix(T, cols, |M|)
    ensures forall j, i :: 0 <= j < cols && 0 <= i < |M| ==> T[j][i] == M[i][j]
  {
    seq(cols, j requires 0 <= j < cols => Column(M, j))
  }

  function MatAdd(M: Matrix, N: Matrix, rows: nat, cols: nat): (S: Matrix)
    requires IsMatrix(M, rows, cols) && IsMatrix(N, rows, cols)
    ensures IsMatrix(S, rows, cols)
    ensures forall i, j :: 0 <= i < rows && 0 <= j < cols ==> S[i][j] == M[i][j] + N[i][j]
  {
    seq(rows, i requires 0 <= i < rows => Add(M[i], N[i]))
  }

  function MatScale(a: real, M: Matrix, rows: nat, cols: nat): (S: Matrix)
    requires IsMatrix(M, rows, cols)
    ensures IsMatrix(S, rows, cols)
    ensures forall i, j :: 0 <= i < rows && 0 <= j < cols ==> S[i][j] == a * M[i][j]
  {
    seq(rows, i requires 0 <= i < rows => Scale(a, M[i]))
  }
  /** Q + Q^T is symmetric. */
  lemma SymmetricPart(Q: Matrix, n: nat)
    requires IsMatrix(Q, n, n)
    ensures Symmetric(MatAdd(Q, Transpose(Q, n), n, n))
  {
    var S := MatAdd(Q, Transpose(Q, n), n, n);
    forall i, j | 0 <= i < n && 0 <= j < n ensures S[i][j] == S[j][i] {
      assert S[i][j] == Q[i][j] + Q[j][i];
      assert S[j][i] == Q[j][i] + Q[i][j];
    }
  }

  /** Scaling a symmetric matrix keeps it symmetric. */
  lemma ScaleKeepsSymmetric(a: real, S: Matrix, n: nat)
    requires IsMatrix(S, n, n) && Symmetric(S)
    ensures Symmetric(MatScale(a, S, n, n))
  {
    var H := MatScale(a, S, n, n);
    forall i, j | 0 <= i < n && 0 <= j < n ensures H[i][j] == H[j][i] {
      assert H[i][j] == a * S[i][j] && H[j][i] == a * S[j][i];
    }
  }


  /** Unary minus on a matrix. */
  function MatNeg(M: Matrix, rows: nat, cols: nat): (S: Matrix)
    requires IsMatrix(M, rows, cols)
    ensures IsMatrix(S, rows, cols)
    ensures forall i, j :: 0 <= i < rows && 0 <= j < cols ==> S[i][j] == -M[i][j]
  {
    seq(rows, i requires 0 <= i < rows => Scale(-1.0, M[i]))
  }

  /** L and R side by side: each row of L followed by the same row of R. */
  function SideBySide(L: Matrix, R: Matrix, rows: nat, lc: nat, rc: nat): (S: Matrix)
    requires IsMatrix(L, rows, lc) && IsMatrix(R, rows, rc)
    ensures IsMatrix(S, rows, lc + rc)
    ensures forall i, j :: 0 <= i < rows && 0 <= j < lc ==> S[i][j] == L[i][j]
    ensures forall i, j :: 0 <= i < rows && lc <= j < lc + rc ==> S[i][j] == R[i][j - lc]
  {
    seq(rows, i requires 0 <= i < rows => L[i] + R[i])
  }

  /** The comma initialiser `J << TL, TR, BL, BR` of an (n+m) x (n+m) matrix
      from an n x n, an n x m, an m x n and an m x m block. */
  function Blocks(TL: Matrix, TR: Matrix, BL: Matrix, BR: Matrix, n: nat, m: nat): (J: Matrix)
    requires IsMatrix(TL, n, n) && IsMatrix(TR, n, m)
    requires IsMatrix(BL, m, n) && IsMatrix(BR, m, m)
    ensures IsMatrix(J, n + m, n + m)
    ensures forall i, j :: 0 <= i < n && 0 <= j < n ==> J[i][j] == TL[i][j]
    ensures forall i, j :: 0 <= i < n && n <= j < n + m ==> J[i][j] == TR[i][j - n]
    ensures forall i, j :: n <= i < n + m && 0 <= j < n ==> J[i][j] == BL[i - n][j]
    ensures forall i, j :: n <= i < n + m && n <= j < n + m ==> J[i][j] == BR[i - n][j - n]
  {
    var top, bottom := SideBySide(TL, TR, n, n, m), SideBySide(BL, BR, m, n, m);
    assert forall i :: n <= i < n + m ==> (top + bottom)[i] == bottom[i - n];
    top + bottom
  }

  /** A zero left factor gives a zero dot product. */
  lemma {:induction false} DotZeroLeft(u: Vector, v: Vector)
    requires |u| == |v|
    requires forall i :: 0 <= i < |u| ==> u[i] == 0.0
    ensures Dot(u, v) == 0.0
  {
    if |u| > 0 {
      DotZeroLeft(u[1..], v[1..]);
    }
  }

  /** A squared norm is never negative, so ||v|| < t and ||v||^2 < t^2 agree for t > 0. */
  lemma {:induction false} SquaredNormNonNegative(v: Vector)
    ensures SquaredNorm(v) >= 0.0
  {
    if |v| > 0 {
      SquaredNormNonNegative(v[1..]);
      assert v[0] * v[0] >= 0.0;
    }
  }

  /** M * v for a matrix with all-zero entries is the zero vector. */
  lemma ZeroMatVec(M: Matrix, v: Vector)
    requires IsMatrix(M, |M|, |v|)
    requires forall i, j :: 0 <= i < |M| && 0 <= j < |v| ==> M[i][j] == 0.0
    ensures MatVec(M, v) == Zeros(|M|)
  {
    forall i | 0 <= i < |M| ensures MatVec(M, v)[i] == 0.0 {
      DotZeroLeft(M[i], v);
    }
  }
}
