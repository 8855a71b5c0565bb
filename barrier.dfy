/**
 The constants both solvers hard-code (asg01/main.cpp:21-26,
 asg02/main.cpp:20-25) and the geometric barrier schedule they follow.
 */
module Barrier {
  import opened Linalg

  /** Initial barrier weight `mu`. */
  const Mu0: real := 1.0
  /** Decay factor `beta` applied to mu after each unconverged outer round. */
  const Beta: real := 0.1
  const MaxOuterIter: nat := 10
  const MaxInnerIter: nat := 100
  /** Stopping tolerance `tol` (1e-6), used by both stopping tests. */
  const Tol: real := 0.000001

  function Pow(base: real, k: nat): real
    decreases k
  {
    if k == 0 then 1.0 else base * Pow(base, k - 1)
  }

  /** mu after k decays of `mu = beta * mu`, starting from Mu0. */
  function MuAfter(k: nat): (mu: real)
    ensures 0.0 < mu <= Mu0
    decreases k
  {
    if k == 0 then Mu0 else Beta * MuAfter(k - 1)
  }

  /** The schedule is geometric: after k decays mu is 0.1^k. */
  lemma {:induction false} MuAfterIsPower(k: nat)
    ensures MuAfter(k) == Pow(0.1, k)
  {
    if k > 0 {
      MuAfterIsPower(k - 1);
    }
  }

  /** The barrier weight stays strictly positive, strictly decreases with
      every decay, and never exceeds its initial value. */
  lemma {:induction false} MuSchedule(k: nat)
    ensures 0.0 < MuAfter(k + 1) < MuAfter(k) <= Mu0
  {
    if k > 0 {
      MuSchedule(k - 1);
    }
  }

  /** The last iterate of a non-empty run. */
  function Final<T>(run: seq<T>): T
    requires |run| > 0
  {
    run[|run| - 1]
  }

  /** The iterates (x, nu) of the outer rounds so far, one non-empty run per
      round: the first round starts at y0 (the caller's x and nu) and every
      later round starts where the previous one ended (`xOld = x`). */
  ghost predicate Chained(y0: (Vector, Vector), runs: seq<seq<(Vector, Vector)>>) {
    (forall r :: 0 <= r < |runs| ==> |runs[r]| > 0) &&
    (|runs| > 0 ==> runs[0][0] == y0) &&
    (forall r :: 0 < r < |runs| ==> runs[r][0] == Final(runs[r - 1]))
  }

  lemma ChainedExtend(y0: (Vector, Vector), runs: seq<seq<(Vector, Vector)>>, run: seq<(Vector, Vector)>)
    requires Chained(y0, runs) && |run| > 0
    requires run[0] == if |runs| == 0 then y0 else Final(runs[|runs| - 1])
    ensures Chained(y0, runs + [run])
  {
    var rs := runs + [run];
    forall r | 0 < r < |rs| ensures rs[r][0] == Final(rs[r - 1]) {
      if r < |runs| {
        assert rs[r] == runs[r] && rs[r - 1] == runs[r - 1];
      }
    }
  }

  /** Appending a round that satisfies `P` at its own index keeps "every
      round r satisfies P at index r". */
  lemma AllRoundsExtend<T, U>(P: (nat, T, U) -> bool, xs: seq<T>, ys: seq<U>, x: T, y: U)
    requires |xs| == |ys| && forall r :: 0 <= r < |xs| ==> P(r, xs[r], ys[r])
    requires P(|xs|, x, y)
    ensures forall r :: 0 <= r < |xs| + 1 ==> P(r, (xs + [x])[r], (ys + [y])[r])
  {
    forall r | 0 <= r < |xs| + 1 ensures P(r, (xs + [x])[r], (ys + [y])[r]) {
      if r < |xs| {
        assert (xs + [x])[r] == xs[r] && (ys + [y])[r] == ys[r];
      }
    }
  }

  /** Round r moved x by a squared distance of at least tol (the test
      `(x - xOld).squaredNorm() < tol` failed). */
  ghost predicate Moved(run: seq<(Vector, Vector)>)
    requires |run| > 0
  {
    |run[0].0| == |Final(run).0| && SquaredNorm(Sub(Final(run).0, run[0].0)) >= Tol
  }

  /** Round r moved x by a squared distance below tol, so the small-step
      test ended the solve. */
  ghost predicate SmallStep(run: seq<(Vector, Vector)>)
    requires |run| > 0
  {
    |run[0].0| == |Final(run).0| && SquaredNorm(Sub(Final(run).0, run[0].0)) < Tol
  }

  /** Each of the first k rounds moved x, so each of them went on to decay mu. */
  ghost predicate KeptMoving(runs: seq<seq<(Vector, Vector)>>, k: nat)
    requires k <= |runs|
    requires forall r :: 0 <= r < |runs| ==> |runs[r]| > 0
  {
    forall r :: 0 <= r < k ==> Moved(runs[r])
  }

  lemma KeptMovingExtend(runs: seq<seq<(Vector, Vector)>>, k: nat, run: seq<(Vector, Vector)>)
    requires k <= |runs| && |run| > 0
    requires forall r :: 0 <= r < |runs| ==> |runs[r]| > 0
    requires KeptMoving(runs, k)
    ensures KeptMoving(runs + [run], k)
    ensures k == |runs| && Moved(run) ==> KeptMoving(runs + [run], k + 1)
  {
    var rs := runs + [run];
    assert forall r :: 0 <= r < |runs| ==> rs[r] == runs[r];
  }

  /** The total number of Newton updates made over the rounds. */
  function TotalUpdates(dirs: seq<seq<Vector>>): nat
    decreases |dirs|
  {
    if |dirs| == 0 then 0 else TotalUpdates(dirs[..|dirs| - 1]) + |dirs[|dirs| - 1]|
  }

  lemma TotalUpdatesExtend(dirs: seq<seq<Vector>>, d: seq<Vector>)
    ensures TotalUpdates(dirs + [d]) == TotalUpdates(dirs) + |d|
  {
    assert (dirs + [d])[..|dirs|] == dirs;
  }

  /** A round of at most MaxInnerIter updates keeps the total within
      MaxInnerIter per round. */
  lemma UpdateBudget(rounds: nat, updates: nat, more: nat)
    requires updates <= MaxInnerIter * rounds && more <= MaxInnerIter
    ensures updates + more <= MaxInnerIter * (rounds + 1)
  {
  }

  lemma UpdateBudgetWithin(rounds: nat)
    requires rounds <= MaxOuterIter
    ensures MaxInnerIter * rounds <= MaxInnerIter * MaxOuterIter
  {
  }

  /** What a solve reports besides the final iterate: the number of outer
      rounds started, the total number of Newton updates, the final barrier
      weight, and whether the small-step test ended the solve early. */
  datatype Report = Report(rounds: nat, updates: nat, mu: real, stoppedEarly: bool) {
    /** How often mu was decayed: once per outer round that did not stop early. */
    function Decays(): nat {
      if stoppedEarly && rounds > 0 then rounds - 1 else rounds
    }
  }
}
