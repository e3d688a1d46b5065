/** What the condensation of `process_conditions` and the scatter of `solve`
    achieve together: a solution of the reduced system is a solution of the
    full system at every degree of freedom that is not supported. */
module Equilibrium {
  import opened Options
  import opened Matrices
  import opened Conditions

  /** Setting a zero entry i of w to a adds u[i] * a to u . w. */
  lemma {:induction false} DotUpdate(u: Vector, w: Vector, i: nat, a: real)
    requires |u| == |w| && i < |w| && w[i] == 0.0
    ensures Dot(u, w[i := a]) == Dot(u, w) + u[i] * a
    decreases |u|
  {
    var n := |u| - 1;
    if i == n {
      assert w[i := a][..n] == w[..n];
    } else {
      assert w[i := a][..n] == w[..n][i := a];
      DotUpdate(u[..n], w[..n], i, a);
    }
  }

  lemma {:induction false} DotSnoc(s: Vector, t: Vector, a: real, b: real)
    requires |s| == |t|
    ensures Dot(s + [a], t + [b]) == Dot(s, t) + a * b
  {
    assert (s + [a])[..|s|] == s;
    assert (t + [b])[..|t|] == t;
  }

  /** One step of the scatter: writing a into the zero entry i of w extends
      the dot product by row[i] * a. */
  lemma {:induction false} DotScatterStep(row: Vector, w: Vector, i: nat, a: real, s: Vector, t: Vector)
    requires |row| == |w| && i < |w| && w[i] == 0.0 && |s| == |t| && Dot(row, w) == Dot(s, t)
    ensures Dot(row, w[i := a]) == Dot(s + [row[i]], t + [a])
  {
    DotUpdate(row, w, i, a);
    DotSnoc(s, t, row[i], a);
  }

  lemma {:induction false} SelectSnoc(row: Vector, idx: seq<int>)
    requires 0 < |idx| && IndicesBelow(idx, |row|)
    ensures Select(row, idx) == Select(row, idx[..|idx| - 1]) + [row[idx[|idx| - 1]]]
  {
  }

  /** A row times the zero vector with x scattered into it at distinct
      indices is the row's entries at those indices times x. */
  lemma {:induction false} DotScatter(row: Vector, idx: seq<int>, x: Vector)
    requires |idx| <= |x| && IndicesBelow(idx, |row|) && StrictlyIncreasing(idx)
    ensures Dot(row, Scatter(Zeros(|row|), idx, x)) == Dot(Select(row, idx), x[..|idx|])
    decreases |idx|
  {
    if |idx| == 0 {
      DotZeroRight(row);
    } else {
      var k := |idx| - 1;
      var front := idx[..k];
      var i := idx[k];
      assert IndicesBelow(front, |row|);
      SelectSnoc(row, idx);
      assert x[..|idx|] == x[..k] + [x[k]];
      var w := Scatter(Zeros(|row|), front, x);
      assert StrictlyIncreasing(front);
      ScatterAt(Zeros(|row|), front, x);
      assert i !in front;
      DotScatter(row, front, x);
      DotScatterStep(row, w, i, x[k], Select(row, front), x[..k]);
    }
  }

  /** The rows of a sub-matrix are the selected entries of the selected rows. */
  lemma {:induction false} SubMatrixRow(m: Matrix, idx: seq<int>, n: nat, k: nat)
    requires IsMatrix(m, n, n) && IndicesBelow(idx, n) && k < |idx|
    ensures SubMatrix(m, idx)[k] == Select(m[idx[k]], idx)
  {
  }

  /** The reduced matrix of a symmetric matrix is symmetric, so the reduced
      system has the same structure as the full one. */
  lemma {:induction false} SubMatrixSymmetric(m: Matrix, idx: seq<int>, n: nat)
    requires IsMatrix(m, n, n) && Symmetric(m) && IndicesBelow(idx, n)
    ensures IsMatrix(SubMatrix(m, idx), |idx|, |idx|) && Symmetric(SubMatrix(m, idx))
  {
    var r := SubMatrix(m, idx);
    forall a, b | 0 <= a < |idx| && 0 <= b < |idx| ensures r[a][b] == r[b][a] {
      assert r[a][b] == m[idx[a]][idx[b]];
    }
  }

  /** Row k of the reduced system is row kept[k] of the full one, applied
      to the scattered vector. */
  lemma {:induction false} RowBalances(f0: Vector, m0: Matrix, n: nat, kept: seq<int>, x: Vector, k: nat)
    requires n <= |f0| && IsMatrix(m0, n, n) && IndicesBelow(kept, n) && StrictlyIncreasing(kept)
    requires |x| == |kept| && k < |kept| && IsMatrix(SubMatrix(m0, kept), |x|, |x|)
    requires MatVec(SubMatrix(m0, kept), x)[k] == Select(f0, kept)[k]
    ensures Dot(m0[kept[k]], Scatter(Zeros(n), kept, x)) == f0[kept[k]]
  {
    DotScatter(m0[kept[k]], kept, x);
    assert x[..|kept|] == x;
    SubMatrixRow(m0, kept, n, k);
  }

  /** If x solves the reduced system that `process_conditions` builds from
      the displacement vector d0, the force vector f0 and the matrix m0 of
      size n, then the vector `solve` builds from x holds x[k] at the k-th
      kept index, is zero at every index whose displacement is known 0, and
      satisfies row i of the full system, m0[i] . u == f0[i], at every index
      i below n that is not known 0. */
  lemma {:induction false} ReducedSolutionBalances(d0: seq<Option<real>>, f0: Vector, m0: Matrix, n: nat, x: Vector)
    requires n <= |d0| && n <= |f0| && IsMatrix(m0, n, n)
    requires IsMatrix(SubMatrix(m0, Remainder(d0, n)), |x|, |x|)
    requires MatVec(SubMatrix(m0, Remainder(d0, n)), x) == Select(f0, Remainder(d0, n)) + f0[n..]
    ensures var kept := Remainder(d0, n);
      var u := Scatter(Zeros(n), kept, x);
      && (forall k :: 0 <= k < |kept| ==> u[kept[k]] == x[k])
      && (forall i :: 0 <= i < n && KnownZero(d0, i) ==> u[i] == 0.0)
      && (forall i :: 0 <= i < n && !KnownZero(d0, i) ==> Dot(m0[i], u) == f0[i])
  {
    var kept := Remainder(d0, n);
    Partition(d0, n);
    ScatterAt(Zeros(n), kept, x);
    UnsupportedRowsBalance(d0, f0, m0, n, x);
  }

  /** The third part of ReducedSolutionBalances: every row that is not
      supported balances. */
  lemma {:induction false} UnsupportedRowsBalance(d0: seq<Option<real>>, f0: Vector, m0: Matrix, n: nat, x: Vector)
    requires n <= |d0| && n <= |f0| && IsMatrix(m0, n, n)
    requires IsMatrix(SubMatrix(m0, Remainder(d0, n)), |x|, |x|)
    requires MatVec(SubMatrix(m0, Remainder(d0, n)), x) == Select(f0, Remainder(d0, n)) + f0[n..]
    ensures forall i :: 0 <= i < n && !KnownZero(d0, i) ==>
      Dot(m0[i], Scatter(Zeros(n), Remainder(d0, n), x)) == f0[i]
  {
    var kept := Remainder(d0, n);
    Partition(d0, n);
    var r := MatVec(SubMatrix(m0, kept), x);
    assert |r| == |kept|;
    forall i | 0 <= i < n && !KnownZero(d0, i)
      ensures Dot(m0[i], Scatter(Zeros(n), kept, x)) == f0[i]
    {
      assert i in kept;
      var k :| 0 <= k < |kept| && kept[k] == i;
      assert r[k] == (Select(f0, kept) + f0[n..])[k];
      RowBalances(f0, m0, n, kept, x, k);
    }
  }
}
