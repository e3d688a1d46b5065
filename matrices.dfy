/** Dense real matrices as sequences of rows, with the few numpy operations the
    frame solver uses: `transpose`, `dot` of two matrices and of a matrix and a vector. */
module Matrices {
  type Vector = seq<real>
  type Matrix = seq<seq<real>>

  predicate IsMatrix(m: Matrix, rows: nat, cols: nat) {
    |m| == rows && forall i :: 0 <= i < rows ==> |m[i]| == cols
  }

  predicate Symmetric(m: Matrix)
    requires IsMatrix(m, |m|, |m|)
  {
    forall i, j :: 0 <= i < |m| && 0 <= j < |m| ==> m[i][j] == m[j][i]
  }

  function Zeros(n: nat): (v: Vector)
    ensures |v| == n && forall i :: 0 <= i < n ==> v[i] == 0.0
  {
    seq(n, i => 0.0)
  }

  function ZeroMatrix(n: nat): (m: Matrix)
    ensures IsMatrix(m, n, n) && forall i, j :: 0 <= i < n && 0 <= j < n ==> m[i][j] == 0.0
  {
    seq(n, i => Zeros(n))
  }

  /** Inner product, accumulated from the last entry backwards. */
  function Dot(u: Vector, v: Vector): real
    requires |u| == |v|
    decreases |u|
  {
    if |u| == 0 then 0.0 else Dot(u[..|u| - 1], v[..|v| - 1]) + u[|u| - 1] * v[|v| - 1]
  }

  function Column(m: Matrix, j: nat): (c: Vector)
    requires forall i :: 0 <= i < |m| ==> j < |m[i]|
  {
    seq(|m|, i requires 0 <= i < |m| => m[i][j])
  }

  /** `m.transpose()` for an m with `cols` columns. */
  function Transpose(m: Matrix, cols: nat): (t: Matrix)
    requires IsMatrix(m, |m|, cols)
  {
    seq(cols, j requires 0 <= j < cols => Column(m, j))
  }

  /** The row vector x times the matrix c (c has `cols` columns): the sum of
      the rows of c weighted by the entries of x, accumulated from the last row. */
  function VecMat(x: Vector, c: Matrix, cols: nat): (r: Vector)
    requires |x| == |c| && IsMatrix(c, |c|, cols)
    ensures |r| == cols
    decreases |x|
  {
    if |x| == 0 then Zeros(cols)
    else AddScaled(VecMat(x[..|x| - 1], c[..|x| - 1], cols), x[|x| - 1], c[|x| - 1])
  }

  /** `np.dot(m, v)`. */
  function MatVec(m: Matrix, v: Vector): (r: Vector)
    requires IsMatrix(m, |m|, |v|)
  {
    seq(|m|, i requires 0 <= i < |m| => Dot(m[i], v))
  }

  /** `np.dot(a, b)` for a b with `cols` columns. */
  function MatMul(a: Matrix, b: Matrix, cols: nat): (r: Matrix)
    requires IsMatrix(a, |a|, |b|) && IsMatrix(b, |b|, cols)
  {
    seq(|a|, i requires 0 <= i < |a| => VecMat(a[i], b, cols))
  }

  /** Element-wise sum of two vectors of equal length. */
  function Add(u: Vector, w: Vector): (r: Vector)
    requires |u| == |w|
    ensures |r| == |u|
  {
    seq(|u|, i requires 0 <= i < |u| => u[i] + w[i])
  }

  /** `m[i][j] += x`: cell (i, j) grows by x, every other cell is kept. */
  function AddAt(m: Matrix, i: nat, j: nat, x: real): (r: Matrix)
    requires i < |m| && j < |m[i]|
    ensures |r| == |m| && forall a :: 0 <= a < |m| ==> |r[a]| == |m[a]|
    ensures forall a, b :: 0 <= a < |m| && 0 <= b < |m[a]| ==>
      r[a][b] == if a == i && b == j then m[a][b] + x else m[a][b]
  {
    m[i := m[i][j := m[i][j] + x]]
  }

  function AddScaled(u: Vector, a: real, w: Vector): (r: Vector)
    requires |u| == |w|
    ensures |r| == |u|
  {
    seq(|u|, i requires 0 <= i < |u| => u[i] + a * w[i])
  }

  lemma {:induction false} DotCommutes(u: Vector, v: Vector)
    requires |u| == |v|
    ensures Dot(u, v) == Dot(v, u)
    decreases |u|
  {
    if |u| > 0 {
      DotCommutes(u[..|u| - 1], v[..|v| - 1]);
    }
  }

  lemma {:induction false} DotZeroRight(u: Vector)
    ensures Dot(u, Zeros(|u|)) == 0.0
    decreases |u|
  {
    if |u| > 0 {
      assert Zeros(|u|)[..|u| - 1] == Zeros(|u| - 1);
      DotZeroRight(u[..|u| - 1]);
    }
  }

  lemma {:induction false} DistributeStep(du: real, dw: real, ul: real, wl: real, yl: real, a: real)
    ensures du + a * dw + (ul + a * wl) * yl == (du + ul * yl) + a * (dw + wl * yl)
  {
  }

  /** Linearity of the inner product in its first argument. */
  lemma {:induction false} DotAddScaled(u: Vector, a: real, w: Vector, y: Vector)
    requires |u| == |w| == |y|
    ensures Dot(AddScaled(u, a, w), y) == Dot(u, y) + a * Dot(w, y)
    decreases |u|
  {
    var n := |u|;
    if n > 0 {
      var u', w', y' := u[..n - 1], w[..n - 1], y[..n - 1];
      var s, s' := AddScaled(u, a, w), AddScaled(u', a, w');
      assert s[..n - 1] == s' by {
        forall i | 0 <= i < n - 1 ensures s[..n - 1][i] == s'[i] {
          assert s[i] == u[i] + a * w[i];
          assert s'[i] == u'[i] + a * w'[i];
        }
      }
      assert s[n - 1] == u[n - 1] + a * w[n - 1];
      assert Dot(s, y) == Dot(s', y') + s[n - 1] * y[n - 1];
      DotAddScaled(u', a, w', y');
      DistributeStep(Dot(u', y'), Dot(w', y'), u[n - 1], w[n - 1], y[n - 1], a);
    }
  }

  /** Entry j of x c is the inner product of x with column j of c. */
  lemma {:induction false} VecMatAt(x: Vector, c: Matrix, cols: nat, j: nat)
    requires |x| == |c| && IsMatrix(c, |c|, cols) && j < cols
    ensures VecMat(x, c, cols)[j] == Dot(x, Column(c, j))
    decreases |x|
  {
    var n := |x|;
    if n > 0 {
      var x', c' := x[..n - 1], c[..n - 1];
      var col, col' := Column(c, j), Column(c', j);
      assert col[..n - 1] == col';
      VecMatAt(x', c', cols, j);
      DotSplitAt(x, col, col', c[n - 1][j]);
    }
  }

  /** The inner product of y with the accumulated x c splits off the last
      row of c, whose inner product with y is d. */
  lemma {:induction false} VecMatDotSplit(x: Vector, c: Matrix, y: Vector, d: real)
    requires |x| == |c| > 0 && IsMatrix(c, |c|, |y|) && d == Dot(c[|x| - 1], y)
    ensures IsMatrix(c[..|x| - 1], |x| - 1, |y|)
    ensures Dot(VecMat(x, c, |y|), y) == Dot(VecMat(x[..|x| - 1], c[..|x| - 1], |y|), y) + x[|x| - 1] * d
  {
    DotAddScaled(VecMat(x[..|x| - 1], c[..|x| - 1], |y|), x[|x| - 1], c[|x| - 1], y);
  }

  lemma {:induction false} MatVecSnoc(c: Matrix, y: Vector)
    requires |c| > 0 && IsMatrix(c, |c|, |y|)
    ensures |MatVec(c, y)| == |c|
    ensures MatVec(c, y)[..|c| - 1] == MatVec(c[..|c| - 1], y)
    ensures MatVec(c, y)[|c| - 1] == Dot(c[|c| - 1], y)
  {
  }

  /** x . (c y) splits off the contribution of the last row of c, whose
      inner product with y is d. */
  lemma {:induction false} DotMatVecSplit(x: Vector, c: Matrix, y: Vector, d: real)
    requires |x| == |c| > 0 && IsMatrix(c, |c|, |y|) && d == Dot(c[|x| - 1], y)
    ensures IsMatrix(c[..|x| - 1], |x| - 1, |y|)
    ensures Dot(x, MatVec(c, y)) == Dot(x[..|x| - 1], MatVec(c[..|x| - 1], y)) + x[|x| - 1] * d
  {
    MatVecSnoc(c, y);
    DotSplitAt(x, MatVec(c, y), MatVec(c[..|x| - 1], y), d);
  }

  lemma {:induction false} DotSplitAt(x: Vector, v: Vector, front: Vector, last: real)
    requires |x| == |v| > 0 && v[..|x| - 1] == front && v[|x| - 1] == last
    ensures Dot(x, v) == Dot(x[..|x| - 1], front) + x[|x| - 1] * last
  {
  }

  /** Associativity of the bilinear form: (x c) . y == x . (c y). */
  lemma {:induction false} VecMatDot(x: Vector, c: Matrix, y: Vector)
    requires |x| == |c| && IsMatrix(c, |c|, |y|)
    ensures Dot(VecMat(x, c, |y|), y) == Dot(x, MatVec(c, y))
    decreases |c|
  {
    if |x| == 0 {
      var q := |y|;
      DotCommutes(Zeros(q), y);
      DotZeroRight(y);
    } else {
      var d := Dot(c[|x| - 1], y);
      VecMatDotSplit(x, c, y, d);
      DotMatVecSplit(x, c, y, d);
      VecMatDot(x[..|x| - 1], c[..|x| - 1], y);
    }
  }

  /** `np.dot(np.dot(a, b), v) == np.dot(a, np.dot(b, v))`. */
  lemma {:induction false} MatMulVec(a: Matrix, b: Matrix, v: Vector)
    requires IsMatrix(a, |a|, |b|) && IsMatrix(b, |b|, |v|)
    ensures MatVec(MatMul(a, b, |v|), v) == MatVec(a, MatVec(b, v))
  {
    forall i | 0 <= i < |a|
      ensures MatVec(MatMul(a, b, |v|), v)[i] == MatVec(a, MatVec(b, v))[i]
    {
      VecMatDot(a[i], b, v);
    }
  }

  /** Moving a matrix across the inner product: x . (m^T w) == (m x) . w. */
  lemma {:induction false} TransposeDot(m: Matrix, x: Vector, w: Vector)
    requires |w| == |m| && IsMatrix(m, |m|, |x|)
    ensures Dot(x, MatVec(Transpose(m, |x|), w)) == Dot(MatVec(m, x), w)
  {
    var q := |x|;
    assert MatVec(Transpose(m, q), w) == VecMat(w, m, q) by {
      forall j | 0 <= j < q
        ensures MatVec(Transpose(m, q), w)[j] == VecMat(w, m, q)[j]
      {
        VecMatAt(w, m, q, j);
        DotCommutes(Column(m, j), w);
      }
    }
    DotCommutes(x, VecMat(w, m, q));
    VecMatDot(w, m, x);
    DotCommutes(w, MatVec(m, x));
  }

  /** The product b^T c b is symmetric whenever c is: this is why every element
      stiffness matrix, and hence the assembled system matrix, is symmetric. */
  lemma {:induction false} TripleProductSymmetric(b: Matrix, c: Matrix, q: nat)
    requires IsMatrix(b, |b|, q) && IsMatrix(c, |b|, |b|) && Symmetric(c)
    ensures IsMatrix(MatMul(MatMul(Transpose(b, q), c, |b|), b, q), q, q)
    ensures Symmetric(MatMul(MatMul(Transpose(b, q), c, |b|), b, q))
  {
    var p := |b|;
    var bt := Transpose(b, q);
    var a := MatMul(bt, c, p);
    var k := MatMul(a, b, q);
    forall i, j | 0 <= i < q && 0 <= j < q
      ensures k[i][j] == k[j][i]
    {
      var bi, bj := Column(b, i), Column(b, j);
      VecMatAt(a[i], b, q, j);
      VecMatAt(a[j], b, q, i);
      assert k[i][j] == Dot(VecMat(bi, c, p), bj);
      assert k[j][i] == Dot(VecMat(bj, c, p), bi);
      VecMatDot(bi, c, bj);
      assert VecMat(bj, c, p) == MatVec(c, bj) by {
        forall m | 0 <= m < p
          ensures VecMat(bj, c, p)[m] == MatVec(c, bj)[m]
        {
          VecMatAt(bj, c, p, m);
          assert Column(c, m) == c[m];
          DotCommutes(bj, c[m]);
        }
      }
      DotCommutes(MatVec(c, bj), bi);
    }
  }
}
