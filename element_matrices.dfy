/** The three per-element matrices of a slender (Euler-Bernoulli) beam element:
    `kinematic_matrix`, `constitutive_matrix` and `stiffness_matrix`.
    The trigonometric values of the element angles are parameters, since the
    model does not compute `math.cos` and `math.sin`. */
module ElementMatrices {
  import opened Matrices

  /** `kinematic_matrix(ai, aj, l)`: maps the six local end displacements
      (ux1, uz1, phi1, ux2, uz2, phi2) to elongation and the two end rotations
      relative to the chord. */
  function KinematicMatrix(cosI: real, sinI: real, cosJ: real, sinJ: real, l: real): (b: Matrix)
    requires l != 0.0
    ensures IsMatrix(b, 3, 6)
  {
    [[-cosI, sinI, 0.0, cosJ, -sinJ, 0.0],
     [sinI / l, cosI / l, -1.0, -sinJ / l, -cosJ / l, 0.0],
     [-sinI / l, -cosI / l, 0.0, sinJ / l, cosJ / l, 1.0]]
  }

  /** `constitutive_matrix(EA, EI, l)`: axial stiffness EA/l and the coupled
      bending block of a prismatic beam. */
  function ConstitutiveMatrix(ea: real, ei: real, l: real): (c: Matrix)
    requires l != 0.0
    ensures IsMatrix(c, 3, 3) && Symmetric(c)
    ensures c[0][1] == c[0][2] == 0.0 && c[1][2] == -c[1][1] / 2.0 && c[1][1] == c[2][2]
  {
    [[ea / l, 0.0, 0.0],
     [0.0, 4.0 * ei / l, -2.0 * ei / l],
     [0.0, -2.0 * ei / l, 4.0 * ei / l]]
  }

  /** `stiffness_matrix(C, B)`: `np.dot(np.dot(B.T, C), B)`. */
  function StiffnessMatrix(c: Matrix, b: Matrix): (k: Matrix)
    requires IsMatrix(b, 3, 6) && IsMatrix(c, 3, 3)
    ensures IsMatrix(k, 6, 6)
  {
    MatMul(MatMul(Transpose(b, 6), c, 3), b, 6)
  }

  /** The stiffness matrix is 6 x 6, and symmetric whenever C is
      (in particular for every constitutive matrix). */
  lemma {:induction false} StiffnessSymmetric(c: Matrix, b: Matrix)
    requires IsMatrix(b, 3, 6) && IsMatrix(c, 3, 3) && Symmetric(c)
    ensures IsMatrix(StiffnessMatrix(c, b), 6, 6) && Symmetric(StiffnessMatrix(c, b))
  {
    TripleProductSymmetric(b, c, 6);
  }

  function Translation(ux: real, uz: real): Vector {
    [ux, uz, 0.0, ux, uz, 0.0]
  }

  function Dot3(u: Vector, v: Vector): real
    requires |u| == |v| == 3
  {
    u[0] * v[0] + u[1] * v[1] + u[2] * v[2]
  }

  lemma {:induction false} Dot3Unfold(u: Vector, v: Vector)
    requires |u| == |v| == 3
    ensures Dot(u, v) == Dot3(u, v)
  {
    assert Dot(u[..1], v[..1]) == u[0] * v[0] by {
      assert u[..1][..0] == [] && v[..1][..0] == [];
    }
    assert Dot(u[..2], v[..2]) == u[0] * v[0] + u[1] * v[1] by {
      assert u[..2][..1] == u[..1] && v[..2][..1] == v[..1];
    }
    assert u[..2] == u[..|u| - 1] && v[..2] == v[..|v| - 1];
  }

  lemma {:induction false} Dot6Unfold(u: Vector, v: Vector)
    requires |u| == |v| == 6
    ensures Dot(u, v) == u[0] * v[0] + u[1] * v[1] + u[2] * v[2] + u[3] * v[3] + u[4] * v[4] + u[5] * v[5]
  {
    Dot3Unfold(u[..3], v[..3]);
    assert Dot(u[..4], v[..4]) == Dot(u[..3], v[..3]) + u[3] * v[3] by {
      assert u[..4][..3] == u[..3] && v[..4][..3] == v[..3];
    }
    assert Dot(u[..5], v[..5]) == Dot(u[..4], v[..4]) + u[4] * v[4] by {
      assert u[..5][..4] == u[..4] && v[..5][..4] == v[..4];
    }
    assert u[..5] == u[..|u| - 1] && v[..5] == v[..|v| - 1];
  }

  /** A rigid translation of both element ends (same ux and uz, no rotation)
      produces no strain when both ends share the element angle. */
  lemma {:induction false} KinematicTranslationFree(c: real, s: real, l: real, ux: real, uz: real)
    requires l != 0.0
    ensures MatVec(KinematicMatrix(c, s, c, s, l), Translation(ux, uz)) == Zeros(3)
  {
    var b := KinematicMatrix(c, s, c, s, l);
    var t := Translation(ux, uz);
    forall i | 0 <= i < 3 ensures MatVec(b, t)[i] == 0.0 {
      Dot6Unfold(b[i], t);
    }
  }

  /** ... and therefore no end forces: `K . t == 0` (`determine_force_vector`
      of a rigidly translated element is zero). */
  lemma {:induction false} StiffnessTranslationFree(ea: real, ei: real, c: real, s: real, l: real, ux: real, uz: real)
    requires l != 0.0
    ensures MatVec(StiffnessMatrix(ConstitutiveMatrix(ea, ei, l), KinematicMatrix(c, s, c, s, l)),
                   Translation(ux, uz)) == Zeros(6)
  {
    var b := KinematicMatrix(c, s, c, s, l);
    var cm := ConstitutiveMatrix(ea, ei, l);
    var t := Translation(ux, uz);
    var bt := Transpose(b, 6);
    MatMulVec(MatMul(bt, cm, 3), b, t);
    KinematicTranslationFree(c, s, l, ux, uz);
    MatMulVec(bt, cm, Zeros(3));
    forall i | 0 <= i < 3 ensures MatVec(cm, Zeros(3))[i] == 0.0 {
      DotZeroRight(cm[i]);
    }
    assert MatVec(cm, Zeros(3)) == Zeros(3);
    forall j | 0 <= j < 6 ensures MatVec(bt, Zeros(3))[j] == 0.0 {
      DotZeroRight(bt[j]);
    }
  }

  lemma {:induction false} SquareNonNegative(x: real)
    ensures x * x >= 0.0
  {
    if x < 0.0 {
      assert x * x == (-x) * (-x);
    }
  }

  lemma {:induction false} QuadraticFormNonNegative(a: real, g: real, e0: real, e1: real, e2: real)
    requires a >= 0.0 && g >= 0.0
    ensures a * e0 * e0 + g * (4.0 * e1 * e1 - 4.0 * e1 * e2 + 4.0 * e2 * e2) >= 0.0
  {
    assert 4.0 * e1 * e1 - 4.0 * e1 * e2 + 4.0 * e2 * e2
        == 2.0 * (e1 - e2) * (e1 - e2) + 2.0 * e1 * e1 + 2.0 * e2 * e2;
    assert a * (e0 * e0) >= 0.0;
    var sq := 2.0 * (e1 - e2) * (e1 - e2) + 2.0 * e1 * e1 + 2.0 * e2 * e2;
    SquareNonNegative(e1 - e2);
    SquareNonNegative(e1);
    SquareNonNegative(e2);
    assert sq >= 0.0;
    assert g * sq >= 0.0;
  }

  lemma {:induction false} ScaleDiv(c: real, x: real, l: real)
    requires l != 0.0
    ensures c * x / l == c * (x / l)
  {
  }

  /** The energy of the strain e under the stresses w of the constitutive
      matrix with axial term a and bending unit g. */
  lemma {:induction false} StrainEnergy(a: real, g: real, e0: real, e1: real, e2: real, w0: real, w1: real, w2: real)
    requires a >= 0.0 && g >= 0.0
    requires w0 == a * e0 && w1 == 4.0 * g * e1 + -2.0 * g * e2 && w2 == -2.0 * g * e1 + 4.0 * g * e2
    ensures w0 * e0 + w1 * e1 + w2 * e2 >= 0.0
  {
    assert w0 * e0 == a * e0 * e0;
    assert w1 * e1 + w2 * e2 == g * (4.0 * e1 * e1 - 4.0 * e1 * e2 + 4.0 * e2 * e2);
    QuadraticFormNonNegative(a, g, e0, e1, e2);
  }

  /** The constitutive matrix is positive semi-definite for EA, EI >= 0 and l > 0. */
  lemma {:induction false} ConstitutivePositiveSemiDefinite(ea: real, ei: real, l: real, e: Vector)
    requires l > 0.0 && ea >= 0.0 && ei >= 0.0 && |e| == 3
    ensures Dot(MatVec(ConstitutiveMatrix(ea, ei, l), e), e) >= 0.0
  {
    var cm := ConstitutiveMatrix(ea, ei, l);
    var w := MatVec(cm, e);
    var a, g := ea / l, ei / l;
    ScaleDiv(4.0, ei, l);
    ScaleDiv(-2.0, ei, l);
    assert cm[0] == [a, 0.0, 0.0];
    assert cm[1] == [0.0, 4.0 * g, -2.0 * g];
    assert cm[2] == [0.0, -2.0 * g, 4.0 * g];
    Dot3Unfold(cm[0], e);
    Dot3Unfold(cm[1], e);
    Dot3Unfold(cm[2], e);
    Dot3Unfold(w, e);
    assert a >= 0.0 && g >= 0.0;
    StrainEnergy(a, g, e[0], e[1], e[2], w[0], w[1], w[2]);
  }

  /** The strain energy d . (K d) is never negative for non-negative EA, EI and
      positive length: the stiffness matrix is positive semi-definite. */
  lemma {:induction false} StiffnessPositiveSemiDefinite(ea: real, ei: real, c: real, s: real, l: real, d: Vector)
    requires l > 0.0 && ea >= 0.0 && ei >= 0.0 && |d| == 6
    ensures Dot(d, MatVec(StiffnessMatrix(ConstitutiveMatrix(ea, ei, l), KinematicMatrix(c, s, c, s, l)), d)) >= 0.0
  {
    var b := KinematicMatrix(c, s, c, s, l);
    var cm := ConstitutiveMatrix(ea, ei, l);
    var bt := Transpose(b, 6);
    var e := MatVec(b, d);
    MatMulVec(MatMul(bt, cm, 3), b, d);
    MatMulVec(bt, cm, e);
    var w := MatVec(cm, e);
    TransposeDot(b, d, w);
    DotCommutes(e, w);
    ConstitutivePositiveSemiDefinite(ea, ei, l, e);
  }
}
