/** Structural properties of the two stencil steps, exact over the reals: the
    rest state is a fixed point, both steps are linear in their fields, both
    preserve mirror symmetry, the regular step solves the discretised damped wave
    equation, and the worked five-node example. */
module StencilProperties {
  import opened Fields
  import opened Stencil

  // ---------------------------------------------------------------------------
  // Rest is a fixed point

  /** A string at rest stays at rest after the bootstrap. */
  lemma FirstStepOfZero(u: Field, p: Params)
    requires FirstStepDefined(p)
    requires AllZero(u)
    ensures AllZero(FirstStep(u, p))
  {
  }

  /** A string at rest at both levels stays at rest after the regular step. */
  lemma NextStepOfZero(uCurrent: Field, uPrevious: Field, p: Params)
    requires NextStepDefined(p) && PreviousCovers(uCurrent, uPrevious)
    requires AllZero(uCurrent) && AllZero(uPrevious)
    ensures AllZero(NextStep(uCurrent, uPrevious, p))
  {
  }

  // ---------------------------------------------------------------------------
  // Linearity

  /** The bootstrap value at one node is linear in the profile. */
  lemma FirstValueLinear(k: real, a: real, u: Field, b: real, v: Field, i: int)
    requires |u| == |v| && 1 <= i < |u| - 1
    ensures FirstValue(k, Combine(a, u, b, v), i) == a * FirstValue(k, u, i) + b * FirstValue(k, v, i)
  {
  }

  /** For any coefficient, the bootstrap stencil is linear in the profile. */
  lemma FirstStencilLinear(k: real, a: real, u: Field, b: real, v: Field)
    requires |u| == |v|
    ensures FirstStencil(Combine(a, u, b, v), k) == Combine(a, FirstStencil(u, k), b, FirstStencil(v, k))
  {
    var lhs := FirstStencil(Combine(a, u, b, v), k);
    var rhs := Combine(a, FirstStencil(u, k), b, FirstStencil(v, k));
    forall i | 0 <= i < |lhs|
      ensures lhs[i] == rhs[i]
    {
      if 1 <= i < |u| - 1 {
        FirstValueLinear(k, a, u, b, v, i);
      }
    }
    FieldsAgree(lhs, rhs);
  }

  /** The bootstrap of a*u + b*v is a times the bootstrap of u plus b times the bootstrap of v. */
  lemma FirstStepLinear(a: real, u: Field, b: real, v: Field, p: Params)
    requires FirstStepDefined(p) && |u| == |v|
    ensures FirstStep(Combine(a, u, b, v), p) == Combine(a, FirstStep(u, p), b, FirstStep(v, p))
  {
    FirstStencilLinear(FirstCoefficient(p), a, u, b, v);
  }

  /** The regular update at one node is linear in the two levels. */
  lemma NextValueLinear(c: Coefficients, a: real, u: Field, uPrev: Field, b: real, v: Field, vPrev: Field, i: int)
    requires |u| == |v| && |uPrev| == |vPrev|
    requires 1 <= i < |u| - 1 && i < |uPrev|
    ensures NextValue(c, Combine(a, u, b, v), Combine(a, uPrev, b, vPrev), i)
         == a * NextValue(c, u, uPrev, i) + b * NextValue(c, v, vPrev, i)
  {
  }

  /** For any coefficients, the regular stencil is linear in the pair of levels. */
  lemma NextStencilLinear(c: Coefficients, a: real, u: Field, uPrev: Field, b: real, v: Field, vPrev: Field)
    requires |u| == |v| && |uPrev| == |vPrev| && PreviousCovers(u, uPrev)
    ensures PreviousCovers(Combine(a, u, b, v), Combine(a, uPrev, b, vPrev))
    ensures NextStencil(Combine(a, u, b, v), Combine(a, uPrev, b, vPrev), c)
         == Combine(a, NextStencil(u, uPrev, c), b, NextStencil(v, vPrev, c))
  {
    var lhs := NextStencil(Combine(a, u, b, v), Combine(a, uPrev, b, vPrev), c);
    var rhs := Combine(a, NextStencil(u, uPrev, c), b, NextStencil(v, vPrev, c));
    forall i | 0 <= i < |lhs|
      ensures lhs[i] == rhs[i]
    {
      if 1 <= i < |u| - 1 {
        NextValueLinear(c, a, u, uPrev, b, v, vPrev, i);
        assert lhs[i] == NextValue(c, Combine(a, u, b, v), Combine(a, uPrev, b, vPrev), i);
        assert rhs[i] == a * NextValue(c, u, uPrev, i) + b * NextValue(c, v, vPrev, i);
      } else {
        assert lhs[i] == 0.0 && rhs[i] == a * 0.0 + b * 0.0;
      }
    }
    FieldsAgree(lhs, rhs);
  }

  /** The regular step is linear in the pair (current, previous): stepping
      a*u + b*v from a*uPrev + b*vPrev gives a times u's step plus b times v's. */
  lemma NextStepLinear(a: real, u: Field, uPrev: Field, b: real, v: Field, vPrev: Field, p: Params)
    requires NextStepDefined(p)
    requires |u| == |v| && |uPrev| == |vPrev| && PreviousCovers(u, uPrev)
    ensures PreviousCovers(Combine(a, u, b, v), Combine(a, uPrev, b, vPrev))
    ensures NextStep(Combine(a, u, b, v), Combine(a, uPrev, b, vPrev), p)
         == Combine(a, NextStep(u, uPrev, p), b, NextStep(v, vPrev, p))
  {
    NextStencilLinear(NextCoefficients(p), a, u, uPrev, b, v, vPrev);
  }

  // ---------------------------------------------------------------------------
  // Mirror symmetry

  /** In a symmetric profile the bootstrap value at mirrored nodes is equal. */
  lemma FirstValueMirror(k: real, u: Field, i: int, j: int)
    requires IsMirror(u) && 1 <= i < |u| - 1 && i + j == |u| - 1
    ensures FirstValue(k, u, j) == FirstValue(k, u, i)
  {
  }

  /** Mirror symmetry of the bootstrap stencil at one pair of mirrored nodes. */
  lemma FirstStencilMirrorAt(u: Field, k: real, i: int, j: int)
    requires |u| >= 2 && IsMirror(u)
    requires 0 <= i < |u| && 0 <= j < |u| && i + j == |u| - 1
    ensures FirstStencil(u, k)[i] == FirstStencil(u, k)[j]
  {
    var r := FirstStencil(u, k);
    if 1 <= i < |u| - 1 {
      FirstValueMirror(k, u, i, j);
      assert r[i] == FirstValue(k, u, i);
      assert r[j] == FirstValue(k, u, j);
    } else {
      assert r[i] == 0.0 && r[j] == 0.0;
    }
  }

  /** For any coefficient, the bootstrap stencil of a symmetric profile is symmetric. */
  lemma FirstStencilMirror(u: Field, k: real)
    requires IsMirror(u)
    ensures IsMirror(FirstStencil(u, k))
  {
    var r := FirstStencil(u, k);
    if |u| >= 2 {
      forall i, j | 0 <= i < |r| && 0 <= j < |r| && i + j == |r| - 1
        ensures r[i] == r[j]
      {
        FirstStencilMirrorAt(u, k, i, j);
      }
    }
  }

  /** The bootstrap of a profile symmetric about the midpoint is symmetric. */
  lemma FirstStepMirror(u: Field, p: Params)
    requires FirstStepDefined(p)
    requires IsMirror(u)
    ensures IsMirror(FirstStep(u, p))
  {
    FirstStencilMirror(u, FirstCoefficient(p));
  }

  /** Between two symmetric levels the regular update at mirrored nodes is equal. */
  lemma NextValueMirror(c: Coefficients, uCurrent: Field, uPrevious: Field, i: int, j: int)
    requires |uPrevious| == |uCurrent| && IsMirror(uCurrent) && IsMirror(uPrevious)
    requires 1 <= i < |uCurrent| - 1 && i + j == |uCurrent| - 1
    ensures NextValue(c, uCurrent, uPrevious, j) == NextValue(c, uCurrent, uPrevious, i)
  {
  }

  /** Mirror symmetry of the regular stencil at one pair of mirrored nodes. */
  lemma NextStencilMirrorAt(uCurrent: Field, uPrevious: Field, c: Coefficients, i: int, j: int)
    requires |uPrevious| == |uCurrent| >= 2
    requires IsMirror(uCurrent) && IsMirror(uPrevious)
    requires 0 <= i < |uCurrent| && 0 <= j < |uCurrent| && i + j == |uCurrent| - 1
    ensures NextStencil(uCurrent, uPrevious, c)[i] == NextStencil(uCurrent, uPrevious, c)[j]
  {
    var r := NextStencil(uCurrent, uPrevious, c);
    if 1 <= i < |uCurrent| - 1 {
      NextValueMirror(c, uCurrent, uPrevious, i, j);
      assert r[i] == NextValue(c, uCurrent, uPrevious, i);
      assert r[j] == NextValue(c, uCurrent, uPrevious, j);
    } else {
      assert r[i] == 0.0 && r[j] == 0.0;
    }
  }

  /** For any coefficients, the regular stencil of two symmetric levels of equal length is symmetric. */
  lemma NextStencilMirror(uCurrent: Field, uPrevious: Field, c: Coefficients)
    requires |uPrevious| == |uCurrent|
    requires IsMirror(uCurrent) && IsMirror(uPrevious)
    ensures PreviousCovers(uCurrent, uPrevious)
    ensures IsMirror(NextStencil(uCurrent, uPrevious, c))
  {
    var r := NextStencil(uCurrent, uPrevious, c);
    if |uCurrent| >= 2 {
      forall i, j | 0 <= i < |r| && 0 <= j < |r| && i + j == |r| - 1
        ensures r[i] == r[j]
      {
        NextStencilMirrorAt(uCurrent, uPrevious, c, i, j);
      }
    }
  }

  /** The regular step of two symmetric levels of equal length is symmetric. */
  lemma NextStepMirror(uCurrent: Field, uPrevious: Field, p: Params)
    requires NextStepDefined(p)
    requires |uPrevious| == |uCurrent|
    requires IsMirror(uCurrent) && IsMirror(uPrevious)
    ensures PreviousCovers(uCurrent, uPrevious)
    ensures IsMirror(NextStep(uCurrent, uPrevious, p))
  {
    NextStencilMirror(uCurrent, uPrevious, NextCoefficients(p));
  }

  // ---------------------------------------------------------------------------
  // The regular step solves the discretised equation

  /** The finite-difference form of u_tt + gamma*u_t = c2*u_xx at one node, with
      u_tt ~ (next - 2*cur + prev)/dt^2, u_t ~ (next - cur)/dt and
      u_xx ~ lap/h^2, multiplied through by dt^2 * h^2. */
  predicate SchemeHolds(p: Params, prev: real, cur: real, next: real, lap: real)
  {
    p.h * p.h * ((next - 2.0 * cur + prev) + p.gamma * p.dt * (next - cur)) == p.c2 * p.dt * p.dt * lap
  }

  /** The bootstrap's update rule, free of division: at every interior node a
      value x satisfies 2*h^2*(1+gamma) * (x - u[i]) == c2*dt * (second
      difference of u at i) exactly when it is the value the bootstrap computes. */
  lemma FirstStepSolves(u: Field, p: Params, i: int, x: real)
    requires FirstStepDefined(p)
    requires 1 <= i < |u| - 1
    ensures FirstDenominator(p) * (x - u[i]) == p.c2 * p.dt * Laplacian(u, i)
        <==> x == FirstStep(u, p)[i]
  {
  }

  /** At every interior node, a value satisfies the discretised equation exactly
      when it is the value the regular step computes there. */
  lemma NextStepSolvesScheme(uCurrent: Field, uPrevious: Field, p: Params, i: int, x: real)
    requires NextStepDefined(p) && PreviousCovers(uCurrent, uPrevious)
    requires 1 <= i < |uCurrent| - 1
    ensures SchemeHolds(p, uPrevious[i], uCurrent[i], x, Laplacian(uCurrent, i))
        <==> x == NextStep(uCurrent, uPrevious, p)[i]
  {
  }

  // ---------------------------------------------------------------------------
  // Worked example

  /** Five nodes over [0, 1], initial profile [0, 1, 2, 1, 0], dt = 0.01,
      h = 0.25, c2 = 1, gamma = 0: the coefficient is 0.08 and the bootstrap
      gives [0, 1.0, 1.84, 1.0, 0]. */
  lemma FirstStepExample()
    ensures FirstStepDefined(Params(0.01, 0.25, 1.0, 0.0))
    ensures FirstCoefficient(Params(0.01, 0.25, 1.0, 0.0)) == 0.08
    ensures FirstStep([0.0, 1.0, 2.0, 1.0, 0.0], Params(0.01, 0.25, 1.0, 0.0))
         == [0.0, 1.0, 1.84, 1.0, 0.0]
  {
  }

  /** The regular step that follows in the same example: with gamma = 0 the
      spatial coefficient is 0.0016 and the next level is
      [0, 0.999744, 1.677312, 0.999744, 0]. */
  lemma NextStepExample()
    ensures NextStepDefined(Params(0.01, 0.25, 1.0, 0.0))
    ensures NextStep([0.0, 1.0, 1.84, 1.0, 0.0], [0.0, 1.0, 2.0, 1.0, 0.0], Params(0.01, 0.25, 1.0, 0.0))
         == [0.0, 0.999744, 1.677312, 0.999744, 0.0]
  {
  }

  /** A damped example: dt = 0.5, h = 1, c2 = 1, gamma = 1.  The bootstrap
      denominator is 2*1*(1+1) = 4, so the coefficient is 1/8 and [0, 1, 0]
      bootstraps to [0, 0.75, 0].  For the regular step 1+dt*gamma = 1.5, so
      A = 1/6, B = 4/3, D = 1/3 and E = 2/3; stepping [0, 1, 0] from rest gives
      -1/3 + 4/3 + 1/3 = 4/3 at the middle node. */
  lemma DampedExample()
    ensures FirstStepDefined(Params(0.5, 1.0, 1.0, 1.0))
    ensures FirstCoefficient(Params(0.5, 1.0, 1.0, 1.0)) == 0.125
    ensures FirstStep([0.0, 1.0, 0.0], Params(0.5, 1.0, 1.0, 1.0)) == [0.0, 0.75, 0.0]
    ensures NextStepDefined(Params(0.5, 1.0, 1.0, 1.0))
    ensures NextCoefficients(Params(0.5, 1.0, 1.0, 1.0))
         == Coefficients(1.0 / 6.0, 4.0 / 3.0, 1.0 / 3.0, 2.0 / 3.0)
    ensures NextStep([0.0, 1.0, 0.0], [0.0, 0.0, 0.0], Params(0.5, 1.0, 1.0, 1.0)) == [0.0, 4.0 / 3.0, 0.0]
  {
  }
}
