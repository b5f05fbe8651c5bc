/** The explicit finite-difference time stepper of the damped wave equation
    u_tt + gamma * u_t = c2 * u_xx on a string with fixed ends, computed exactly
    over the reals: the bootstrap step that builds time level 1 from level 0,
    and the three-level step that builds level n+1 from levels n and n-1. */
module Stencil {
  import opened Fields

  /** The scalar parameters both steps receive: time step, spatial step,
      material coefficient c2 and damping coefficient gamma. */
  datatype Params = Params(dt: real, h: real, c2: real, gamma: real)

  /** The ways a step can fail instead of producing a field. */
  datatype StepError =
    | ZeroDivision      // a coefficient's denominator is zero
    | IndexOutOfRange   // the previous field is too short for the stencil

  datatype Outcome = Ok(field: Field) | Err(error: StepError)

  /** Two fields agree when they have the same length and agree at every node. */
  lemma FieldsAgree(a: Field, b: Field)
    requires |a| == |b|
    requires forall i :: 0 <= i < |a| ==> a[i] == b[i]
    ensures a == b
  {
  }

  /** A product of reals is zero exactly when a factor is. */
  lemma ZeroProduct(x: real, y: real)
    ensures x * y == 0.0 <==> x == 0.0 || y == 0.0
  {
  }

  // ---------------------------------------------------------------------------
  // Bootstrap step

  /** The bootstrap coefficient's denominator 2*h^2*(1+gamma). */
  function FirstDenominator(p: Params): real
  {
    2.0 * p.h * p.h * (1.0 + p.gamma)
  }

  /** Computing the bootstrap coefficient raises no division by zero. */
  predicate FirstStepDefined(p: Params)
  {
    FirstDenominator(p) != 0.0
  }

  /** The bootstrap is defined exactly when the spatial step is nonzero and gamma is not -1. */
  lemma FirstStepDefinedIff(p: Params)
    ensures FirstStepDefined(p) <==> p.h != 0.0 && 1.0 + p.gamma != 0.0
  {
    ZeroProduct(2.0, p.h);
    ZeroProduct(2.0 * p.h, p.h);
    ZeroProduct(2.0 * p.h * p.h, 1.0 + p.gamma);
  }

  /** The bootstrap coefficient c2*dt / (2*h^2*(1+gamma)). */
  function FirstCoefficient(p: Params): real
    requires FirstStepDefined(p)
  {
    p.c2 * p.dt / FirstDenominator(p)
  }

  /** The bootstrap coefficient is the one number k with k * 2*h^2*(1+gamma) == c2*dt. */
  lemma FirstCoefficientSolves(p: Params, k: real)
    requires FirstStepDefined(p)
    ensures k == FirstCoefficient(p) <==> k * FirstDenominator(p) == p.c2 * p.dt
  {
  }

  /** The number of interior nodes of a field, the nodes the stencil is evaluated at. */
  function InteriorCount(n: nat): nat
  {
    if n >= 2 then n - 2 else 0
  }

  /** The value of the bootstrap at interior node i, with coefficient k. */
  function FirstValue(k: real, u: Field, i: int): real
    requires 1 <= i < |u| - 1
  {
    k * Laplacian(u, i) + u[i]
  }

  /** Level 1 from level 0: a leading 0.0, the stencil at every interior node,
      a trailing 0.0.  A field of fewer than two nodes has no interior node and
      yields the two boundary zeros alone. */
  function FirstStep(u: Field, p: Params): (r: Field)
    requires FirstStepDefined(p)
    ensures |r| == (if |u| >= 2 then |u| else 2)
    ensures ZeroEnds(r)
    ensures forall i :: 1 <= i < |u| - 1 ==>
              r[i] == FirstValue(FirstCoefficient(p), u, i)
  {
    FirstStencil(u, FirstCoefficient(p))
  }

  /** The bootstrap's shape for a given coefficient k. */
  function FirstStencil(u: Field, k: real): (r: Field)
    ensures |r| == (if |u| >= 2 then |u| else 2)
    ensures ZeroEnds(r)
    ensures forall i :: 1 <= i < |u| - 1 ==> r[i] == FirstValue(k, u, i)
  {
    [0.0]
    + seq(InteriorCount(|u|), j requires 0 <= j < InteriorCount(|u|) => FirstValue(k, u, j + 1))
    + [0.0]
  }

  /** The bootstrap as the program writes it: start from [0.0], append the
      stencil value of each interior node in turn, append 0.0. */
  method ComputeFirstStep(u: Field, p: Params) returns (r: Field)
    requires FirstStepDefined(p)
    ensures r == FirstStep(u, p)
  {
    var k := FirstCoefficient(p);
    r := [0.0];
    var i := 1;
    while i < |u| - 1
      invariant 1 <= i <= (if |u| >= 2 then |u| - 1 else 1)
      invariant |r| == i
      invariant r[0] == 0.0
      invariant forall j :: 1 <= j < i ==> r[j] == FirstValue(k, u, j)
    {
      r := r + [k * (u[i - 1] - 2.0 * u[i] + u[i + 1]) + u[i]];
      i := i + 1;
    }
    r := r + [0.0];
    FieldsAgree(r, FirstStep(u, p));
  }

  /** The bootstrap with its failure: a zero denominator raises before any node is computed. */
  function TryFirstStep(u: Field, p: Params): (o: Outcome)
    ensures o.Ok? <==> FirstStepDefined(p)
    ensures o.Err? ==> o.error == ZeroDivision
    ensures o.Ok? ==> |o.field| == (if |u| >= 2 then |u| else 2) && ZeroEnds(o.field)
    ensures o.Ok? ==> FirstStepDefined(p) && o.field == FirstStep(u, p)
  {
    if FirstStepDefined(p) then Ok(FirstStep(u, p)) else Err(ZeroDivision)
  }

  // ---------------------------------------------------------------------------
  // Regular three-level step

  /** The regular step's common denominator 1 + dt*gamma. */
  function StepDenominator(p: Params): real
  {
    1.0 + p.dt * p.gamma
  }

  /** The denominator h^2 * (1 + dt*gamma) of the spatial coefficient. */
  function SpatialDenominator(p: Params): real
  {
    p.h * p.h * StepDenominator(p)
  }

  /** Computing the four coefficients of the regular step raises no division by zero. */
  predicate NextStepDefined(p: Params)
  {
    StepDenominator(p) != 0.0 && SpatialDenominator(p) != 0.0
  }

  /** The regular step is defined exactly when the spatial step is nonzero and dt*gamma is not -1. */
  lemma NextStepDefinedIff(p: Params)
    ensures NextStepDefined(p) <==> p.h != 0.0 && 1.0 + p.dt * p.gamma != 0.0
  {
    var s := StepDenominator(p);
    assert s == 1.0 + p.dt * p.gamma;
    ZeroProduct(p.h, p.h);
    ZeroProduct(p.h * p.h, s);
    if p.h == 0.0 {
      assert SpatialDenominator(p) == 0.0;
    } else if s == 0.0 {
      assert SpatialDenominator(p) == 0.0;
    } else {
      assert SpatialDenominator(p) != 0.0;
    }
  }

  /** The four per-step coefficients of the regular update. */
  datatype Coefficients = Coefficients(
    spatial: real,   // weight of the second difference of the current level
    current: real,   // weight of the current value
    damping: real,   // damping contribution of the current value
    previous: real)  // weight of the previous value

  /** The coefficients, all divided by the denominator 1 + dt*gamma. */
  function NextCoefficients(p: Params): Coefficients
    requires NextStepDefined(p)
  {
    Coefficients(
      p.c2 * p.dt * p.dt / SpatialDenominator(p),
      2.0 / StepDenominator(p),
      p.gamma * p.dt / StepDenominator(p),
      1.0 / StepDenominator(p))
  }

  /** The coefficients, each characterised by an equation rather than a division. */
  lemma NextCoefficientsSolve(p: Params)
    requires NextStepDefined(p)
    ensures NextCoefficients(p).previous * StepDenominator(p) == 1.0
    ensures NextCoefficients(p).current == 2.0 * NextCoefficients(p).previous
    ensures NextCoefficients(p).damping == p.gamma * p.dt * NextCoefficients(p).previous
    ensures NextCoefficients(p).spatial * SpatialDenominator(p) == p.c2 * p.dt * p.dt
  {
  }

  /** The previous field reaches every interior node of the current one. */
  predicate PreviousCovers(uCurrent: Field, uPrevious: Field)
  {
    |uCurrent| <= 2 || |uCurrent| - 1 <= |uPrevious|
  }

  /** The value of the regular update at interior node i. */
  function NextValue(c: Coefficients, uCurrent: Field, uPrevious: Field, i: int): real
    requires 1 <= i < |uCurrent| - 1 && i < |uPrevious|
  {
    c.spatial * Laplacian(uCurrent, i)
    + c.current * uCurrent[i]
    + c.damping * uCurrent[i]
    - c.previous * uPrevious[i]
  }

  /** Level n+1 from level n (uCurrent) and level n-1 (uPrevious): a leading
      0.0, the update at every interior node, a trailing 0.0. */
  function NextStep(uCurrent: Field, uPrevious: Field, p: Params): (r: Field)
    requires NextStepDefined(p) && PreviousCovers(uCurrent, uPrevious)
    ensures |r| == (if |uCurrent| >= 2 then |uCurrent| else 2)
    ensures ZeroEnds(r)
    ensures forall i :: 1 <= i < |uCurrent| - 1 ==>
              r[i] == NextValue(NextCoefficients(p), uCurrent, uPrevious, i)
  {
    NextStencil(uCurrent, uPrevious, NextCoefficients(p))
  }

  /** The regular step's shape for given coefficients c. */
  function NextStencil(uCurrent: Field, uPrevious: Field, c: Coefficients): (r: Field)
    requires PreviousCovers(uCurrent, uPrevious)
    ensures |r| == (if |uCurrent| >= 2 then |uCurrent| else 2)
    ensures ZeroEnds(r)
    ensures forall i :: 1 <= i < |uCurrent| - 1 ==> r[i] == NextValue(c, uCurrent, uPrevious, i)
  {
    [0.0]
    + seq(InteriorCount(|uCurrent|),
          j requires 0 <= j < InteriorCount(|uCurrent|) => NextValue(c, uCurrent, uPrevious, j + 1))
    + [0.0]
  }

  /** The regular step as the program writes it: start from [0.0], append the
      update of each interior node in turn, append 0.0. */
  method ComputeNextStep(uCurrent: Field, uPrevious: Field, p: Params) returns (r: Field)
    requires NextStepDefined(p) && PreviousCovers(uCurrent, uPrevious)
    ensures r == NextStep(uCurrent, uPrevious, p)
  {
    var c := NextCoefficients(p);
    r := [0.0];
    var i := 1;
    while i < |uCurrent| - 1
      invariant 1 <= i <= (if |uCurrent| >= 2 then |uCurrent| - 1 else 1)
      invariant |r| == i
      invariant r[0] == 0.0
      invariant forall j :: 1 <= j < i ==>
                  r[j] == NextValue(c, uCurrent, uPrevious, j)
    {
      r := r + [c.spatial * (uCurrent[i - 1] - 2.0 * uCurrent[i] + uCurrent[i + 1])
                + c.current * uCurrent[i]
                + c.damping * uCurrent[i]
                - c.previous * uPrevious[i]];
      i := i + 1;
    }
    r := r + [0.0];
    FieldsAgree(r, NextStep(uCurrent, uPrevious, p));
  }

  /** The regular step with its failures: the coefficients are computed first,
      so a zero denominator raises even when an index would also be out of range. */
  function TryNextStep(uCurrent: Field, uPrevious: Field, p: Params): (o: Outcome)
    ensures o.Ok? <==> NextStepDefined(p) && PreviousCovers(uCurrent, uPrevious)
    ensures !NextStepDefined(p) ==> o == Err(ZeroDivision)
    ensures NextStepDefined(p) && !PreviousCovers(uCurrent, uPrevious) ==> o == Err(IndexOutOfRange)
    ensures o.Ok? ==> |o.field| == (if |uCurrent| >= 2 then |uCurrent| else 2) && ZeroEnds(o.field)
    ensures o.Ok? ==> NextStepDefined(p) && PreviousCovers(uCurrent, uPrevious)
                      && o.field == NextStep(uCurrent, uPrevious, p)
  {
    if !NextStepDefined(p) then Err(ZeroDivision)
    else if !PreviousCovers(uCurrent, uPrevious) then Err(IndexOutOfRange)
    else Ok(NextStep(uCurrent, uPrevious, p))
  }
}
