/** The simulation driver: clamp the initial profile at both ends, bootstrap
    level 1 from it, then advance by the regular step, rotating the two live
    buffers after each step (the old current level becomes the previous one,
    the newly computed level becomes the current one). */
module Simulation {
  import opened Fields
  import opened Stencil
  import opened StencilProperties

  /** The two live displacement levels: time level t-1 and time level t. */
  datatype Buffers = Buffers(previous: Field, current: Field)

  /** What the driver leaves behind: the two buffers, or the error that stopped it. */
  datatype RunOutcome = Finished(buffers: Buffers) | Failed(error: StepError)

  /** The regular step can be taken from these buffers (the previous level
      reaches every interior node of the current one), and both ends of both
      buffers are at rest.  Every state the driver reaches has this shape,
      whatever the length of the initial profile. */
  predicate Consistent(s: Buffers)
  {
    PreviousCovers(s.current, s.previous) && ZeroEnds(s.previous) && ZeroEnds(s.current)
  }

  /** Both buffers have the common length n of the grid (at least two nodes)
      and both ends of both buffers are at rest. */
  predicate Valid(s: Buffers, n: int)
  {
    && n >= 2
    && |s.previous| == n && |s.current| == n
    && ZeroEnds(s.previous) && ZeroEnds(s.current)
  }

  /** Clamp the initial profile and bootstrap: the clamped profile becomes the
      previous level, its bootstrap the current level. */
  function Start(u0: Field, p: Params): (s: Buffers)
    requires |u0| >= 1 && FirstStepDefined(p)
    ensures Consistent(s)
    ensures |s.previous| == |u0|
    ensures |u0| >= 2 ==> Valid(s, |u0|)
    ensures forall i :: 0 < i < |u0| - 1 ==> s.previous[i] == u0[i]
    ensures s.current == FirstStep(s.previous, p)
  {
    var u := Clamp(u0);
    Buffers(u, FirstStep(u, p))
  }

  /** One iteration of the main loop: step, then rotate the buffers. */
  function Tick(s: Buffers, p: Params): (t: Buffers)
    requires NextStepDefined(p) && Consistent(s)
    ensures t.previous == s.current
    ensures t.current == NextStep(s.current, s.previous, p)
    ensures Consistent(t)
    ensures forall n :: Valid(s, n) ==> Valid(t, n)
  {
    Buffers(s.current, NextStep(s.current, s.previous, p))
  }

  /** The buffers after the given number of loop iterations.  No regular step
      is taken, and none needs to be defined, when there are no iterations. */
  function Run(s: Buffers, p: Params, ticks: nat): (t: Buffers)
    requires Consistent(s)
    requires ticks == 0 || NextStepDefined(p)
    ensures Consistent(t)
    ensures forall n :: Valid(s, n) ==> Valid(t, n)
    decreases ticks
  {
    if ticks == 0 then s else Run(Tick(s, p), p, ticks - 1)
  }

  /** The whole driver with its failures: clamping an empty profile is an index
      error, a zero denominator in the bootstrap is a division by zero, and so
      is one in the regular step once the loop runs at least once.  The
      regular step never meets its index error here. */
  function TrySimulate(u0: Field, p: Params, ticks: nat): (o: RunOutcome)
    ensures o == Failed(IndexOutOfRange) <==> |u0| == 0
    ensures o == Failed(ZeroDivision)
        <==> |u0| >= 1 && (!FirstStepDefined(p) || (ticks > 0 && !NextStepDefined(p)))
    ensures o.Finished? ==> Consistent(o.buffers)
    ensures o.Finished? && |u0| >= 2 ==> Valid(o.buffers, |u0|)
    ensures o.Finished? ==> |u0| >= 1 && FirstStepDefined(p) && (ticks == 0 || NextStepDefined(p))
                            && o.buffers == Run(Start(u0, p), p, ticks)
  {
    if |u0| == 0 then Failed(IndexOutOfRange)
    else if !FirstStepDefined(p) then Failed(ZeroDivision)
    else if ticks > 0 && !NextStepDefined(p) then Failed(ZeroDivision)
    else Finished(Run(Start(u0, p), p, ticks))
  }

  /** A string at rest at both levels stays at rest for any number of iterations. */
  lemma {:induction false} RunAtRest(s: Buffers, p: Params, ticks: nat)
    requires Valid(s, |s.current|)
    requires ticks == 0 || NextStepDefined(p)
    requires AllZero(s.previous) && AllZero(s.current)
    ensures AllZero(Run(s, p, ticks).previous) && AllZero(Run(s, p, ticks).current)
    decreases ticks
  {
    if ticks > 0 {
      NextStepOfZero(s.current, s.previous, p);
      RunAtRest(Tick(s, p), p, ticks - 1);
    }
  }

  /** Two levels symmetric about the midpoint stay symmetric for any number of iterations. */
  lemma {:induction false} RunMirror(s: Buffers, p: Params, ticks: nat)
    requires Valid(s, |s.current|)
    requires ticks == 0 || NextStepDefined(p)
    requires IsMirror(s.previous) && IsMirror(s.current)
    ensures IsMirror(Run(s, p, ticks).previous) && IsMirror(Run(s, p, ticks).current)
    decreases ticks
  {
    if ticks > 0 {
      NextStepMirror(s.current, s.previous, p);
      RunMirror(Tick(s, p), p, ticks - 1);
    }
  }

  /** A symmetric initial profile gives symmetric buffers at every iteration. */
  lemma SimulationMirror(u0: Field, p: Params, ticks: nat)
    requires |u0| >= 2 && FirstStepDefined(p)
    requires ticks == 0 || NextStepDefined(p)
    requires IsMirror(u0)
    ensures IsMirror(Run(Start(u0, p), p, ticks).previous)
    ensures IsMirror(Run(Start(u0, p), p, ticks).current)
  {
    var s := Start(u0, p);
    forall i, j | 0 <= i < |u0| && 0 <= j < |u0| && i + j == |u0| - 1
      ensures s.previous[i] == s.previous[j]
    {
      if 0 < i < |u0| - 1 {
        assert u0[i] == u0[j];
      }
    }
    FirstStepMirror(s.previous, p);
    RunMirror(s, p, ticks);
  }

  /** The driver as the program writes it, with the end-time test replaced by a
      count of loop iterations: clamp, bootstrap, then step and rotate. */
  method Simulate(u0: Field, p: Params, ticks: nat) returns (previous: Field, current: Field)
    requires |u0| >= 1 && FirstStepDefined(p)
    requires ticks == 0 || NextStepDefined(p)
    ensures Buffers(previous, current) == Run(Start(u0, p), p, ticks)
    ensures ZeroEnds(previous) && ZeroEnds(current)
    ensures |u0| >= 2 ==> |previous| == |u0| && |current| == |u0|
  {
    previous := u0;
    previous := previous[0 := 0.0];
    previous := previous[|previous| - 1 := 0.0];
    current := ComputeFirstStep(previous, p);
    assert Buffers(previous, current) == Start(u0, p);
    var k := 0;
    while k < ticks
      invariant 0 <= k <= ticks
      invariant Consistent(Buffers(previous, current))
      invariant |u0| >= 2 ==> Valid(Buffers(previous, current), |u0|)
      invariant Run(Buffers(previous, current), p, ticks - k) == Run(Start(u0, p), p, ticks)
    {
      var next := ComputeNextStep(current, previous, p);
      previous := current;
      current := next;
      k := k + 1;
    }
    assert Run(Buffers(previous, current), p, 0) == Buffers(previous, current);
  }
}
