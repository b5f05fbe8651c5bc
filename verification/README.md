# Damped wave equation: explicit finite-difference stepper

This project models the numerical core of a small program that integrates the
1-D damped wave equation `u_tt + gamma*u_t = c2*u_xx` on a string whose two
ends are held at zero displacement. The model covers:

- the **bootstrap step** (`computeFirstStep`). It builds time level 1 from the
  initial profile.
- the **regular three-level step** (`computeNextStep`). It builds level n+1
  from levels n and n-1.
- the **driver loop**. It clamps the initial profile's ends to zero,
  bootstraps, then repeatedly steps and rotates the two live buffers
  (previous <- current, current <- next).

Displacement fields are `seq<real>` and all arithmetic is exact real
arithmetic. Each step is both a pure function built by sequence comprehension
(`FirstStep`, `NextStep`) and a loop method that appends one node at a time,
as the program does (`ComputeFirstStep`, `ComputeNextStep`). Each method is
proved equal to its function.

Modules:

- `Fields` (fields.dfy): the field type, the second difference, boundary
  clamping, linear combinations, mirror symmetry.
- `Stencil` (stencil.dfy): parameters, coefficients, both steps, and their
  division-by-zero and index errors.
- `StencilProperties` (stencil_properties.dfy): rest is a fixed point,
  linearity, mirror symmetry, the discretised equation the regular step
  solves, the equation the bootstrap solves, and the worked examples.
- `Simulation` (simulation.dfy): the two-buffer rotation and the driver loop.

Behaviour the model keeps exactly as the code has it:

- A field of fewer than two nodes has no interior node, and both steps return
  `[0.0, 0.0]` for it. So the output has the input's length only when the
  input has at least two nodes.
- The steps raise a division-by-zero error exactly when a denominator they
  compute is zero. For the bootstrap that denominator is `2*h^2*(1+gamma)`.
  For the regular step it is `1+dt*gamma` or `h^2*(1+dt*gamma)`. The
  coefficients are computed before the node loop, so the error is raised even
  for fields with no interior node. `FirstStepDefinedIff` and
  `NextStepDefinedIff` restate these conditions as `h != 0 && 1+gamma != 0`
  and `h != 0 && 1+dt*gamma != 0`.
- The regular step reads `uPrevious[i]` at every interior index. When
  `uCurrent` has at least one interior node (three or more nodes), a
  previous level shorter than `|uCurrent| - 1` raises an index error,
  modelled by `TryNextStep`. With two nodes or fewer nothing is read, so any
  previous level, even an empty one, gives `[0.0, 0.0]`.
- The bootstrap coefficient is `c2*dt / (2*h^2*(1+gamma))`, as written. The
  time step is not squared, and the damping is added to 1 without being
  multiplied by `dt`. So this coefficient does not come from the same
  discretisation as the regular step. The model keeps it as written and
  proves nothing that would depend on a particular derivation.
- The regular step keeps its separate `+ D*uCurrent[i]` damping term.
  `StencilProperties.NextStepSolvesScheme` shows that this update is exactly
  the solution of the scheme
  `(u^{n+1} - 2u^n + u^{n-1})/dt^2 + gamma*(u^{n+1} - u^n)/dt = c2*(u^n_{i-1} - 2u^n_i + u^n_{i+1})/h^2`.
  So the grouping of the damping term is consistent: it is a difference of
  `u_t` taken backward from level n+1.
- The driver model takes the initial profile as an argument of any length.
  In the program the profile always has as many nodes as the grid
  (wave.py:44), and the grid setup divides by `NumberOfElements - 1`
  (wave.py:14), so a one-node grid never reaches the driver. For a one-node
  profile the model continues with the steps' own behaviour: the clamped
  profile `[0.0]` is the previous level and the bootstrap `[0.0, 0.0]` the
  current one. The regular step can still be taken from these buffers, and
  `Simulation.Consistent` is the shape every reachable pair of buffers has.
  An empty profile fails while clamping.
- The code does not check its configuration. It does not reject fewer than
  three nodes or a degenerate domain. The model follows the code: both
  steps are total in the field length.

## Model

| member | source | states |
|---|---|---|
| Fields.Clamp | wave.py:49-50 | Clamping the initial profile keeps its length, makes both ends exactly 0, and leaves every interior node unchanged |
| Stencil.FirstStepDefinedIff | wave.py:93-94 | The bootstrap's denominator `2*h^2*(1+gamma)` is nonzero exactly when `h != 0` and `gamma != -1` |
| Stencil.FirstCoefficientSolves | wave.py:93-94 | The bootstrap coefficient is the unique k with `k * 2*h^2*(1+gamma) == c2*dt` |
| Stencil.FirstStep | wave.py:90-102 | The bootstrap has length `|u|` when `|u| >= 2` and 2 otherwise; its first and last entries are 0; interior node i is `k*(u[i-1] - 2u[i] + u[i+1]) + u[i]` |
| Stencil.ComputeFirstStep | wave.py:90-102 | The append loop (start with [0.0], append the stencil for i in 1..len-2, append 0.0) yields exactly the bootstrap field |
| Stencil.TryFirstStep | wave.py:92-101 | The bootstrap fails with a division by zero exactly when its denominator is zero; otherwise it yields the bootstrap field itself, of the stated length with zero ends |
| Stencil.NextStepDefinedIff | wave.py:114-119 | The regular step's denominators `1+dt*gamma` and `h^2*(1+dt*gamma)` are nonzero exactly when `h != 0` and `dt*gamma != -1` |
| Stencil.NextCoefficientsSolve | wave.py:114-119 | With `denom = 1+dt*gamma`: `E*denom == 1`, `B == 2E`, `D == gamma*dt*E`, and `A*h^2*denom == c2*dt^2` |
| Stencil.NextStep | wave.py:105-131 | The regular step has length `|uCurrent|` when `|uCurrent| >= 2` and 2 otherwise; its ends are 0; interior node i is `A*(uC[i-1] - 2uC[i] + uC[i+1]) + B*uC[i] + D*uC[i] - E*uP[i]` |
| Stencil.ComputeNextStep | wave.py:105-131 | The append loop over i in 1..len-2 yields exactly the regular-step field |
| Stencil.TryNextStep | wave.py:112-128 | The regular step fails with a division by zero when a denominator is zero. It fails with an index error when the previous level does not reach every interior node; the division check comes first. Otherwise it yields the regular-step field itself, of the stated length with zero ends |
| StencilProperties.FirstStepOfZero | wave.py:97-98 | An all-zero initial profile bootstraps to an all-zero level |
| StencilProperties.NextStepOfZero | wave.py:122-127 | All-zero current and previous levels step to an all-zero level |
| StencilProperties.FirstStepLinear | wave.py:97-98 | The bootstrap of `a*u + b*v` equals `a*FirstStep(u) + b*FirstStep(v)` |
| StencilProperties.NextStepLinear | wave.py:122-127 | The regular step of `(a*u + b*v, a*uPrev + b*vPrev)` equals `a*NextStep(u, uPrev) + b*NextStep(v, vPrev)` |
| StencilProperties.FirstStepMirror | wave.py:97-98 | A profile symmetric about the midpoint bootstraps to a symmetric level |
| StencilProperties.NextStepMirror | wave.py:122-127 | Symmetric current and previous levels of equal length step to a symmetric level |
| StencilProperties.FirstStepSolves | wave.py:93-98 | At each interior node, a value x satisfies `2*h^2*(1+gamma) * (x - u[i]) == c2*dt*(u[i-1] - 2u[i] + u[i+1])` if and only if it is the value the bootstrap computes |
| StencilProperties.NextStepSolvesScheme | wave.py:114-127 | At each interior node, a value satisfies the discretised damped wave equation (central second differences in time and space, damping differenced backward from level n+1) if and only if it is the value the regular step computes |
| StencilProperties.FirstStepExample | wave.py:93-98 | With u = [0,1,2,1,0], dt = 0.01, h = 0.25, c2 = 1, gamma = 0: the coefficient is 0.08 and the bootstrap is [0, 1.0, 1.84, 1.0, 0] |
| StencilProperties.NextStepExample | wave.py:114-127 | Continuing that example, the next level is [0, 0.999744, 1.677312, 0.999744, 0] |
| StencilProperties.DampedExample | wave.py:93-127 | With dt = 0.5, h = 1, c2 = 1, gamma = 1: the bootstrap coefficient is 1/8 and [0, 1, 0] bootstraps to [0, 0.75, 0]; the regular-step coefficients are A = 1/6, B = 4/3, D = 1/3, E = 2/3, and [0, 1, 0] stepped from rest gives [0, 4/3, 0] |
| Simulation.Start | wave.py:49-59 | Clamping and bootstrapping any non-empty profile gives buffers with zero ends from which the regular step can be taken; the previous buffer has the profile's length and keeps its interior, and the current buffer is the bootstrap of the previous one; for two or more nodes both buffers have the profile's length |
| Simulation.Tick | wave.py:72-80 | After a step and rotation, the old current level is the new previous level and the newly computed level is the new current level; the regular step can be taken again, and buffers of common length n with zero ends keep that property |
| Simulation.Run | wave.py:65-84 | After any number of iterations the regular step can still be taken and all ends are at rest; buffers of the grid's common length keep it |
| Simulation.TrySimulate | wave.py:49-84 | The driver fails with an index error exactly when the profile is empty, and with a division by zero exactly when the bootstrap's denominator is zero or the loop runs and a regular-step denominator is zero; it never meets the regular step's index error; when it finishes, its buffers are those of clamping, bootstrapping and the given number of iterations, all ends are at rest and a grid of two or more nodes keeps its length |
| Simulation.RunAtRest | wave.py:72-80 | Buffers at rest stay at rest for any number of iterations |
| Simulation.RunMirror | wave.py:72-80 | Symmetric buffers stay symmetric for any number of iterations |
| Simulation.SimulationMirror | wave.py:49-80 | A symmetric initial profile gives symmetric previous and current buffers after any number of iterations |
| Simulation.Simulate | wave.py:49-84 | The driver loop (clamp, bootstrap, then step and rotate) ends with the buffers that Run describes: zero ends, and the profile's length when it has two or more nodes |

## Left out

- Rendering (`depictPlot` and every matplotlib call) is left out. It only
  draws the current buffer and never changes the simulation state. It also
  fails when the current buffer and the grid `x` differ in length. Only a
  one-node profile produces that, because its bootstrap has two nodes. The
  model does not raise that error.
- Parameter setup and the initial profile are left out: the domain, material
  constants, `math.pi`, `math.sin` and `np.linspace`. The parameters are a
  `Params` value, and the initial profile is an argument.
- The float time accumulation and the end-time test are left out.
  `CurrentTime += TimeStep` and `while CurrentTime < TimeEnd` depend on float
  rounding. The number of loop iterations is a parameter instead.
- Floating-point behaviour is left out: rounding, overflow, NaN, and the
  underflow of a tiny `h^2` to 0. All arithmetic is exact over the reals, so
  the model states nothing about numerical stability or the Courant-type
  condition.
- The commented-out frame saving and the alternative initial profile are
  left out, because they are not executed.
