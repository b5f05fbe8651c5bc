/** Displacement fields of the string: one real value per grid node, index-aligned
    with the node positions.  Node 0 and the last node are the fixed (Dirichlet)
    ends of the string. */
module Fields {

  /** A displacement profile, one value per grid node. */
  type Field = seq<real>

  /** The discrete second difference at interior node i, the spatial part of
      every stencil in the scheme. */
  function Laplacian(u: Field, i: int): real
    requires 1 <= i < |u| - 1
  {
    u[i - 1] - 2.0 * u[i] + u[i + 1]
  }

  /** Both fixed ends of the string are at rest. */
  predicate ZeroEnds(u: Field)
  {
    |u| >= 1 && u[0] == 0.0 && u[|u| - 1] == 0.0
  }

  /** Every node is at rest. */
  predicate AllZero(u: Field)
  {
    forall i :: 0 <= i < |u| ==> u[i] == 0.0
  }

  /** The pointwise linear combination a*u + b*v of two fields of equal length. */
  function Combine(a: real, u: Field, b: real, v: Field): (w: Field)
    requires |u| == |v|
    ensures |w| == |u|
    ensures forall i :: 0 <= i < |w| ==> w[i] == a * u[i] + b * v[i]
  {
    seq(|u|, i requires 0 <= i < |u| => a * u[i] + b * v[i])
  }

  /** The field read from the other end of the string. */
  function Reverse(u: Field): (r: Field)
    ensures |r| == |u|
    ensures forall i :: 0 <= i < |u| ==> r[i] == u[|u| - 1 - i]
  {
    seq(|u|, i requires 0 <= i < |u| => u[|u| - 1 - i])
  }

  /** The profile is symmetric about the midpoint of the string. */
  predicate IsMirror(u: Field)
  {
    forall i, j :: 0 <= i < |u| && 0 <= j < |u| && i + j == |u| - 1 ==> u[i] == u[j]
  }

  /** Being symmetric about the midpoint is the same as being equal to one's own reversal. */
  lemma MirrorIffReverse(u: Field)
    ensures IsMirror(u) <==> Reverse(u) == u
  {
  }

  /** Forcing both ends of the initial profile to zero: the first and the last
      node are overwritten with 0, every interior node keeps its value.  A field
      of one node has a single node that is both ends. */
  function Clamp(u: Field): (r: Field)
    requires |u| >= 1
    ensures |r| == |u|
    ensures ZeroEnds(r)
    ensures forall i :: 0 < i < |u| - 1 ==> r[i] == u[i]
  {
    u[0 := 0.0][|u| - 1 := 0.0]
  }
}
