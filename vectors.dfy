/** Inner products of real vectors, shared by the moment-matrix assembly,
    the stencil application and the conserved quantity of the remap step. */
module Vectors {

  /** Inner product of two vectors of equal length, summed front to back. */
  function Dot(u: seq<real>, v: seq<real>): real
    requires |u| == |v|
    decreases |u|
  {
    if |u| == 0 then 0.0 else Dot(u[..|u| - 1], v[..|v| - 1]) + u[|u| - 1] * v[|v| - 1]
  }

  lemma {:induction false} DotSymmetric(u: seq<real>, v: seq<real>)
    requires |u| == |v|
    ensures Dot(u, v) == Dot(v, u)
    decreases |u|
  {
    if |u| > 0 {
      DotSymmetric(u[..|u| - 1], v[..|v| - 1]);
    }
  }

  lemma {:induction false} DotSelfNonNegative(u: seq<real>)
    ensures Dot(u, u) >= 0.0
    decreases |u|
  {
    if |u| > 0 {
      DotSelfNonNegative(u[..|u| - 1]);
      var x := u[|u| - 1];
      assert x * x >= 0.0;
    }
  }
}
