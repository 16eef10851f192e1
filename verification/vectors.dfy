/** Element-wise arithmetic on real vectors, standing in for the numpy
    expressions the algorithms build their candidates with. */
module Vectors {

  type Vec = seq<real>

  /** `a + b` */
  function Add(a: Vec, b: Vec): Vec
    requires |a| == |b|
  {
    seq(|a|, k requires 0 <= k < |a| => a[k] + b[k])
  }

  /** `a - b` */
  function Sub(a: Vec, b: Vec): Vec
    requires |a| == |b|
  {
    seq(|a|, k requires 0 <= k < |a| => a[k] - b[k])
  }

  /** `a * b`, element by element */
  function Mul(a: Vec, b: Vec): Vec
    requires |a| == |b|
  {
    seq(|a|, k requires 0 <= k < |a| => a[k] * b[k])
  }

  /** `a * c` for a scalar `c` */
  function Scale(a: Vec, c: real): Vec
  {
    seq(|a|, k requires 0 <= k < |a| => a[k] * c)
  }

  /** `a + c` for a scalar `c` (numpy broadcasting) */
  function Shift(a: Vec, c: real): Vec
  {
    seq(|a|, k requires 0 <= k < |a| => a[k] + c)
  }

  /** `full(n, 0.0)` */
  function Zeros(n: nat): Vec
  {
    seq(n, k => 0.0)
  }

  /** Every component is a draw of `uniform(0, 1)`: in [0, 1). */
  predicate UnitDraws(u: Vec) {
    forall k :: 0 <= k < |u| ==> 0.0 <= u[k] < 1.0
  }

  /** `x` lies in the half-open box `[lo, lo + width)`, component by component. */
  predicate InBox(x: Vec, lo: Vec, width: Vec)
    requires |x| == |lo| == |width|
  {
    forall k :: 0 <= k < |x| ==> lo[k] <= x[k] < lo[k] + width[k]
  }
}
