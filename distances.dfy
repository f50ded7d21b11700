/**
 * Distances that may be +infinity.
 *
 * The controller keeps its two nearest-obstacle distances in floats that
 * start at positive infinity and only ever shrink.  `Dist` models such a
 * value; the predicates below are the float comparisons the controller uses,
 * with the IEEE meaning they have for +infinity (nothing finite exceeds it,
 * and it is not below any finite bound, nor below itself).
 */
module Distances {

  datatype Dist = Finite(v: real) | Inf

  /** `x < y` for a finite bound `y`. */
  predicate Below(x: Dist, y: real) {
    x.Finite? && x.v < y
  }

  /** `x <= y` for a finite bound `y`. */
  predicate AtMost(x: Dist, y: real) {
    x.Finite? && x.v <= y
  }

  /** `x > y` for a finite `y`: +infinity exceeds every finite value. */
  predicate Exceeds(x: Dist, y: real) {
    x.Inf? || x.v > y
  }

  /** `x < y` between two possibly infinite values (`Inf < Inf` is false). */
  predicate Less(x: Dist, y: Dist) {
    x.Finite? && (y.Inf? || x.v < y.v)
  }

  /**
   * The running-minimum update `if (x > d) x = d;`: the result is the
   * smaller of `x` and `d`, and is one of the two.
   */
  function Lower(x: Dist, d: real): (r: Dist)
    ensures r.Finite? && r.v <= d
    ensures x.Finite? ==> r.v <= x.v
    ensures r == x || r == Finite(d)
  {
    if Exceeds(x, d) then Finite(d) else x
  }

  /** Lowering by two values gives the same result in either order. */
  lemma LowerCommutes(x: Dist, d1: real, d2: real)
    ensures Lower(Lower(x, d1), d2) == Lower(Lower(x, d2), d1)
  {
  }
}
