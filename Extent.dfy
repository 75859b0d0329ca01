/**
 * Extremes of a non-empty list of numbers: what `Math.min(...xs)` and
 * `Math.max(...xs)` compute for the vertex coordinates of a body.
 */
module Extent {

  /** The smallest element of `xs`. */
  function MinOf(xs: seq<real>): real
    requires |xs| > 0
  {
    if |xs| == 1 then xs[0]
    else
      var rest := MinOf(xs[1..]);
      if xs[0] <= rest then xs[0] else rest
  }

  /** The largest element of `xs`. */
  function MaxOf(xs: seq<real>): real
    requires |xs| > 0
  {
    if |xs| == 1 then xs[0]
    else
      var rest := MaxOf(xs[1..]);
      if xs[0] >= rest then xs[0] else rest
  }

  /** `MinOf` is an element of the list and no element is smaller. */
  lemma {:induction false} MinOfIsLeast(xs: seq<real>)
    requires |xs| > 0
    ensures MinOf(xs) in xs
    ensures forall i :: 0 <= i < |xs| ==> MinOf(xs) <= xs[i]
  {
    if |xs| > 1 {
      MinOfIsLeast(xs[1..]);
      forall i | 1 <= i < |xs| ensures MinOf(xs) <= xs[i] {
        assert xs[i] == xs[1..][i - 1];
      }
    }
  }

  /** `MaxOf` is an element of the list and no element is larger. */
  lemma {:induction false} MaxOfIsGreatest(xs: seq<real>)
    requires |xs| > 0
    ensures MaxOf(xs) in xs
    ensures forall i :: 0 <= i < |xs| ==> xs[i] <= MaxOf(xs)
  {
    if |xs| > 1 {
      MaxOfIsGreatest(xs[1..]);
      forall i | 1 <= i < |xs| ensures xs[i] <= MaxOf(xs) {
        assert xs[i] == xs[1..][i - 1];
      }
    }
  }

  /** The minimum never exceeds the maximum. */
  lemma MinAtMostMax(xs: seq<real>)
    requires |xs| > 0
    ensures MinOf(xs) <= MaxOf(xs)
  {
    MinOfIsLeast(xs);
    MaxOfIsGreatest(xs);
  }
}
