/** Small facts about real numbers shared by the dashboard and the calculator. */
module RealMath {

  /** The ceiling of `x` (numpy `ceil`, JavaScript `Math.ceil`), defined through `.Floor`:
      the least integer that is not below `x`. */
  function Ceil(x: real): (n: int)
    ensures x <= n as real
    ensures (n - 1) as real < x
  {
    -((-x).Floor)
  }

  /** Any integer at least `x` is at least its ceiling. */
  lemma CeilLeast(x: real, m: int)
    requires x <= m as real
    ensures Ceil(x) <= m
  {
  }

  /** Sum of a sequence of reals, folded from the left end. */
  function Sum(xs: seq<real>): real
  {
    if xs == [] then 0.0 else xs[0] + Sum(xs[1..])
  }

  lemma {:induction false} SumAppend(a: seq<real>, b: seq<real>)
    ensures Sum(a + b) == Sum(a) + Sum(b)
  {
    if a == [] {
      assert a + b == b;
    } else {
      assert (a + b)[1..] == a[1..] + b;
      SumAppend(a[1..], b);
    }
  }

  /** Every element at most `hi` bounds the sum by `|xs| * hi`; at least `lo` by `|xs| * lo`. */
  lemma {:induction false} SumBounds(xs: seq<real>, lo: real, hi: real)
    requires forall i :: 0 <= i < |xs| ==> lo <= xs[i] <= hi
    ensures |xs| as real * lo <= Sum(xs) <= |xs| as real * hi
  {
    if xs != [] {
      SumBounds(xs[1..], lo, hi);
    }
  }
}
