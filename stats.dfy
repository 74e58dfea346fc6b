/** Missing-aware statistics over the `kwh` column of the dashboard (dashboard/app.py):
    the pandas reductions `mean`, `max` and `min` skip missing values, and the trailing
    `rolling(window).mean()` needs a full window of present values. A missing value is `None`. */
module Stats {
  import opened Wrappers
  import opened RealMath

  /** The present values of a column, in order. */
  function Present(s: seq<Option<real>>): (r: seq<real>)
    ensures |r| <= |s|
  {
    if s == [] then []
    else (if s[0].Some? then [s[0].value] else []) + Present(s[1..])
  }

  /** Counting the present values tells whether all or none of the entries are present. */
  lemma {:induction false} PresentCount(s: seq<Option<real>>)
    ensures |Present(s)| == |s| <==> forall i :: 0 <= i < |s| ==> s[i].Some?
    ensures |Present(s)| == 0 <==> forall i :: 0 <= i < |s| ==> s[i].None?
  {
    if s != [] {
      PresentCount(s[1..]);
      assert forall i :: 1 <= i < |s| ==> s[i] == s[1..][i - 1];
    }
  }

  lemma {:induction false} PresentAppend(a: seq<Option<real>>, b: seq<Option<real>>)
    ensures Present(a + b) == Present(a) + Present(b)
  {
    if a == [] {
      assert a + b == b;
    } else {
      var head := if a[0].Some? then [a[0].value] else [];
      assert (a + b)[0] == a[0];
      assert (a + b)[1..] == a[1..] + b;
      PresentAppend(a[1..], b);
      calc {
        Present(a + b);
        head + Present(a[1..] + b);
        head + (Present(a[1..]) + Present(b));
        (head + Present(a[1..])) + Present(b);
        Present(a) + Present(b);
      }
    }
  }

  /** Column mean over the present values; undefined when none is present. */
  function Mean(s: seq<Option<real>>): (r: Option<real>)
    ensures r.None? <==> forall i :: 0 <= i < |s| ==> s[i].None?
  {
    PresentCount(s);
    var p := Present(s);
    if p == [] then None else Some(Sum(p) / |p| as real)
  }

  /** Column maximum over the present values: an upper bound of them that is one of them. */
  function Max(s: seq<Option<real>>): (r: Option<real>)
    ensures r.None? <==> forall i :: 0 <= i < |s| ==> s[i].None?
    ensures r.Some? ==> r in s && forall i :: 0 <= i < |s| && s[i].Some? ==> s[i].value <= r.value
  {
    if s == [] then None
    else
      match Max(s[1..])
      case None => s[0]
      case Some(m) => if s[0].Some? && s[0].value > m then s[0] else Some(m)
  }

  /** Column minimum over the present values: a lower bound of them that is one of them. */
  function Min(s: seq<Option<real>>): (r: Option<real>)
    ensures r.None? <==> forall i :: 0 <= i < |s| ==> s[i].None?
    ensures r.Some? ==> r in s && forall i :: 0 <= i < |s| && s[i].Some? ==> r.value <= s[i].value
  {
    if s == [] then None
    else
      match Min(s[1..])
      case None => s[0]
      case Some(m) => if s[0].Some? && s[0].value < m then s[0] else Some(m)
  }

  /** Bounds on the present entries carry over to the present values. */
  lemma {:induction false} PresentBounded(s: seq<Option<real>>, lo: real, hi: real)
    requires forall i :: 0 <= i < |s| && s[i].Some? ==> lo <= s[i].value <= hi
    ensures forall i :: 0 <= i < |Present(s)| ==> lo <= Present(s)[i] <= hi
  {
    if s != [] {
      PresentBounded(s[1..], lo, hi);
    }
  }

  /** The average of values within bounds is within the same bounds. */
  lemma AverageBounded(p: seq<real>, lo: real, hi: real)
    requires p != []
    requires forall i :: 0 <= i < |p| ==> lo <= p[i] <= hi
    ensures lo <= Sum(p) / |p| as real <= hi
  {
    SumBounds(p, lo, hi);
    DivideBounds(Sum(p), |p| as real, lo, hi);
  }

  lemma DivideBounds(total: real, n: real, lo: real, hi: real)
    requires n > 0.0 && n * lo <= total <= n * hi
    ensures lo <= total / n <= hi
  {
    var q := total / n;
    assert q * n == total;
    assert (q - lo) * n >= 0.0;
    assert (hi - q) * n >= 0.0;
  }

  /** The mean lies between the minimum and the maximum. */
  lemma MeanBetween(s: seq<Option<real>>)
    requires Mean(s).Some?
    ensures Min(s).Some? && Max(s).Some?
    ensures Min(s).value <= Mean(s).value <= Max(s).value
  {
    var p := Present(s);
    var lo, hi := Min(s).value, Max(s).value;
    PresentBounded(s, lo, hi);
    AverageBounded(p, lo, hi);
  }

  /** The reductions depend only on which values are present: a column with a missing
      entry inserted anywhere has the same mean as the column without it ... */
  lemma MeanIgnoresMissing(s: seq<Option<real>>, k: nat)
    requires k <= |s|
    ensures Mean(s[..k] + [None] + s[k..]) == Mean(s)
  {
    var t := s[..k] + [None] + s[k..];
    assert Present(t) == Present(s) by {
      PresentAppend(s[..k] + [None], s[k..]);
      PresentAppend(s[..k], [None]);
      PresentAppend(s[..k], s[k..]);
      assert s[..k] + s[k..] == s;
      assert Present([None]) == [];
    }
    SamePresentSameMean(s, t);
  }

  /** ... and the same maximum and minimum. */
  lemma ExtremesIgnoreMissing(s: seq<Option<real>>, k: nat)
    requires k <= |s|
    ensures Max(s[..k] + [None] + s[k..]) == Max(s)
    ensures Min(s[..k] + [None] + s[k..]) == Min(s)
  {
    var t := s[..k] + [None] + s[k..];
    forall x ensures Some(x) in s <==> Some(x) in t {
      assert s == s[..k] + s[k..];
      assert Some(x) in t <==> Some(x) in s[..k] || Some(x) in s[k..];
    }
    ExtremesDetermined(s, t);
  }

  lemma SamePresentSameMean(s: seq<Option<real>>, t: seq<Option<real>>)
    requires Present(s) == Present(t)
    ensures Mean(s) == Mean(t)
  {
  }

  /** Two columns with the same present values have the same maximum and minimum. */
  lemma ExtremesDetermined(s: seq<Option<real>>, t: seq<Option<real>>)
    requires forall x :: Some(x) in s <==> Some(x) in t
    ensures Max(s) == Max(t) && Min(s) == Min(t)
  {
    MaxDetermined(s, t);
    MaxDetermined(t, s);
    MinDetermined(s, t);
    MinDetermined(t, s);
  }

  lemma MaxDetermined(s: seq<Option<real>>, t: seq<Option<real>>)
    requires forall x :: Some(x) in s ==> Some(x) in t
    ensures Max(s).Some? ==> Max(t).Some? && Max(s).value <= Max(t).value
  {
    if Max(s).Some? {
      var m := Max(s).value;
      assert Some(m) in t;
      var j :| 0 <= j < |t| && t[j] == Some(m);
      assert t[j].Some?;
    }
  }

  lemma MinDetermined(s: seq<Option<real>>, t: seq<Option<real>>)
    requires forall x :: Some(x) in s ==> Some(x) in t
    ensures Min(s).Some? ==> Min(t).Some? && Min(t).value <= Min(s).value
  {
    if Min(s).Some? {
      var m := Min(s).value;
      assert Some(m) in t;
      var j :| 0 <= j < |t| && t[j] == Some(m);
      assert t[j].Some?;
    }
  }

  /** Mean of one window of the rolling mean: defined only when every value in it is present. */
  function WindowMean(w: seq<Option<real>>): Option<real>
  {
    if |w| > 0 && |Present(w)| == |w| then Mean(w) else None
  }

  /** Point `i` of `rolling(window).mean()` with pandas' default `min_periods = window`:
      the mean of the window of `window` entries that ends at `i`. */
  function RollingAt(kwh: seq<Option<real>>, window: nat, i: nat): (r: Option<real>)
    requires window >= 1 && i < |kwh|
    ensures i + 1 < window ==> r.None?
    ensures r.Some? ==> kwh[i].Some? && r == Mean(kwh[i + 1 - window..i + 1])
  {
    if i + 1 < window then None
    else
      var w := kwh[i + 1 - window..i + 1];
      assert WindowMean(w).Some? ==> kwh[i].Some? by {
        PresentCount(w);
        assert w[window - 1] == kwh[i];
      }
      WindowMean(w)
  }

  /** The first `window - 1` points are undefined; from then on a point is defined exactly
      when its whole window is present, and it is then the mean of that window. */
  lemma RollingPoint(kwh: seq<Option<real>>, window: nat, i: nat)
    requires window >= 1 && i < |kwh|
    ensures i + 1 < window ==> RollingAt(kwh, window, i).None?
    ensures i + 1 >= window ==>
              (RollingAt(kwh, window, i).Some? <==> forall j :: i + 1 - window <= j <= i ==> kwh[j].Some?)
    ensures RollingAt(kwh, window, i).Some? ==>
              RollingAt(kwh, window, i) == Mean(kwh[i + 1 - window..i + 1])
  {
    if i + 1 >= window {
      var w := kwh[i + 1 - window..i + 1];
      PresentCount(w);
      assert forall j :: i + 1 - window <= j <= i ==> kwh[j] == w[j - (i + 1 - window)];
    }
  }

  /** First index of the trailing window that ends just before `k`. */
  function WindowStart(k: nat, window: nat): nat
  {
    if k >= window then k - window else 0
  }

  /** The value a present-or-missing entry adds to a running sum, and to a running count. */
  function ValueOf(x: Option<real>): real
  {
    if x.Some? then x.value else 0.0
  }

  function CountOf(x: Option<real>): nat
  {
    if x.Some? then 1 else 0
  }

  /** Moving the window one step: the entry at `i` comes in, the one `window` back goes out. */
  lemma Slide(kwh: seq<Option<real>>, window: nat, i: nat)
    requires window >= 1 && i < |kwh|
    ensures var a := Present(kwh[WindowStart(i, window)..i]);
            var b := Present(kwh[WindowStart(i + 1, window)..i + 1]);
            var gone := if i >= window then kwh[i - window] else None;
            Sum(b) == Sum(a) + ValueOf(kwh[i]) - ValueOf(gone)
            && |b| == |a| + CountOf(kwh[i]) - CountOf(gone)
  {
    var lo := WindowStart(i, window);
    var grown := kwh[lo..i + 1];
    assert grown == kwh[lo..i] + [kwh[i]];
    Grow(kwh[lo..i], kwh[i]);
    if i >= window {
      assert grown[1..] == kwh[lo + 1..i + 1];
      Shrink(grown);
    }
  }

  /** An entry appended at the end adds its value and its count. */
  lemma Grow(xs: seq<Option<real>>, x: Option<real>)
    ensures Sum(Present(xs + [x])) == Sum(Present(xs)) + ValueOf(x)
    ensures |Present(xs + [x])| == |Present(xs)| + CountOf(x)
  {
    PresentAppend(xs, [x]);
    SumAppend(Present(xs), Present([x]));
  }

  /** The first entry contributes its value and its count. */
  lemma Shrink(ys: seq<Option<real>>)
    requires ys != []
    ensures Sum(Present(ys)) == ValueOf(ys[0]) + Sum(Present(ys[1..]))
    ensures |Present(ys)| == CountOf(ys[0]) + |Present(ys[1..])|
  {
    var head := if ys[0].Some? then [ys[0].value] else [];
    assert Present(ys) == head + Present(ys[1..]);
    SumAppend(head, Present(ys[1..]));
  }


  /** What a rolling reduction reports from a window's running sum and count of present
      values: their mean once the count reaches `min_periods = window`, else missing. */
  function PointOf(sum: real, count: nat, window: nat): Option<real>
    requires window >= 1
  {
    if count == window then Some(sum / window as real) else None
  }

  /** With the window's sum and count in hand, the point is the rolling mean. */
  lemma PointFromWindow(kwh: seq<Option<real>>, window: nat, i: nat, sum: real, count: nat)
    requires window >= 1 && i < |kwh|
    requires sum == Sum(Present(kwh[WindowStart(i + 1, window)..i + 1]))
    requires count == |Present(kwh[WindowStart(i + 1, window)..i + 1])|
    ensures PointOf(sum, count, window) == RollingAt(kwh, window, i)
  {
    if i + 1 >= window {
      var w := kwh[i + 1 - window..i + 1];
      assert kwh[WindowStart(i + 1, window)..i + 1] == w;
      PresentCount(w);
    }
  }

  /** The `kwh_mm` column of the dashboard, built the way a rolling reduction is: one
      pass that keeps the sum and the count of present values inside the window. */
  method MovingAverage(kwh: seq<Option<real>>, window: nat) returns (mm: seq<Option<real>>)
    requires window >= 1
    ensures |mm| == |kwh|
    ensures forall i :: 0 <= i < |kwh| ==> mm[i] == RollingAt(kwh, window, i)
  {
    mm := [];
    var sum, count := 0.0, 0;
    for i := 0 to |kwh|
      invariant |mm| == i
      invariant forall j :: 0 <= j < i ==> mm[j] == RollingAt(kwh, window, j)
      invariant sum == Sum(Present(kwh[WindowStart(i, window)..i]))
      invariant count == |Present(kwh[WindowStart(i, window)..i])|
    {
      Slide(kwh, window, i);
      var gone := if i >= window then kwh[i - window] else None;
      sum := sum + ValueOf(kwh[i]) - ValueOf(gone);
      count := count + CountOf(kwh[i]) - CountOf(gone);
      PointFromWindow(kwh, window, i, sum, count);
      mm := mm + [PointOf(sum, count, window)];
    }
  }
}
