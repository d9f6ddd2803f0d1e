/** One-pass CUSUM change-point detection against its definition over all
    contiguous windows of the series. */
module Cusum {
  import opened Common

  function Sum(s: seq<real>): real {
    if s == [] then 0.0 else Sum(s[..|s| - 1]) + s[|s| - 1]
  }

  function Mean(s: seq<real>): real
    requires s != []
  {
    Sum(s) / |s| as real
  }

  /** The excess of each observation above `center`, less the allowed drift. */
  function Upward(s: seq<real>, center: real, drift: real): (r: seq<real>)
    ensures |r| == |s|
  {
    seq(|s|, i requires 0 <= i < |s| => s[i] - center - drift)
  }

  /** The shortfall of each observation below `center`, less the allowed drift. */
  function Downward(s: seq<real>, center: real, drift: real): (r: seq<real>)
    ensures |r| == |s|
  {
    seq(|s|, i requires 0 <= i < |s| => center - s[i] - drift)
  }

  ghost predicate IsWindow(terms: seq<real>, i: int, j: int) {
    0 <= i < j <= |terms|
  }

  ghost function WindowSum(terms: seq<real>, i: int, j: int): real
    requires 0 <= i <= j <= |terms|
  {
    Sum(terms[i..j])
  }

  /** Some non-empty contiguous window sums to more than the threshold. */
  ghost predicate WindowExceeds(terms: seq<real>, threshold: real) {
    exists i, j :: IsWindow(terms, i, j) && WindowSum(terms, i, j) > threshold
  }

  lemma WindowStep(terms: seq<real>, i: int, k: int)
    requires 0 <= i <= k < |terms|
    ensures WindowSum(terms, i, k + 1) == WindowSum(terms, i, k) + terms[k]
  {
    assert terms[i..k + 1][..k - i] == terms[i..k];
  }

  /** `best` is the largest sum of a (possibly empty) window ending just before k. */
  ghost predicate BestEndingAt(terms: seq<real>, k: int, best: real)
    requires 0 <= k <= |terms|
  {
    && (forall i :: 0 <= i <= k ==> WindowSum(terms, i, k) <= best)
    && (exists i :: 0 <= i <= k && WindowSum(terms, i, k) == best)
  }

  ghost predicate NoWindowUpTo(terms: seq<real>, k: int, threshold: real)
    requires 0 <= k <= |terms|
  {
    forall i, j :: 0 <= i < j <= k ==> WindowSum(terms, i, j) <= threshold
  }

  /** The clamped running sum is the best window sum ending here. */
  lemma RunningSumStep(terms: seq<real>, k: int, best: real)
    requires 0 <= k < |terms|
    requires BestEndingAt(terms, k, best)
    ensures BestEndingAt(terms, k + 1, MaxReal(0.0, best + terms[k]))
  {
    var next := MaxReal(0.0, best + terms[k]);
    assert WindowSum(terms, k + 1, k + 1) == 0.0;
    var end := k + 1;
    forall i | 0 <= i <= end
      ensures WindowSum(terms, i, end) <= next
    {
      if i <= k {
        WindowStep(terms, i, k);
      }
    }
    var i :| 0 <= i <= k && WindowSum(terms, i, k) == best;
    WindowStep(terms, i, k);
  }

  /** The running sum is exact and nothing before k was excessive. */
  ghost predicate Tracking(terms: seq<real>, k: int, best: real, threshold: real)
    requires 0 <= k <= |terms|
  {
    BestEndingAt(terms, k, best) && NoWindowUpTo(terms, k, threshold)
  }

  /** One observation: the new running sum either stays within the threshold and
      rules out every window so far, or exhibits an excessive one. */
  lemma TrackingStep(terms: seq<real>, k: int, best: real, next: real, threshold: real)
    requires 0 <= k < |terms|
    requires Tracking(terms, k, best, threshold)
    requires next == MaxReal(0.0, best + terms[k])
    ensures next <= threshold ==> Tracking(terms, k + 1, next, threshold)
    ensures next > threshold >= 0.0 ==> WindowExceeds(terms, threshold)
  {
    RunningSumStep(terms, k, best);
    if next > threshold >= 0.0 {
      var end := k + 1;
      var i :| 0 <= i <= end && WindowSum(terms, i, end) == next;
      assert WindowSum(terms, end, end) == 0.0;
      assert IsWindow(terms, i, end);
    }
  }

  lemma QuietSeries(terms: seq<real>, best: real, threshold: real)
    requires Tracking(terms, |terms|, best, threshold)
    ensures !WindowExceeds(terms, threshold)
  {
  }

  lemma {:induction false} UpwardSum(s: seq<real>, center: real, drift: real)
    ensures Sum(Upward(s, center, drift)) == Sum(s) - |s| as real * (center + drift)
  {
    if s != [] {
      var n := |s| - 1;
      UpwardSum(s[..n], center, drift);
      assert Upward(s, center, drift)[..n] == Upward(s[..n], center, drift);
    }
  }

  lemma {:induction false} DownwardSum(s: seq<real>, center: real, drift: real)
    ensures Sum(Downward(s, center, drift)) == |s| as real * (center - drift) - Sum(s)
  {
    if s != [] {
      var n := |s| - 1;
      DownwardSum(s[..n], center, drift);
      assert Downward(s, center, drift)[..n] == Downward(s[..n], center, drift);
    }
  }

  /** The centre is the mean: the one value from which the deviations cancel out. */
  lemma MeanIs(s: seq<real>, center: real)
    requires s != []
    ensures Sum(Upward(s, center, 0.0)) == 0.0 <==> center == Mean(s)
  {
    UpwardSum(s, center, 0.0);
    var n := |s| as real;
    assert Mean(s) * n == Sum(s);
    assert Sum(s) - n * center == n * (Mean(s) - center);
    hide Mean, Sum;
    NoZeroDivisor(n, Mean(s) - center);
  }

  lemma NoZeroDivisor(n: real, d: real)
    requires n > 0.0
    ensures n * d == 0.0 <==> d == 0.0
  {
    assert d > 0.0 ==> n * d > 0.0;
    assert d < 0.0 ==> n * (0.0 - d) > 0.0;
  }

  /** Some contiguous run of observations adds up to more than the threshold above what
      the mean and the drift allow, or below it. */
  ghost predicate Strays(series: seq<real>, mean: real, drift: real, threshold: real) {
    exists i, j :: IsWindow(series, i, j) &&
      (|| Sum(series[i..j]) - (j - i) as real * (mean + drift) > threshold
       || (j - i) as real * (mean - drift) - Sum(series[i..j]) > threshold)
  }

  lemma WindowIs(s: seq<real>, center: real, drift: real, i: int, j: int)
    requires IsWindow(s, i, j)
    ensures WindowSum(Upward(s, center, drift), i, j) == Sum(s[i..j]) - (j - i) as real * (center + drift)
    ensures WindowSum(Downward(s, center, drift), i, j) == (j - i) as real * (center - drift) - Sum(s[i..j])
  {
    assert Upward(s, center, drift)[i..j] == Upward(s[i..j], center, drift);
    assert Downward(s, center, drift)[i..j] == Downward(s[i..j], center, drift);
    UpwardSum(s[i..j], center, drift);
    DownwardSum(s[i..j], center, drift);
  }

  lemma StraysIs(s: seq<real>, center: real, drift: real, threshold: real)
    ensures Strays(s, center, drift, threshold) <==>
            || WindowExceeds(Upward(s, center, drift), threshold)
            || WindowExceeds(Downward(s, center, drift), threshold)
  {
    hide WindowSum, Upward, Downward, Sum;
    forall i, j | IsWindow(s, i, j)
      ensures WindowSum(Upward(s, center, drift), i, j) == Sum(s[i..j]) - (j - i) as real * (center + drift)
      ensures WindowSum(Downward(s, center, drift), i, j) == (j - i) as real * (center - drift) - Sum(s[i..j])
      ensures IsWindow(Upward(s, center, drift), i, j) && IsWindow(Downward(s, center, drift), i, j)
    {
      WindowIs(s, center, drift, i, j);
    }
    if i, j :| IsWindow(Upward(s, center, drift), i, j) && WindowSum(Upward(s, center, drift), i, j) > threshold {
      assert IsWindow(s, i, j);
    }
    if i, j :| IsWindow(Downward(s, center, drift), i, j) && WindowSum(Downward(s, center, drift), i, j) > threshold {
      assert IsWindow(s, i, j);
    }
    if i, j :| IsWindow(s, i, j) &&
               (|| Sum(s[i..j]) - (j - i) as real * (center + drift) > threshold
                || (j - i) as real * (center - drift) - Sum(s[i..j]) > threshold) {
      assert IsWindow(Upward(s, center, drift), i, j) && IsWindow(Downward(s, center, drift), i, j);
    }
  }

  /** The detector: an empty series never alarms, a negative threshold always
      does, and otherwise it alarms exactly on an excessive window. */
  method ChangePoint(series: seq<real>, threshold: real, drift: real) returns (detected: bool)
    ensures detected <==> series != [] && (threshold < 0.0 || Strays(series, Mean(series), drift, threshold))
  {
    if series == [] {
      return false;
    }
    var mean := Mean(series);
    StraysIs(series, mean, drift, threshold);
    ghost var up, down := Upward(series, mean, drift), Downward(series, mean, drift);
    var posSum, negSum := 0.0, 0.0;
    assert WindowSum(up, 0, 0) == 0.0 && WindowSum(down, 0, 0) == 0.0;
    for k := 0 to |series|
      invariant Tracking(up, k, posSum, threshold) && Tracking(down, k, negSum, threshold)
      invariant k > 0 ==> threshold >= 0.0
    {
      var posNext := MaxReal(0.0, posSum + (series[k] - mean - drift));
      var negNext := MaxReal(0.0, negSum + (mean - series[k] - drift));
      TrackingStep(up, k, posSum, posNext, threshold);
      TrackingStep(down, k, negSum, negNext, threshold);
      posSum, negSum := posNext, negNext;
      if posSum > threshold || negSum > threshold {
        return true;
      }
    }
    QuietSeries(up, posSum, threshold);
    QuietSeries(down, negSum, threshold);
    return false;
  }
}
