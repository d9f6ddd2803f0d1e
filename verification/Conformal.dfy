/** Split-conformal threshold and its distribution-free coverage guarantee,
    stated as a count over leave-one-out splits. */
module Conformal {

  predicate Ascending(s: seq<real>) {
    forall i, j :: 0 <= i < j < |s| ==> s[i] <= s[j]
  }

  function Insert(x: real, s: seq<real>): (r: seq<real>)
    requires Ascending(s)
    ensures |r| == |s| + 1
    ensures r[0] == if s == [] || x <= s[0] then x else s[0]
    ensures Ascending(r)
    ensures multiset(r) == multiset(s) + multiset{x}
  {
    if s == [] then [x]
    else if x <= s[0] then
      [x] + s
    else
      assert s == [s[0]] + s[1..];
      [s[0]] + Insert(x, s[1..])
  }

  /** Ascending rearrangement of a list. */
  function Sorted(s: seq<real>): (r: seq<real>)
    ensures |r| == |s|
    ensures Ascending(r)
    ensures multiset(r) == multiset(s)
  {
    if s == [] then []
    else
      assert s == [s[0]] + s[1..];
      Insert(s[0], Sorted(s[1..]))
  }

  /** Number of elements below x, or at most x when ties count. */
  function Count(s: seq<real>, x: real, ties: bool): (n: nat)
  {
    if s == [] then 0
    else (if s[0] < x || (ties && s[0] == x) then 1 else 0) + Count(s[1..], x, ties)
  }

  lemma {:induction false} CountConcat(a: seq<real>, b: seq<real>, x: real, ties: bool)
    ensures Count(a + b, x, ties) == Count(a, x, ties) + Count(b, x, ties)
  {
    if a == [] {
      assert a + b == b;
    } else {
      assert (a + b)[1..] == a[1..] + b;
      CountConcat(a[1..], b, x, ties);
    }
  }

  lemma {:induction false} CountInsert(v: real, s: seq<real>, x: real, ties: bool)
    requires Ascending(s)
    ensures Count(Insert(v, s), x, ties) == Count([v] + s, x, ties)
  {
    assert ([v] + s)[1..] == s;
    if s != [] && v > s[0] {
      CountInsert(v, s[1..], x, ties);
      assert ([v] + s[1..])[1..] == s[1..];
    }
  }

  /** Sorting does not change what is counted. */
  lemma {:induction false} CountSorted(s: seq<real>, x: real, ties: bool)
    ensures Count(Sorted(s), x, ties) == Count(s, x, ties)
  {
    if s != [] {
      CountSorted(s[1..], x, ties);
      CountInsert(s[0], Sorted(s[1..]), x, ties);
      assert ([s[0]] + Sorted(s[1..]))[1..] == Sorted(s[1..]);
    }
  }

  lemma CountNone(s: seq<real>, x: real)
    requires forall i :: 0 <= i < |s| ==> x <= s[i]
    ensures Count(s, x, false) == 0
  {
  }

  lemma CountAll(s: seq<real>, x: real)
    requires forall i :: 0 <= i < |s| ==> s[i] <= x
    ensures Count(s, x, true) == |s|
  {
  }

  /** In a sorted list, the element of rank k is at least x exactly when fewer
      than k elements are below x. */
  lemma {:induction false} SortedRank(s: seq<real>, k: int, x: real)
    requires Ascending(s) && 1 <= k <= |s|
    ensures x <= s[k - 1] <==> Count(s, x, false) < k
    decreases |s|
  {
    if s[0] < x {
      if k > 1 {
        SortedRank(s[1..], k - 1, x);
      }
    } else {
      CountNone(s, x);
    }
  }

  /** The order statistic the interval half-width is taken from. */
  function Threshold(scores: seq<real>, rank: int): real
    requires 1 <= rank <= |scores|
  {
    Sorted(scores)[rank - 1]
  }

  lemma ThresholdRank(scores: seq<real>, rank: int, x: real)
    requires 1 <= rank <= |scores|
    ensures x <= Threshold(scores, rank) <==> Count(scores, x, false) < rank
  {
    SortedRank(Sorted(scores), rank, x);
    CountSorted(scores, x, false);
  }

  function Without(s: seq<real>, i: int): (r: seq<real>)
    requires 0 <= i < |s|
    ensures |r| == |s| - 1
  {
    s[..i] + s[i + 1..]
  }

  /** Dropping an element that is not below x does not change what is below x. */
  lemma {:induction false} CountWithout(s: seq<real>, i: int, x: real)
    requires 0 <= i < |s| && s[i] >= x
    ensures Count(Without(s, i), x, false) == Count(s, x, false)
  {
    if i == 0 {
      assert Without(s, i) == s[1..];
    } else {
      assert Without(s, i)[0] == s[0];
      assert Without(s, i)[1..] == Without(s[1..], i - 1);
      CountWithout(s[1..], i - 1, x);
    }
  }

  /** Score i falls within the threshold computed from the other scores. */
  predicate Covered(s: seq<real>, rank: int, i: int)
    requires 0 <= i < |s| && 1 <= rank < |s|
  {
    s[i] <= Threshold(Without(s, i), rank)
  }

  /** Number of covered indices from m on. */
  function CoveredFrom(s: seq<real>, rank: int, m: nat): nat
    requires m <= |s| && 1 <= rank < |s|
    decreases |s| - m
  {
    if m == |s| then 0
    else (if Covered(s, rank, m) then 1 else 0) + CoveredFrom(s, rank, m + 1)
  }

  /** Leaving the score itself out of the calibration set makes no difference
      to whether it is covered. */
  lemma CoveredIff(s: seq<real>, rank: int, i: int)
    requires 0 <= i < |s| && 1 <= rank < |s|
    ensures Covered(s, rank, i) <==> s[i] <= Threshold(s, rank)
  {
    ThresholdRank(Without(s, i), rank, s[i]);
    CountWithout(s, i, s[i]);
    ThresholdRank(s, rank, s[i]);
  }

  lemma {:induction false} CoveredIsCount(s: seq<real>, rank: int, m: nat)
    requires m <= |s| && 1 <= rank < |s|
    ensures CoveredFrom(s, rank, m) == Count(s[m..], Threshold(s, rank), true)
    decreases |s| - m
  {
    if m < |s| {
      CoveredIff(s, rank, m);
      CoveredIsCount(s, rank, m + 1);
      assert s[m..][1..] == s[m + 1..];
    }
  }

  /** At least k elements of an ascending list are at most its k-th. */
  lemma SortedCount(r: seq<real>, k: int)
    requires Ascending(r) && 1 <= k <= |r|
    ensures Count(r, r[k - 1], true) >= k
  {
    CountAll(r[..k], r[k - 1]);
    CountConcat(r[..k], r[k..], r[k - 1], true);
    assert r == r[..k] + r[k..];
  }

  /** Split-conformal guarantee: whichever of the n + 1 scores is held out, at
      least `rank` of the n + 1 choices fall within their threshold, ties included. */
  lemma Coverage(s: seq<real>, rank: int)
    requires 1 <= rank < |s|
    ensures CoveredFrom(s, rank, 0) >= rank
  {
    CoveredIsCount(s, rank, 0);
    assert s[0..] == s;
    CountSorted(s, Threshold(s, rank), true);
    SortedCount(Sorted(s), rank);
  }

  lemma {:induction false} TiesAtMostOne(s: seq<real>, x: real)
    requires forall i, j :: 0 <= i < j < |s| ==> s[i] != s[j]
    ensures Count(s, x, false) <= Count(s, x, true) <= Count(s, x, false) + 1
    ensures x !in s ==> Count(s, x, true) == Count(s, x, false)
  {
    if s != [] {
      TiesAtMostOne(s[1..], x);
    }
  }

  /** Without ties the guarantee is exact. */
  lemma CoverageExact(s: seq<real>, rank: int)
    requires 1 <= rank < |s|
    requires forall i, j :: 0 <= i < j < |s| ==> s[i] != s[j]
    ensures CoveredFrom(s, rank, 0) == rank
  {
    Coverage(s, rank);
    CoveredIsCount(s, rank, 0);
    assert s[0..] == s;
    ThresholdRank(s, rank, Threshold(s, rank));
    TiesAtMostOne(s, Threshold(s, rank));
  }

  function Ceiling(x: real): int {
    -((-x).Floor)
  }

  /** The share `confidence` of n. */
  function Quota(n: nat, confidence: real): real {
    n as real * confidence
  }

  lemma QuotaPositive(n: nat, confidence: real)
    requires n > 0 && confidence > 0.0
    ensures Quota(n, confidence) > 0.0
  {
  }

  datatype Bound = Supported(lower: real, upper: real, tau: real) | Unsupported

  predicate Nonnegative(s: seq<real>) {
    forall i :: 0 <= i < |s| ==> s[i] >= 0.0
  }

  lemma ThresholdNonnegative(scores: seq<real>, rank: int)
    requires 1 <= rank <= |scores| && Nonnegative(scores)
    ensures Threshold(scores, rank) >= 0.0
  {
    ThresholdRank(scores, rank, 0.0);
    CountNone(scores, 0.0);
  }

  /** The calculator with its refusals: a confidence outside (0, 1), a negative
      residual, fewer than ten residuals, or a rank beyond the sample. */
  function ConformalBound(scores: seq<real>, center: real, confidence: real): Bound {
    if !(0.0 < confidence < 1.0) || !Nonnegative(scores) || |scores| < 10 then Unsupported
    else
      var rank := Ceiling(Quota(|scores| + 1, confidence));
      if rank > |scores| then Unsupported
      else
        QuotaPositive(|scores| + 1, confidence);
        var tau := Threshold(scores, rank);
        Supported(center - tau, center + tau, tau)
  }

  // ----- what the bound means

  /** Positions of the elements below x, or at most x when ties count. */
  function Below(s: seq<real>, x: real, ties: bool): set<int> {
    set i | 0 <= i < |s| && (s[i] < x || (ties && s[i] == x))
  }

  lemma BelowStep(s: seq<real>, last: real, x: real, ties: bool)
    ensures Below(s + [last], x, ties) == Below(s, x, ties) + if last < x || (ties && last == x) then {|s|} else {}
    ensures |s| !in Below(s, x, ties)
  {
  }

  lemma {:induction false} CountIsSize(s: seq<real>, x: real, ties: bool)
    ensures Count(s, x, ties) == |Below(s, x, ties)|
  {
    if s != [] {
      var n := |s| - 1;
      CountIsSize(s[..n], x, ties);
      CountConcat(s[..n], [s[n]], x, ties);
      assert s == s[..n] + [s[n]];
      assert Count([s[n]], x, ties) == if s[n] < x || (ties && s[n] == x) then 1 else 0;
      BelowStep(s[..n], s[n], x, ties);
      hide Below, Count;
    }
  }

  lemma CeilingIs(x: real, n: int)
    ensures n >= Ceiling(x) <==> n as real >= x
  {
    assert (-x).Floor as real <= -x < (-x).Floor as real + 1.0;
  }

  lemma ThresholdMember(scores: seq<real>, rank: int)
    requires 1 <= rank <= |scores|
    ensures Threshold(scores, rank) in scores
    ensures Count(scores, Threshold(scores, rank), false) < rank <= Count(scores, Threshold(scores, rank), true)
  {
    var tau := Threshold(scores, rank);
    assert tau in multiset(Sorted(scores));
    ThresholdRank(scores, rank, tau);
    SortedCount(Sorted(scores), rank);
    CountSorted(scores, tau, true);
  }

  /** An interval is given if and only if the confidence is proper, no residual is
      negative, there are at least ten, and they are enough for the confidence. It is
      symmetric around the centre, and its half-width is the empirical quantile at
      (n + 1) times the confidence: the residual with fewer than that many below it and
      at least that many at or below it. */
  lemma BoundIs(scores: seq<real>, center: real, confidence: real)
    ensures var b, q := ConformalBound(scores, center, confidence), (|scores| + 1) as real * confidence;
            && (b.Supported? <==>
                  && 0.0 < confidence < 1.0 && (forall i :: 0 <= i < |scores| ==> scores[i] >= 0.0)
                  && |scores| >= 10 && q <= |scores| as real)
            && (b.Supported? ==>
                  && b.lower == center - b.tau && b.upper == center + b.tau && b.tau in scores
                  && Count(scores, b.tau, false) as real < q <= Count(scores, b.tau, true) as real)
  {
    var q := Quota(|scores| + 1, confidence);
    assert q == (|scores| + 1) as real * confidence;
    CeilingIs(q, |scores|);
    if confidence > 0.0 {
      QuotaPositive(|scores| + 1, confidence);
    }
    hide Quota, Threshold, Count;
    if ConformalBound(scores, center, confidence).Supported? {
      QuantileIs(scores, q);
    }
  }

  lemma QuantileIs(scores: seq<real>, q: real)
    requires 0.0 < q && Ceiling(q) <= |scores|
    ensures 1 <= Ceiling(q)
    ensures var tau := Threshold(scores, Ceiling(q));
            tau in scores && Count(scores, tau, false) as real < q <= Count(scores, tau, true) as real
  {
    CeilingIs(q, 0);
    ThresholdMember(scores, Ceiling(q));
    var tau := Threshold(scores, Ceiling(q));
    CeilingIs(q, Count(scores, tau, false));
    CeilingIs(q, Count(scores, tau, true));
    hide Threshold, Count, Ceiling;
  }

  // ----- coverage of the interval

  /** Each residual is the distance of a truth from its own prediction. */
  ghost predicate Residuals(s: seq<real>, centers: seq<real>, truths: seq<real>) {
    && |s| == |centers| == |truths|
    && forall i :: 0 <= i < |s| ==>
         s[i] == if truths[i] >= centers[i] then truths[i] - centers[i] else centers[i] - truths[i]
  }

  /** Truth i of the n + 1 is inside the interval around its prediction that is
      calibrated on the other residuals. */
  predicate InsideInterval(s: seq<real>, centers: seq<real>, truths: seq<real>, confidence: real, i: int)
    requires 0 <= i < |s| == |centers| == |truths|
  {
    var b := ConformalBound(Without(s, i), centers[i], confidence);
    b.Supported? && b.lower <= truths[i] <= b.upper
  }

  function InsideFrom(s: seq<real>, centers: seq<real>, truths: seq<real>, confidence: real, m: nat): nat
    requires m <= |s| == |centers| == |truths|
    decreases |s| - m
  {
    if m == |s| then 0
    else (if InsideInterval(s, centers, truths, confidence, m) then 1 else 0)
         + InsideFrom(s, centers, truths, confidence, m + 1)
  }

  /** InsideFrom counts the truths covered. */
  lemma {:induction false} InsideIsSize(s: seq<real>, centers: seq<real>, truths: seq<real>, confidence: real, m: nat)
    requires m <= |s| == |centers| == |truths|
    ensures InsideFrom(s, centers, truths, confidence, m)
         == |set i | m <= i < |s| && InsideInterval(s, centers, truths, confidence, i)|
    decreases |s| - m
  {
    hide InsideInterval;
    var here := set i | m <= i < |s| && InsideInterval(s, centers, truths, confidence, i);
    if m < |s| {
      InsideIsSize(s, centers, truths, confidence, m + 1);
      var rest := set i | m + 1 <= i < |s| && InsideInterval(s, centers, truths, confidence, i);
      assert here == rest + if InsideInterval(s, centers, truths, confidence, m) then {m} else {};
    } else {
      assert here == {};
    }
  }

  lemma InsideIffCovered(s: seq<real>, centers: seq<real>, truths: seq<real>, confidence: real, i: int)
    requires 0.0 < confidence < 1.0 && Residuals(s, centers, truths)
    requires |s| >= 11 && 0 <= i < |s|
    requires 1 <= Ceiling(Quota(|s|, confidence)) < |s|
    ensures InsideInterval(s, centers, truths, confidence, i) <==> Covered(s, Ceiling(Quota(|s|, confidence)), i)
  {
    var rest := Without(s, i);
    var rank := Ceiling(Quota(|s|, confidence));
    assert Nonnegative(rest);
    assert (|rest| + 1) as real == |s| as real;
    ThresholdNonnegative(rest, rank);
  }

  lemma {:induction false} InsideIsCovered(s: seq<real>, centers: seq<real>, truths: seq<real>, confidence: real,
                                           m: nat)
    requires 0.0 < confidence < 1.0 && Residuals(s, centers, truths)
    requires |s| >= 11 && m <= |s|
    requires 1 <= Ceiling(Quota(|s|, confidence)) < |s|
    ensures InsideFrom(s, centers, truths, confidence, m)
         == CoveredFrom(s, Ceiling(Quota(|s|, confidence)), m)
    decreases |s| - m
  {
    if m < |s| {
      InsideIffCovered(s, centers, truths, confidence, m);
      InsideIsCovered(s, centers, truths, confidence, m + 1);
    }
  }

  /** The promised coverage, for any predictions and truths: either the n + 1 are fewer
      than eleven or too few for the confidence, and every split is refused, or at least
      the fraction `confidence` of the splits covers the held-out truth. */
  lemma NominalCoverage(s: seq<real>, centers: seq<real>, truths: seq<real>, confidence: real)
    requires 0.0 < confidence < 1.0 && Residuals(s, centers, truths)
    ensures if |s| < 11 || |s| as real * confidence > (|s| - 1) as real
            then forall i :: 0 <= i < |s| ==> ConformalBound(Without(s, i), centers[i], confidence).Unsupported?
            else InsideFrom(s, centers, truths, confidence, 0) as real >= confidence * |s| as real
  {
    var q := Quota(|s|, confidence);
    assert q == |s| as real * confidence;
    if |s| < 11 || q > (|s| - 1) as real {
      forall i | 0 <= i < |s|
        ensures ConformalBound(Without(s, i), centers[i], confidence).Unsupported?
      {
        BoundIs(Without(s, i), centers[i], confidence);
        hide ConformalBound;
      }
    } else {
      EnoughCovered(s, centers, truths, confidence);
    }
  }

  lemma EnoughCovered(s: seq<real>, centers: seq<real>, truths: seq<real>, confidence: real)
    requires 0.0 < confidence < 1.0 && Residuals(s, centers, truths)
    requires |s| >= 11 && Quota(|s|, confidence) <= (|s| - 1) as real
    ensures InsideFrom(s, centers, truths, confidence, 0) as real >= Quota(|s|, confidence)
  {
    QuotaPositive(|s|, confidence);
    hide Quota;
    var q := Quota(|s|, confidence);
    var rank := Ceiling(q);
    CeilingIs(q, |s| - 1);
    CeilingIs(q, 0);
    hide Ceiling, Residuals;
    InsideIsCovered(s, centers, truths, confidence, 0);
    hide CoveredFrom, InsideFrom;
    Coverage(s, rank);
    CeilingIs(q, CoveredFrom(s, rank, 0));
  }
}
