/** Trapezoidal AUROC over descending distinct thresholds, shown equal to the
    pairwise rank statistic. */
module Auroc {
  import opened Common

  datatype Result = Value(auroc: real) | ValueError

  predicate Labelled(y: seq<int>, s: seq<real>) {
    |y| == |s| && forall i :: 0 <= i < |y| ==> y[i] == 0 || y[i] == 1
  }

  predicate Descending(ts: seq<real>) {
    forall i, j :: 0 <= i < j < |ts| ==> ts[i] > ts[j]
  }

  function InsertDistinct(x: real, ts: seq<real>): (r: seq<real>)
    requires Descending(ts)
    ensures r != [] && r[0] == if ts == [] || x > ts[0] then x else ts[0]
    ensures Descending(r)
    ensures forall v :: v in r <==> v == x || v in ts
  {
    if ts == [] || x > ts[0] then [x] + ts
    else if x == ts[0] then ts
    else [ts[0]] + InsertDistinct(x, ts[1..])
  }

  predicate SameScores(ts: seq<real>, s: seq<real>) {
    && (forall i :: 0 <= i < |ts| ==> ts[i] in s)
    && (forall i :: 0 <= i < |s| ==> s[i] in ts)
  }

  /** The distinct scores, highest first. */
  function Thresholds(s: seq<real>): (ts: seq<real>)
    ensures Descending(ts) && SameScores(ts, s)
  {
    if s == [] then []
    else
      var rest := Thresholds(s[1..]);
      assert forall v :: v in rest ==> v in s;
      InsertDistinct(s[0], rest)
  }

  function Total(y: seq<int>, n: nat, c: int): nat
    requires n <= |y|
  {
    if n == 0 then 0 else Total(y, n - 1, c) + (if y[n - 1] == c then 1 else 0)
  }

  /** Members of class c among the first n whose score is above t, or at least t
      when ties count. */
  function Reached(y: seq<int>, s: seq<real>, n: nat, c: int, t: real, ties: bool): nat
    requires n <= |y| == |s|
  {
    if n == 0 then 0
    else Reached(y, s, n - 1, c, t, ties)
         + (if y[n - 1] == c && (s[n - 1] > t || (ties && s[n - 1] == t)) then 1 else 0)
  }

  /** Members of class c among the first n whose score is below t. */
  function Missed(y: seq<int>, s: seq<real>, n: nat, c: int, t: real): nat
    requires n <= |y| == |s|
  {
    if n == 0 then 0
    else Missed(y, s, n - 1, c, t) + (if y[n - 1] == c && s[n - 1] < t then 1 else 0)
  }

  lemma {:induction false} ConfusionTotals(y: seq<int>, s: seq<real>, n: nat, c: int, t: real)
    requires n <= |y| == |s|
    ensures Reached(y, s, n, c, t, true) + Missed(y, s, n, c, t) == Total(y, n, c)
  {
    if n > 0 {
      ConfusionTotals(y, s, n - 1, c, t);
    }
  }

  /** Share of class c predicted positive at threshold t: the true-positive rate
      for c == 1 and the false-positive rate for c == 0. */
  function Rate(y: seq<int>, s: seq<real>, c: int, t: real): real
    requires |y| == |s|
  {
    var hit, miss := Reached(y, s, |y|, c, t, true), Missed(y, s, |y|, c, t);
    if hit + miss > 0 then hit as real / (hit + miss) as real else 0.0
  }

  /** What a pair with positive score p and negative score q contributes. */
  function Credit(p: real, q: real): real {
    if p > q then 1.0 else if p == q then 0.5 else 0.0
  }

  /** Credit of all positives among the first n against one negative score. */
  function RowScore(y: seq<int>, s: seq<real>, n: nat, q: real): real
    requires n <= |y| == |s|
  {
    if n == 0 then 0.0
    else RowScore(y, s, n - 1, q) + (if y[n - 1] == 1 then Credit(s[n - 1], q) else 0.0)
  }

  /** Credit over every (positive, negative) pair: the Mann-Whitney statistic. */
  function PairScore(y: seq<int>, s: seq<real>, n: nat): real
    requires n <= |y| == |s|
  {
    if n == 0 then 0.0
    else PairScore(y, s, n - 1) + (if y[n - 1] == 0 then RowScore(y, s, |y|, s[n - 1]) else 0.0)
  }

  /** The part of the pair score owed to negatives above t (or at least t). */
  function PairScoreFrom(y: seq<int>, s: seq<real>, n: nat, t: real, ties: bool): real
    requires n <= |y| == |s|
  {
    if n == 0 then 0.0
    else PairScoreFrom(y, s, n - 1, t, ties)
         + (if y[n - 1] == 0 && (s[n - 1] > t || (ties && s[n - 1] == t))
            then RowScore(y, s, |y|, s[n - 1]) else 0.0)
  }

  lemma {:induction false} RowScoreIs(y: seq<int>, s: seq<real>, n: nat, q: real)
    requires n <= |y| == |s|
    ensures RowScore(y, s, n, q)
         == (Reached(y, s, n, 1, q, false) + Reached(y, s, n, 1, q, true)) as real / 2.0
  {
    if n > 0 {
      RowScoreIs(y, s, n - 1, q);
    }
  }

  /** The credit of a number of negatives that each earn the same row score. */
  function Credits(count: real, row: real): real {
    count * row
  }

  lemma OneMoreCredit(count: real, row: real)
    ensures Credits(count + 1.0, row) == Credits(count, row) + row
  {
  }

  /** All negatives tied at t earn the same credit. */
  lemma {:induction false} Bucket(y: seq<int>, s: seq<real>, n: nat, t: real)
    requires n <= |y| == |s|
    ensures PairScoreFrom(y, s, n, t, true)
         == PairScoreFrom(y, s, n, t, false)
            + Credits(Reached(y, s, n, 0, t, true) as real - Reached(y, s, n, 0, t, false) as real,
                      RowScore(y, s, |y|, t))
  {
    if n > 0 {
      Bucket(y, s, n - 1, t);
      var row := RowScore(y, s, |y|, t);
      var before := Reached(y, s, n - 1, 0, t, true) as real - Reached(y, s, n - 1, 0, t, false) as real;
      OneMoreCredit(before, row);
    }
  }

  /** Two cuts that select the same scores select the same counts. */
  lemma {:induction false} SameCut(y: seq<int>, s: seq<real>, n: nat, t: real, u: real)
    requires n <= |y| == |s|
    requires forall i :: 0 <= i < n ==> (s[i] > t <==> s[i] >= u)
    ensures forall c :: Reached(y, s, n, c, t, false) == Reached(y, s, n, c, u, true)
    ensures PairScoreFrom(y, s, n, t, false) == PairScoreFrom(y, s, n, u, true)
  {
    if n > 0 {
      SameCut(y, s, n - 1, t, u);
    }
  }

  lemma {:induction false} NothingAbove(y: seq<int>, s: seq<real>, n: nat, t: real)
    requires n <= |y| == |s|
    requires forall i :: 0 <= i < n ==> s[i] <= t
    ensures forall c :: Reached(y, s, n, c, t, false) == 0
    ensures PairScoreFrom(y, s, n, t, false) == 0.0
  {
    if n > 0 {
      NothingAbove(y, s, n - 1, t);
    }
  }

  lemma {:induction false} EverythingReached(y: seq<int>, s: seq<real>, n: nat, t: real)
    requires n <= |y| == |s|
    requires forall i :: 0 <= i < n ==> s[i] >= t
    ensures forall c :: Reached(y, s, n, c, t, true) == Total(y, n, c)
    ensures PairScoreFrom(y, s, n, t, true) == PairScore(y, s, n)
  {
    if n > 0 {
      EverythingReached(y, s, n - 1, t);
    }
  }

  lemma {:induction false} RowScoreBounds(y: seq<int>, s: seq<real>, n: nat, q: real)
    requires n <= |y| == |s|
    ensures 0.0 <= RowScore(y, s, n, q) <= Total(y, n, 1) as real
  {
    if n > 0 {
      RowScoreBounds(y, s, n - 1, q);
    }
  }

  lemma {:induction false} PairScoreBounds(y: seq<int>, s: seq<real>, n: nat)
    requires n <= |y| == |s|
    ensures 0.0 <= PairScore(y, s, n) <= Credits(Total(y, n, 0) as real, Total(y, |y|, 1) as real)
  {
    if n > 0 {
      PairScoreBounds(y, s, n - 1);
      RowScoreBounds(y, s, |y|, s[n - 1]);
      OneMoreCredit(Total(y, n - 1, 0) as real, Total(y, |y|, 1) as real);
    }
  }

  /** Scores just above threshold k are exactly those reached by threshold k - 1. */
  lemma AdjacentCut(s: seq<real>, ts: seq<real>, k: nat)
    requires Descending(ts) && SameScores(ts, s)
    requires k < |ts|
    ensures k > 0 ==> forall i :: 0 <= i < |s| ==> (s[i] > ts[k] <==> s[i] >= ts[k - 1])
    ensures k == 0 ==> forall i :: 0 <= i < |s| ==> s[i] <= ts[k]
    ensures k == |ts| - 1 ==> forall i :: 0 <= i < |s| ==> s[i] >= ts[k]
  {
    forall i | 0 <= i < |s|
      ensures k > 0 ==> (s[i] > ts[k] <==> s[i] >= ts[k - 1])
      ensures k == 0 ==> s[i] <= ts[k]
      ensures k == |ts| - 1 ==> s[i] >= ts[k]
    {
      assert s[i] in ts;
      var j :| 0 <= j < |ts| && ts[j] == s[i];
    }
  }

  ghost predicate Curve(y: seq<int>, s: seq<real>, ts: seq<real>, c: int, k: nat, rates: seq<real>)
    requires |y| == |s| && k <= |ts|
  {
    && |rates| == k + 1
    && rates[0] == 0.0
    && forall i :: 0 < i <= k ==> rates[i] == Rate(y, s, c, ts[i - 1])
  }

  /** What the first i segments of the curve have accumulated. */
  ghost function Accumulated(y: seq<int>, s: seq<real>, ts: seq<real>, i: nat): real
    requires |y| == |s| && i <= |ts|
  {
    if i == 0 then 0.0 else PairScoreFrom(y, s, |y|, ts[i - 1], true)
  }

  lemma RateIs(y: seq<int>, s: seq<real>, c: int, t: real)
    requires |y| == |s| && Total(y, |y|, c) > 0
    ensures Rate(y, s, c, t) == Reached(y, s, |y|, c, t, true) as real / Total(y, |y|, c) as real
  {
    ConfusionTotals(y, s, |y|, c, t);
  }

  /** The curve in absolute counts rather than rates. */
  ghost function CountCurve(y: seq<int>, s: seq<real>, ts: seq<real>, c: int): (r: seq<real>)
    requires |y| == |s|
    ensures |r| == |ts| + 1
  {
    seq(|ts| + 1, i requires 0 <= i <= |ts| =>
      if i == 0 then 0.0 else Reached(y, s, |y|, c, ts[i - 1], true) as real)
  }

  lemma RatesAreCounts(y: seq<int>, s: seq<real>, ts: seq<real>, c: int, rates: seq<real>)
    requires |y| == |s|
    requires Total(y, |y|, c) > 0
    requires Curve(y, s, ts, c, |ts|, rates)
    ensures forall i :: 0 <= i < |rates| ==>
              rates[i] == CountCurve(y, s, ts, c)[i] / Total(y, |y|, c) as real
  {
    forall i | 0 <= i < |rates|
      ensures rates[i] == CountCurve(y, s, ts, c)[i] / Total(y, |y|, c) as real
    {
      if i > 0 {
        RateIs(y, s, c, ts[i - 1]);
      }
    }
  }

  /** Point k of the count curve sits just above threshold k, point k + 1 at it. */
  lemma CurvePoints(y: seq<int>, s: seq<real>, ts: seq<real>, c: int, k: nat)
    requires |y| == |s| && k < |ts|
    requires Descending(ts) && SameScores(ts, s)
    ensures CountCurve(y, s, ts, c)[k] == Reached(y, s, |y|, c, ts[k], false) as real
    ensures CountCurve(y, s, ts, c)[k + 1] == Reached(y, s, |y|, c, ts[k], true) as real
  {
    AdjacentCut(s, ts, k);
    if k > 0 {
      SameCut(y, s, |y|, ts[k], ts[k - 1]);
    } else {
      NothingAbove(y, s, |y|, ts[k]);
    }
  }

  lemma AccumulatedStep(y: seq<int>, s: seq<real>, ts: seq<real>, k: nat)
    requires |y| == |s| && k < |ts|
    requires Descending(ts) && SameScores(ts, s)
    ensures Accumulated(y, s, ts, k + 1) - Accumulated(y, s, ts, k)
         == Credits(Reached(y, s, |y|, 0, ts[k], true) as real - Reached(y, s, |y|, 0, ts[k], false) as real,
                    RowScore(y, s, |y|, ts[k]))
  {
    AdjacentCut(s, ts, k);
    if k > 0 {
      SameCut(y, s, |y|, ts[k], ts[k - 1]);
    } else {
      NothingAbove(y, s, |y|, ts[k]);
    }
    Bucket(y, s, |y|, ts[k]);
  }

  /** Area of the trapezoid between two neighbouring curve points. */
  function Segment(x0: real, x1: real, y0: real, y1: real): real {
    (y0 + y1) * (x1 - x0) / 2.0
  }

  /** Area under the first i segments. */
  function Area(xs: seq<real>, ys: seq<real>, i: nat): real
    requires i < |xs| == |ys|
  {
    if i == 0 then 0.0
    else Area(xs, ys, i - 1) + Segment(xs[i - 1], xs[i], ys[i - 1], ys[i])
  }

  lemma ScaleSegment(x0: real, x1: real, y0: real, y1: real, k: real)
    requires k > 0.0
    ensures Segment(x0 / k, x1 / k, y0, y1) == Segment(x0, x1, y0, y1) / k
    ensures Segment(x0, x1, y0 / k, y1 / k) == Segment(x0, x1, y0, y1) / k
  {
    assert x1 / k - x0 / k == (x1 - x0) / k;
    assert y0 / k + y1 / k == (y0 + y1) / k;
  }

  lemma AddQuotients(a: real, b: real, k: real)
    requires k > 0.0
    ensures a / k + b / k == (a + b) / k
  {
  }

  /** Dividing one axis by a constant divides the area by it. */
  lemma {:induction false} ScaleX(xs: seq<real>, cx: seq<real>, ys: seq<real>, k: real, i: nat)
    requires i < |xs| == |cx| == |ys| && k > 0.0
    requires forall j :: 0 <= j < |xs| ==> xs[j] == cx[j] / k
    ensures Area(xs, ys, i) == Area(cx, ys, i) / k
  {
    if i > 0 {
      ScaleX(xs, cx, ys, k, i - 1);
      ScaleSegment(cx[i - 1], cx[i], ys[i - 1], ys[i], k);
      AddQuotients(Area(cx, ys, i - 1), Segment(cx[i - 1], cx[i], ys[i - 1], ys[i]), k);
    }
  }

  lemma {:induction false} ScaleY(xs: seq<real>, ys: seq<real>, cy: seq<real>, k: real, i: nat)
    requires i < |xs| == |cy| == |ys| && k > 0.0
    requires forall j :: 0 <= j < |ys| ==> ys[j] == cy[j] / k
    ensures Area(xs, ys, i) == Area(xs, cy, i) / k
  {
    if i > 0 {
      ScaleY(xs, ys, cy, k, i - 1);
      ScaleSegment(xs[i - 1], xs[i], cy[i - 1], cy[i], k);
      AddQuotients(Area(xs, cy, i - 1), Segment(xs[i - 1], xs[i], cy[i - 1], cy[i]), k);
    }
  }

  lemma SegmentIs(x0: real, x1: real, y0: real, y1: real, height: real)
    requires height == (y0 + y1) / 2.0
    ensures Segment(x0, x1, y0, y1) == Credits(x1 - x0, height)
  {
  }

  /** One trapezoid of the count curve is the credit of the negatives tied there. */
  lemma {:induction false} CountAreaIs(y: seq<int>, s: seq<real>, ts: seq<real>, i: nat)
    requires |y| == |s| && i <= |ts|
    requires Descending(ts) && SameScores(ts, s)
    ensures Area(CountCurve(y, s, ts, 0), CountCurve(y, s, ts, 1), i) == Accumulated(y, s, ts, i)
  {
    if i > 0 {
      var k := i - 1;
      CountAreaIs(y, s, ts, k);
      CurvePoints(y, s, ts, 1, k);
      CurvePoints(y, s, ts, 0, k);
      RowScoreIs(y, s, |y|, ts[k]);
      AccumulatedStep(y, s, ts, k);
      var c1, c0 := CountCurve(y, s, ts, 1), CountCurve(y, s, ts, 0);
      SegmentIs(c0[k], c0[i], c1[k], c1[i], RowScore(y, s, |y|, ts[k]));
    }
  }

  lemma SelfQuotient(x: real)
    requires x > 0.0
    ensures x / x == 1.0
  {
  }

  lemma FullRate(y: seq<int>, s: seq<real>, c: int, t: real)
    requires |y| == |s| && Total(y, |y|, c) > 0
    requires forall i :: 0 <= i < |s| ==> s[i] >= t
    ensures Rate(y, s, c, t) == 1.0
  {
    EverythingReached(y, s, |y|, t);
    ConfusionTotals(y, s, |y|, c, t);
    assert Missed(y, s, |y|, c, t) == 0;
    SelfQuotient(Reached(y, s, |y|, c, t, true) as real);
  }

  /** The lowest threshold reaches everything, so the curve already ends at (1, 1). */
  lemma CurveEnd(y: seq<int>, s: seq<real>, ts: seq<real>, c: int, rates: seq<real>)
    requires |y| == |s| && |ts| > 0
    requires Descending(ts) && SameScores(ts, s)
    requires Total(y, |y|, c) > 0
    requires Curve(y, s, ts, c, |ts|, rates)
    ensures rates[|ts|] == 1.0
    ensures Accumulated(y, s, ts, |ts|) == PairScore(y, s, |y|)
  {
    AdjacentCut(s, ts, |ts| - 1);
    var lowest := ts[|ts| - 1];
    FullRate(y, s, c, lowest);
    EverythingReached(y, s, |y|, lowest);
  }

  lemma {:induction false} AreaPrefix(xs: seq<real>, ys: seq<real>, x: real, y: real, i: nat)
    requires i < |xs| == |ys|
    ensures Area(xs + [x], ys + [y], i) == Area(xs, ys, i)
  {
    if i > 0 {
      AreaPrefix(xs, ys, x, y, i - 1);
      assert (xs + [x])[i] == xs[i] && (xs + [x])[i - 1] == xs[i - 1];
      assert (ys + [y])[i] == ys[i] && (ys + [y])[i - 1] == ys[i - 1];
    }
  }

  predicate BothClasses(y: seq<int>) {
    Total(y, |y|, 0) > 0 && Total(y, |y|, 1) > 0
  }

  lemma {:induction false} TotalPositive(y: seq<int>, n: nat, c: int)
    requires n <= |y|
    ensures Total(y, n, c) > 0 <==> c in y[..n]
  {
    if n > 0 {
      TotalPositive(y, n - 1, c);
      assert y[..n] == y[..n - 1] + [y[n - 1]];
    }
  }

  lemma BothClassesIff(y: seq<int>)
    ensures BothClasses(y) <==> 0 in y && 1 in y
  {
    TotalPositive(y, |y|, 0);
    TotalPositive(y, |y|, 1);
    assert y[..|y|] == y;
  }

  /** The pairwise rank statistic: the credit averaged over negatives, then over
      positives. */
  function RankStatistic(y: seq<int>, s: seq<real>): real
    requires |y| == |s| && BothClasses(y)
  {
    PairScore(y, s, |y|) / Total(y, |y|, 0) as real / Total(y, |y|, 1) as real
  }

  lemma OpenArea(y: seq<int>, s: seq<real>, ts: seq<real>, tprs: seq<real>, fprs: seq<real>)
    requires |y| == |s| && |ts| > 0
    requires Descending(ts) && SameScores(ts, s) && BothClasses(y)
    requires Curve(y, s, ts, 1, |ts|, tprs) && Curve(y, s, ts, 0, |ts|, fprs)
    ensures Area(fprs, tprs, |ts|) == RankStatistic(y, s)
  {
    var c1, c0 := CountCurve(y, s, ts, 1), CountCurve(y, s, ts, 0);
    RatesAreCounts(y, s, ts, 1, tprs);
    RatesAreCounts(y, s, ts, 0, fprs);
    ScaleY(fprs, tprs, c1, Total(y, |y|, 1) as real, |ts|);
    ScaleX(fprs, c0, c1, Total(y, |y|, 0) as real, |ts|);
    CountAreaIs(y, s, ts, |ts|);
    CurveEnd(y, s, ts, 1, tprs);
  }

  lemma FlatSegment(x: real, y0: real, y1: real)
    ensures Segment(x, x, y0, y1) == 0.0
  {
  }

  lemma ClosedArea(y: seq<int>, s: seq<real>, ts: seq<real>, tprs: seq<real>, fprs: seq<real>)
    requires |y| == |s| && |ts| > 0
    requires Descending(ts) && SameScores(ts, s) && BothClasses(y)
    requires Curve(y, s, ts, 1, |ts|, tprs) && Curve(y, s, ts, 0, |ts|, fprs)
    ensures Area(fprs + [1.0], tprs + [1.0], |ts| + 1) == Area(fprs, tprs, |ts|)
  {
    CurveEnd(y, s, ts, 0, fprs);
    AreaPrefix(fprs, tprs, 1.0, 1.0, |ts|);
    FlatSegment(1.0, (tprs + [1.0])[|ts|], 1.0);
  }

  lemma QuotientBounds(score: real, p: real, n: real)
    requires p > 0.0 && n > 0.0 && 0.0 <= score <= Credits(n, p)
    ensures 0.0 <= score / n / p <= 1.0
  {
    assert score / n <= p;
  }

  /** The trapezoid area under the closed curve is the rank statistic. */
  lemma AreaIsRankStatistic(y: seq<int>, s: seq<real>, ts: seq<real>, tprs: seq<real>, fprs: seq<real>)
    requires |y| == |s| && |ts| > 0
    requires Descending(ts) && SameScores(ts, s) && BothClasses(y)
    requires Curve(y, s, ts, 1, |ts|, tprs) && Curve(y, s, ts, 0, |ts|, fprs)
    ensures Area(fprs + [1.0], tprs + [1.0], |ts| + 1) == RankStatistic(y, s)
  {
    OpenArea(y, s, ts, tprs, fprs);
    ClosedArea(y, s, ts, tprs, fprs);
  }

  lemma RankStatisticBounds(y: seq<int>, s: seq<real>)
    requires |y| == |s| && BothClasses(y)
    ensures 0.0 <= RankStatistic(y, s) <= 1.0
  {
    PairScoreBounds(y, s, |y|);
    QuotientBounds(PairScore(y, s, |y|), Total(y, |y|, 1) as real, Total(y, |y|, 0) as real);
  }

  method TrapezoidArea(xs: seq<real>, ys: seq<real>) returns (area: real)
    requires 0 < |xs| == |ys|
    ensures area == Area(xs, ys, |xs| - 1)
  {
    area := 0.0;
    for i := 0 to |xs| - 1
      invariant area == Area(xs, ys, i)
    {
      area := area + Segment(xs[i], xs[i + 1], ys[i], ys[i + 1]);
    }
  }

  /** Appends one curve point per threshold to both axes. */
  method RocCurve(y: seq<int>, s: seq<real>, ts: seq<real>) returns (tprs: seq<real>, fprs: seq<real>)
    requires |y| == |s|
    ensures Curve(y, s, ts, 1, |ts|, tprs) && Curve(y, s, ts, 0, |ts|, fprs)
  {
    tprs, fprs := [0.0], [0.0];
    for k := 0 to |ts|
      invariant Curve(y, s, ts, 1, k, tprs) && Curve(y, s, ts, 0, k, fprs)
    {
      tprs := tprs + [Rate(y, s, 1, ts[k])];
      fprs := fprs + [Rate(y, s, 0, ts[k])];
    }
  }

  /** The AUROC computation. Malformed input is rejected, one class only gives
      0, and otherwise the value is the rank statistic: the final clip is idle. */
  method ComputeAuroc(y: seq<int>, s: seq<real>) returns (r: Result)
    ensures r.ValueError? <==> y == [] || |y| != |s| || exists i :: 0 <= i < |y| && y[i] != 0 && y[i] != 1
    ensures r.Value? && !BothClasses(y) ==> r.auroc == 0.0
    ensures r.Value? && BothClasses(y) ==> r.auroc == RankStatistic(y, s) && 0.0 <= r.auroc <= 1.0
  {
    if y == [] || !Labelled(y, s) {
      return ValueError;
    }
    if !BothClasses(y) {
      return Value(0.0);
    }
    var ts := Thresholds(s);
    assert s[0] in ts;
    var tprs, fprs := RocCurve(y, s, ts);
    AreaIsRankStatistic(y, s, ts, tprs, fprs);
    RankStatisticBounds(y, s);
    var auroc := TrapezoidArea(fprs + [1.0], tprs + [1.0]);
    r := Value(MaxReal(0.0, MinReal(1.0, auroc)));
  }

  // ----- what the extreme values mean

  lemma {:induction false} RowScorePerfect(y: seq<int>, s: seq<real>, n: nat, q: real)
    requires n <= |y| == |s|
    ensures 0.0 <= RowScore(y, s, n, q) <= Total(y, n, 1) as real
    ensures RowScore(y, s, n, q) == Total(y, n, 1) as real <==> forall i :: 0 <= i < n && y[i] == 1 ==> s[i] > q
    ensures RowScore(y, s, n, q) == 0.0 <==> forall i :: 0 <= i < n && y[i] == 1 ==> s[i] < q
  {
    if n > 0 {
      RowScorePerfect(y, s, n - 1, q);
    }
  }

  /** Every positive among all is above (below) every negative among the first n. */
  ghost predicate Apart(y: seq<int>, s: seq<real>, n: nat, above: bool)
    requires n <= |y| == |s|
  {
    forall i, j :: 0 <= i < |y| && 0 <= j < n && y[i] == 1 && y[j] == 0 ==> if above then s[i] > s[j] else s[i] < s[j]
  }

  lemma {:induction false} PairScorePerfect(y: seq<int>, s: seq<real>, n: nat)
    requires n <= |y| == |s|
    ensures 0.0 <= PairScore(y, s, n) <= Credits(Total(y, n, 0) as real, Total(y, |y|, 1) as real)
    ensures PairScore(y, s, n) == Credits(Total(y, n, 0) as real, Total(y, |y|, 1) as real) <==> Apart(y, s, n, true)
    ensures PairScore(y, s, n) == 0.0 <==> Apart(y, s, n, false)
  {
    if n > 0 {
      var m, p := n - 1, Total(y, |y|, 1) as real;
      PairScorePerfect(y, s, m);
      RowScorePerfect(y, s, |y|, s[m]);
      OneMoreCredit(Total(y, m, 0) as real, p);
      hide Credits, RowScore;
    }
  }

  /** The value is 1 if and only if every positive scores above every negative, and 0 if
      and only if every positive scores below. */
  lemma PerfectIff(y: seq<int>, s: seq<real>)
    requires |y| == |s| && BothClasses(y)
    ensures RankStatistic(y, s) == 1.0 <==> Apart(y, s, |y|, true)
    ensures RankStatistic(y, s) == 0.0 <==> Apart(y, s, |y|, false)
  {
    PairScorePerfect(y, s, |y|);
    var x, a, b := PairScore(y, s, |y|), Total(y, |y|, 0) as real, Total(y, |y|, 1) as real;
    hide PairScore, Total, Apart;
    QuotientExtremes(x, a, b);
  }

  lemma QuotientExtremes(x: real, a: real, b: real)
    requires a > 0.0 && b > 0.0
    ensures x / a / b == 1.0 <==> x == Credits(a, b)
    ensures x / a / b == 0.0 <==> x == 0.0
  {
    var q := x / a;
    assert q * a == x && (q / b) * b == q;
    assert q == b <==> x == Credits(a, b) by {
      assert (q - b) * a == x - Credits(a, b);
    }
  }
}
