/** Bayesian belief update with clamped likelihoods, and the exact reach of one
    replay. The logistic response is an arbitrary real before its clamp. */
module Bayes {
  import opened Common

  const CONFIDENCE := 0.9

  function Clamp(lo: real, hi: real, x: real): real {
    MinReal(hi, MaxReal(lo, x))
  }

  /** P(evidence | cause) and P(evidence | not cause) from the logistic response. */
  function Likelihoods(response: real): (real, real) {
    var pCause := Clamp(0.05, 0.95, response);
    (pCause, Clamp(0.05, 0.95, 1.0 - pCause + 0.05))
  }

  function UpdatePosterior(prior: real, likelihood: real, alternative: real): real {
    if prior <= 0.0 then 0.0
    else if prior >= 1.0 then 1.0
    else
      var evidence := likelihood * prior + alternative * (1.0 - prior);
      if evidence == 0.0 then prior
      else Clamp(0.0, 1.0, likelihood * prior / evidence)
  }

  /** Belief after one replay with the given response. */
  function Belief(prior: real, response: real): (p: real)
    ensures 0.0 <= p <= 1.0
  {
    var (l, m) := Likelihoods(response);
    UpdatePosterior(prior, l, m)
  }

  function Product(x: real, y: real): real {
    x * y
  }

  /** Mass given the cause, and mass given its absence. */
  function For(prior: real, response: real): (a: real) {
    Product(Likelihoods(response).0, prior)
  }

  function Against(prior: real, response: real): (b: real) {
    Product(Likelihoods(response).1, 1.0 - prior)
  }

  function Share(a: real, b: real): real
    requires a > 0.0 && b > 0.0
  {
    a / (a + b)
  }

  lemma MassesPositive(prior: real, response: real)
    requires 0.0 < prior < 1.0
    ensures For(prior, response) > 0.0 && Against(prior, response) > 0.0
  {
    var (l, m) := Likelihoods(response);
    ProductPositive(l, prior);
    ProductPositive(m, 1.0 - prior);
  }

  lemma ProductPositive(x: real, y: real)
    requires x > 0.0 && y > 0.0
    ensures Product(x, y) > 0.0
  {
  }

  lemma ShareUnit(a: real, b: real)
    requires a > 0.0 && b > 0.0
    ensures 0.0 < Share(a, b) < 1.0
  {
  }

  /** A share reaches a level exactly when it does so after multiplying out. */
  lemma ShareReaches(a: real, b: real, level: real)
    requires a > 0.0 && b > 0.0
    ensures Share(a, b) >= level <==> a >= level * (a + b)
    ensures Share(a, b) > level <==> a > level * (a + b)
  {
    var q, t := Share(a, b), a + b;
    assert q * t == a;
    assert (q - level) * t == a - level * t;
    assert q - level > 0.0 ==> (q - level) * t > 0.0;
    assert q - level < 0.0 ==> (level - q) * t > 0.0;
  }

  /** Strictly between the extremes the update is plain Bayes: neither the
      zero-evidence guard nor the final clamp acts. */
  lemma BeliefIsShare(prior: real, response: real)
    requires 0.0 < prior < 1.0
    ensures For(prior, response) > 0.0 && Against(prior, response) > 0.0
    ensures Belief(prior, response) == Share(For(prior, response), Against(prior, response))
  {
    MassesPositive(prior, response);
    ShareUnit(For(prior, response), Against(prior, response));
  }

  /** Mass 0.9 on the cause needs nine parts for to one part against. */
  lemma ReachesConfidenceIff(prior: real, response: real)
    requires 0.0 < prior < 1.0
    ensures Belief(prior, response) >= CONFIDENCE <==>
            For(prior, response) >= 9.0 * Against(prior, response)
  {
    var a, b := For(prior, response), Against(prior, response);
    BeliefIsShare(prior, response);
    ShareReaches(a, b, CONFIDENCE);
  }

  /** Even the most favourable clamped evidence weighs at most 0.95 to 0.10. */
  lemma MassLimits(prior: real, response: real)
    requires 0.0 < prior < 1.0
    ensures For(prior, response) <= 0.95 * prior
    ensures Against(prior, response) >= 0.10 * (1.0 - prior)
  {
    var (l, m) := Likelihoods(response);
    assert l <= 0.95 && m >= 0.10;
    Scale(l, 0.95, prior);
    Scale(0.10, m, 1.0 - prior);
  }

  lemma Scale(x: real, y: real, k: real)
    requires x <= y && k > 0.0
    ensures Product(x, k) <= Product(y, k)
  {
  }

  /** One replay can lift a candidate to the confidence threshold only from a
      prior of at least 18/37. */
  lemma ConfidenceNeedsPrior(prior: real, response: real)
    requires Belief(prior, response) >= CONFIDENCE
    ensures prior >= 18.0 / 37.0
  {
    if 0.0 < prior < 1.0 {
      ReachesConfidenceIff(prior, response);
      MassLimits(prior, response);
    }
  }

  /** The clamps' most favourable evidence does lift every such prior there. */
  lemma PriorSuffices(prior: real)
    requires prior >= 18.0 / 37.0
    ensures Belief(prior, 0.95) >= CONFIDENCE
  {
    if prior < 1.0 {
      assert Likelihoods(0.95) == (0.95, 0.10);
      ReachesConfidenceIff(prior, 0.95);
    }
  }

  /** The bound is tight. */
  lemma ConfidenceReachableIff(prior: real)
    ensures (exists response :: Belief(prior, response) >= CONFIDENCE) <==> prior >= 18.0 / 37.0
  {
    if prior >= 18.0 / 37.0 {
      PriorSuffices(prior);
    }
    forall response | Belief(prior, response) >= CONFIDENCE
      ensures prior >= 18.0 / 37.0
    {
      ConfidenceNeedsPrior(prior, response);
    }
  }

  /** A replay raises belief exactly when the clamped response exceeds 0.525. */
  lemma RaisesBeliefIff(prior: real, response: real)
    requires 0.0 < prior < 1.0
    ensures Belief(prior, response) > prior <==> Clamp(0.05, 0.95, response) > 0.525
  {
    var (l, m) := Likelihoods(response);
    BeliefIsShare(prior, response);
    ShareReaches(For(prior, response), Against(prior, response), prior);
    Gain(prior, l, m, For(prior, response), Against(prior, response));
  }

  lemma Gain(prior: real, l: real, m: real, a: real, b: real)
    requires 0.0 < prior < 1.0 && a == Product(l, prior) && b == Product(m, 1.0 - prior)
    ensures a > prior * (a + b) <==> l > m
  {
    var slack := Product(prior, 1.0 - prior);
    ProductPositive(prior, 1.0 - prior);
    assert a - prior * (a + b) == slack * (l - m);
    assert l > m ==> slack * (l - m) > 0.0;
    assert l <= m ==> slack * (m - l) >= 0.0;
  }

  /** Certainty is immune to evidence. */
  lemma CertaintyStays(prior: real, response: real)
    ensures prior <= 0.0 ==> Belief(prior, response) == 0.0
    ensures prior >= 1.0 ==> Belief(prior, response) == 1.0
  {
  }

  // ----- how far one replay can lower a belief

  /** Falling to a tenth needs nine parts against to one part for. */
  lemma ReachesDoubtIff(prior: real, response: real)
    requires 0.0 < prior < 1.0
    ensures Belief(prior, response) <= 0.1 <==> 9.0 * For(prior, response) <= Against(prior, response)
  {
    BeliefIsShare(prior, response);
    ShareReaches(For(prior, response), Against(prior, response), 0.1);
  }

  /** The least favourable clamped evidence weighs 0.05 to 0.95. */
  lemma DoubtLimits(prior: real, response: real)
    requires 0.0 < prior < 1.0
    ensures For(prior, response) >= 0.05 * prior
    ensures Against(prior, response) <= 0.95 * (1.0 - prior)
  {
    var (l, m) := Likelihoods(response);
    assert l >= 0.05 && m <= 0.95;
    Scale(0.05, l, prior);
    Scale(m, 0.95, 1.0 - prior);
  }

  /** One replay can lower a belief to 0.1 if and only if the prior is at most 19/28. */
  lemma DoubtReachableIff(prior: real)
    ensures (exists response :: Belief(prior, response) <= 0.1) <==> prior <= 19.0 / 28.0
  {
    if prior <= 0.0 {
      CertaintyStays(prior, 0.0);
    } else if prior < 1.0 {
      forall response | Belief(prior, response) <= 0.1
        ensures prior <= 19.0 / 28.0
      {
        ReachesDoubtIff(prior, response);
        DoubtLimits(prior, response);
      }
      assert Likelihoods(0.05) == (0.05, 0.95);
      ReachesDoubtIff(prior, 0.05);
    } else {
      forall response
        ensures Belief(prior, response) == 1.0
      {
        CertaintyStays(prior, response);
      }
    }
  }

  /** Between the clamps the two likelihoods are r and 1.05 - r; outside, both stop
      moving. So responses at most 0.05 weigh alike, as do those of at least 0.95. */
  lemma ResponseSaturates(prior: real, response: real)
    ensures 0.10 <= response <= 0.95 ==> Likelihoods(response) == (response, 1.05 - response)
    ensures 0.05 <= response <= 0.10 ==> Likelihoods(response) == (response, 0.95)
    ensures response <= 0.05 ==> Belief(prior, response) == Belief(prior, 0.05)
    ensures response >= 0.95 ==> Belief(prior, response) == Belief(prior, 0.95)
  {
    assert response <= 0.05 ==> Likelihoods(response) == Likelihoods(0.05);
    assert response >= 0.95 ==> Likelihoods(response) == Likelihoods(0.95);
  }

  /** In general: the update multiplies the odds by the likelihood ratio, and evidence
      that is impossible either way leaves the prior alone. */
  lemma UpdateIs(prior: real, likelihood: real, alternative: real)
    requires 0.0 < prior < 1.0 && likelihood >= 0.0 && alternative >= 0.0
    ensures likelihood == 0.0 && alternative == 0.0 ==> UpdatePosterior(prior, likelihood, alternative) == prior
    ensures likelihood > 0.0 || alternative > 0.0 ==>
              var p := UpdatePosterior(prior, likelihood, alternative);
              0.0 <= p <= 1.0 && p * alternative * (1.0 - prior) == (1.0 - p) * likelihood * prior
  {
    var a, b := Product(likelihood, prior), Product(alternative, 1.0 - prior);
    assert likelihood > 0.0 ==> a > 0.0 by {
      if likelihood > 0.0 {
        ProductPositive(likelihood, prior);
      }
    }
    assert alternative > 0.0 ==> b > 0.0 by {
      if alternative > 0.0 {
        ProductPositive(alternative, 1.0 - prior);
      }
    }
    if likelihood > 0.0 || alternative > 0.0 {
      OddsOf(a, b);
      var p := a / (a + b);
      assert UpdatePosterior(prior, likelihood, alternative) == p;
      assert p * alternative * (1.0 - prior) == p * b && (1.0 - p) * likelihood * prior == (1.0 - p) * a;
    }
  }

  lemma OddsOf(a: real, b: real)
    requires a >= 0.0 && b >= 0.0 && a + b > 0.0
    ensures 0.0 <= a / (a + b) <= 1.0
    ensures a / (a + b) * b == (1.0 - a / (a + b)) * a
  {
    var t := a + b;
    var p := a / t;
    assert p * t == a && (1.0 - p) * t == b;
    assert p * b * t == a * b && (1.0 - p) * a * t == a * b;
  }
}
