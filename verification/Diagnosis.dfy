/** The diagnosis drawn from a session's evaluated steps. */
module Diagnosis {
  import opened Common
  import opened Bcrb
  import Bayes

  const THRESHOLD := 0.80

  datatype Status = Unknown | RootCauseIsolated | InsufficientEvidence

  /** A measured claim blames one candidate; an inferred one blames none. */
  datatype Claim = Measured(candidateId: string, confidence: real) | Inferred(confidence: real)

  datatype Report = Report(
    status: Status, rootCause: Option<string>, highestComponent: Option<string>, highest: Option<real>,
    claims: seq<Claim>)

  /** Identifier lookup; a repeated identifier resolves to its last candidate. */
  function Find(cs: seq<Candidate>, id: string): Option<Candidate> {
    if cs == [] then None
    else if cs[|cs| - 1].id == id then Some(cs[|cs| - 1])
    else Find(cs[..|cs| - 1], id)
  }

  lemma {:induction false} FindAt(cs: seq<Candidate>, k: nat)
    requires DistinctIds(cs) && k < |cs|
    ensures Find(cs, cs[k].id) == Some(cs[k])
  {
    if k < |cs| - 1 {
      FindAt(cs[..|cs| - 1], k);
    }
  }

  /** The posterior behind a step, if its candidate is known and was updated. */
  function Posterior(cs: seq<Candidate>, step: Step): Option<real> {
    match Find(cs, step.candidateId)
    case Some(c) => c.posterior
    case None => None
  }

  ghost predicate AtLeast(cs: seq<Candidate>, steps: seq<Step>, i: int, level: real) {
    0 <= i < |steps| && Posterior(cs, steps[i]).Some? && Posterior(cs, steps[i]).value >= level
  }

  /** Among the first k steps, step i carries the greatest posterior and is the
      first to do so. */
  ghost predicate FirstBest(cs: seq<Candidate>, steps: seq<Step>, k: int, i: int) {
    && 0 <= i < k <= |steps| && Posterior(cs, steps[i]).Some?
    && (forall j :: 0 <= j < k && Posterior(cs, steps[j]).Some? ==>
          Posterior(cs, steps[j]).value <= Posterior(cs, steps[i]).value)
    && (forall j :: 0 <= j < i && Posterior(cs, steps[j]).Some? ==>
          Posterior(cs, steps[j]).value < Posterior(cs, steps[i]).value)
  }

  predicate IsHigh(p: Option<real>) {
    p.Some? && p.value >= THRESHOLD
  }

  /** One measured claim per step of high posterior, in step order. */
  function Claims(cs: seq<Candidate>, steps: seq<Step>): seq<Claim> {
    if steps == [] then []
    else
      var last := steps[|steps| - 1];
      Claims(cs, steps[..|steps| - 1])
      + (if IsHigh(Posterior(cs, last)) then [Measured(last.candidateId, Posterior(cs, last).value)] else [])
  }

  /** The claims are exactly the steps of high posterior. */
  lemma {:induction false} ClaimsAreHighSteps(cs: seq<Candidate>, steps: seq<Step>, c: Claim)
    ensures c in Claims(cs, steps) <==>
            exists i :: && AtLeast(cs, steps, i, 0.80)
                        && c == Measured(steps[i].candidateId, Posterior(cs, steps[i]).value)
  {
    if steps != [] {
      var n := |steps| - 1;
      var shorter := steps[..n];
      ClaimsAreHighSteps(cs, shorter, c);
      forall i | 0 <= i < n
        ensures AtLeast(cs, shorter, i, 0.80) <==> AtLeast(cs, steps, i, 0.80)
      {
      }
      if IsHigh(Posterior(cs, steps[n])) {
        assert AtLeast(cs, steps, n, 0.80);
      }
      if i :| && AtLeast(cs, shorter, i, 0.80)
              && c == Measured(shorter[i].candidateId, Posterior(cs, shorter[i]).value) {
        assert AtLeast(cs, steps, i, 0.80);
      }
    }
  }

  lemma {:induction false} SomeClaimIffHigh(cs: seq<Candidate>, steps: seq<Step>)
    ensures Claims(cs, steps) != [] <==> exists i :: AtLeast(cs, steps, i, 0.80)
  {
    if Claims(cs, steps) != [] {
      ClaimsAreHighSteps(cs, steps, Claims(cs, steps)[0]);
    }
    if i :| AtLeast(cs, steps, i, 0.80) {
      ClaimsAreHighSteps(cs, steps, Measured(steps[i].candidateId, Posterior(cs, steps[i]).value));
    }
  }

  /** The running maximum, while nothing at or below the starting -1.0 has been kept. */
  ghost predicate Tracked(cs: seq<Candidate>, steps: seq<Step>, k: int, highest: real, best: Option<Candidate>,
                          at: int)
  {
    && 0 <= k <= |steps|
    && (best == None ==> highest == -1.0)
    && (best == None ==> forall j :: 0 <= j < k && Posterior(cs, steps[j]).Some? ==>
          Posterior(cs, steps[j]).value <= -1.0)
    && (best.Some? ==> highest > -1.0 && FirstBest(cs, steps, k, at)
                       && Posterior(cs, steps[at]) == Some(highest) && Find(cs, steps[at].candidateId) == best)
  }

  lemma TrackedStep(cs: seq<Candidate>, steps: seq<Step>, k: int, highest: real, best: Option<Candidate>, at: int)
    requires Tracked(cs, steps, k, highest, best, at) && k < |steps|
    ensures var p := Posterior(cs, steps[k]);
            if p.Some? && p.value > highest
            then Tracked(cs, steps, k + 1, p.value, Find(cs, steps[k].candidateId), k)
            else Tracked(cs, steps, k + 1, highest, best, at)
  {
  }

  /** Some step's posterior lies above the starting -1.0. */
  ghost predicate Measurable(cs: seq<Candidate>, steps: seq<Step>) {
    exists i :: 0 <= i < |steps| && Posterior(cs, steps[i]).Some? && Posterior(cs, steps[i]).value > -1.0
  }

  /** A finished pass with any posterior names the first best step. */
  lemma TrackedEnd(cs: seq<Candidate>, steps: seq<Step>, highest: real, best: Option<Candidate>, at: int)
    requires Tracked(cs, steps, |steps|, highest, best, at)
    ensures (exists i :: AtLeast(cs, steps, i, 0.80)) ==> best.Some? && highest >= THRESHOLD
    ensures best.Some? <==> Measurable(cs, steps)
    ensures best.Some? ==> FirstBest(cs, steps, |steps|, at)
  {
    if best.Some? {
      assert Posterior(cs, steps[at]).value > -1.0;
    }
  }

  /** The report names the first step of greatest posterior, which is shown unless
      negative. */
  ghost predicate NamesBest(r: Report, cs: seq<Candidate>, steps: seq<Step>, i: int) {
    && FirstBest(cs, steps, |steps|, i)
    && r.highest == (if Posterior(cs, steps[i]).value >= 0.0 then Posterior(cs, steps[i]) else None)
    && r.highestComponent == Some(Find(cs, steps[i].candidateId).value.component)
  }

  /** One pass over the steps: the running maximum names the root cause, and every
      posterior of at least 0.80 becomes a claim; without any, one inferred claim
      carries the greatest posterior, or 0. */
  method GenerateDiagnosis(steps: seq<Step>, cs: seq<Candidate>) returns (r: Report)
    ensures r.status == Unknown <==> steps == []
    ensures r.status == RootCauseIsolated <==> exists i :: AtLeast(cs, steps, i, 0.80)
    ensures if Measurable(cs, steps) then exists i :: NamesBest(r, cs, steps, i)
            else r.highest == None && r.highestComponent == None
    ensures r.rootCause == if r.status == RootCauseIsolated then r.highestComponent else None
    ensures r.status == RootCauseIsolated ==> r.rootCause.Some? && r.highest.Some?
    ensures r.claims == if r.status == InsufficientEvidence
                        then [Inferred(if r.highest.Some? then r.highest.value else 0.0)]
                        else Claims(cs, steps)
  {
    if steps == [] {
      return Report(Unknown, None, None, None, []);
    }
    var highest := -1.0;
    var best: Option<Candidate> := None;
    var claims: seq<Claim> := [];
    ghost var at := 0;
    for k := 0 to |steps|
      invariant Tracked(cs, steps, k, highest, best, at)
      invariant claims == Claims(cs, steps[..k])
    {
      assert steps[..k + 1][..k] == steps[..k];
      TrackedStep(cs, steps, k, highest, best, at);
      hide Tracked, AtLeast, FirstBest;
      var cand := Find(cs, steps[k].candidateId);
      if cand.Some? && cand.value.posterior.Some? {
        var posterior := cand.value.posterior.value;
        if posterior > highest {
          highest, best, at := posterior, cand, k;
        }
        if posterior >= THRESHOLD {
          claims := claims + [Measured(steps[k].candidateId, posterior)];
        }
      }
    }
    assert steps[..|steps|] == steps;
    TrackedEnd(cs, steps, highest, best, at);
    SomeClaimIffHigh(cs, steps);
    hide AtLeast, FirstBest, Measurable;
    var component := if best.Some? then Some(best.value.component) else None;
    var shown := if highest >= 0.0 then Some(highest) else None;
    if claims != [] {
      r := Report(RootCauseIsolated, component, component, shown, claims);
    } else {
      r := Report(InsufficientEvidence, None, component, shown, [Inferred(MaxReal(highest, 0.0))]);
    }
    assert best.Some? ==> NamesBest(r, cs, steps, at);
  }

  /** Only a candidate whose prior was at least 18/37 can have become confident. */
  lemma ConfidentNeedsPrior(plan: seq<Candidate>, chosen: seq<nat>, cs: seq<Candidate>, steps: seq<Step>,
                            sigmoid: real -> real)
    requires Explained(plan, chosen, cs, steps, sigmoid) && Confident(cs)
    ensures exists k :: 0 <= k < |plan| && k in chosen && plan[k].prior >= 18.0 / 37.0
  {
    hide Bayes.Belief;
    var k :| 0 <= k < |cs| && cs[k].posterior.Some? && cs[k].posterior.value >= Bayes.CONFIDENCE;
    var i :| 0 <= i < |chosen| && chosen[i] == k && Informative(steps[i].outcome);
    Bayes.ConfidenceNeedsPrior(plan[k].prior, sigmoid(steps[i].outcome.effect.value));
  }

  /** In an explained session a step's posterior is its chosen candidate's. */
  lemma StepPosterior(plan: seq<Candidate>, chosen: seq<nat>, cs: seq<Candidate>, steps: seq<Step>,
                      sigmoid: real -> real, i: nat)
    requires Planned(plan) && Explained(plan, chosen, cs, steps, sigmoid) && i < |steps|
    ensures i < |chosen| && chosen[i] < |cs| && Find(cs, steps[i].candidateId) == Some(cs[chosen[i]])
    ensures Posterior(cs, steps[i]).Some? ==> 0.0 <= Posterior(cs, steps[i]).value <= 1.0
  {
    hide CalculateUtility;
    forall k | 0 <= k < |cs|
      ensures cs[k].id == plan[k].id
    {
      assert cs[k].(posterior := None) == plan[k];
    }
    assert DistinctIds(cs);
    FindAt(cs, chosen[i]);
    if cs[chosen[i]].posterior.Some? {
      var j :| 0 <= j < |chosen| && chosen[j] == chosen[i] && Informative(steps[j].outcome);
    }
  }

  /** Every posterior in an explained session stands behind some step. */
  lemma PosteriorHasStep(plan: seq<Candidate>, chosen: seq<nat>, cs: seq<Candidate>, steps: seq<Step>,
                         sigmoid: real -> real, k: nat)
    requires Planned(plan) && Explained(plan, chosen, cs, steps, sigmoid)
    requires k < |cs| && cs[k].posterior.Some?
    ensures exists i :: 0 <= i < |steps| && Posterior(cs, steps[i]) == cs[k].posterior
  {
    hide Bayes.Belief, CalculateUtility;
    var i :| 0 <= i < |chosen| && chosen[i] == k && Informative(steps[i].outcome);
    StepPosterior(plan, chosen, cs, steps, sigmoid, i);
  }

  /** The diagnosis isolates, as root cause, a candidate of greatest posterior. */
  ghost predicate Isolates(r: Report, cs: seq<Candidate>) {
    && r.status == RootCauseIsolated
    && exists k :: && 0 <= k < |cs|
                   && r.rootCause == Some(cs[k].component) && r.highest == cs[k].posterior && cs[k].posterior.Some?
                   && cs[k].posterior.value >= Bayes.CONFIDENCE
                   && forall j :: 0 <= j < |cs| && cs[j].posterior.Some? ==>
                        cs[j].posterior.value <= cs[k].posterior.value
  }

  lemma ConfidentIsolates(plan: seq<Candidate>, chosen: seq<nat>, cs: seq<Candidate>, steps: seq<Step>,
                          sigmoid: real -> real,
                          r: Report, at: int)
    requires Planned(plan) && Explained(plan, chosen, cs, steps, sigmoid)
    requires Confident(cs)
    requires r.status == RootCauseIsolated && NamesBest(r, cs, steps, at) && r.rootCause == r.highestComponent
    ensures Isolates(r, cs)
  {
    hide Explained, Planned, Bayes.Belief, CalculateUtility;
    StepPosterior(plan, chosen, cs, steps, sigmoid, at);
    var best := chosen[at];
    forall j | 0 <= j < |cs| && cs[j].posterior.Some?
      ensures cs[j].posterior.value <= cs[best].posterior.value
    {
      PosteriorHasStep(plan, chosen, cs, steps, sigmoid, j);
    }
    var k :| 0 <= k < |cs| && cs[k].posterior.Some? && cs[k].posterior.value >= Bayes.CONFIDENCE;
    assert cs[k].posterior.value <= cs[best].posterior.value;
  }

  /** A session and its diagnosis: stopping on confidence needs a prior of at least
      18/37, and then the diagnosis isolates a candidate of greatest posterior. */
  method DiagnoseSession(session: Session, signals: seq<Signal>, canary: (nat, Candidate) -> Outcome,
                         sigmoid: real -> real)
      returns (r: Report)
    requires session.steps == [] && session.stop == None && Sound(signals)
    modifies session
    ensures session.stop == Some(ConfidenceReached) ==>
              && Isolates(r, session.candidates)
              && exists i :: 0 <= i < |signals| && signals[i].prior >= 18.0 / 37.0
    ensures r.status == Unknown <==> session.steps == []
    ensures NoEvidence(session.steps) ==> r.status != RootCauseIsolated
  {
    ghost var plan, chosen := ExecuteSession(session, signals, canary, sigmoid);
    hide Explained, Planned, Bayes.Belief, CalculateUtility, Justified, Increasing, CostsNonnegative,
         CostsWithinEstimates;
    ghost var cs, steps := session.candidates, session.steps;
    r := GenerateDiagnosis(session.steps, session.candidates);
    if NoEvidence(session.steps) {
      forall i | 0 <= i < |steps|
        ensures Posterior(cs, steps[i]) == None
      {
        StepPosterior(plan, chosen, cs, steps, sigmoid, i);
      }
    }
    if session.stop == Some(ConfidenceReached) {
      ConfidentNeedsPrior(plan, chosen, cs, steps, sigmoid);
      ghost var k :| 0 <= k < |plan| && k in chosen && plan[k].prior >= 18.0 / 37.0;
      assert plan[k] in plan;
      ConfidentHasStep(plan, chosen, cs, steps, sigmoid);
      ghost var at :| NamesBest(r, cs, steps, at);
      ConfidentIsolates(plan, chosen, cs, steps, sigmoid, r, at);
    }
  }

  lemma ConfidentHasStep(plan: seq<Candidate>, chosen: seq<nat>, cs: seq<Candidate>, steps: seq<Step>,
                         sigmoid: real -> real)
    requires Planned(plan) && Explained(plan, chosen, cs, steps, sigmoid) && Confident(cs)
    ensures exists i :: AtLeast(cs, steps, i, 0.80)
  {
    hide Explained, Planned, Bayes.Belief, CalculateUtility;
    var k :| 0 <= k < |cs| && cs[k].posterior.Some? && cs[k].posterior.value >= Bayes.CONFIDENCE;
    PosteriorHasStep(plan, chosen, cs, steps, sigmoid, k);
    var i :| 0 <= i < |steps| && Posterior(cs, steps[i]) == cs[k].posterior;
    assert AtLeast(cs, steps, i, 0.80);
  }

  // ----- the bound is met by whole sessions

  /** A single free candidate with the given prior. */
  function Sole(prior: real): Signal {
    Signal("c", "generator", prior, 0.0, 0.0, 0.0, 1.0, 1.0)
  }

  lemma SoleUtility(prior: real)
    requires prior >= 18.0 / 37.0
    ensures Propose(Sole(prior)).utility >= 0.1
  {
    var s := Sole(prior);
    assert Propose(s).utility == CalculateUtility(prior, 1.0, 1.0, 0.0, 0.0, 0.0);
    assert CalculateUtility(prior, 1.0, 1.0, 0.0, 0.0, 0.0) == prior / 0.000001;
    assert prior / 0.000001 >= prior;
  }

  lemma {:induction false} NothingPaid(steps: seq<Step>)
    requires forall i :: 0 <= i < |steps| ==> steps[i].outcome.actualCost == None
    ensures TotalPaid(steps) == 0.0
  {
    if steps != [] {
      NothingPaid(steps[..|steps| - 1]);
    }
  }

  /** A session over the sole candidate that never measures a cost cannot stop before
      that candidate has been replayed. */
  lemma SoleIsReplayed(prior: real, plan: seq<Candidate>, chosen: seq<nat>, cs: seq<Candidate>, spent: real,
                       stop: Stop, k: nat)
    requires prior >= 18.0 / 37.0 && k < |plan| && plan[k] == Propose(Sole(prior))
    requires spent == 0.0 && stop != ConfidenceReached && Justified(stop, plan, chosen, cs, spent, 1.0)
    ensures k in chosen
  {
    SoleUtility(prior);
    hide CalculateUtility;
  }

  /** From every prior of at least 18/37 some session does stop on confidence: one
      candidate, one clean replay with the most favourable response. */
  method ConfidentSession(prior: real) returns (stop: Option<Stop>)
    requires prior >= 18.0 / 37.0
    ensures stop == Some(ConfidenceReached)
  {
    hide Bayes.Belief, CalculateUtility, Increasing, CostsNonnegative, CostsWithinEstimates, Planned, Justified;
    var session := new Session(1.0, 0.0);
    var signals := [Sole(prior)];
    var canary := (n: nat, c: Candidate) => Outcome(None, Some(1.0), true);
    var sigmoid := (x: real) => 0.95;
    Bayes.PriorSuffices(prior);
    ghost var plan, chosen := ExecuteSession(session, signals, canary, sigmoid);
    stop := session.stop;
    ProposeIs(signals[0], Propose(Sole(prior)));
    assert Propose(signals[0]) in plan;
    ghost var k :| 0 <= k < |plan| && plan[k] == Propose(Sole(prior));
    NothingPaid(session.steps);
    if stop != Some(ConfidenceReached) {
      SoleIsReplayed(prior, plan, chosen, session.candidates, session.spent, stop.value, k);
    }
  }
}
