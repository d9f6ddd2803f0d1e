/** The budgeted sequential test loop of the causal reasoning board and its planner. */
module Bcrb {
  import opened Common
  import Bayes

  /** An intervention candidate. Cost, risk, blast radius, delta and gain are the
      calibrated estimates fixed when the candidate is planned. */
  datatype Candidate = Candidate(
    id: string, component: string, prior: real, posterior: Option<real>, utility: real,
    cost: real, risk: real, blast: real, delta: real, gain: real)

  /** Per-node signals and estimates the planner starts from. */
  datatype Signal = Signal(
    id: string, component: string, prior: real,
    cost: real, risk: real, blast: real, delta: real, gain: real)

  /** What one canary run reports: a measured cost if there is one, a reliability
      effect if there is one, and whether the evidence is uncontaminated. */
  datatype Outcome = Outcome(actualCost: Option<real>, effect: Option<real>, clean: bool)

  datatype Step = Step(candidateId: string, outcome: Outcome, utilityObserved: Option<real>)

  datatype Stop = ConfidenceReached | BudgetExhausted | AllSafeCandidatesTested | UtilityBelowThreshold

  // ----- planning

  function CalculateUtility(probability: real, delta: real, gain: real, cost: real, risk: real, blast: real): real
    requires cost >= 0.0 && risk >= 0.0 && blast >= 0.0
  {
    probability * delta * gain / (cost + risk + blast + 0.000001)
  }

  function Utility(probability: real, c: Candidate): real
    requires Estimated(c)
  {
    CalculateUtility(probability, c.delta, c.gain, c.cost, c.risk, c.blast)
  }

  predicate Estimated(c: Candidate) {
    c.cost >= 0.0 && c.risk >= 0.0 && c.blast >= 0.0
  }

  function Propose(s: Signal): (c: Candidate)
    requires s.cost >= 0.0 && s.risk >= 0.0 && s.blast >= 0.0
    ensures Fresh(c) && c.id == s.id
  {
    var c := Candidate(s.id, s.component, s.prior, None, 0.0, s.cost, s.risk, s.blast, s.delta, s.gain);
    c.(utility := Utility(s.prior, c))
  }

  /** A candidate as planned: no posterior yet, utility computed from its prior. */
  predicate Fresh(c: Candidate) {
    Estimated(c) && c.posterior == None && c.utility == Utility(c.prior, c)
  }

  predicate Descending(cs: seq<Candidate>) {
    forall i, j :: 0 <= i < j < |cs| ==> cs[i].utility >= cs[j].utility
  }

  /** Insertion that keeps an element ahead of its equals, as a stable sort does. */
  function Insert(c: Candidate, cs: seq<Candidate>): (r: seq<Candidate>)
    requires Descending(cs)
    ensures |r| == |cs| + 1
    ensures r[0] == if cs == [] || c.utility >= cs[0].utility then c else cs[0]
    ensures Descending(r)
    ensures forall x :: x in r <==> x == c || x in cs
  {
    if cs == [] || c.utility >= cs[0].utility then [c] + cs
    else [cs[0]] + Insert(c, cs[1..])
  }

  function SortByUtility(cs: seq<Candidate>): (r: seq<Candidate>)
    ensures |r| == |cs|
    ensures Descending(r)
    ensures forall x :: x in r <==> x in cs
  {
    if cs == [] then [] else Insert(cs[0], SortByUtility(cs[1..]))
  }

  lemma {:induction false} SortedAlready(cs: seq<Candidate>)
    requires Descending(cs)
    ensures SortByUtility(cs) == cs
  {
    if cs != [] {
      SortedAlready(cs[1..]);
      assert cs == [cs[0]] + cs[1..];
    }
  }

  predicate DistinctIds(cs: seq<Candidate>) {
    forall i, j :: 0 <= i < j < |cs| ==> cs[i].id != cs[j].id
  }

  /** The planner's output: distinct fresh candidates, best utility first. */
  ghost predicate Planned(cs: seq<Candidate>) {
    && DistinctIds(cs) && Descending(cs)
    && forall i :: 0 <= i < |cs| ==> Fresh(cs[i])
  }

  lemma {:induction false} InsertDistinct(c: Candidate, cs: seq<Candidate>)
    requires Descending(cs) && DistinctIds(cs)
    requires forall x :: x in cs ==> x.id != c.id
    ensures DistinctIds(Insert(c, cs))
  {
    if cs != [] && c.utility < cs[0].utility {
      InsertDistinct(c, cs[1..]);
      var rest := Insert(c, cs[1..]);
      forall i | 0 <= i < |rest|
        ensures rest[i].id != cs[0].id
      {
        assert rest[i] in rest;
      }
    }
  }

  lemma {:induction false} SortDistinct(cs: seq<Candidate>)
    requires DistinctIds(cs)
    ensures DistinctIds(SortByUtility(cs))
  {
    if cs != [] {
      SortDistinct(cs[1..]);
      InsertDistinct(cs[0], SortByUtility(cs[1..]));
    }
  }

  /** The candidate carries the signal's figures, and its utility is the expected
      benefit per unit of cost, risk and blast radius. */
  ghost predicate Proposes(s: Signal, c: Candidate) {
    && c.id == s.id && c.component == s.component && c.prior == s.prior && c.posterior == None
    && c.cost == s.cost && c.risk == s.risk && c.blast == s.blast && c.delta == s.delta && c.gain == s.gain
    && c.utility * (s.cost + s.risk + s.blast + 0.000001) == s.prior * s.delta * s.gain
  }

  lemma ProposeIs(s: Signal, c: Candidate)
    requires s.cost >= 0.0 && s.risk >= 0.0 && s.blast >= 0.0
    ensures Proposes(s, c) <==> c == Propose(s)
  {
    var weight, benefit := s.cost + s.risk + s.blast + 0.000001, s.prior * s.delta * s.gain;
    QuotientIs(benefit, weight, c.utility);
  }

  lemma QuotientIs(a: real, b: real, q: real)
    requires b > 0.0
    ensures q * b == a <==> q == a / b
  {
    if q * b == a {
      assert (q - a / b) * b == 0.0;
    }
  }

  /** The planned list holds exactly the proposals of the plausible signals. */
  ghost predicate Proposals(signals: seq<Signal>, cs: seq<Candidate>) {
    forall c :: c in cs <==>
                exists i :: 0 <= i < |signals| && signals[i].prior > 0.05 && Proposes(signals[i], c)
  }

  /** Nonnegative estimates and fresh identifiers. */
  predicate Sound(signals: seq<Signal>) {
    && (forall i :: 0 <= i < |signals| ==>
          signals[i].cost >= 0.0 && signals[i].risk >= 0.0 && signals[i].blast >= 0.0)
    && (forall i, j :: 0 <= i < j < |signals| ==> signals[i].id != signals[j].id)
  }

  lemma SortedPlan(raw: seq<Candidate>)
    requires DistinctIds(raw) && forall i :: 0 <= i < |raw| ==> Fresh(raw[i])
    ensures Planned(SortByUtility(raw))
  {
    hide CalculateUtility;
    var cs := SortByUtility(raw);
    SortDistinct(raw);
    assert forall i :: 0 <= i < |cs| ==> cs[i] in cs;
  }

  /** Candidates proposed from the first k signals. */
  ghost predicate Raw(signals: seq<Signal>, k: nat, raw: seq<Candidate>, from: seq<nat>)
    requires Sound(signals) && k <= |signals|
  {
    && |from| == |raw|
    && (forall i :: 0 <= i < |raw| ==>
          from[i] < k && signals[from[i]].prior > 0.05 && raw[i] == Propose(signals[from[i]]))
    && (forall i, j :: 0 <= i < j < |from| ==> from[i] < from[j])
    && (forall j :: 0 <= j < k && signals[j].prior > 0.05 ==> Propose(signals[j]) in raw)
  }

  lemma RawIsPlan(signals: seq<Signal>, raw: seq<Candidate>, from: seq<nat>)
    requires Sound(signals) && Raw(signals, |signals|, raw, from)
    ensures Planned(SortByUtility(raw)) && Proposals(signals, SortByUtility(raw))
  {
    hide CalculateUtility;
    forall i, j | 0 <= i < j < |raw|
      ensures raw[i].id != raw[j].id
    {
      assert from[i] < from[j];
    }
    SortedPlan(raw);
    hide Proposes;
    forall c
      ensures c in SortByUtility(raw) <==>
              exists i :: 0 <= i < |signals| && signals[i].prior > 0.05 && Proposes(signals[i], c)
    {
      forall i | 0 <= i < |signals|
        ensures Proposes(signals[i], c) <==> c == Propose(signals[i])
      {
        ProposeIs(signals[i], c);
      }
    }
  }

  /** The planner ranks one signal's candidate at least as high as another's if and only
      if its benefit weighs as much against its cost, risk and blast radius. */
  lemma RankedBy(s: Signal, t: Signal, c: Candidate, d: Candidate)
    requires s.cost >= 0.0 && s.risk >= 0.0 && s.blast >= 0.0 && t.cost >= 0.0 && t.risk >= 0.0 && t.blast >= 0.0
    requires Proposes(s, c) && Proposes(t, d)
    ensures c.utility >= d.utility <==>
            s.prior * s.delta * s.gain * (t.cost + t.risk + t.blast + 0.000001)
            >= t.prior * t.delta * t.gain * (s.cost + s.risk + s.blast + 0.000001)
  {
    var v, w := s.cost + s.risk + s.blast + 0.000001, t.cost + t.risk + t.blast + 0.000001;
    CrossMultiplied(c.utility, d.utility, v, w);
    assert s.prior * s.delta * s.gain * w == c.utility * v * w;
    assert t.prior * t.delta * t.gain * v == d.utility * w * v;
  }

  lemma CrossMultiplied(x: real, y: real, v: real, w: real)
    requires v > 0.0 && w > 0.0
    ensures x >= y <==> x * v * w >= y * w * v
  {
    assert x * v * w - y * w * v == (x - y) * (v * w);
    assert v * w > 0.0;
    SignOfProduct(x - y, v * w);
  }

  lemma SignOfProduct(d: real, k: real)
    requires k > 0.0
    ensures d * k >= 0.0 <==> d >= 0.0
  {
    assert d < 0.0 ==> (0.0 - d) * k > 0.0;
  }

  /** Plausible signals become candidates, sorted by utility. */
  method GenerateCandidates(signals: seq<Signal>) returns (cs: seq<Candidate>)
    requires Sound(signals)
    ensures Planned(cs) && Proposals(signals, cs)
  {
    hide CalculateUtility;
    var raw: seq<Candidate> := [];
    ghost var from: seq<nat> := [];
    for k := 0 to |signals|
      invariant Raw(signals, k, raw, from)
    {
      if signals[k].prior > 0.05 {
        raw := raw + [Propose(signals[k])];
        from := from + [k];
      }
    }
    RawIsPlan(signals, raw, from);
    cs := SortByUtility(raw);
  }

  // ----- selection

  /** Candidates not tested yet, in list order. */
  function Untested(cs: seq<Candidate>, tested: set<string>): (r: seq<Candidate>)
    ensures forall c :: c in r <==> c in cs && c.id !in tested
  {
    if cs == [] then []
    else (if cs[0].id in tested then [] else [cs[0]]) + Untested(cs[1..], tested)
  }

  lemma {:induction false} UntestedDescending(cs: seq<Candidate>, tested: set<string>)
    requires Descending(cs)
    ensures Descending(Untested(cs, tested))
  {
    if cs != [] {
      UntestedDescending(cs[1..], tested);
      var rest := Untested(cs[1..], tested);
      forall i | 0 <= i < |rest|
        ensures cs[0].utility >= rest[i].utility
      {
        assert rest[i] in cs[1..];
      }
    }
  }

  predicate Affordable(c: Candidate, spent: real, budget: real) {
    c.cost + spent <= budget
  }

  function FirstAffordable(cs: seq<Candidate>, spent: real, budget: real): Option<Candidate> {
    if cs == [] then None
    else if Affordable(cs[0], spent, budget) then Some(cs[0])
    else FirstAffordable(cs[1..], spent, budget)
  }

  predicate Blocked(c: Candidate, tested: set<string>, spent: real, budget: real) {
    c.id in tested || !Affordable(c, spent, budget)
  }

  /** Picking the first affordable untested candidate picks the first unblocked
      position of the whole list. */
  lemma {:induction false} SelectionIndex(cs: seq<Candidate>, tested: set<string>, spent: real, budget: real)
      returns (j: nat)
    ensures FirstAffordable(Untested(cs, tested), spent, budget)
         == if j < |cs| then Some(cs[j]) else None
    ensures j <= |cs|
    ensures forall i :: 0 <= i < j ==> Blocked(cs[i], tested, spent, budget)
    ensures j < |cs| ==> !Blocked(cs[j], tested, spent, budget)
  {
    if cs == [] {
      j := 0;
    } else if Blocked(cs[0], tested, spent, budget) {
      var k := SelectionIndex(cs[1..], tested, spent, budget);
      j := k + 1;
      assert Untested(cs, tested)[(if cs[0].id in tested then 0 else 1)..] == Untested(cs[1..], tested);
    } else {
      j := 0;
    }
  }

  /** The scan over candidates in utility order. */
  method SelectAffordable(cs: seq<Candidate>, spent: real, budget: real) returns (best: Option<Candidate>)
    ensures best == FirstAffordable(cs, spent, budget)
  {
    for i := 0 to |cs|
      invariant FirstAffordable(cs[i..], spent, budget) == FirstAffordable(cs, spent, budget)
    {
      assert cs[i..][1..] == cs[i + 1..];
      if Affordable(cs[i], spent, budget) {
        return Some(cs[i]);
      }
    }
    return None;
  }

  // ----- the session

  predicate Informative(o: Outcome) {
    o.effect.Some? && o.clean
  }

  function Paid(o: Outcome): real {
    match o.actualCost
    case Some(c) => c
    case None => 0.0
  }

  function TotalPaid(steps: seq<Step>): real {
    if steps == [] then 0.0 else TotalPaid(steps[..|steps| - 1]) + Paid(steps[|steps| - 1].outcome)
  }

  /** The session's working state explained by the plan and the positions chosen
      so far: nothing but posteriors changes, and a posterior is exactly one
      update of the candidate's own prior by its own informative outcome. */
  ghost predicate Explained(plan: seq<Candidate>, chosen: seq<nat>, cs: seq<Candidate>, steps: seq<Step>,
                            sigmoid: real -> real)
  {
    && |cs| == |plan| && |chosen| == |steps|
    && (forall k :: 0 <= k < |cs| ==> cs[k].(posterior := None) == plan[k])
    && (forall i :: 0 <= i < |chosen| ==> chosen[i] < |plan| && steps[i].candidateId == plan[chosen[i]].id)
    && (forall i, j :: 0 <= i < j < |chosen| ==> chosen[i] != chosen[j])
    && (forall k :: 0 <= k < |cs| && cs[k].posterior.Some? ==>
          exists i :: 0 <= i < |chosen| && chosen[i] == k && Informative(steps[i].outcome))
    && (forall i :: 0 <= i < |chosen| && Informative(steps[i].outcome) ==>
          cs[chosen[i]].posterior == Some(Bayes.Belief(plan[chosen[i]].prior, sigmoid(steps[i].outcome.effect.value))))
  }

  /** A candidate has a posterior if and only if a test of it gave an effect on clean
      evidence; contaminated evidence leaves no trace in the beliefs. */
  ghost predicate EvidenceOnly(cs: seq<Candidate>, chosen: seq<nat>, steps: seq<Step>) {
    && |chosen| == |steps|
    && forall k :: 0 <= k < |cs| ==>
         (cs[k].posterior.Some? <==>
          exists i :: 0 <= i < |chosen| && chosen[i] == k && steps[i].outcome.clean && steps[i].outcome.effect.Some?)
  }

  lemma PosteriorNeedsEvidence(plan: seq<Candidate>, chosen: seq<nat>, cs: seq<Candidate>, steps: seq<Step>,
                               sigmoid: real -> real)
    requires Explained(plan, chosen, cs, steps, sigmoid)
    ensures EvidenceOnly(cs, chosen, steps)
  {
    hide Bayes.Belief;
    forall k | 0 <= k < |cs|
      ensures cs[k].posterior.Some? <==>
              exists i :: 0 <= i < |chosen| && chosen[i] == k && steps[i].outcome.clean && steps[i].outcome.effect.Some?
    {
      if cs[k].posterior.Some? {
        var i :| 0 <= i < |chosen| && chosen[i] == k && Informative(steps[i].outcome);
      }
      if i :| 0 <= i < |chosen| && chosen[i] == k && steps[i].outcome.clean && steps[i].outcome.effect.Some? {
        assert Informative(steps[i].outcome);
      }
    }
  }

  /** No test gave an effect on clean evidence. */
  ghost predicate NoEvidence(steps: seq<Step>) {
    forall i :: 0 <= i < |steps| ==> !(steps[i].outcome.clean && steps[i].outcome.effect.Some?)
  }

  /** No measured cost is negative. */
  ghost predicate CostsNonnegative(steps: seq<Step>) {
    forall i :: 0 <= i < |steps| ==> Paid(steps[i].outcome) >= 0.0
  }

  /** Every measured cost is within its candidate's estimate. */
  ghost predicate CostsWithinEstimates(plan: seq<Candidate>, chosen: seq<nat>, steps: seq<Step>) {
    && |chosen| == |steps|
    && forall i :: 0 <= i < |steps| ==> chosen[i] < |plan| && Paid(steps[i].outcome) <= plan[chosen[i]].cost
  }

  ghost predicate Increasing(chosen: seq<nat>) {
    forall i, j :: 0 <= i < j < |chosen| ==> chosen[i] < chosen[j]
  }

  ghost predicate Confident(cs: seq<Candidate>) {
    exists k :: 0 <= k < |cs| && cs[k].posterior.Some? && cs[k].posterior.value >= Bayes.CONFIDENCE
  }

  /** No candidate has a utility of at least 0.1. */
  ghost predicate AllLow(cs: seq<Candidate>) {
    forall k :: 0 <= k < |cs| ==> cs[k].utility < 0.1
  }

  /** Each stopping condition holds for its stated reason. */
  ghost predicate Justified(stop: Stop, plan: seq<Candidate>, chosen: seq<nat>, cs: seq<Candidate>, spent: real,
                            budget: real)
  {
    match stop
    case ConfidenceReached => Confident(cs)
    case BudgetExhausted =>
      spent >= budget || forall k :: 0 <= k < |plan| ==> k in chosen || plan[k].cost + spent > budget
    case AllSafeCandidatesTested => forall k :: 0 <= k < |plan| ==> k in chosen
    case UtilityBelowThreshold => AllLow(plan)
  }

  class Session {
    const budget: real
    var spent: real
    var candidates: seq<Candidate>
    var steps: seq<Step>
    var stop: Option<Stop>

    constructor (budget: real, spent: real)
      ensures this.budget == budget && this.spent == spent
      ensures candidates == [] && steps == [] && stop == None
    {
      this.budget, this.spent := budget, spent;
      candidates, steps, stop := [], [], None;
    }
  }

  /** Budget, emptiness and best-utility checks made before each round. */
  method EvaluateStoppingConditions(spent: real, budget: real, cs: seq<Candidate>) returns (stop: Option<Stop>)
    ensures stop == Some(BudgetExhausted) <==> spent >= budget
    ensures stop == Some(AllSafeCandidatesTested) <==> spent < budget && cs == []
    ensures stop == Some(UtilityBelowThreshold) <==> spent < budget && cs != [] && AllLow(cs)
    ensures stop in {None, Some(BudgetExhausted), Some(AllSafeCandidatesTested), Some(UtilityBelowThreshold)}
  {
    if spent >= budget {
      return Some(BudgetExhausted);
    }
    if cs == [] {
      return Some(AllSafeCandidatesTested);
    }
    var best := cs[0].utility;
    for k := 1 to |cs|
      invariant forall i :: 0 <= i < k ==> cs[i].utility <= best
      invariant exists i :: 0 <= i < k && cs[i].utility == best
    {
      if cs[k].utility > best {
        best := cs[k].utility;
      }
    }
    stop := if best < 0.1 then Some(UtilityBelowThreshold) else None;
  }

  /** Updates the tested candidate's posterior and recomputes the utility of the
      untested ones, which for them changes nothing. */
  method UpdateBeliefs(cs: seq<Candidate>, best: nat, tested: set<string>, response: real) returns (r: seq<Candidate>)
    requires best < |cs| && DistinctIds(cs) && cs[best].id in tested
    requires forall k :: 0 <= k < |cs| ==> Estimated(cs[k])
    requires forall k :: 0 <= k < |cs| && cs[k].id !in tested ==> Fresh(cs[k])
    ensures r == cs[best := cs[best].(posterior := Some(Bayes.Belief(cs[best].prior, response)))]
  {
    r := cs;
    for k := 0 to |cs|
      invariant r == if k <= best then cs
                     else cs[best := cs[best].(posterior := Some(Bayes.Belief(cs[best].prior, response)))]
    {
      var c := r[k];
      if c.id == cs[best].id {
        c := c.(posterior := Some(Bayes.Belief(c.prior, response)));
      }
      if c.id !in tested {
        var probability := if c.posterior.Some? then c.posterior.value else c.prior;
        c := c.(utility := Utility(probability, c));
      }
      r := r[k := c];
    }
  }

  method HighestPosterior(cs: seq<Candidate>) returns (highest: real)
    ensures highest >= Bayes.CONFIDENCE <==> Confident(cs)
  {
    highest := 0.0;
    var seen := false;
    for k := 0 to |cs|
      invariant seen <==> exists i :: 0 <= i < k && cs[i].posterior.Some?
      invariant seen ==> exists i :: 0 <= i < k && cs[i].posterior == Some(highest)
      invariant forall i :: 0 <= i < k && cs[i].posterior.Some? ==> cs[i].posterior.value <= highest
      invariant !seen ==> highest == 0.0
    {
      if cs[k].posterior.Some? && (!seen || cs[k].posterior.value > highest) {
        highest, seen := cs[k].posterior.value, true;
      }
    }
  }

  /** Positions below the last choice stay blocked while costs are nonnegative. */
  ghost predicate Ordered(plan: seq<Candidate>, chosen: seq<nat>, tested: set<string>, spent: real, budget: real) {
    && Increasing(chosen)
    && forall i, k :: 0 <= i < |chosen| && 0 <= k < chosen[i] && k < |plan| ==> Blocked(plan[k], tested, spent, budget)
  }

  /** Choosing the first unblocked position keeps the order. */
  lemma OrderedStep(plan: seq<Candidate>, chosen: seq<nat>, tested: set<string>, spent: real, budget: real, j: nat,
                    spent': real)
    requires Ordered(plan, chosen, tested, spent, budget) && j < |plan| && j !in chosen
    requires !Blocked(plan[j], tested, spent, budget)
    requires forall i :: 0 <= i < j ==> Blocked(plan[i], tested, spent, budget)
    requires spent <= spent'
    ensures Ordered(plan, chosen + [j], tested + {plan[j].id}, spent', budget)
  {
    forall i | 0 <= i < |chosen|
      ensures chosen[i] < j
    {
      assert chosen[i] in chosen;
    }
    var next := chosen + [j];
    forall i, k | 0 <= i < |next| && 0 <= k < next[i] && k < |plan|
      ensures Blocked(plan[k], tested + {plan[j].id}, spent', budget)
    {
      assert Blocked(plan[k], tested, spent, budget);
    }
  }

  lemma ExplainedStep(plan: seq<Candidate>, chosen: seq<nat>, cs: seq<Candidate>, steps: seq<Step>,
                      sigmoid: real -> real,
                      j: nat, step: Step, cs': seq<Candidate>)
    requires Explained(plan, chosen, cs, steps, sigmoid)
    requires j < |plan| && j !in chosen && step.candidateId == plan[j].id
    requires cs' == if Informative(step.outcome)
                    then cs[j := cs[j].(posterior :=
                                 Some(Bayes.Belief(plan[j].prior, sigmoid(step.outcome.effect.value))))]
                    else cs
    ensures Explained(plan, chosen + [j], cs', steps + [step], sigmoid)
  {
    hide Bayes.Belief;
    var next := chosen + [j];
    var steps' := steps + [step];
    forall i | 0 <= i < |chosen|
      ensures chosen[i] != j
    {
      assert chosen[i] in chosen;
    }
    forall k | 0 <= k < |cs'| && cs'[k].posterior.Some?
      ensures exists i :: 0 <= i < |next| && next[i] == k && Informative(steps'[i].outcome)
    {
      if k == j && Informative(step.outcome) {
        assert next[|chosen|] == k && Informative(steps'[|chosen|].outcome);
      } else {
        assert cs[k].posterior.Some?;
        var i :| 0 <= i < |chosen| && chosen[i] == k && Informative(steps[i].outcome);
        assert next[i] == k && steps'[i] == steps[i];
      }
    }
  }

  lemma TotalPaidStep(steps: seq<Step>, step: Step)
    ensures TotalPaid(steps + [step]) == TotalPaid(steps) + Paid(step.outcome)
  {
    assert (steps + [step])[..|steps|] == steps;
  }

  /** A measured cost is spent in full, clean or not; an unmeasured one costs nothing. */
  lemma OnlyMeasuredIsSpent(steps: seq<Step>, id: string, effect: Option<real>, clean: bool, seen: Option<real>,
                            cost: real)
    ensures TotalPaid([]) == 0.0
    ensures TotalPaid(steps + [Step(id, Outcome(Some(cost), effect, clean), seen)]) == TotalPaid(steps) + cost
    ensures TotalPaid(steps + [Step(id, Outcome(None, effect, clean), seen)]) == TotalPaid(steps)
  {
    TotalPaidStep(steps, Step(id, Outcome(Some(cost), effect, clean), seen));
    TotalPaidStep(steps, Step(id, Outcome(None, effect, clean), seen));
  }

  /** What never changes over a session: the plan, the environment's answers, and
      the money at the start. */
  datatype Setting = Setting(
    plan: seq<Candidate>, canary: (nat, Candidate) -> Outcome, sigmoid: real -> real, start: real, budget: real)

  ghost predicate TestedAre(plan: seq<Candidate>, chosen: seq<nat>, tested: set<string>) {
    forall k :: 0 <= k < |plan| ==> (plan[k].id in tested <==> k in chosen)
  }

  /** The recorded outcomes are the environment's answers, in test order, and the
      utility is noted where there was evidence. */
  ghost predicate Answered(plan: seq<Candidate>, chosen: seq<nat>, steps: seq<Step>,
                           canary: (nat, Candidate) -> Outcome)
  {
    && |chosen| == |steps|
    && forall i :: 0 <= i < |chosen| ==>
         && chosen[i] < |plan| && steps[i].outcome == canary(i, plan[chosen[i]])
         && steps[i].utilityObserved == if steps[i].outcome.clean && steps[i].outcome.effect.Some?
                                        then Some(plan[chosen[i]].utility) else None
  }

  /** Honest costs keep the tests in planner order and the spend within budget. */
  ghost predicate HonestRun(g: Setting, chosen: seq<nat>, steps: seq<Step>, tested: set<string>, spent: real) {
    && (CostsNonnegative(steps) ==> Ordered(g.plan, chosen, tested, spent, g.budget))
    && (CostsWithinEstimates(g.plan, chosen, steps) && g.start <= g.budget ==> spent <= g.budget)
  }

  /** Everything the loop keeps. */
  ghost predicate Running(g: Setting, chosen: seq<nat>, cs: seq<Candidate>, steps: seq<Step>, tested: set<string>,
                          spent: real)
  {
    && Planned(g.plan)
    && Explained(g.plan, chosen, cs, steps, g.sigmoid)
    && TestedAre(g.plan, chosen, tested)
    && Answered(g.plan, chosen, steps, g.canary)
    && spent == g.start + TotalPaid(steps)
    && HonestRun(g, chosen, steps, tested, spent)
  }

  lemma RunningUntested(g: Setting, chosen: seq<nat>, cs: seq<Candidate>, steps: seq<Step>, tested: set<string>,
                        spent: real)
    requires Running(g, chosen, cs, steps, tested, spent)
    ensures |cs| == |g.plan| && DistinctIds(cs) && Descending(cs)
    ensures forall k :: 0 <= k < |cs| && cs[k].id !in tested ==> cs[k] == g.plan[k]
    ensures forall k :: 0 <= k < |cs| ==> Estimated(cs[k])
    ensures forall k :: 0 <= k < |cs| ==>
              Blocked(cs[k], tested, spent, g.budget) == Blocked(g.plan[k], tested, spent, g.budget)
    ensures forall k :: 0 <= k < |cs| ==> cs[k].id == g.plan[k].id && cs[k].prior == g.plan[k].prior
    ensures forall k :: 0 <= k < |cs| && cs[k].id !in tested ==> Fresh(cs[k])
  {
    hide CalculateUtility;
    forall k | 0 <= k < |cs|
      ensures cs[k].id == g.plan[k].id && cs[k].utility == g.plan[k].utility && Estimated(cs[k])
      ensures cs[k].prior == g.plan[k].prior && cs[k].cost == g.plan[k].cost
      ensures cs[k].id !in tested ==> cs[k] == g.plan[k]
    {
      assert Fresh(g.plan[k]);
      assert cs[k].(posterior := None) == g.plan[k];
      if cs[k].posterior.Some? {
        var i :| 0 <= i < |chosen| && chosen[i] == k && Informative(steps[i].outcome);
        assert k in chosen;
      }
    }
  }

  /** The best candidate not yet tested that still fits the budget, by position:
      filter, stable sort, scan. The list is already in utility order, so this is
      the first position that is not blocked. */
  method SelectNext(cs: seq<Candidate>, tested: set<string>, spent: real, budget: real)
      returns (untested: nat, at: Option<nat>)
    requires DistinctIds(cs) && Descending(cs)
    ensures untested == 0 <==> forall k :: 0 <= k < |cs| ==> cs[k].id in tested
    ensures at == None ==> forall k :: 0 <= k < |cs| ==> Blocked(cs[k], tested, spent, budget)
    ensures at.Some? ==>
              && at.value < |cs| && !Blocked(cs[at.value], tested, spent, budget) && cs[at.value].id !in tested
              && forall k :: 0 <= k < at.value ==> Blocked(cs[k], tested, spent, budget)
  {
    var waiting := Untested(cs, tested);
    untested := |waiting|;
    assert forall k :: 0 <= k < |cs| ==> cs[k] in cs;
    assert waiting != [] ==> waiting[0] in waiting;
    UntestedDescending(cs, tested);
    SortedAlready(waiting);
    var ranked := SortByUtility(waiting);
    var best := SelectAffordable(ranked, spent, budget);
    ghost var j := SelectionIndex(cs, tested, spent, budget);
    if best == None {
      return untested, None;
    }
    var k := IndexOf(cs, best.value.id);
    assert k == j;
    return untested, Some(k);
  }

  lemma PlannedIds(plan: seq<Candidate>)
    requires Planned(plan)
    ensures DistinctIds(plan)
  {
  }

  lemma AnsweredLength(plan: seq<Candidate>, chosen: seq<nat>, steps: seq<Step>, canary: (nat, Candidate) -> Outcome)
    requires Answered(plan, chosen, steps, canary)
    ensures |chosen| == |steps|
  {
  }

  lemma TestedStep(plan: seq<Candidate>, chosen: seq<nat>, tested: set<string>, j: nat)
    requires DistinctIds(plan) && j < |plan| && TestedAre(plan, chosen, tested)
    ensures TestedAre(plan, chosen + [j], tested + {plan[j].id})
  {
  }

  lemma AnsweredStep(plan: seq<Candidate>, chosen: seq<nat>, steps: seq<Step>, canary: (nat, Candidate) -> Outcome,
                     j: nat, step: Step)
    requires Answered(plan, chosen, steps, canary)
    requires j < |plan| && step.outcome == canary(|steps|, plan[j])
    requires step.utilityObserved == if Informative(step.outcome) then Some(plan[j].utility) else None
    ensures Answered(plan, chosen + [j], steps + [step], canary)
  {
  }

  lemma HonestStep(g: Setting, chosen: seq<nat>, steps: seq<Step>, tested: set<string>, spent: real, j: nat, step: Step)
    requires HonestRun(g, chosen, steps, tested, spent)
    requires |chosen| == |steps| && j < |g.plan| && j !in chosen
    requires !Blocked(g.plan[j], tested, spent, g.budget)
    requires forall k :: 0 <= k < j ==> Blocked(g.plan[k], tested, spent, g.budget)
    ensures HonestRun(g, chosen + [j], steps + [step], tested + {g.plan[j].id}, spent + Paid(step.outcome))
  {
    var chosen', steps', spent' := chosen + [j], steps + [step], spent + Paid(step.outcome);
    assert steps'[|steps|] == step && chosen'[|steps|] == j;
    if CostsNonnegative(steps') {
      assert forall i :: 0 <= i < |steps| ==> steps[i] == steps'[i];
      OrderedStep(g.plan, chosen, tested, spent, g.budget, j, spent');
    }
    if CostsWithinEstimates(g.plan, chosen', steps') {
      assert Paid(steps'[|steps|].outcome) <= g.plan[j].cost;
    }
  }

  /** The next position runs: its step is recorded, its measured cost is spent and
      an informative outcome updates its posterior. */
  lemma RunningStep(g: Setting, chosen: seq<nat>, cs: seq<Candidate>, steps: seq<Step>, tested: set<string>,
                    spent: real,
                    j: nat, step: Step, cs': seq<Candidate>)
    requires Running(g, chosen, cs, steps, tested, spent)
    requires j < |g.plan| && !Blocked(g.plan[j], tested, spent, g.budget)
    requires forall k :: 0 <= k < j ==> Blocked(g.plan[k], tested, spent, g.budget)
    requires step.candidateId == g.plan[j].id && step.outcome == g.canary(|steps|, g.plan[j])
    requires step.utilityObserved == if Informative(step.outcome) then Some(g.plan[j].utility) else None
    requires cs' == if Informative(step.outcome)
                    then cs[j := cs[j].(posterior :=
                                 Some(Bayes.Belief(g.plan[j].prior, g.sigmoid(step.outcome.effect.value))))]
                    else cs
    ensures Running(g, chosen + [j], cs', steps + [step], tested + {g.plan[j].id}, spent + Paid(step.outcome))
  {
    hide Explained, Planned, HonestRun, Answered, CalculateUtility, Bayes.Belief;
    PlannedIds(g.plan);
    AnsweredLength(g.plan, chosen, steps, g.canary);
    assert j !in chosen;
    ExplainedStep(g.plan, chosen, cs, steps, g.sigmoid, j, step, cs');
    TestedStep(g.plan, chosen, tested, j);
    AnsweredStep(g.plan, chosen, steps, g.canary, j, step);
    HonestStep(g, chosen, steps, tested, spent, j, step);
    TotalPaidStep(steps, step);
  }

  lemma RunningInit(g: Setting)
    requires Planned(g.plan)
    ensures Running(g, [], g.plan, [], {}, g.start) && !Confident(g.plan)
  {
    assert forall k :: 0 <= k < |g.plan| ==> Fresh(g.plan[k]);
  }

  lemma RunningMeans(g: Setting, chosen: seq<nat>, cs: seq<Candidate>, steps: seq<Step>, tested: set<string>,
                     spent: real)
    requires Running(g, chosen, cs, steps, tested, spent)
    ensures Planned(g.plan) && Explained(g.plan, chosen, cs, steps, g.sigmoid)
    ensures Answered(g.plan, chosen, steps, g.canary)
    ensures spent == g.start + TotalPaid(steps)
    ensures CostsNonnegative(steps) ==> Increasing(chosen)
    ensures CostsWithinEstimates(g.plan, chosen, steps) && g.start <= g.budget ==> spent <= g.budget
    ensures Confident(cs) ==> Justified(ConfidenceReached, g.plan, chosen, cs, spent, g.budget)
    ensures EvidenceOnly(cs, chosen, steps)
    ensures NoEvidence(steps) ==> (forall k :: 0 <= k < |cs| ==> cs[k].posterior == None) && !Confident(cs)
  {
    PosteriorNeedsEvidence(g.plan, chosen, cs, steps, g.sigmoid);
    NothingWithoutEvidence(cs, chosen, steps);
    hide Explained, Planned, Answered, CostsNonnegative, CostsWithinEstimates, Increasing, CalculateUtility, Confident;
  }

  /** Which reasons a state offers for stopping. */
  lemma StopReasons(g: Setting, chosen: seq<nat>, cs: seq<Candidate>, steps: seq<Step>, tested: set<string>,
                    spent: real)
    requires Running(g, chosen, cs, steps, tested, spent)
    ensures spent >= g.budget || (forall k :: 0 <= k < |cs| ==> Blocked(cs[k], tested, spent, g.budget)) ==>
              Justified(BudgetExhausted, g.plan, chosen, cs, spent, g.budget)
    ensures (forall k :: 0 <= k < |cs| ==> cs[k].id in tested) ==>
              Justified(AllSafeCandidatesTested, g.plan, chosen, cs, spent, g.budget)
    ensures AllLow(cs) ==> Justified(UtilityBelowThreshold, g.plan, chosen, cs, spent, g.budget)
    ensures AllLow(cs) <==> AllLow(g.plan)
  {
    hide CalculateUtility, Bayes.Belief;
    forall k | 0 <= k < |cs|
      ensures cs[k].id == g.plan[k].id && cs[k].utility == g.plan[k].utility && cs[k].cost == g.plan[k].cost
    {
      assert cs[k].(posterior := None) == g.plan[k];
    }
  }

  /** One look at the session before a test: a reason to stop, or the first position that
      is not blocked. */
  method NextTest(session: Session, ghost g: Setting, ghost chosen: seq<nat>, tested: set<string>)
      returns (stop: Option<Stop>, j: nat)
    requires Running(g, chosen, session.candidates, session.steps, tested, session.spent)
    requires g.budget == session.budget
    ensures stop != Some(ConfidenceReached)
    ensures stop.Some? ==>
              Justified(stop.value, g.plan, chosen, session.candidates, session.spent, session.budget)
    ensures stop == Some(UtilityBelowThreshold) ==> AllLow(g.plan)
    ensures stop == None ==>
              && j < |session.candidates| == |g.plan| && session.candidates[j] == g.plan[j] && !AllLow(g.plan)
              && session.candidates[j].id !in tested
              && !Blocked(session.candidates[j], tested, session.spent, session.budget)
              && forall k :: 0 <= k < j ==> Blocked(session.candidates[k], tested, session.spent, session.budget)
  {
    hide *;
    j := 0;
    RunningUntested(g, chosen, session.candidates, session.steps, tested, session.spent);
    StopReasons(g, chosen, session.candidates, session.steps, tested, session.spent);
    stop := EvaluateStoppingConditions(session.spent, session.budget, session.candidates);
    if stop.Some? {
      return;
    }
    var untested, at := SelectNext(session.candidates, tested, session.spent, session.budget);
    if untested == 0 {
      stop := Some(AllSafeCandidatesTested);
    } else if at == None {
      stop := Some(BudgetExhausted);
    } else {
      j := at.value;
    }
  }

  /** The session loop in its default configuration. `canary` reports the outcome
      of the n-th test and `sigmoid` the logistic response; both are arbitrary. */
  method ExecuteSession(session: Session, signals: seq<Signal>, canary: (nat, Candidate) -> Outcome,
                        sigmoid: real -> real)
      returns (ghost plan: seq<Candidate>, ghost chosen: seq<nat>)
    requires session.steps == [] && session.stop == None
    requires Sound(signals)
    modifies session
    // A stopping condition is always set, and for its stated reason.
    ensures session.stop.Some?
    ensures Justified(session.stop.value, plan, chosen, session.candidates, session.spent, session.budget)
    ensures session.stop == Some(ConfidenceReached) <==> Confident(session.candidates)
    // Utilities never change, so a low utility stops a session before its first test or never.
    ensures session.stop == Some(UtilityBelowThreshold) ==> session.steps == []
    // Each candidate is tested at most once, and only posteriors change.
    ensures Proposals(signals, plan) && Planned(plan)
    ensures Explained(plan, chosen, session.candidates, session.steps, sigmoid)
    ensures Answered(plan, chosen, session.steps, canary)
    // Only an effect on clean evidence sets a posterior, so nothing else leads to confidence.
    ensures EvidenceOnly(session.candidates, chosen, session.steps)
    ensures NoEvidence(session.steps) ==>
              && (forall k :: 0 <= k < |session.candidates| ==> session.candidates[k].posterior == None)
              && session.stop != Some(ConfidenceReached)
    // Tests follow the planner's order, and the budget holds, under honest costs.
    ensures CostsNonnegative(session.steps) ==> Increasing(chosen)
    ensures session.spent == old(session.spent) + TotalPaid(session.steps)
    ensures CostsWithinEstimates(plan, chosen, session.steps) && old(session.spent) <= session.budget ==>
              session.spent <= session.budget
  {
    hide *;
    session.candidates := GenerateCandidates(signals);
    plan, chosen := session.candidates, [];
    ghost var g := Setting(plan, canary, sigmoid, session.spent, session.budget);
    ghost var ids := set c | c in plan :: c.id;
    var tested: set<string> := {};
    RunningInit(g);

    while true
      invariant Running(g, chosen, session.candidates, session.steps, tested, session.spent)
      invariant session.stop == None && !Confident(session.candidates)
      invariant session.steps != [] ==> !AllLow(plan)
      decreases ids - tested
    {
      var stop, j := NextTest(session, g, chosen, tested);
      if stop.Some? {
        session.stop := stop;
        break;
      }
      var cand := session.candidates[j];
      assert cand in plan && cand.id in ids - tested;
      var confident := TestCandidate(session, g, chosen, tested, j, canary, sigmoid);
      tested := tested + {cand.id};
      chosen := chosen + [j];
      if confident {
        session.stop := Some(ConfidenceReached);
        break;
      }
    }
    RunningMeans(g, chosen, session.candidates, session.steps, tested, session.spent);
  }

  lemma NothingWithoutEvidence(cs: seq<Candidate>, chosen: seq<nat>, steps: seq<Step>)
    requires EvidenceOnly(cs, chosen, steps)
    ensures NoEvidence(steps) ==> (forall k :: 0 <= k < |cs| ==> cs[k].posterior == None) && !Confident(cs)
  {
  }

  /** Runs the canary for position j, records the step and its measured cost, and
      folds clean evidence into the beliefs. */
  method TestCandidate(session: Session, ghost g: Setting, ghost chosen: seq<nat>, tested: set<string>, j: nat,
                       canary: (nat, Candidate) -> Outcome, sigmoid: real -> real) returns (confident: bool)
    requires g.canary == canary && g.sigmoid == sigmoid && g.budget == session.budget
    requires Running(g, chosen, session.candidates, session.steps, tested, session.spent)
    requires !Confident(session.candidates)
    requires j < |session.candidates| && !Blocked(session.candidates[j], tested, session.spent, session.budget)
    requires forall k :: 0 <= k < j ==> Blocked(session.candidates[k], tested, session.spent, session.budget)
    modifies session
    ensures Running(g, chosen + [j], session.candidates, session.steps,
                    tested + {g.plan[j].id}, session.spent)
    ensures session.stop == old(session.stop)
    ensures confident <==> Confident(session.candidates)
  {
    hide CalculateUtility, Bayes.Belief, Explained, HonestRun, Answered, TestedAre, Ordered, DistinctIds, Descending;
    ghost var cs, steps, spent := session.candidates, session.steps, session.spent;
    RunningUntested(g, chosen, cs, steps, tested, spent);
    var cand := session.candidates[j];
    hide Running, Blocked, Fresh, Estimated;
    var outcome := canary(|session.steps|, cand);
    var step := Step(cand.id, outcome, if Informative(outcome) then Some(cand.utility) else None);
    session.steps := session.steps + [step];
    session.spent := session.spent + Paid(outcome);
    if Informative(outcome) {
      session.candidates := UpdateBeliefs(session.candidates, j, tested + {cand.id}, sigmoid(outcome.effect.value));
    }
    RunningStep(g, chosen, cs, steps, tested, spent, j, step, session.candidates);
    if Informative(outcome) {
      var highest := HighestPosterior(session.candidates);
      return highest >= Bayes.CONFIDENCE;
    }
    return false;
  }

  method IndexOf(cs: seq<Candidate>, id: string) returns (at: nat)
    requires DistinctIds(cs) && exists k :: 0 <= k < |cs| && cs[k].id == id
    ensures at < |cs| && cs[at].id == id
  {
    at := 0;
    while cs[at].id != id
      invariant at < |cs|
      invariant forall k :: 0 <= k < at ==> cs[k].id != id
      decreases |cs| - at
    {
      at := at + 1;
    }
  }
}
