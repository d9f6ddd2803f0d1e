/** Shadow evaluation of a candidate policy against recorded decisions. */
module Shadow {
  import opened Policy
  import opened Inheritance

  datatype Event = Event(action: string, tenant: string, node: string, recorded: string)

  datatype Change = Unchanged | Tightened | Relaxed

  datatype Result = Result(shadow: string, change: Change)

  datatype Report = Report(same: nat, tightened: nat, relaxed: nat, results: seq<Result>)

  function Name(v: Verdict): string {
    match v
    case Deny => "deny"
    case NeedsApproval => "needs_approval"
    case Allow => "allow"
  }

  /** Ranks of recorded verdict names; an unknown name ranks with allow. */
  function NameRank(s: string): nat {
    if s == "deny" then 0 else if s == "needs_approval" then 1 else 2
  }

  lemma NameRankIs(v: Verdict)
    ensures NameRank(Name(v)) == Rank(v)
  {
    match v
    case Deny =>
    case NeedsApproval =>
      assert "needs_approval"[0] != "deny"[0];
    case Allow =>
      assert "allow"[0] != "deny"[0] && "allow"[0] != "needs_approval"[0];
  }

  /** The verdict a resolution stands for: a conflict is recorded as a denial. */
  function VerdictOf(r: Resolution): Verdict {
    match r
    case Resolved(p) => p.verdict
    case PolicyConflict => Deny
  }

  ghost function VerdictFor(reg: Registry, ev: Event): Verdict {
    VerdictOf(Resolve(reg, ev.tenant, ev.node, ev.action))
  }

  function Compare(recorded: string, shadow: string): Change {
    if shadow == recorded then Unchanged
    else if NameRank(shadow) < NameRank(recorded) then Tightened
    else Relaxed
  }

  function Tally(results: seq<Result>, change: Change): nat {
    if results == [] then 0
    else Tally(results[..|results| - 1], change) + (if results[|results| - 1].change == change then 1 else 0)
  }

  lemma TallyAppend(results: seq<Result>, r: Result, change: Change)
    ensures Tally(results + [r], change) == Tally(results, change) + (if r.change == change then 1 else 0)
  {
    assert (results + [r])[..|results|] == results;
  }

  /** The evaluation loop: each result compares the candidate's verdict with the
      recorded one, and the three counters partition the events. */
  method ShadowEvaluate(events: seq<Event>, candidate: PolicyRegistry) returns (report: Report)
    requires candidate.Valid()
    ensures |report.results| == |events|
    ensures Compared(candidate.nodes, events, report.results)
    ensures report.same == Tally(report.results, Unchanged)
    ensures report.tightened == Tally(report.results, Tightened)
    ensures report.relaxed == Tally(report.results, Relaxed)
    ensures report.same + report.tightened + report.relaxed == |events|
  {
    hide Resolve, Name, NameRank, VerdictFor, Tally;
    var same, tightened, relaxed := 0, 0, 0;
    TallyNothing();
    var results: seq<Result> := [];
    for i := 0 to |events|
      invariant Compared(candidate.nodes, events[..i], results)
      invariant same == Tally(results, Unchanged) && tightened == Tally(results, Tightened)
                && relaxed == Tally(results, Relaxed)
      invariant same + tightened + relaxed == i
    {
      var ev := events[i];
      assert events[..i + 1] == events[..i] + [ev];
      var resolution := candidate.ResolvePolicy(ev.tenant, ev.node, ev.action);
      assert VerdictOf(resolution) == VerdictFor(candidate.nodes, ev) by {
        VerdictForIs(candidate.nodes, ev);
      }
      var shadow := Name(VerdictOf(resolution));
      var change: Change;
      if shadow == ev.recorded {
        change, same := Unchanged, same + 1;
      } else if NameRank(shadow) < NameRank(ev.recorded) {
        change, tightened := Tightened, tightened + 1;
      } else {
        change, relaxed := Relaxed, relaxed + 1;
      }
      TallyAppend(results, Result(shadow, change), Unchanged);
      TallyAppend(results, Result(shadow, change), Tightened);
      TallyAppend(results, Result(shadow, change), Relaxed);
      results := results + [Result(shadow, change)];
    }
    assert events[..|events|] == events;
    return Report(same, tightened, relaxed, results);
  }

  lemma TallyNothing()
    ensures forall change :: Tally([], change) == 0
  {
  }

  lemma VerdictForIs(reg: Registry, ev: Event)
    ensures VerdictFor(reg, ev) == VerdictOf(Resolve(reg, ev.tenant, ev.node, ev.action))
  {
  }

  /** Each result carries the candidate's verdict and how it compares. */
  ghost predicate Compared(reg: Registry, events: seq<Event>, results: seq<Result>) {
    && |results| == |events|
    && forall i :: 0 <= i < |events| ==>
         && results[i].shadow == Name(VerdictFor(reg, events[i]))
         && results[i].change == Compare(events[i].recorded, results[i].shadow)
  }

  /** By name: the verdicts are compared as deny before needs_approval before allow, and
      a record with any other text counts as allow unless the texts agree. */
  lemma CompareIs(v: Verdict, recorded: string)
    ensures Name(Deny) == "deny" && Name(NeedsApproval) == "needs_approval" && Name(Allow) == "allow"
    ensures Compare(recorded, Name(v)) ==
            if recorded == Name(v) then Unchanged
            else if v == Deny || (v == NeedsApproval && recorded != "deny") then Tightened
            else Relaxed
  {
    NameRankIs(v);
    assert "needs_approval"[0] != "deny"[0];
  }

  /** A conflict is reported like a denial. */
  lemma VerdictForIsDeny(reg: Registry, ev: Event)
    ensures VerdictFor(reg, ev) == Deny <==>
            var r := Resolve(reg, ev.tenant, ev.node, ev.action);
            r == PolicyConflict || r.policy.verdict == Deny
  {
    hide Resolve;
  }

  // ----- candidates that only append rules

  /** The candidate has the same nodes, each with further rules at the end at most. */
  ghost predicate AppendsRules(base: Registry, cand: Registry) {
    && base.Keys == cand.Keys
    && forall k :: k in base ==> Extends(base[k], cand[k])
  }

  ghost predicate Extends(n: Node, m: Node) {
    m.(rules := n.rules) == n && n.rules <= m.rules
  }

  lemma {:induction false} FirstMatchKept(rules: seq<Rule>, longer: seq<Rule>, action: string)
    requires rules <= longer && FirstMatch(rules, action).Some?
    ensures FirstMatch(longer, action) == FirstMatch(rules, action)
  {
    hide ActionMatches;
    if rules != [] && !ActionMatches(rules[0].pattern, action) {
      FirstMatchKept(rules[1..], longer[1..], action);
    }
  }

  lemma {:induction false} ChainExtends(base: Registry, cand: Registry, tenant: string, id: string, seen: set<Key>)
    requires AppendsRules(base, cand)
    ensures |Chain(base, tenant, id, seen)| == |Chain(cand, tenant, id, seen)|
    ensures forall i :: 0 <= i < |Chain(base, tenant, id, seen)| ==>
              Extends(Chain(base, tenant, id, seen)[i], Chain(cand, tenant, id, seen)[i])
    decreases base.Keys - seen
  {
    var key := (tenant, id);
    if key in base && key !in seen && base[key].parentId.Some? {
      assert Extends(base[key], cand[key]);
      ChainExtends(base, cand, tenant, base[key].parentId.value, seen + {key});
    }
  }

  /** Rules appended to nodes become insertions in the list of matching rules. */
  lemma {:induction false} MatchingEmbeds(chain: seq<Node>, longer: seq<Node>, action: string) returns (f: seq<nat>)
    requires |chain| == |longer| && forall i :: 0 <= i < |chain| ==> Extends(chain[i], longer[i])
    ensures Embeds(Matching(chain, action), Matching(longer, action), f)
  {
    if chain == [] {
      f := [];
    } else {
      var n := |chain| - 1;
      f := MatchingEmbeds(chain[..n], longer[..n], action);
      assert Extends(chain[n], longer[n]);
      ContributionKept(chain[n], longer[n], action);
      hide Contribution, Embeds;
      f := EmbedsExtend(Matching(chain[..n], action), Matching(longer[..n], action), f,
                        Contribution(chain[n], action), Contribution(longer[n], action));
    }
  }

  lemma ContributionKept(n: Node, m: Node, action: string)
    requires Extends(n, m)
    ensures Contribution(n, action) == [] || Contribution(n, action) == Contribution(m, action)
    ensures |Contribution(n, action)| <= 1
  {
    hide FirstMatch;
    if Contribution(n, action) != [] {
      FirstMatchKept(n.rules, m.rules, action);
    }
  }

  lemma EmbedsExtend(a: seq<Rule>, b: seq<Rule>, f: seq<nat>, x: seq<Rule>, y: seq<Rule>) returns (g: seq<nat>)
    requires Embeds(a, b, f) && (x == [] || x == y) && |x| <= 1
    ensures Embeds(a + x, b + y, g)
  {
    if x == [] {
      g := f;
      assert a + x == a;
    } else {
      g := f + [|b|];
      assert (b + y)[|b|] == x[0];
    }
  }

  /** Over a rule-appending candidate the list of matching rules only gains rules. */
  lemma CandidateEmbeds(base: Registry, cand: Registry, ev: Event) returns (f: seq<nat>)
    requires AppendsRules(base, cand)
    ensures Embeds(Rules(base, ev.tenant, ev.node, ev.action), Rules(cand, ev.tenant, ev.node, ev.action), f)
  {
    ChainExtends(base, cand, ev.tenant, ev.node, {});
    f := MatchingEmbeds(Chain(base, ev.tenant, ev.node, {}), Chain(cand, ev.tenant, ev.node, {}), ev.action);
  }

  ghost predicate Matched(reg: Registry, ev: Event) {
    Rules(reg, ev.tenant, ev.node, ev.action) != []
  }

  /** A previously matched event never gets a looser verdict. */
  lemma MatchedNeverLooser(base: Registry, cand: Registry, ev: Event)
    requires AppendsRules(base, cand) && Matched(base, ev)
    ensures Rank(VerdictFor(cand, ev)) <= Rank(VerdictFor(base, ev))
  {
    var f := CandidateEmbeds(base, cand, ev);
    InsertionTightens(Rules(base, ev.tenant, ev.node, ev.action), Rules(cand, ev.tenant, ev.node, ev.action), f);
    hide Rules, Conflicting, Strictest, Severest, MostApprovers, SmallestBudget, FoldRoles, Winner, AnyTwoPerson,
         Relaxes;
  }

  /** The event was recorded with the base resolver's own verdict. */
  ghost predicate RecordedBy(base: Registry, ev: Event) {
    ev.recorded == Name(VerdictFor(base, ev))
  }

  /** For a rule-appending candidate, an event is reported as relaxed if and only if
      no rule of the base matched it and the candidate does not deny it. */
  lemma RelaxedIff(base: Registry, cand: Registry, ev: Event)
    requires AppendsRules(base, cand) && RecordedBy(base, ev)
    ensures Compare(ev.recorded, Name(VerdictFor(cand, ev))) == Relaxed <==>
            !Matched(base, ev) && VerdictFor(cand, ev) != Deny
  {
    NameRankIs(VerdictFor(base, ev));
    NameRankIs(VerdictFor(cand, ev));
    if Matched(base, ev) {
      MatchedNeverLooser(base, cand, ev);
    }
    hide Rules, Name, NameRank, Conflicting, Combine;
  }

  lemma {:induction false} TallyZero(results: seq<Result>, change: Change)
    requires forall i :: 0 <= i < |results| ==> results[i].change != change
    ensures Tally(results, change) == 0
  {
    if results != [] {
      TallyZero(results[..|results| - 1], change);
    }
  }

  /** The report on a rule-appending candidate, over events the base matched and
      recorded itself: nothing relaxed, everything unchanged or tightened. */
  method ShadowAppended(events: seq<Event>, ghost base: Registry, candidate: PolicyRegistry) returns (report: Report)
    requires candidate.Valid() && AppendsRules(base, candidate.nodes)
    requires forall i :: 0 <= i < |events| ==> Matched(base, events[i]) && RecordedBy(base, events[i])
    ensures report.relaxed == 0 && report.same + report.tightened == |events| == |report.results|
    ensures forall i :: 0 <= i < |events| ==>
              (report.results[i].change == Unchanged <==>
               VerdictFor(candidate.nodes, events[i]) == VerdictFor(base, events[i]))
  {
    report := ShadowEvaluate(events, candidate);
    forall i | 0 <= i < |events|
      ensures report.results[i].change != Relaxed
      ensures report.results[i].change == Unchanged <==>
              VerdictFor(candidate.nodes, events[i]) == VerdictFor(base, events[i])
    {
      RelaxedIff(base, candidate.nodes, events[i]);
      NameRankIs(VerdictFor(base, events[i]));
      NameRankIs(VerdictFor(candidate.nodes, events[i]));
    }
    TallyZero(report.results, Relaxed);
  }
}
