/** The policy engine: hierarchy resolution, role check and approval check tied into
    one decision, and why every `allow` it ever logged is justified. */
module Engine {
  import opened Common
  import opened Policy
  import A = Approvals

  datatype Call = Call(action: string, tenant: string, node: string, requester: string, role: string, existing: string)

  /** A logged decision; no policy means the resolution itself failed. */
  datatype Decision = Decision(call: Call, verdict: Verdict, policy: Option<Effective>, requestId: Option<string>)

  datatype State = State(registry: Registry, service: A.Service, log: seq<Decision>)

  /** Approvers and two-person control that a risk tier asks for. */
  function TierApprovers(t: Tier): int {
    match t
    case Low => 0
    case Medium => 1
    case High => 1
    case Critical => 2
  }

  predicate TierTwoPerson(t: Tier) {
    t == High || t == Critical
  }

  /** The request opened when an approval is missing. */
  function NewRequest(c: Call, p: Effective, tier: Tier, id: string, expiresAt: int): A.Request {
    A.Request(id, c.action, c.tenant, c.requester, MaxInt(p.approvers, TierApprovers(tier)),
              p.twoPerson || TierTwoPerson(tier), [], expiresAt, A.Pending, [])
  }

  predicate NeedsConsent(p: Effective) {
    p.verdict == NeedsApproval || p.approvers > 0
  }

  predicate RoleAllowed(p: Effective, role: string) {
    p.roles == [] || role in p.roles
  }

  /** The cited request covers the call: approved for this action and tenant, or
      broken open. */
  predicate Covers(s: A.Service, c: Call) {
    && c.existing != "" && c.existing in s.requests
    && var r := s.requests[c.existing];
       || (r.status == A.Approved && r.action == c.action && r.tenant == c.tenant)
       || r.status == A.BreakGlass
  }

  /** The decision, and the request opened with it if any. */
  function Decide(res: Resolution, s: A.Service, c: Call, tier: Tier, newId: string, expiresAt: int)
      : (Decision, Option<A.Request>)
  {
    match res
    case PolicyConflict => (Decision(c, Deny, None, None), None)
    case Resolved(p) =>
      if p.verdict == Deny || !RoleAllowed(p, c.role) then (Decision(c, Deny, Some(p), None), None)
      else if !NeedsConsent(p) then (Decision(c, Allow, Some(p), None), None)
      else if Covers(s, c) then (Decision(c, Allow, Some(p), Some(c.existing)), None)
      else (Decision(c, NeedsApproval, Some(p), Some(newId)), Some(NewRequest(c, p, tier, newId, expiresAt)))
  }

  datatype Event =
    | Evaluate(call: Call, newId: string, expiresAt: int)
    | Approval(op: A.Op)
    | Register(node: Node)

  ghost function EvaluateStep(st: State, tierOf: string -> Tier, c: Call, newId: string, expiresAt: int): State {
    var (d, asked) := Decide(Resolve(st.registry, c.tenant, c.node, c.action), st.service, c, tierOf(c.action),
                             newId, expiresAt);
    st.(service := if asked.Some? then A.Create(st.service, asked.value) else st.service, log := st.log + [d])
  }

  /** One step of the combined system; requests are opened under new identifiers, and
      pending. */
  ghost function Next(st: State, tierOf: string -> Tier, e: Event): State {
    match e
    case Evaluate(c, newId, expiresAt) =>
      if newId in st.service.requests then st else EvaluateStep(st, tierOf, c, newId, expiresAt)
    case Approval(op) => if A.FreshOp(st.service, op) then st.(service := A.Apply(st.service, op)) else st
    case Register(node) => st.(registry := st.registry[(node.tenantId, node.nodeId) := node])
  }

  ghost function Run(st: State, tierOf: string -> Tier, events: seq<Event>): State {
    if events == [] then st
    else Next(Run(st, tierOf, events[..|events| - 1]), tierOf, events[|events| - 1])
  }

  // ----- why an allow is allowed

  /** The request was broken open, or is approved for the same action and tenant by
      enough distinct people other than its requester. */
  ghost predicate Consented(s: A.Service, c: Call, id: string) {
    && id in s.requests
    && var r := s.requests[id];
       || r.status == A.BreakGlass
       || (r.status == A.Approved && r.action == c.action && r.tenant == c.tenant
           && |A.Approvers(r.approvals)| >= r.required && A.Approvers(r.approvals) != {}
           && r.requester !in A.Approvers(r.approvals))
  }

  ghost predicate Justified(s: A.Service, d: Decision) {
    d.verdict == Allow ==>
      && d.policy.Some?
      && d.policy.value.verdict != Deny && RoleAllowed(d.policy.value, d.call.role)
      && (match d.requestId
          case None => d.policy.value.verdict == Allow && d.policy.value.approvers <= 0
          case Some(id) => Consented(s, d.call, id))
  }

  ghost predicate Inv(st: State) {
    A.Inv(st.service) && forall i :: 0 <= i < |st.log| ==> Justified(st.service, st.log[i])
  }

  lemma CoversIsConsent(s: A.Service, c: Call)
    requires A.Inv(s) && Covers(s, c)
    ensures Consented(s, c, c.existing)
  {
    var r := s.requests[c.existing];
    assert A.Consistent(s, c.existing);
    if r.status == A.Approved {
      A.ApprovedRequest(r);
    }
  }

  /** Consent, once given, is never lost. */
  lemma ConsentPersists(s: A.Service, s': A.Service, c: Call, id: string)
    requires A.Inv(s') && A.Grows(s, s') && Consented(s, c, id)
    ensures Consented(s', c, id)
  {
    hide A.Approvers;
    assert A.Follows(s.requests[id], s'.requests[id]);
    assert A.Consistent(s', id);
    if s'.requests[id].status == A.Approved {
      A.ApprovedRequest(s'.requests[id]);
    }
  }

  lemma JustifiedPersists(s: A.Service, s': A.Service, d: Decision)
    requires A.Inv(s') && A.Grows(s, s') && Justified(s, d)
    ensures Justified(s', d)
  {
    hide A.Inv, A.Grows, Consented;
    if d.verdict == Allow && d.requestId.Some? {
      ConsentPersists(s, s', d.call, d.requestId.value);
    }
  }

  /** At the moment it is made, every decision is justified by the resolution of the
      current registry and by the current state of the approval service. */
  lemma DecisionJustified(st: State, tierOf: string -> Tier, c: Call, newId: string, expiresAt: int)
    requires A.Inv(st.service)
    ensures var d := Decide(Resolve(st.registry, c.tenant, c.node, c.action), st.service, c, tierOf(c.action),
                            newId, expiresAt).0;
            && Justified(st.service, d)
            && (match Resolve(st.registry, c.tenant, c.node, c.action)
                case PolicyConflict => d == Decision(c, Deny, None, None)
                case Resolved(p) =>
                  && d.call == c && d.policy == Some(p)
                  && (d.verdict == Deny <==> p.verdict == Deny || (p.roles != [] && c.role !in p.roles))
                  && (d.verdict == Deny ==> d.requestId == None))
  {
    hide A.Inv, Resolve;
    if Covers(st.service, c) {
      CoversIsConsent(st.service, c);
    }
    hide Consented, Covers;
  }

  /** When each verdict is given, and what a request opened with it asks for: at
      least what policy and tier ask for. */
  lemma DecisionExact(res: Resolution, s: A.Service, c: Call, tier: Tier, newId: string, expiresAt: int)
    requires newId !in s.requests
    ensures var (d, asked) := Decide(res, s, c, tier, newId, expiresAt);
            var permitted := res.Resolved? && res.policy.verdict != Deny && RoleAllowed(res.policy, c.role);
            && (d.verdict == Deny <==> !permitted)
            && (d.verdict == Allow <==>
                  permitted && (Covers(s, c) || (res.policy.verdict == Allow && res.policy.approvers <= 0)))
            && (asked.Some? <==> d.verdict == NeedsApproval)
            && (asked.Some? ==>
                  && A.IsFresh(s, asked.value) && d.requestId == Some(asked.value.id)
                  && asked.value.required >= d.policy.value.approvers && asked.value.required >= TierApprovers(tier)
                  && (d.policy.value.twoPerson || TierTwoPerson(tier) ==> asked.value.twoPerson)
                  && asked.value.action == c.action && asked.value.tenant == c.tenant
                  && asked.value.requester == c.requester)
  {
  }

  lemma EvaluateKeeps(st: State, tierOf: string -> Tier, c: Call, newId: string, expiresAt: int)
    requires Inv(st) && newId !in st.service.requests
    ensures Inv(EvaluateStep(st, tierOf, c, newId, expiresAt))
    ensures A.Grows(st.service, EvaluateStep(st, tierOf, c, newId, expiresAt).service)
  {
    hide Resolve, Justified, A.Inv, A.Grows, A.Create;
    DecisionJustified(st, tierOf, c, newId, expiresAt);
    DecisionExact(Resolve(st.registry, c.tenant, c.node, c.action), st.service, c, tierOf(c.action), newId, expiresAt);
    hide Decide;
    var (d, asked) := Decide(Resolve(st.registry, c.tenant, c.node, c.action), st.service, c, tierOf(c.action),
                             newId, expiresAt);
    A.GrowsReflexive(st.service);
    if asked.Some? {
      A.CreateKeeps(st.service, asked.value);
    }
    var st' := EvaluateStep(st, tierOf, c, newId, expiresAt);
    LogKept(st, st', d);
  }

  lemma LogKept(st: State, st': State, d: Decision)
    requires Inv(st) && A.Inv(st'.service) && A.Grows(st.service, st'.service)
    requires Justified(st.service, d)
    requires st'.log == st.log || st'.log == st.log + [d]
    ensures Inv(st')
  {
    hide A.Inv, A.Grows, Justified;
    forall i | 0 <= i < |st'.log|
      ensures Justified(st'.service, st'.log[i])
    {
      JustifiedPersists(st.service, st'.service, st'.log[i]);
    }
  }

  lemma NextKeeps(st: State, tierOf: string -> Tier, e: Event)
    requires Inv(st)
    ensures Inv(Next(st, tierOf, e)) && A.Grows(st.service, Next(st, tierOf, e).service)
    ensures st.log <= Next(st, tierOf, e).log
  {
    A.GrowsReflexive(st.service);
    hide Justified, A.Inv, A.Grows, A.Apply;
    match e
    case Evaluate(c, newId, expiresAt) =>
      if newId !in st.service.requests {
        EvaluateKeeps(st, tierOf, c, newId, expiresAt);
      }
    case Approval(op) =>
      if A.FreshOp(st.service, op) {
        A.ApplyKeeps(st.service, op);
      }
      var st' := Next(st, tierOf, e);
      forall i | 0 <= i < |st'.log|
        ensures Justified(st'.service, st'.log[i])
      {
        JustifiedPersists(st.service, st'.service, st.log[i]);
      }
    case Register(node) =>
  }

  /** In every run of engine, registry changes and approval service, every `allow`
      ever logged is justified, and stays so: the request it cites is approved or
      broken open forever after. */
  lemma {:induction false} EveryAllowJustified(st: State, tierOf: string -> Tier, events: seq<Event>)
    requires Inv(st)
    ensures Inv(Run(st, tierOf, events))
    ensures A.Grows(st.service, Run(st, tierOf, events).service) && st.log <= Run(st, tierOf, events).log
  {
    hide Inv, A.Grows, Next;
    if events == [] {
      A.GrowsReflexive(st.service);
    } else {
      var mid := Run(st, tierOf, events[..|events| - 1]);
      EveryAllowJustified(st, tierOf, events[..|events| - 1]);
      NextKeeps(mid, tierOf, events[|events| - 1]);
      A.GrowsTransitive(st.service, mid.service, Run(st, tierOf, events).service);
    }
  }

  // ----- what each decision was made from

  /** Event k evaluated the call, and this was decided from the registry and the
      service as they were then. */
  ghost predicate MadeAt(st: State, tierOf: string -> Tier, events: seq<Event>, d: Decision, k: nat)
    requires k < |events|
  {
    var was := Run(st, tierOf, events[..k]);
    && events[k].Evaluate? && events[k].call == d.call
    && d == Decide(Resolve(was.registry, d.call.tenant, d.call.node, d.call.action), was.service, d.call,
                   tierOf(d.call.action), events[k].newId, events[k].expiresAt).0
  }

  lemma DecidedCall(res: Resolution, s: A.Service, c: Call, tier: Tier, newId: string, expiresAt: int)
    ensures Decide(res, s, c, tier, newId, expiresAt).0.call == c
  {
  }

  lemma {:induction false} EveryDecisionMade(st: State, tierOf: string -> Tier, events: seq<Event>, i: nat)
      returns (k: nat)
    requires |st.log| <= i < |Run(st, tierOf, events).log|
    ensures k < |events| && MadeAt(st, tierOf, events, Run(st, tierOf, events).log[i], k)
    ensures |Run(st, tierOf, events[..k]).log| == i
  {
    hide Decide, Resolve, A.Apply;
    var n := |events| - 1;
    var mid := Run(st, tierOf, events[..n]);
    if i < |mid.log| {
      k := EveryDecisionMade(st, tierOf, events[..n], i);
      assert events[..n][..k] == events[..k] && events[..n][k] == events[k];
      assert Run(st, tierOf, events).log[i] == mid.log[i];
    } else {
      k := n;
      assert events[n].Evaluate?;
      var c := events[n].call;
      DecidedCall(Resolve(mid.registry, c.tenant, c.node, c.action), mid.service, c, tierOf(c.action),
                  events[n].newId, events[n].expiresAt);
    }
  }

  /** The allow rested on what the registry resolved to and on the state of the
      service at event k. */
  ghost predicate Grounded(st: State, tierOf: string -> Tier, events: seq<Event>, d: Decision, k: nat)
    requires k < |events|
  {
    var was := Run(st, tierOf, events[..k]);
    && MadeAt(st, tierOf, events, d, k)
    && d.policy.Some? && Resolve(was.registry, d.call.tenant, d.call.node, d.call.action) == Resolved(d.policy.value)
    && Justified(was.service, d)
    && (d.requestId.Some? ==> d.requestId == Some(d.call.existing) && Covers(was.service, d.call))
  }

  /** In every run every allow logged on the way was made by some event from the policy
      the registry then resolved to, and from consent the service then held. */
  lemma EveryAllowGrounded(st: State, tierOf: string -> Tier, events: seq<Event>, i: nat) returns (k: nat)
    requires Inv(st) && |st.log| <= i < |Run(st, tierOf, events).log|
    requires Run(st, tierOf, events).log[i].verdict == Allow
    ensures k < |events| && Grounded(st, tierOf, events, Run(st, tierOf, events).log[i], k)
  {
    k := EveryDecisionMade(st, tierOf, events, i);
    var d := Run(st, tierOf, events).log[i];
    EveryAllowJustified(st, tierOf, events[..k]);
    var was := Run(st, tierOf, events[..k]);
    hide Run, Resolve, Justified, A.Inv, Covers;
    DecisionJustified(was, tierOf, d.call, events[k].newId, events[k].expiresAt);
  }

  /** The request an allow cites is for the call's own action and tenant, unless its
      status at the decision is BREAK_GLASS. */
  lemma CitationMatches(st: State, tierOf: string -> Tier, events: seq<Event>, i: nat) returns (k: nat)
    requires Inv(st) && |st.log| <= i < |Run(st, tierOf, events).log|
    requires Run(st, tierOf, events).log[i].verdict == Allow && Run(st, tierOf, events).log[i].requestId.Some?
    ensures k < |events| && MadeAt(st, tierOf, events, Run(st, tierOf, events).log[i], k)
    ensures var d := Run(st, tierOf, events).log[i];
            var s := Run(st, tierOf, events[..k]).service;
            && d.requestId.value in s.requests
            && var r := s.requests[d.requestId.value];
               (r.action != d.call.action || r.tenant != d.call.tenant ==> r.status == A.BreakGlass)
  {
    k := EveryAllowGrounded(st, tierOf, events, i);
    hide Run;
  }

  /** The call cites the request from another tenant or for another action, and is allowed. */
  ghost predicate ForeignAllow(p: Effective, s: A.Service, id: string, c: Call)
    requires id in s.requests
  {
    && c.existing == id && (c.tenant != s.requests[id].tenant || c.action != s.requests[id].action)
    && Decide(Resolved(p), s, c, Low, "", 0).0.verdict == Allow
  }

  /** Where a policy asks for consent, a request serves calls of other tenants or
      actions if and only if it has been broken open. */
  lemma ForeignAllowIff(p: Effective, s: A.Service, id: string)
    requires p.verdict != Deny && NeedsConsent(p) && id != "" && id in s.requests
    ensures (exists c :: ForeignAllow(p, s, id, c)) <==> s.requests[id].status == A.BreakGlass
  {
    var r := s.requests[id];
    if r.status == A.BreakGlass {
      var c := Call(r.action, r.tenant + "'", "", "", if p.roles == [] then "" else p.roles[0], id);
      assert |c.tenant| != |r.tenant|;
      assert ForeignAllow(p, s, id, c);
    }
  }

  /** A break-glass request of tenant a lets a call of tenant b through. */
  function ForeignRun(a: string, b: string, action: string): seq<Event> {
    var rule := Rule("rule", action, NeedsApproval, High, 1, true, [], None, "");
    [Register(Node("n", b, None, [rule], true)),
     Approval(A.OpCreate(A.Request("r", action, a, "alice", 1, true, [], 0, A.Pending, []))),
     Approval(A.OpBreakGlass("r", "bob", 20, 0)),
     Evaluate(Call(action, b, "n", "carol", "operator", "r"), "new", 0)]
  }

  lemma ForeignBreakGlass(a: string, b: string, action: string, tierOf: string -> Tier)
    requires a != b
    ensures var st := Run(State(map[], A.Empty(), []), tierOf, ForeignRun(a, b, action));
            && |st.log| == 1 && st.log[0].verdict == Allow && st.log[0].call.tenant == b
            && st.log[0].requestId == Some("r") && "r" in st.service.requests && st.service.requests["r"].tenant == a
  {
    var st0 := State(map[], A.Empty(), []);
    var es := ForeignRun(a, b, action);
    RunFour(st0, tierOf, es[0], es[1], es[2], es[3]);
    BrokenOpen(es[1].op.r);
    var st1 := Next(st0, tierOf, es[0]);
    var st3 := Next(Next(st1, tierOf, es[1]), tierOf, es[2]);
    SingleNode(st1.registry, b, "n", es[0].node.rules[0], action);
    hide Resolve, A.Apply, Run, Decide;
    assert st3.service == A.Apply(A.Apply(A.Empty(), es[1].op), es[2].op) && st3.registry == st1.registry;
    BrokenAllows(Resolve(st3.registry, b, "n", action), st3.service, es[3].call, tierOf(action), "new", 0);
    assert |"new"| == 3;
  }

  lemma BrokenAllows(res: Resolution, s: A.Service, c: Call, tier: Tier, newId: string, expiresAt: int)
    requires res.Resolved? && res.policy.verdict == NeedsApproval && res.policy.roles == []
    requires c.existing != "" && c.existing in s.requests && s.requests[c.existing].status == A.BreakGlass
    ensures Decide(res, s, c, tier, newId, expiresAt)
         == (Decision(c, Allow, Some(res.policy), Some(c.existing)), None)
  {
  }

  /** Filing a request and breaking it open. */
  lemma BrokenOpen(r: A.Request)
    requires r.id == "r" && r.requester == "alice" && A.Blank(r)
    ensures var s := A.Apply(A.Empty(), A.OpCreate(r));
            var s' := A.Apply(s, A.OpBreakGlass("r", "bob", 20, 0));
            && s'.requests.Keys == {"r"}
            && s'.requests["r"] == r.(status := A.BreakGlass, approvals := s'.requests["r"].approvals)
  {
    assert "alice"[0] != "bob"[0];
  }

  lemma RunFour(st: State, tierOf: string -> Tier, a: Event, b: Event, c: Event, d: Event)
    ensures Run(st, tierOf, [a, b, c, d]) == Next(Next(Next(Next(st, tierOf, a), tierOf, b), tierOf, c), tierOf, d)
  {
    hide Next;
    var es := [a, b, c, d];
    assert es[..3] == [a, b, c] && es[..3][..2] == [a, b] && es[..2][..1] == [a] && es[..1][..0] == [];
    assert Run(st, tierOf, [a]) == Next(st, tierOf, a);
    assert Run(st, tierOf, [a, b]) == Next(Next(st, tierOf, a), tierOf, b);
    assert Run(st, tierOf, [a, b, c]) == Next(Run(st, tierOf, [a, b]), tierOf, c);
  }

  /** A root node with a single rule for the action resolves to that rule. */
  lemma SingleNode(reg: Registry, tenant: string, id: string, r: Rule, action: string)
    requires SoleRule(reg, tenant, id, r, true) && r.pattern == action
    ensures Resolve(reg, tenant, id, action).Resolved?
    ensures var p := Resolve(reg, tenant, id, action).policy;
            p.verdict == r.verdict && p.approvers == MaxInt(0, r.approvers) && p.roles == r.roles
  {
    MatchesItself(action);
    SoleRuleMatching(reg, tenant, id, r, true, action);
    SoleResolution(r);
    hide Rules, Combine, Conflicting;
  }

  // ----- the request a decision asks for

  /** Approvers and two-person control by tier: none, one, one and two. */
  predicate TierAsks(t: Tier, approvers: int, twoPerson: bool) {
    match t
    case Low => approvers == 0 && !twoPerson
    case Medium => approvers == 1 && !twoPerson
    case High => approvers == 1 && twoPerson
    case Critical => approvers == 2 && twoPerson
  }

  /** A pending request for exactly this call, without delegation, that asks for the
      larger of what policy and tier ask for. */
  ghost predicate AsksFor(r: A.Request, c: Call, p: Effective, tier: Tier, id: string, expiresAt: int) {
    && r.id == id && r.action == c.action && r.tenant == c.tenant && r.requester == c.requester
    && r.status == A.Pending && r.approvals == [] && r.delegated == [] && r.expiresAt == expiresAt
    && exists n, two ::
         && TierAsks(tier, n, two) && r.required >= p.approvers && r.required >= n
         && (r.required == p.approvers || r.required == n) && (r.twoPerson <==> p.twoPerson || two)
  }

  lemma AsksForIs(r: A.Request, c: Call, p: Effective, tier: Tier, id: string, expiresAt: int)
    ensures AsksFor(r, c, p, tier, id, expiresAt) <==> r == NewRequest(c, p, tier, id, expiresAt)
  {
    assert TierAsks(tier, TierApprovers(tier), TierTwoPerson(tier));
  }

  /** Where approval is needed the service gains exactly the request asked for and its
      log entry; otherwise it is left alone. */
  ghost predicate Files(before: A.Service, after: A.Service, c: Call, d: Decision, tier: Tier, newId: string,
                        expiresAt: int)
  {
    if d.verdict == NeedsApproval then
      && d.requestId == Some(newId) && d.policy.Some? && newId in after.requests
      && AsksFor(after.requests[newId], c, d.policy.value, tier, newId, expiresAt)
      && after.requests == before.requests[newId := after.requests[newId]]
      && after.order == (if newId in before.requests then before.order else before.order + [newId])
      && after.log == before.log + [A.Entry(newId, A.Created, c.requester, false)]
    else after == before
  }

  lemma StepFiles(st: State, tierOf: string -> Tier, c: Call, newId: string, expiresAt: int)
    ensures var st' := EvaluateStep(st, tierOf, c, newId, expiresAt);
            && st'.registry == st.registry && |st'.log| == |st.log| + 1 && st.log <= st'.log
            && Files(st.service, st'.service, c, st'.log[|st.log|], tierOf(c.action), newId, expiresAt)
            && st'.log[|st.log|] == Decide(Resolve(st.registry, c.tenant, c.node, c.action), st.service, c,
                                           tierOf(c.action), newId, expiresAt).0
  {
    hide Resolve, Covers;
    var res := Resolve(st.registry, c.tenant, c.node, c.action);
    if res.Resolved? {
      var r := NewRequest(c, res.policy, tierOf(c.action), newId, expiresAt);
      AsksForIs(r, c, res.policy, tierOf(c.action), newId, expiresAt);
    }
    hide AsksFor, NewRequest;
  }

  /** The request of a needs-approval decision is in the service, for its call. */
  ghost predicate Filed(s: A.Service, d: Decision) {
    d.verdict == NeedsApproval ==>
      && d.requestId.Some? && d.policy.Some? && d.requestId.value in s.requests
      && var r := s.requests[d.requestId.value];
         && r.action == d.call.action && r.tenant == d.call.tenant && r.requester == d.call.requester
         && r.delegated == [] && r.required >= d.policy.value.approvers
  }

  lemma FiledPersists(s: A.Service, s': A.Service, d: Decision)
    requires A.Grows(s, s') && Filed(s, d)
    ensures Filed(s', d)
  {
    if d.verdict == NeedsApproval {
      assert A.Follows(s.requests[d.requestId.value], s'.requests[d.requestId.value]);
    }
  }

  /** In every run, whoever was told that approval is needed finds the request in the
      service ever after. */
  lemma {:induction false} EveryRequestFiled(st: State, tierOf: string -> Tier, events: seq<Event>, i: nat)
    requires Inv(st) && |st.log| <= i < |Run(st, tierOf, events).log|
    ensures Filed(Run(st, tierOf, events).service, Run(st, tierOf, events).log[i])
  {
    var n := |events| - 1;
    var mid := Run(st, tierOf, events[..n]);
    EveryAllowJustified(st, tierOf, events[..n]);
    NextKeeps(mid, tierOf, events[n]);
    hide A.Inv, A.Grows, A.Apply, Filed, Inv, EvaluateStep;
    if i < |mid.log| {
      EveryRequestFiled(st, tierOf, events[..n], i);
      FiledPersists(mid.service, Run(st, tierOf, events).service, mid.log[i]);
    } else {
      assert events[n].Evaluate?;
      StepFiled(mid, tierOf, events[n].call, events[n].newId, events[n].expiresAt);
    }
  }

  lemma StepFiled(st: State, tierOf: string -> Tier, c: Call, newId: string, expiresAt: int)
    ensures var st' := EvaluateStep(st, tierOf, c, newId, expiresAt);
            |st'.log| == |st.log| + 1 && st.log <= st'.log && Filed(st'.service, st'.log[|st.log|])
  {
    StepFiles(st, tierOf, c, newId, expiresAt);
    DecidedCall(Resolve(st.registry, c.tenant, c.node, c.action), st.service, c, tierOf(c.action), newId, expiresAt);
    hide EvaluateStep, Decide;
  }

  // ----- approval leads to an allow

  lemma {:induction false} RunConcat(st: State, tierOf: string -> Tier, a: seq<Event>, b: seq<Event>)
    ensures Run(st, tierOf, a + b) == Run(Run(st, tierOf, a), tierOf, b)
    decreases |b|
  {
    hide Next;
    if b == [] {
      assert a + b == a;
    } else {
      assert (a + b)[..|a + b| - 1] == a + b[..|b| - 1];
      RunConcat(st, tierOf, a, b[..|b| - 1]);
    }
  }

  function AsEvents(ops: seq<A.Op>): (r: seq<Event>)
    ensures |r| == |ops|
  {
    seq(|ops|, i requires 0 <= i < |ops| => Approval(ops[i]))
  }

  lemma {:induction false} ServiceRun(st: State, tierOf: string -> Tier, ops: seq<A.Op>)
    requires forall i :: 0 <= i < |ops| ==> !ops[i].OpCreate?
    ensures Run(st, tierOf, AsEvents(ops)) == st.(service := A.Run(st.service, ops))
  {
    hide A.Apply;
    if ops != [] {
      var n := |ops| - 1;
      ServiceRun(st, tierOf, ops[..n]);
      assert AsEvents(ops)[..n] == AsEvents(ops[..n]) && AsEvents(ops)[n] == Approval(ops[n]);
    }
  }

  /** Consent to a request of the service survives any run of the engine. */
  lemma ConsentSurvives(st: State, tierOf: string -> Tier, events: seq<Event>, id: string)
    requires Inv(st) && id in st.service.requests && st.service.requests[id].status == A.Approved
    ensures var s := Run(st, tierOf, events).service;
            && id in s.requests && s.requests[id].status in {A.Approved, A.BreakGlass}
            && s.requests[id].action == st.service.requests[id].action
            && s.requests[id].tenant == st.service.requests[id].tenant
  {
    EveryAllowJustified(st, tierOf, events);
    assert A.Follows(st.service.requests[id], Run(st, tierOf, events).service.requests[id]);
  }

  /** A call that needs approval: once as many different people as its request asks for,
      none of them the requester, have approved it in time, the same call citing it is
      allowed as long as the same policy is in force, whatever happens in between. */
  lemma ApprovedCallAllowed(st: State, tierOf: string -> Tier, c: Call, newId: string, expiresAt: int,
                            asked: State, d: Decision, actors: seq<string>, times: seq<int>, later: seq<Event>)
    requires Inv(st) && newId != "" && newId !in st.service.requests
    requires asked == EvaluateStep(st, tierOf, c, newId, expiresAt) && asked.log == st.log + [d]
    requires d.verdict == NeedsApproval && d.policy.Some? && newId in asked.service.requests
    requires A.Willing(asked.service.requests[newId], actors, times)
    requires |actors| == MaxInt(1, asked.service.requests[newId].required)
    ensures var end := Run(asked, tierOf, AsEvents(A.ApproveAll(newId, actors, times)) + later);
            var again := c.(existing := newId);
            Resolve(end.registry, c.tenant, c.node, c.action) == Resolved(d.policy.value) ==>
              Decide(Resolved(d.policy.value), end.service, again, tierOf(c.action), "", 0).0
              == Decision(again, Allow, d.policy, Some(newId))
  {
    var ops := A.ApproveAll(newId, actors, times);
    StepFiles(st, tierOf, c, newId, expiresAt);
    EvaluateKeeps(st, tierOf, c, newId, expiresAt);
    NeedsConsentWhenAsked(Resolve(st.registry, c.tenant, c.node, c.action), st.service, c, tierOf(c.action), newId,
                          expiresAt);
    hide EvaluateStep, Decide, Resolve, A.Apply, A.Run, A.Approvers, Run, Inv;
    A.EnoughApprove(asked.service, newId, actors, times, |actors|);
    assert ops[..|actors|] == ops;
    ServiceRun(asked, tierOf, ops);
    RunConcat(asked, tierOf, AsEvents(ops), later);
    EveryAllowJustified(asked, tierOf, AsEvents(ops));
    ConsentSurvives(Run(asked, tierOf, AsEvents(ops)), tierOf, later, newId);
    var end := Run(asked, tierOf, AsEvents(ops) + later);
    CitedAllows(d.policy.value, end.service, c.(existing := newId), tierOf(c.action));
  }

  lemma NeedsConsentWhenAsked(res: Resolution, s: A.Service, c: Call, tier: Tier, newId: string, expiresAt: int)
    ensures var d := Decide(res, s, c, tier, newId, expiresAt).0;
            d.verdict == NeedsApproval ==>
              && d.policy.Some? && d.policy.value.verdict != Deny
              && RoleAllowed(d.policy.value, c.role) && NeedsConsent(d.policy.value)
  {
  }

  lemma CitedAllows(p: Effective, s: A.Service, c: Call, tier: Tier)
    requires p.verdict != Deny && RoleAllowed(p, c.role) && NeedsConsent(p) && c.existing != ""
    requires c.existing in s.requests && s.requests[c.existing].status in {A.Approved, A.BreakGlass}
    requires s.requests[c.existing].action == c.action && s.requests[c.existing].tenant == c.tenant
    ensures Decide(Resolved(p), s, c, tier, "", 0).0 == Decision(c, Allow, Some(p), Some(c.existing))
  {
  }

  // ----- what the decision does not look at

  /** Without a covering request a call is allowed if and only if some rule matches,
      every matching rule allows it without approvers, and the role is admitted. The
      risk tier plays no part. */
  lemma UncoveredAllowIff(reg: Registry, s: A.Service, c: Call, tier: Tier, newId: string, expiresAt: int)
    requires !Covers(s, c)
    ensures var rules := Rules(reg, c.tenant, c.node, c.action);
            Decide(Resolve(reg, c.tenant, c.node, c.action), s, c, tier, newId, expiresAt).0.verdict == Allow
            <==> && rules != []
                 && (forall i :: 0 <= i < |rules| ==> rules[i].verdict == Allow && rules[i].approvers <= 0)
                 && (FoldRoles(rules) == [] || c.role in FoldRoles(rules))
  {
    var rules := Rules(reg, c.tenant, c.node, c.action);
    hide Rules, Covers, FoldRoles, Strictest, MostApprovers;
    StrictestIs(rules);
    MostApproversIs(rules);
  }

  /** A CRITICAL action under a CRITICAL rule, allowed with no approval. */
  lemma CriticalAllowed(action: string, s: A.Service)
    ensures var rule := Rule("rule", action, Allow, Critical, 0, true, [], None, "");
            var reg: Registry := map[("t", "n") := Node("n", "t", None, [rule], true)];
            var c := Call(action, "t", "n", "alice", "operator", "");
            Decide(Resolve(reg, "t", "n", action), s, c, Critical, "new", 0).0.verdict == Allow
  {
    var rule := Rule("rule", action, Allow, Critical, 0, true, [], None, "");
    SingleNode(map[("t", "n") := Node("n", "t", None, [rule], true)], "t", "n", rule, action);
    hide Resolve;
  }

  /** The call is allowed by the approved request it cites. */
  ghost predicate CitesApproved(p: Effective, s: A.Service, c: Call) {
    && c.existing in s.requests && s.requests[c.existing].status == A.Approved
    && Decide(Resolved(p), s, c, Low, "", 0).0 == Decision(c, Allow, Some(p), Some(c.existing))
  }

  /** The call is allowed by an approved request that asked for q approvers. */
  ghost predicate CitesAsking(p: Effective, s: A.Service, c: Call, q: int) {
    CitesApproved(p, s, c) && s.requests[c.existing].required == q
  }

  /** Every such request has the approvers the policy in force asks for, whatever the
      service went through. */
  ghost predicate CitedSuffice(p: Effective, q: int) {
    forall ops, c :: A.AllBlank(ops) && CitesAsking(p, A.Run(A.Empty(), ops), c, q) ==>
      |A.Approvers(A.Run(A.Empty(), ops).requests[c.existing].approvals)| >= p.approvers
  }

  /** The engine compares only action and tenant, so a cited request is sure to have
      the approvers the policy in force asks for if and only if the request asked for
      as many itself, or one is enough. */
  lemma CitedSufficeIff(p: Effective, q: int)
    requires p.verdict != Deny && NeedsConsent(p)
    ensures CitedSuffice(p, q) <==> p.approvers <= MaxInt(1, q)
  {
    hide A.Run, A.Approvers;
    if p.approvers <= MaxInt(1, q) {
      A.SureOfIff(q, p.approvers);
      forall ops, c | A.AllBlank(ops) && CitesAsking(p, A.Run(A.Empty(), ops), c, q)
        ensures |A.Approvers(A.Run(A.Empty(), ops).requests[c.existing].approvals)| >= p.approvers
      {
        assert A.ApprovedAsking(ops, c.existing, q);
      }
    } else {
      var n := MaxInt(1, q);
      var blank := A.Request("r", "", "", "", q, false, [], 0, A.Pending, []);
      A.VotesRun(blank, n);
      A.BallotsDistinct(n, 0);
      var c := Call("", "", "", "", if p.roles == [] then "" else p.roles[0], "r");
      A.VotesBlank(blank, n);
      assert CitesAsking(p, A.Run(A.Empty(), A.Votes(blank, n)), c, q);
    }
  }

  /** The caller is itself among the approvers of the request that lets it through. */
  ghost predicate CallerApproved(p: Effective, requester: string, delegated: seq<string>, ops: seq<A.Op>, c: Call) {
    && A.AllBlank(ops) && CitesApproved(p, A.Run(A.Empty(), ops), c)
    && var r := A.Run(A.Empty(), ops).requests[c.existing];
       r.requester == requester && r.delegated == delegated && c.requester in A.Approvers(r.approvals)
  }

  /** Neither node nor requester of a cited request is compared with the call. On any
      node someone can be let through by a request it approved itself if and only if
      it did not make the request and approval was open to it. */
  lemma CallerApprovedIff(p: Effective, requester: string, delegated: seq<string>, caller: string, node: string)
    requires p.verdict != Deny && NeedsConsent(p)
    ensures (exists ops, c ::
               CallerApproved(p, requester, delegated, ops, c) && c.requester == caller && c.node == node)
            <==> caller != requester && (delegated == [] || caller in delegated)
  {
    hide A.Run, A.Approvers;
    A.NeverApprovesIff(requester, delegated, caller);
    if caller != requester && (delegated == [] || caller in delegated) {
      var r := A.SoleRequest(requester, delegated);
      var ops := A.OneVoteOps(r, caller);
      A.OneVote(r, caller);
      var c := Call("", "", node, caller, if p.roles == [] then "" else p.roles[0], "r");
      assert CallerApproved(p, requester, delegated, ops, c);
    } else {
      forall ops, c | CallerApproved(p, requester, delegated, ops, c)
        ensures c.requester != caller
      {
        assert A.ApprovedFor(ops, c.existing, requester, delegated);
      }
    }
  }

  /** A request filed as already approved lets a call through without any approver. */
  lemma PreApprovedAllowed(p: Effective, r: A.Request, c: Call)
    requires p.verdict != Deny && NeedsConsent(p) && RoleAllowed(p, c.role)
    requires r.id != "" && r.status == A.Approved && r.approvals == []
    requires c.existing == r.id && c.action == r.action && c.tenant == r.tenant
    ensures var s := A.Run(A.Empty(), [A.OpCreate(r)]);
            CitesApproved(p, s, c) && A.Approvers(s.requests[c.existing].approvals) == {}
  {
    var ops := [A.OpCreate(r)];
    A.RunStep(A.Empty(), ops, 0);
    assert ops[..0] == [] && ops[..1] == ops;
  }

  // ----- the engine object

  class PolicyEngine {
    const registry: PolicyRegistry
    const approvals: A.ApprovalService
    var decisions: seq<Decision>

    ghost function Value(): State
      reads this, registry, approvals
    {
      State(registry.nodes, approvals.Value(), decisions)
    }

    constructor (registry: PolicyRegistry, approvals: A.ApprovalService)
      ensures this.registry == registry && this.approvals == approvals && decisions == []
    {
      this.registry, this.approvals, decisions := registry, approvals, [];
    }

    /** One evaluation: resolve, check verdict and role, look for consent or open a
        request, and log the decision. */
    method EvaluateCall(tierOf: string -> Tier, c: Call, newId: string, expiresAt: int) returns (d: Decision)
      requires registry.Valid()
      modifies this, approvals
      ensures Value() == EvaluateStep(old(Value()), tierOf, c, newId, expiresAt)
      ensures decisions == old(decisions) + [d]
      ensures Files(old(approvals.Value()), approvals.Value(), c, d, tierOf(c.action), newId, expiresAt)
    {
      StepFiles(Value(), tierOf, c, newId, expiresAt);
      hide Files;
      hide Resolve;
      var res := registry.ResolvePolicy(c.tenant, c.node, c.action);
      if res.PolicyConflict? {
        d := Decision(c, Deny, None, None);
      } else {
        var p := res.policy;
        if p.verdict == Deny {
          d := Decision(c, Deny, Some(p), None);
        } else if p.roles != [] && c.role !in p.roles {
          d := Decision(c, Deny, Some(p), None);
        } else if p.verdict == NeedsApproval || p.approvers > 0 {
          if Covers(approvals.Value(), c) {
            d := Decision(c, Allow, Some(p), Some(c.existing));
          } else {
            approvals.CreateRequest(NewRequest(c, p, tierOf(c.action), newId, expiresAt));
            d := Decision(c, NeedsApproval, Some(p), Some(newId));
          }
        } else {
          d := Decision(c, Allow, Some(p), None);
        }
      }
      decisions := decisions + [d];
    }
  }
}
