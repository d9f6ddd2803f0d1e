/** The policy hierarchy and the tightening-only inheritance resolver. */
module Policy {
  import opened Common

  datatype Verdict = Deny | NeedsApproval | Allow

  datatype Tier = Low | Medium | High | Critical

  /** A rule; an empty justification stands for a missing one. */
  datatype Rule = Rule(
    ruleId: string, pattern: string, verdict: Verdict, tier: Tier, approvers: int, twoPerson: bool,
    roles: seq<string>, budget: Option<real>, justification: string)

  datatype Node = Node(nodeId: string, tenantId: string, parentId: Option<string>, rules: seq<Rule>, active: bool)

  type Key = (string, string)

  type Registry = map<Key, Node>

  /** Nodes are filed under their own tenant and identifier. */
  ghost predicate Keyed(reg: Registry) {
    forall k :: k in reg ==> reg[k].tenantId == k.0 && reg[k].nodeId == k.1
  }

  /** Smaller is stricter. */
  function Rank(v: Verdict): nat {
    match v
    case Deny => 0
    case NeedsApproval => 1
    case Allow => 2
  }

  function TierRank(t: Tier): nat {
    match t
    case Critical => 0
    case High => 1
    case Medium => 2
    case Low => 3
  }

  // ----- matching

  /** 'replay.*' matches 'replay' and everything under 'replay.'; other patterns match exactly. */
  predicate ActionMatches(pattern: string, action: string) {
    if |pattern| >= 2 && pattern[|pattern| - 2..] == ".*" then
      var prefix := pattern[..|pattern| - 2];
      action == prefix || prefix + "." <= action
    else
      pattern == action
  }

  /** A pattern ending in ".*" matches its prefix and whatever lies under it. */
  lemma GlobMatches(prefix: string, action: string)
    ensures ActionMatches(prefix + ".*", action) <==>
            action == prefix || exists rest :: action == prefix + "." + rest
  {
    var pattern := prefix + ".*";
    assert pattern[|pattern| - 2..] == ".*" && pattern[..|pattern| - 2] == prefix;
    if prefix + "." <= action {
      assert action == prefix + "." + action[|prefix| + 1..];
    }
  }

  /** Any other pattern matches itself only. */
  lemma PlainMatches(pattern: string, action: string)
    requires !exists prefix :: pattern == prefix + ".*"
    ensures ActionMatches(pattern, action) <==> action == pattern
  {
    IsGlobIff(pattern);
  }

  lemma IsGlobIff(pattern: string)
    ensures (|pattern| >= 2 && pattern[|pattern| - 2..] == ".*") <==> exists prefix :: pattern == prefix + ".*"
  {
    if |pattern| >= 2 && pattern[|pattern| - 2..] == ".*" {
      assert pattern == pattern[..|pattern| - 2] + ".*";
    }
  }

  lemma MatchesItself(action: string)
    ensures ActionMatches(action, action)
  {
    if |action| >= 2 && action[|action| - 2..] == ".*" {
      var prefix := action[..|action| - 2];
      assert action == prefix + action[|action| - 2..];
      assert prefix + "." == action[..|action| - 1];
    }
  }

  function FirstMatch(rules: seq<Rule>, action: string): (r: Option<Rule>)
    ensures r == None <==> forall i :: 0 <= i < |rules| ==> !ActionMatches(rules[i].pattern, action)
    ensures r.Some? ==>
              exists i :: && 0 <= i < |rules| && rules[i] == r.value && ActionMatches(rules[i].pattern, action)
                          && forall j :: 0 <= j < i ==> !ActionMatches(rules[j].pattern, action)
  {
    if rules == [] then None
    else if ActionMatches(rules[0].pattern, action) then Some(rules[0])
    else
      var rest := FirstMatch(rules[1..], action);
      assert rest.Some? ==> forall j :: 0 < j < |rules| ==> rules[j] == rules[1..][j - 1];
      rest
  }

  /** The rule a node contributes, if it is active and one matches. */
  function Contribution(n: Node, action: string): seq<Rule> {
    if !n.active then []
    else match FirstMatch(n.rules, action)
      case Some(rule) => [rule]
      case None => []
  }

  function Matching(chain: seq<Node>, action: string): seq<Rule> {
    if chain == [] then []
    else Matching(chain[..|chain| - 1], action) + Contribution(chain[|chain| - 1], action)
  }

  // ----- ancestors

  /** The ancestors of a node, root first, following parents until one is missing
      or has been seen. */
  function Chain(reg: Registry, tenant: string, id: string, seen: set<Key>): seq<Node>
    decreases reg.Keys - seen
  {
    var key := (tenant, id);
    if key !in reg || key in seen then []
    else
      (match reg[key].parentId
       case None => []
       case Some(parent) => Chain(reg, tenant, parent, seen + {key}))
      + [reg[key]]
  }

  /** What the chain is: it ends at the node itself, each entry is the registered
      parent of the next within the tenant, no node repeats, and it starts at a node
      whose parent is absent, unregistered, or already met. */
  lemma {:induction false} ChainIs(reg: Registry, tenant: string, id: string, seen: set<Key>)
    requires Keyed(reg)
    ensures var c := Chain(reg, tenant, id, seen);
            && (c == [] <==> (tenant, id) !in reg || (tenant, id) in seen)
            && (c != [] ==> c[|c| - 1] == reg[(tenant, id)])
            && (forall i :: 0 <= i < |c| ==>
                  (tenant, c[i].nodeId) in reg && (tenant, c[i].nodeId) !in seen && c[i] == reg[(tenant, c[i].nodeId)])
            && (forall i :: 0 <= i < |c| - 1 ==> c[i + 1].parentId == Some(c[i].nodeId))
            && (forall i, j :: 0 <= i < j < |c| ==> c[i].nodeId != c[j].nodeId)
            && (c != [] && c[0].parentId.Some? ==>
                  var up := (tenant, c[0].parentId.value);
                  up !in reg || up in seen || exists i :: 0 <= i < |c| && c[i].nodeId == up.1)
    decreases reg.Keys - seen
  {
    var key := (tenant, id);
    if key in reg && key !in seen && reg[key].parentId.Some? {
      var parent := reg[key].parentId.value;
      ChainIs(reg, tenant, parent, seen + {key});
      var up := Chain(reg, tenant, parent, seen + {key});
      var c := up + [reg[key]];
      assert c == Chain(reg, tenant, id, seen);
      assert c[|up|] == reg[key];
      assert forall i :: 0 <= i < |up| ==> c[i] == up[i];
      if up == [] {
        assert c[0] == reg[key];
      }
    }
  }

  function Reversed(s: seq<Node>): seq<Node> {
    if s == [] then [] else [s[|s| - 1]] + Reversed(s[..|s| - 1])
  }

  /** The upward walk terminates on every registry, parent cycles and missing
      parents included. */
  method AncestorChain(reg: Registry, tenant: string, leaf: string) returns (chain: seq<Node>)
    requires Keyed(reg)
    ensures chain == Chain(reg, tenant, leaf, {})
  {
    var upward: seq<Node> := [];
    ghost var seen: set<Key> := {};
    var visited: set<string> := {};
    var id := leaf;
    while (tenant, id) in reg && id !in visited
      invariant forall v :: v in visited <==> (tenant, v) in seen
      invariant Chain(reg, tenant, leaf, {}) == Chain(reg, tenant, id, seen) + Reversed(upward)
      decreases reg.Keys - seen
    {
      var node := reg[(tenant, id)];
      assert (upward + [node])[..|upward|] == upward;
      upward := upward + [node];
      visited := visited + {node.nodeId};
      ghost var before := seen;
      seen := seen + {(tenant, id)};
      if node.parentId == None {
        assert Chain(reg, tenant, id, before) == [node];
        assert Chain(reg, tenant, leaf, {}) == Reversed(upward);
        return Reversed(upward);
      }
      id := node.parentId.value;
    }
    assert [] + Reversed(upward) == Reversed(upward);
    return Reversed(upward);
  }

  // ----- the effective policy, attribute by attribute

  function Stricter(v: Verdict, w: Verdict): Verdict {
    if Rank(w) < Rank(v) then w else v
  }

  function Severer(t: Tier, u: Tier): Tier {
    if TierRank(u) < TierRank(t) then u else t
  }

  function Tighter(b: Option<real>, c: Option<real>): Option<real> {
    if c == None then b
    else if b == None then c
    else Some(MinReal(b.value, c.value))
  }

  function Strictest(rules: seq<Rule>): Verdict {
    if rules == [] then Allow else Stricter(Strictest(rules[..|rules| - 1]), rules[|rules| - 1].verdict)
  }

  function Severest(rules: seq<Rule>): Tier {
    if rules == [] then Low else Severer(Severest(rules[..|rules| - 1]), rules[|rules| - 1].tier)
  }

  function MostApprovers(rules: seq<Rule>): int {
    if rules == [] then 0 else MaxInt(MostApprovers(rules[..|rules| - 1]), rules[|rules| - 1].approvers)
  }

  function SmallestBudget(rules: seq<Rule>): Option<real> {
    if rules == [] then None else Tighter(SmallestBudget(rules[..|rules| - 1]), rules[|rules| - 1].budget)
  }

  /** Position of the rule that last tightened the verdict. */
  function Winner(rules: seq<Rule>): (w: nat)
    requires rules != []
    ensures w < |rules|
  {
    var n := |rules| - 1;
    if n == 0 || Rank(rules[n].verdict) < Rank(Strictest(rules[..n])) then n else Winner(rules[..n])
  }

  predicate AnyTwoPerson(rules: seq<Rule>) {
    exists i :: 0 <= i < |rules| && rules[i].twoPerson
  }

  /** The resolved verdict is the strictest of the matching rules. */
  lemma {:induction false} StrictestIs(rules: seq<Rule>)
    ensures forall i :: 0 <= i < |rules| ==> Rank(Strictest(rules)) <= Rank(rules[i].verdict)
    ensures rules != [] ==> exists i :: 0 <= i < |rules| && rules[i].verdict == Strictest(rules)
  {
    if rules != [] {
      var n := |rules| - 1;
      StrictestIs(rules[..n]);
      assert rules[n].verdict == Strictest(rules) || Strictest(rules) == Strictest(rules[..n]);
      if n > 0 {
        var i :| 0 <= i < n && rules[..n][i].verdict == Strictest(rules[..n]);
        assert rules[i] == rules[..n][i];
      }
    }
  }

  /** The winning rule is the earliest one attaining the strictest verdict. */
  lemma {:induction false} WinnerIs(rules: seq<Rule>)
    requires rules != []
    ensures rules[Winner(rules)].verdict == Strictest(rules)
    ensures forall j :: 0 <= j < Winner(rules) ==> Rank(rules[j].verdict) > Rank(Strictest(rules))
  {
    var n := |rules| - 1;
    if n > 0 {
      StrictestIs(rules[..n]);
      assert forall j :: 0 <= j < n ==> rules[..n][j] == rules[j];
      if Rank(rules[n].verdict) >= Rank(Strictest(rules[..n])) {
        WinnerIs(rules[..n]);
      }
    } else {
      assert Strictest(rules[..0]) == Allow;
    }
  }

  /** The resolved tier is the severest of the matching rules. */
  lemma {:induction false} SeverestIs(rules: seq<Rule>)
    ensures forall i :: 0 <= i < |rules| ==> TierRank(Severest(rules)) <= TierRank(rules[i].tier)
    ensures Severest(rules) == Low || exists i :: 0 <= i < |rules| && rules[i].tier == Severest(rules)
  {
    if rules != [] {
      var n := |rules| - 1;
      SeverestIs(rules[..n]);
      assert forall j :: 0 <= j < n ==> rules[..n][j] == rules[j];
      assert rules[n].tier == Severest(rules) || Severest(rules) == Severest(rules[..n]);
    }
  }

  /** The resolved approver count is the largest asked for, and at least 0. */
  lemma {:induction false} MostApproversIs(rules: seq<Rule>)
    ensures MostApprovers(rules) >= 0
    ensures forall i :: 0 <= i < |rules| ==> rules[i].approvers <= MostApprovers(rules)
    ensures MostApprovers(rules) == 0 || exists i :: 0 <= i < |rules| && rules[i].approvers == MostApprovers(rules)
  {
    if rules != [] {
      var n := |rules| - 1;
      MostApproversIs(rules[..n]);
      assert forall j :: 0 <= j < n ==> rules[..n][j] == rules[j];
      assert rules[n].approvers == MostApprovers(rules) || MostApprovers(rules) == MostApprovers(rules[..n]);
    }
  }

  /** The resolved cap is the smallest among the rules that set one. */
  lemma {:induction false} SmallestBudgetIs(rules: seq<Rule>)
    ensures SmallestBudget(rules) == None <==> forall i :: 0 <= i < |rules| ==> rules[i].budget == None
    ensures SmallestBudget(rules).Some? ==> exists i :: 0 <= i < |rules| && rules[i].budget == SmallestBudget(rules)
    ensures forall i :: 0 <= i < |rules| && rules[i].budget.Some? ==>
              SmallestBudget(rules).Some? && SmallestBudget(rules).value <= rules[i].budget.value
  {
    if rules != [] {
      var n := |rules| - 1;
      SmallestBudgetIs(rules[..n]);
      assert forall j :: 0 <= j < n ==> rules[..n][j] == rules[j];
      assert rules[n].budget == SmallestBudget(rules) || SmallestBudget(rules) == SmallestBudget(rules[..n]);
    }
  }

  function Keep(roles: seq<string>, allowed: seq<string>): (r: seq<string>)
    ensures forall x :: x in r <==> x in roles && x in allowed
  {
    if roles == [] then []
    else (if roles[0] in allowed then [roles[0]] else []) + Keep(roles[1..], allowed)
  }

  /** Role lists are intersected in order, but an empty intermediate result restarts. */
  function FoldRoles(rules: seq<Rule>): seq<string> {
    if rules == [] then []
    else
      var n := |rules| - 1;
      MeetRoles(FoldRoles(rules[..n]), rules[n].roles)
  }

  function MeetRoles(roles: seq<string>, next: seq<string>): seq<string> {
    if next == [] then roles
    else if roles == [] then next
    else Keep(roles, next)
  }

  ghost predicate LooserThanEarlier(rules: seq<Rule>, i: int) {
    0 <= i < |rules| && exists j :: 0 <= j < i && Rank(rules[j].verdict) < Rank(rules[i].verdict)
  }

  /** Some rule, justified or not as asked, is looser than an earlier one. */
  ghost predicate Relaxes(rules: seq<Rule>, justified: bool) {
    exists i :: LooserThanEarlier(rules, i) && (rules[i].justification != "" <==> justified)
  }

  ghost predicate Conflicting(rules: seq<Rule>) {
    Relaxes(rules, false)
  }

  datatype Effective = Effective(
    verdict: Verdict, tier: Tier, approvers: int, twoPerson: bool, roles: seq<string>, budget: Option<real>,
    winner: Rule, overrideChain: seq<Rule>, conflict: bool)

  datatype Resolution = Resolved(policy: Effective) | PolicyConflict

  function DefaultDeny(action: string): Effective {
    var sentinel := Rule("DEFAULT_DENY", action, Deny, High, 1, false, [], None, "");
    Effective(Deny, High, 0, false, [], None, sentinel, [sentinel], false)
  }

  /** The declarative policy over the matching rules. */
  ghost function Combine(rules: seq<Rule>): Effective
    requires rules != []
  {
    Effective(Strictest(rules), Severest(rules), MostApprovers(rules), AnyTwoPerson(rules), FoldRoles(rules),
              SmallestBudget(rules), rules[Winner(rules)], rules, Relaxes(rules, true))
  }

  ghost function Rules(reg: Registry, tenant: string, id: string, action: string): seq<Rule> {
    Matching(Chain(reg, tenant, id, {}), action)
  }

  ghost function ResolveRules(rules: seq<Rule>, action: string): Resolution {
    if rules == [] then Resolved(DefaultDeny(action))
    else if Conflicting(rules) then PolicyConflict
    else Resolved(Combine(rules))
  }

  ghost function Resolve(reg: Registry, tenant: string, id: string, action: string): Resolution {
    ResolveRules(Rules(reg, tenant, id, action), action)
  }

  lemma LooserIffLooserThanStrictest(rules: seq<Rule>, i: nat)
    requires i < |rules|
    ensures LooserThanEarlier(rules, i) <==> Rank(rules[i].verdict) > Rank(Strictest(rules[..i]))
  {
    var before := rules[..i];
    StrictestIs(before);
    assert forall j :: 0 <= j < i ==> before[j] == rules[j];
    if i > 0 {
      var j :| 0 <= j < i && before[j].verdict == Strictest(before);
      assert rules[j].verdict == Strictest(before);
    }
  }

  lemma LooserPrefix(rules: seq<Rule>, k: nat, i: int)
    requires i < k <= |rules|
    ensures LooserThanEarlier(rules[..k], i) <==> LooserThanEarlier(rules, i)
  {
    assert forall j :: 0 <= j < k ==> rules[..k][j] == rules[j];
  }

  /** One more rule: relaxations so far, plus one by the new rule. */
  lemma RelaxesStep(rules: seq<Rule>, k: nat, justified: bool)
    requires k < |rules|
    ensures Relaxes(rules[..k + 1], justified) <==>
            || Relaxes(rules[..k], justified)
            || (Rank(rules[k].verdict) > Rank(Strictest(rules[..k])) && (rules[k].justification != "" <==> justified))
  {
    var longer, shorter := rules[..k + 1], rules[..k];
    LooserIffLooserThanStrictest(rules, k);
    LooserPrefix(rules, k + 1, k);
    hide LooserThanEarlier, Strictest;
    if i :| LooserThanEarlier(shorter, i) && (shorter[i].justification != "" <==> justified) {
      RelaxesWithin(rules, k, i);
      LooserPrefix(rules, k, i);
      LooserPrefix(rules, k + 1, i);
      assert longer[i] == shorter[i];
    }
    if i :| LooserThanEarlier(longer, i) && (longer[i].justification != "" <==> justified) {
      RelaxesWithin(rules, k + 1, i);
      if i < k {
        LooserPrefix(rules, k, i);
        LooserPrefix(rules, k + 1, i);
        assert longer[i] == shorter[i];
      } else {
        assert longer[i] == rules[k];
      }
    }
    if Rank(rules[k].verdict) > Rank(Strictest(shorter)) && (rules[k].justification != "" <==> justified) {
      assert LooserThanEarlier(longer, k) && longer[k] == rules[k];
    }
  }

  lemma RelaxesWithin(rules: seq<Rule>, k: nat, i: int)
    requires k <= |rules| && LooserThanEarlier(rules[..k], i)
    ensures 0 <= i < k
  {
  }

  lemma ConflictingPrefix(rules: seq<Rule>, k: nat)
    requires k <= |rules| && Conflicting(rules[..k])
    ensures Conflicting(rules)
  {
    var i :| LooserThanEarlier(rules[..k], i) && rules[..k][i].justification == "";
    LooserPrefix(rules, k, i);
    assert rules[..k][i] == rules[i];
  }

  /** Every attribute of a longer prefix from that of the shorter one. */
  lemma AttributeStep(rules: seq<Rule>, k: nat)
    requires k < |rules|
    ensures Strictest(rules[..k + 1]) == Stricter(Strictest(rules[..k]), rules[k].verdict)
    ensures Severest(rules[..k + 1]) == Severer(Severest(rules[..k]), rules[k].tier)
    ensures MostApprovers(rules[..k + 1]) == MaxInt(MostApprovers(rules[..k]), rules[k].approvers)
    ensures SmallestBudget(rules[..k + 1]) == Tighter(SmallestBudget(rules[..k]), rules[k].budget)
    ensures FoldRoles(rules[..k + 1]) == MeetRoles(FoldRoles(rules[..k]), rules[k].roles)
    ensures rules[Winner(rules[..k + 1])] ==
            if k == 0 || Rank(rules[k].verdict) < Rank(Strictest(rules[..k])) then rules[k]
            else rules[Winner(rules[..k])]
  {
    assert rules[..k + 1][..k] == rules[..k] && rules[..k + 1][k] == rules[k];
  }

  lemma TwoPersonStep(rules: seq<Rule>, k: nat)
    requires k < |rules|
    ensures AnyTwoPerson(rules[..k + 1]) <==> AnyTwoPerson(rules[..k]) || rules[k].twoPerson
  {
    var longer, shorter := rules[..k + 1], rules[..k];
    assert longer[k] == rules[k];
    assert forall i :: 0 <= i < k ==> longer[i] == shorter[i];
  }

  /** The running values after k rules. */
  ghost predicate FoldedTo(rules: seq<Rule>, k: nat, verdict: Verdict, tier: Tier, approvers: int, twoPerson: bool,
                           roles: seq<string>, budget: Option<real>, winner: Rule, conflict: bool)
    requires k <= |rules| && rules != []
  {
    var done := rules[..k];
    && verdict == Strictest(done) && tier == Severest(done) && approvers == MostApprovers(done)
    && (twoPerson <==> AnyTwoPerson(done)) && roles == FoldRoles(done) && budget == SmallestBudget(done)
    && winner == (if k == 0 then rules[0] else rules[Winner(done)])
    && !Conflicting(done) && (conflict <==> Relaxes(done, true))
  }

  /** One iteration of the loop. */
  lemma FoldStep(rules: seq<Rule>, k: nat, verdict: Verdict, tier: Tier, approvers: int, twoPerson: bool,
                 roles: seq<string>, budget: Option<real>, winner: Rule, conflict: bool)
    requires k < |rules|
    requires FoldedTo(rules, k, verdict, tier, approvers, twoPerson, roles, budget, winner, conflict)
    ensures Rank(rules[k].verdict) > Rank(verdict) && rules[k].justification == "" ==> Conflicting(rules)
    ensures !(Rank(rules[k].verdict) > Rank(verdict) && rules[k].justification == "") ==>
              FoldedTo(rules, k + 1, Stricter(verdict, rules[k].verdict), Severer(tier, rules[k].tier),
                       MaxInt(approvers, rules[k].approvers), twoPerson || rules[k].twoPerson,
                       MeetRoles(roles, rules[k].roles), Tighter(budget, rules[k].budget),
                       if Rank(rules[k].verdict) < Rank(verdict) then rules[k] else winner,
                       conflict || Rank(rules[k].verdict) > Rank(verdict))
  {
    hide Strictest, Severest, MostApprovers, SmallestBudget, FoldRoles, Winner, Relaxes, AnyTwoPerson, Keep,
         MeetRoles, Tighter;
    RelaxesStep(rules, k, false);
    RelaxesStep(rules, k, true);
    TwoPersonStep(rules, k);
    AttributeStep(rules, k);
    if Rank(rules[k].verdict) > Rank(verdict) && rules[k].justification == "" {
      ConflictingPrefix(rules, k + 1);
    }
  }

  /** The loop over the matching rules computes the declarative policy, and raises
      exactly on a conflict. */
  method FoldRules(rules: seq<Rule>) returns (r: Resolution)
    requires rules != []
    ensures r == if Conflicting(rules) then PolicyConflict else Resolved(Combine(rules))
  {
    hide FoldedTo, Conflicting, Combine, Keep;
    var verdict, tier, approvers, twoPerson := Allow, Low, 0, false;
    var roles: seq<string> := [];
    var budget: Option<real> := None;
    var winner, conflict := rules[0], false;
    FoldInit(rules);
    for k := 0 to |rules|
      invariant FoldedTo(rules, k, verdict, tier, approvers, twoPerson, roles, budget, winner, conflict)
      invariant k == 0 ==> verdict == Allow
    {
      var rule := rules[k];
      FoldStep(rules, k, verdict, tier, approvers, twoPerson, roles, budget, winner, conflict);
      if Rank(rule.verdict) < Rank(verdict) {
        verdict, winner := rule.verdict, rule;
      } else if k > 0 && Rank(rule.verdict) > Rank(verdict) {
        if rule.justification == "" {
          return PolicyConflict;
        }
        conflict := true;
      }
      if TierRank(rule.tier) < TierRank(tier) {
        tier := rule.tier;
      }
      approvers := MaxInt(approvers, rule.approvers);
      if rule.twoPerson {
        twoPerson := true;
      }
      if rule.budget.Some? {
        budget := if budget == None then rule.budget else Some(MinReal(budget.value, rule.budget.value));
      }
      if rule.roles != [] {
        roles := if roles == [] then rule.roles else Keep(roles, rule.roles);
      }
    }
    FoldEnd(rules, verdict, tier, approvers, twoPerson, roles, budget, winner, conflict);
    return Resolved(Effective(verdict, tier, approvers, twoPerson, roles, budget, winner, rules, conflict));
  }

  lemma FoldEnd(rules: seq<Rule>, verdict: Verdict, tier: Tier, approvers: int, twoPerson: bool,
                roles: seq<string>, budget: Option<real>, winner: Rule, conflict: bool)
    requires rules != []
    requires FoldedTo(rules, |rules|, verdict, tier, approvers, twoPerson, roles, budget, winner, conflict)
    ensures !Conflicting(rules)
    ensures Combine(rules) == Effective(verdict, tier, approvers, twoPerson, roles, budget, winner, rules, conflict)
  {
    assert rules[..|rules|] == rules;
  }

  lemma FoldInit(rules: seq<Rule>)
    requires rules != []
    ensures FoldedTo(rules, 0, Allow, Low, 0, false, [], None, rules[0], false)
  {
  }

  /** The registry and resolver. */
  class PolicyRegistry {
    var nodes: Registry

    ghost predicate Valid()
      reads this
    {
      Keyed(nodes)
    }

    constructor ()
      ensures nodes == map[] && Valid()
    {
      nodes := map[];
    }

    method Register(node: Node)
      requires Valid()
      modifies this
      ensures Valid() && nodes == old(nodes)[(node.tenantId, node.nodeId) := node]
    {
      nodes := nodes[(node.tenantId, node.nodeId) := node];
    }

    /** Resolution for a tenant, node and action. */
    method ResolvePolicy(tenant: string, id: string, action: string) returns (r: Resolution)
      requires Valid()
      ensures r == Resolve(nodes, tenant, id, action)
    {
      var chain := AncestorChain(nodes, tenant, id);
      var rules: seq<Rule> := [];
      for k := 0 to |chain|
        invariant rules == Matching(chain[..k], action)
      {
        assert chain[..k + 1][..k] == chain[..k];
        rules := rules + Contribution(chain[k], action);
      }
      assert chain[..|chain|] == chain;
      if rules == [] {
        return Resolved(DefaultDeny(action));
      }
      r := FoldRules(rules);
    }
  }

  // ----- what resolution comes to, in plain terms

  /** The resolved verdict denies if any matching rule does, allows if all do, and asks
      for approval otherwise. */
  lemma VerdictIs(rules: seq<Rule>)
    ensures Strictest(rules) == Deny <==> exists i :: 0 <= i < |rules| && rules[i].verdict == Deny
    ensures Strictest(rules) == Allow <==> forall i :: 0 <= i < |rules| ==> rules[i].verdict == Allow
  {
    StrictestIs(rules);
    assert rules == [] ==> Strictest(rules) == Allow;
  }

  /** The resolved tier is the first of CRITICAL, HIGH, MEDIUM that some rule names. */
  lemma TierIs(rules: seq<Rule>)
    ensures Severest(rules) == Critical <==> exists i :: 0 <= i < |rules| && rules[i].tier == Critical
    ensures Severest(rules) == Low <==> forall i :: 0 <= i < |rules| ==> rules[i].tier == Low
    ensures Severest(rules) == Medium <==>
            && (exists i :: 0 <= i < |rules| && rules[i].tier == Medium)
            && (forall i :: 0 <= i < |rules| ==> rules[i].tier in {Medium, Low})
  {
    SeverestIs(rules);
  }

  /** The policy's attributes: the extremes, two-person control if any rule has it, the
      earliest rule of the resolved verdict as winner, the whole list as override chain,
      a recorded conflict exactly if some justified rule is looser than an earlier one. */
  lemma CombineIs(rules: seq<Rule>)
    requires rules != []
    ensures var p := Combine(rules);
            && (p.twoPerson <==> exists i :: 0 <= i < |rules| && rules[i].twoPerson)
            && p.verdict == Strictest(rules) && p.tier == Severest(rules) && p.approvers == MostApprovers(rules)
            && p.roles == FoldRoles(rules) && p.budget == SmallestBudget(rules) && p.overrideChain == rules
            && (exists w :: && 0 <= w < |rules| && p.winner == rules[w] && rules[w].verdict == p.verdict
                            && forall j :: 0 <= j < w ==> rules[j].verdict != p.verdict)
            && (p.conflict <==> exists i, j :: && 0 <= j < i < |rules| && rules[i].justification != ""
                                              && Rank(rules[j].verdict) < Rank(rules[i].verdict))
  {
    WinnerIs(rules);
    hide Winner, Strictest, Severest, MostApprovers, FoldRoles, SmallestBudget;
    assert Combine(rules).winner == rules[Winner(rules)];
    RelaxesIs(rules);
    hide Relaxes, AnyTwoPerson;
    assert Combine(rules).twoPerson == AnyTwoPerson(rules);
    AnyTwoPersonIs(rules);
  }

  lemma AnyTwoPersonIs(rules: seq<Rule>)
    ensures AnyTwoPerson(rules) <==> exists i :: 0 <= i < |rules| && rules[i].twoPerson
  {
  }

  lemma RelaxesIs(rules: seq<Rule>)
    ensures Relaxes(rules, true) <==>
            exists i, j :: && 0 <= j < i < |rules| && rules[i].justification != ""
                           && Rank(rules[j].verdict) < Rank(rules[i].verdict)
  {
    if Relaxes(rules, true) {
      var i :| LooserThanEarlier(rules, i) && rules[i].justification != "";
      var j :| 0 <= j < i && Rank(rules[j].verdict) < Rank(rules[i].verdict);
    }
    if i, j :| && 0 <= j < i < |rules| && rules[i].justification != ""
               && Rank(rules[j].verdict) < Rank(rules[i].verdict) {
      assert LooserThanEarlier(rules, i);
    }
  }

  /** A root node with a single rule. */
  predicate SoleRule(reg: Registry, tenant: string, id: string, r: Rule, active: bool) {
    (tenant, id) in reg && reg[(tenant, id)] == Node(id, tenant, None, [r], active)
  }

  lemma SoleRuleMatching(reg: Registry, tenant: string, id: string, r: Rule, active: bool, action: string)
    requires SoleRule(reg, tenant, id, r, active)
    ensures Rules(reg, tenant, id, action) == if active && ActionMatches(r.pattern, action) then [r] else []
  {
    hide ActionMatches, Contribution, Chain, Matching;
    var node := reg[(tenant, id)];
    ChainStep(reg, tenant, id, {});
    MatchingStep([], node, action);
    SoleContribution(node, r, action);
    assert [] + [node] == [node];
  }

  /** The chain of the node's parent, for the walk that has just left the node. */
  function Above(reg: Registry, tenant: string, id: string, seen: set<Key>): seq<Node>
    requires (tenant, id) in reg && (tenant, id) !in seen
  {
    match reg[(tenant, id)].parentId
    case None => []
    case Some(parent) => Chain(reg, tenant, parent, seen + {(tenant, id)})
  }

  lemma ChainStep(reg: Registry, tenant: string, id: string, seen: set<Key>)
    requires (tenant, id) in reg && (tenant, id) !in seen
    ensures Chain(reg, tenant, id, seen) == Above(reg, tenant, id, seen) + [reg[(tenant, id)]]
  {
  }

  lemma MatchingStep(up: seq<Node>, node: Node, action: string)
    ensures Matching([], action) == []
    ensures Matching(up + [node], action) == Matching(up, action) + Contribution(node, action)
  {
    assert (up + [node])[..|up|] == up;
  }

  lemma SoleContribution(node: Node, r: Rule, action: string)
    requires node.rules == [r]
    ensures Contribution(node, action) == if node.active && ActionMatches(r.pattern, action) then [r] else []
  {
    hide ActionMatches;
    assert r == node.rules[0];
    hide FirstMatch;
  }

  /** Under a sole rule for everything below `prefix`, exactly the actions below it
      resolve to that rule; all others, and all of them on an inactive node, to default
      deny. */
  lemma SoleGlob(reg: Registry, tenant: string, id: string, r: Rule, active: bool, prefix: string, action: string)
    requires SoleRule(reg, tenant, id, r, active) && r.pattern == prefix + ".*"
    ensures Resolve(reg, tenant, id, action).Resolved?
    ensures var p := Resolve(reg, tenant, id, action).policy;
            if active && (action == prefix || exists rest :: action == prefix + "." + rest)
            then p == Effective(r.verdict, r.tier, MaxInt(0, r.approvers), r.twoPerson, r.roles, r.budget, r, [r],
                                false)
            else
              var sentinel := Rule("DEFAULT_DENY", action, Deny, High, 1, false, [], None, "");
              p == Effective(Deny, High, 0, false, [], None, sentinel, [sentinel], false)
  {
    SoleRuleMatching(reg, tenant, id, r, active, action);
    GlobMatches(prefix, action);
    SoleResolution(r);
    hide Rules, ActionMatches, Combine, Conflicting;
  }

  lemma SoleResolution(r: Rule)
    ensures !Conflicting([r])
    ensures Combine([r])
         == Effective(r.verdict, r.tier, MaxInt(0, r.approvers), r.twoPerson, r.roles, r.budget, r, [r], false)
  {
    var rules := [r];
    assert rules[..0] == [];
    assert Strictest([]) == Allow && Severest([]) == Low && MostApprovers([]) == 0;
    assert FoldRoles([]) == [] && SmallestBudget([]) == None;
    assert !Relaxes(rules, true) && !Relaxes(rules, false);
    assert AnyTwoPerson(rules) <==> rules[0].twoPerson;
  }

  // ----- inactive nodes

  /** The same registry except for the rules of one inactive node. */
  predicate DifferInactive(a: Registry, b: Registry, key: Key) {
    && key in a && key in b && !a[key].active && b == a[key := b[key]]
    && b[key] == a[key].(rules := b[key].rules)
  }

  lemma {:induction false} InactiveChain(a: Registry, b: Registry, key: Key, tenant: string, id: string, seen: set<Key>,
                                         action: string)
    requires DifferInactive(a, b, key)
    ensures Matching(Chain(a, tenant, id, seen), action) == Matching(Chain(b, tenant, id, seen), action)
    decreases a.Keys - seen
  {
    var k := (tenant, id);
    assert a.Keys == b.Keys;
    assert k !in a || k in seen ==> Chain(a, tenant, id, seen) == Chain(b, tenant, id, seen) == [];
    hide Chain, Matching, FirstMatch;
    if k in a && k !in seen {
      if a[k].parentId.Some? {
        InactiveChain(a, b, key, tenant, a[k].parentId.value, seen + {k}, action);
      }
      ChainStep(a, tenant, id, seen);
      ChainStep(b, tenant, id, seen);
      MatchingStep(Above(a, tenant, id, seen), a[k], action);
      MatchingStep(Above(b, tenant, id, seen), b[k], action);
      assert Contribution(a[k], action) == Contribution(b[k], action);
    }
  }

  /** The rules of an inactive node never matter to any resolution. */
  lemma InactiveRulesIrrelevant(a: Registry, b: Registry, key: Key, tenant: string, id: string, action: string)
    requires DifferInactive(a, b, key)
    ensures Resolve(a, tenant, id, action) == Resolve(b, tenant, id, action)
  {
    InactiveChain(a, b, key, tenant, id, {}, action);
  }
}
