/** What the resolver guarantees: inheritance only tightens, justified or not,
    inserting rules only tightens, and exactly when the role lists do. */
module Inheritance {
  import opened Common
  import opened Policy

  // ----- inserting rules into the list

  /** a is b with some rules left out; f gives the positions kept. */
  ghost predicate Embeds(a: seq<Rule>, b: seq<Rule>, f: seq<nat>) {
    && |f| == |a|
    && (forall i :: 0 <= i < |f| ==> f[i] < |b| && b[f[i]] == a[i])
    && (forall i, j :: 0 <= i < j < |f| ==> f[i] < f[j])
  }

  /** A conflict survives the insertion of further rules anywhere in the list. */
  lemma ConflictSurvives(a: seq<Rule>, b: seq<Rule>, f: seq<nat>)
    requires Embeds(a, b, f) && Conflicting(a)
    ensures Conflicting(b)
  {
    var i :| LooserThanEarlier(a, i) && a[i].justification == "";
    var j :| 0 <= j < i && Rank(a[j].verdict) < Rank(a[i].verdict);
    assert b[f[j]] == a[j] && b[f[i]] == a[i] && f[j] < f[i];
    assert LooserThanEarlier(b, f[i]);
  }

  lemma VerdictTightens(a: seq<Rule>, b: seq<Rule>, f: seq<nat>)
    requires Embeds(a, b, f) && a != []
    ensures Rank(Strictest(b)) <= Rank(Strictest(a))
  {
    StrictestIs(a);
    StrictestIs(b);
    var i :| 0 <= i < |a| && a[i].verdict == Strictest(a);
    assert b[f[i]] == a[i];
  }

  /** The second policy is at least as strict as the first in verdict, tier, approvers,
      two-person control and budget. Role lists need a condition: ChildRolesIff. */
  ghost predicate AtLeastAsStrict(p: Effective, q: Effective) {
    && Rank(q.verdict) <= Rank(p.verdict)
    && TierRank(q.tier) <= TierRank(p.tier)
    && q.approvers >= p.approvers
    && (p.twoPerson ==> q.twoPerson)
    && (p.budget.Some? ==> q.budget.Some? && q.budget.value <= p.budget.value)
  }

  /** Inserting rules anywhere never relaxes a resolution: what conflicted still
      conflicts, and what resolves is at least as strict. */
  lemma InsertionTightens(a: seq<Rule>, b: seq<Rule>, f: seq<nat>)
    requires Embeds(a, b, f) && a != []
    ensures b != []
    ensures Conflicting(a) ==> Conflicting(b)
    ensures AtLeastAsStrict(Combine(a), Combine(b))
  {
    assert b[f[0]] == a[0];
    if Conflicting(a) {
      ConflictSurvives(a, b, f);
    }
    VerdictTightens(a, b, f);
    TierTightens(a, b, f);
    ApproversGrow(a, b, f);
    BudgetTightens(a, b, f);
    if AnyTwoPerson(a) {
      var i :| 0 <= i < |a| && a[i].twoPerson;
      assert b[f[i]] == a[i];
    }
  }

  lemma TierTightens(a: seq<Rule>, b: seq<Rule>, f: seq<nat>)
    requires Embeds(a, b, f)
    ensures TierRank(Severest(b)) <= TierRank(Severest(a))
  {
    SeverestIs(a);
    SeverestIs(b);
    if Severest(a) != Low {
      var i :| 0 <= i < |a| && a[i].tier == Severest(a);
      assert b[f[i]] == a[i];
    }
  }

  lemma ApproversGrow(a: seq<Rule>, b: seq<Rule>, f: seq<nat>)
    requires Embeds(a, b, f)
    ensures MostApprovers(b) >= MostApprovers(a)
  {
    MostApproversIs(a);
    MostApproversIs(b);
    if MostApprovers(a) != 0 {
      var i :| 0 <= i < |a| && a[i].approvers == MostApprovers(a);
      assert b[f[i]] == a[i];
    }
  }

  lemma BudgetTightens(a: seq<Rule>, b: seq<Rule>, f: seq<nat>)
    requires Embeds(a, b, f)
    ensures SmallestBudget(a).Some? ==> SmallestBudget(b).Some? && SmallestBudget(b).value <= SmallestBudget(a).value
  {
    SmallestBudgetIs(a);
    SmallestBudgetIs(b);
    if SmallestBudget(a).Some? {
      var i :| 0 <= i < |a| && a[i].budget == SmallestBudget(a);
      assert b[f[i]] == a[i];
    }
  }

  lemma PrefixEmbeds(a: seq<Rule>, extra: seq<Rule>) returns (f: seq<nat>)
    ensures Embeds(a, a + extra, f)
  {
    f := seq(|a|, i => i);
  }

  // ----- parent and child

  /** Nodes already seen do not matter if the walk never meets them. */
  lemma {:induction false} ChainIgnoresUnmet(reg: Registry, tenant: string, id: string, seen: set<Key>, extra: Key)
    requires Keyed(reg)
    requires extra.0 == tenant
    requires forall i :: 0 <= i < |Chain(reg, tenant, id, seen)| ==>
               Chain(reg, tenant, id, seen)[i].nodeId != extra.1
    ensures Chain(reg, tenant, id, seen + {extra}) == Chain(reg, tenant, id, seen)
    decreases reg.Keys - seen
  {
    var key := (tenant, id);
    if key in reg && key !in seen {
      var chain := Chain(reg, tenant, id, seen);
      assert chain[|chain| - 1] == reg[key];
      assert key != extra;
      match reg[key].parentId
      case None =>
      case Some(parent) =>
        var up := Chain(reg, tenant, parent, seen + {key});
        assert chain == up + [reg[key]];
        assert forall i :: 0 <= i < |up| ==> chain[i] == up[i];
        ChainIgnoresUnmet(reg, tenant, parent, seen + {key}, extra);
        assert seen + {key} + {extra} == seen + {extra} + {key};
    }
  }

  /** A parent edge that does not loop back: the child is not its own ancestor. */
  ghost predicate Acyclic(reg: Registry, tenant: string, child: string, parent: string) {
    forall i :: 0 <= i < |Chain(reg, tenant, parent, {})| ==> Chain(reg, tenant, parent, {})[i].nodeId != child
  }

  lemma ChildRules(reg: Registry, tenant: string, child: string, parent: string, action: string)
    requires Keyed(reg) && (tenant, child) in reg && reg[(tenant, child)].parentId == Some(parent)
    requires Acyclic(reg, tenant, child, parent)
    ensures Rules(reg, tenant, child, action)
         == Rules(reg, tenant, parent, action) + Contribution(reg[(tenant, child)], action)
  {
    var key := (tenant, child);
    var up := Chain(reg, tenant, parent, {});
    ChainIgnoresUnmet(reg, tenant, parent, {}, key);
    assert {} + {key} == {key};
    assert Chain(reg, tenant, child, {}) == up + [reg[key]];
    assert (up + [reg[key]])[..|up|] == up;
  }

  /** A child that resolves is at least as strict as a parent with a match, and
      then the parent resolves too. */
  lemma ChildAtLeastAsStrict(reg: Registry, tenant: string, child: string, parent: string, action: string)
    requires Keyed(reg) && (tenant, child) in reg && reg[(tenant, child)].parentId == Some(parent)
    requires Acyclic(reg, tenant, child, parent)
    requires Rules(reg, tenant, parent, action) != []
    requires Resolve(reg, tenant, child, action).Resolved?
    ensures Resolve(reg, tenant, parent, action).Resolved?
    ensures AtLeastAsStrict(Resolve(reg, tenant, parent, action).policy, Resolve(reg, tenant, child, action).policy)
  {
    ChildRules(reg, tenant, child, parent, action);
    hide Rules, Combine, AtLeastAsStrict, Conflicting;
    var a := Rules(reg, tenant, parent, action);
    var extra := Contribution(reg[(tenant, child)], action);
    var f := PrefixEmbeds(a, extra);
    InsertionTightens(a, a + extra, f);
  }

  // ----- override justification

  /** A registered child with one matching rule, below a parent with a match. */
  ghost predicate Overrides(reg: Registry, tenant: string, child: string, parent: string, action: string, r: Rule) {
    && Keyed(reg) && (tenant, child) in reg && reg[(tenant, child)].parentId == Some(parent)
    && Acyclic(reg, tenant, child, parent)
    && Contribution(reg[(tenant, child)], action) == [r]
    && Rules(reg, tenant, parent, action) != []
  }

  /** The last rule's verdict is the one resolved if and only if no earlier rule is
      stricter; its justification plays no part. */
  lemma LastPrevailsIff(rules: seq<Rule>)
    requires rules != []
    ensures Combine(rules).verdict == rules[|rules| - 1].verdict <==> !LooserThanEarlier(rules, |rules| - 1)
  {
    LooserIffLooserThanStrictest(rules, |rules| - 1);
  }

  /** Whether justified or not, a child's rule sets the verdict if and only if it is
      no looser than what its parent resolves to; a looser one either raises (without
      justification) or leaves the parent's verdict in force. */
  lemma OverridePrevailsIff(reg: Registry, tenant: string, child: string, parent: string, action: string, r: Rule)
    requires Overrides(reg, tenant, child, parent, action, r)
    requires Resolve(reg, tenant, parent, action).Resolved?
    ensures var up := Resolve(reg, tenant, parent, action).policy.verdict;
            var down := Resolve(reg, tenant, child, action);
            && (down == PolicyConflict <==> Rank(r.verdict) > Rank(up) && r.justification == "")
            && (down.Resolved? ==>
                  && (down.policy.verdict == r.verdict <==> Rank(r.verdict) <= Rank(up))
                  && (down.policy.verdict != r.verdict ==> down.policy.verdict == up && down.policy.conflict))
  {
    ChildRules(reg, tenant, child, parent, action);
    hide Rules, Conflicting, Combine;
    RuleAppended(Rules(reg, tenant, parent, action), r);
  }

  lemma RuleAppended(a: seq<Rule>, r: Rule)
    requires a != [] && !Conflicting(a)
    ensures Conflicting(a + [r]) <==> Rank(r.verdict) > Rank(Combine(a).verdict) && r.justification == ""
    ensures Combine(a + [r]).verdict == Stricter(Combine(a).verdict, r.verdict)
    ensures Rank(r.verdict) > Rank(Combine(a).verdict) && r.justification != "" ==> Combine(a + [r]).conflict
  {
    var rules := a + [r];
    assert rules[..|a|] == a && rules[..|a| + 1] == rules;
    RelaxesStep(rules, |a|, false);
    RelaxesStep(rules, |a|, true);
    hide Relaxes;
  }

  /** A justified ALLOW under a DENY is accepted and changes nothing. */
  lemma JustifiedChildStaysDenied(action: string, why: string)
    requires why != ""
    ensures var deny := Rule("parent", action, Deny, High, 0, false, [], None, "");
            var relax := Rule("child", action, Allow, Low, 0, false, [], None, why);
            var reg: Registry := map[("t", "org") := Node("org", "t", None, [deny], true),
                                     ("t", "team") := Node("team", "t", Some("org"), [relax], true)];
            && Overrides(reg, "t", "team", "org", action, relax)
            && Resolve(reg, "t", "team", action).Resolved?
            && Resolve(reg, "t", "team", action).policy.verdict == Deny
  {
    var deny := Rule("parent", action, Deny, High, 0, false, [], None, "");
    var relax := Rule("child", action, Allow, Low, 0, false, [], None, why);
    var org, team := Node("org", "t", None, [deny], true), Node("team", "t", Some("org"), [relax], true);
    var reg: Registry := map[("t", "org") := org, ("t", "team") := team];
    assert Chain(reg, "t", "org", {}) == [org];
    assert [org][..0] == [];
    MatchesItself(action);
    assert FirstMatch([deny], action) == Some(deny) && FirstMatch([relax], action) == Some(relax);
    assert Matching([], action) == [] && Contribution(org, action) == [deny];
    assert Rules(reg, "t", "org", action) == [deny];
    assert [deny][..0] == [] && Strictest([]) == Allow;
    assert Strictest([deny]) == Deny;
    assert !Conflicting([deny]);
    OverridePrevailsIff(reg, "t", "team", "org", action, relax);
  }

  // ----- role lists

  predicate Restricts(rules: seq<Rule>) {
    exists i :: 0 <= i < |rules| && rules[i].roles != []
  }

  /** A role every role-restricting rule lists. */
  predicate InAll(rules: seq<Rule>, role: string) {
    forall i :: 0 <= i < |rules| && rules[i].roles != [] ==> role in rules[i].roles
  }

  /** How the engine reads an effective role list: empty means unrestricted. */
  predicate Permits(roles: seq<string>, role: string) {
    roles == [] || role in roles
  }

  lemma InAllStep(rules: seq<Rule>, role: string)
    requires rules != []
    ensures var n := |rules| - 1;
            InAll(rules, role) <==> InAll(rules[..n], role) && (rules[n].roles == [] || role in rules[n].roles)
  {
    var n := |rules| - 1;
    assert forall i :: 0 <= i < n ==> rules[..n][i] == rules[i];
  }

  lemma RestrictsStep(rules: seq<Rule>)
    requires rules != []
    ensures var n := |rules| - 1; Restricts(rules) <==> Restricts(rules[..n]) || rules[n].roles != []
  {
    var n := |rules| - 1;
    assert forall i :: 0 <= i < n ==> rules[..n][i] == rules[i];
  }

  /** While some role is common to all lists the fold is their intersection. */
  lemma {:induction false} FoldIsIntersection(rules: seq<Rule>, common: string)
    requires InAll(rules, common)
    ensures FoldRoles(rules) == [] <==> !Restricts(rules)
    ensures Restricts(rules) ==> forall role :: role in FoldRoles(rules) <==> InAll(rules, role)
  {
    if rules != [] {
      var n := |rules| - 1;
      InAllStep(rules, common);
      RestrictsStep(rules);
      FoldIsIntersection(rules[..n], common);
      forall role
        ensures InAll(rules, role) <==> InAll(rules[..n], role) && (rules[n].roles == [] || role in rules[n].roles)
      {
        InAllStep(rules, role);
      }
      hide InAll;
      if Restricts(rules) {
        if !Restricts(rules[..n]) {
          NoListsAllIn(rules[..n]);
        }
        assert common in FoldRoles(rules);
      }
    }
  }

  lemma NoListsAllIn(rules: seq<Rule>)
    requires !Restricts(rules)
    ensures forall role :: InAll(rules, role)
  {
  }

  /** The effective role list means what all the rules jointly mean, for every role,
      if and only if no rule restricts roles or some role is common to all that do.
      Otherwise the restart on an empty intersection loses a restriction. */
  lemma RolesFaithfulIff(rules: seq<Rule>)
    ensures (forall role :: Permits(FoldRoles(rules), role) <==> InAll(rules, role))
            <==> (!Restricts(rules) || exists role :: InAll(rules, role))
  {
    if !Restricts(rules) {
      NoListsAllIn(rules);
      FoldIsIntersection(rules, "");
    } else if role :| InAll(rules, role) {
      FoldIsIntersection(rules, role);
    } else {
      var roles := FoldRoles(rules);
      if roles == [] {
        assert Permits(roles, "");
      } else {
        assert Permits(roles, roles[0]);
      }
    }
  }

  // ----- role lists of parent and child

  /** A role that is on none of finitely many lists. */
  lemma {:induction false} RoleOutside(roles: seq<string>) returns (role: string)
    ensures role !in roles && forall r :: r in roles ==> |r| < |role|
  {
    if roles == [] {
      role := "";
    } else {
      var n := |roles| - 1;
      var outside := RoleOutside(roles[..n]);
      role := seq(|outside| + |roles[n]| + 1, i => 'x');
    }
  }

  /** Meeting a parent's list with a child's only narrows either of them if and only
      if one of the two is empty or they share a role. */
  lemma MeetNarrowsIff(parent: seq<string>, child: seq<string>)
    ensures var related := parent == [] || child == [] || exists role :: role in parent && role in child;
            && ((forall role :: Permits(MeetRoles(parent, child), role) ==> Permits(parent, role)) <==> related)
            && ((forall role :: Permits(MeetRoles(parent, child), role) ==> Permits(child, role)) <==> related)
  {
    if parent != [] && child != [] {
      var both := Keep(parent, child);
      if both != [] {
        assert both[0] in parent && both[0] in child;
      } else {
        assert forall role :: role in parent && role in child ==> role in both;
        var foreign := RoleOutside(parent + child);
        assert Permits(both, foreign) && !Permits(parent, foreign) && !Permits(child, foreign);
      }
    }
  }

  /** A child admits only roles its parent admits if and only if the parent's folded
      list or the child's list is empty, or the two share a role. */
  lemma ChildRolesIff(reg: Registry, tenant: string, child: string, parent: string, action: string, r: Rule)
    requires Overrides(reg, tenant, child, parent, action, r)
    requires Resolve(reg, tenant, child, action).Resolved?
    ensures Resolve(reg, tenant, parent, action).Resolved?
    ensures var up := Resolve(reg, tenant, parent, action).policy.roles;
            var down := Resolve(reg, tenant, child, action).policy.roles;
            (forall role :: Permits(down, role) ==> Permits(up, role))
            <==> up == [] || r.roles == [] || exists role :: role in up && role in r.roles
  {
    ChildAtLeastAsStrict(reg, tenant, child, parent, action);
    ChildRules(reg, tenant, child, parent, action);
    hide Rules, Conflicting;
    var a := Rules(reg, tenant, parent, action);
    assert (a + [r])[..|a|] == a;
    MeetNarrowsIff(FoldRoles(a), r.roles);
  }

  /** Two disjoint lists leave no restriction at all: every role is admitted. */
  lemma DisjointListsAdmitAll(a: string, b: string, first: Rule, second: Rule, role: string)
    requires a != b && first.roles == [a] && second.roles == [b]
    ensures Permits(FoldRoles([first, second]), role)
  {
    var rules := [first, second];
    assert rules[..1] == [first] && [first][..0] == [];
    assert FoldRoles([first]) == [a];
    assert Keep([a], [b]) == [];
  }

  /** The restart in action: two disjoint lists admit a role the first one excludes. */
  lemma RestartAdmits(a: string, b: string, first: Rule, second: Rule, third: Rule)
    requires a != b && first.roles == [a] && second.roles == [b] && third.roles == [b]
    ensures b in FoldRoles([first, second, third]) && b !in first.roles
  {
    var rules := [first, second, third];
    assert rules[..2][..1] == [first] && [first][..0] == [];
    assert rules[..2] == [first, second];
    assert FoldRoles([first]) == [a];
    assert FoldRoles([first, second]) == Keep([a], [b]) == [];
  }
}
