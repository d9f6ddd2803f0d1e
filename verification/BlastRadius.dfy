/** Breadth-first reach used to estimate how much of the causal graph an
    intervention on a component can disturb. */
module BlastRadius {
  import opened Common

  /** A kept edge leaves a listed node. */
  predicate Kept(nodes: seq<string>, edges: seq<(string, string)>, u: string, v: string) {
    u in nodes && (u, v) in edges
  }

  ghost predicate Walk(nodes: seq<string>, edges: seq<(string, string)>, p: seq<string>) {
    forall i :: 0 <= i < |p| - 1 ==> Kept(nodes, edges, p[i], p[i + 1])
  }

  /** p leads from a matching node to v along at least one kept edge. */
  ghost predicate LeadsTo(nodes: seq<string>, edges: seq<(string, string)>, starts: seq<string>, p: seq<string>,
                          v: string)
  {
    |p| >= 2 && p[0] in starts && p[|p| - 1] == v && Walk(nodes, edges, p)
  }

  ghost predicate Reachable(nodes: seq<string>, edges: seq<(string, string)>, starts: seq<string>, v: string) {
    exists p :: LeadsTo(nodes, edges, starts, p, v)
  }

  lemma ReachableByEdge(nodes: seq<string>, edges: seq<(string, string)>, starts: seq<string>, u: string, v: string)
    requires u in starts || Reachable(nodes, edges, starts, u)
    requires Kept(nodes, edges, u, v)
    ensures Reachable(nodes, edges, starts, v)
  {
    if u in starts {
      assert LeadsTo(nodes, edges, starts, [u, v], v);
    } else {
      var p :| LeadsTo(nodes, edges, starts, p, u);
      var q := p + [v];
      assert forall i :: 0 <= i < |q| - 1 ==> q[i] == p[i];
      assert LeadsTo(nodes, edges, starts, q, v);
    }
  }

  /** A set holding the successors of the starts and of its own members holds
      everything reachable. */
  lemma {:induction false} ClosedHoldsReachable(nodes: seq<string>, edges: seq<(string, string)>, starts: seq<string>,
                                                closed: set<string>, p: seq<string>, v: string)
    requires forall u, w :: Kept(nodes, edges, u, w) && (u in starts || u in closed) ==> w in closed
    requires LeadsTo(nodes, edges, starts, p, v)
    ensures v in closed
    decreases |p|
  {
    var m := |p| - 2;
    assert Kept(nodes, edges, p[m], p[m + 1]);
    if m > 0 {
      var q := p[..m + 1];
      assert LeadsTo(nodes, edges, starts, q, p[m]) by {
        forall i | 0 <= i < |q| - 1
          ensures Kept(nodes, edges, q[i], q[i + 1])
        {
          assert Kept(nodes, edges, p[i], p[i + 1]);
        }
      }
      ClosedHoldsReachable(nodes, edges, starts, closed, q, p[m]);
    }
  }

  /** Targets of the kept edges leaving u, in edge order. */
  function Successors(nodes: seq<string>, edges: seq<(string, string)>, u: string): (r: seq<string>)
    ensures forall v :: v in r <==> Kept(nodes, edges, u, v)
  {
    if edges == [] then []
    else
      var last := edges[|edges| - 1];
      assert forall v :: (u, v) in edges <==> (u, v) in edges[..|edges| - 1] || last == (u, v);
      Successors(nodes, edges[..|edges| - 1], u)
      + (if last.0 == u && u in nodes then [last.1] else [])
  }

  /** The traversal terminates, cycles included, having visited exactly the nodes
      reachable by at least one kept edge from a start. */
  method Reach(nodes: seq<string>, edges: seq<(string, string)>, starts: seq<string>) returns (visited: set<string>)
    ensures forall v :: v in visited <==> Reachable(nodes, edges, starts, v)
  {
    ghost var targets := set e | e in edges :: e.1;
    visited := {};
    var queue := starts;
    ghost var expanded: set<string> := {};
    while queue != []
      invariant visited <= targets
      invariant forall v :: v in visited ==> Reachable(nodes, edges, starts, v)
      invariant forall u :: u in queue ==> u in starts || u in visited
      invariant forall u :: u in starts || u in visited ==> u in queue || u in expanded
      invariant forall u, v :: u in expanded && Kept(nodes, edges, u, v) ==> v in visited
      decreases targets - visited, |queue|
    {
      var curr := queue[0];
      queue := queue[1..];
      expanded := expanded + {curr};
      var next := Successors(nodes, edges, curr);
      ghost var before, waiting := visited, queue;
      for k := 0 to |next|
        invariant before <= visited <= targets
        invariant visited == before ==> queue == waiting
        invariant forall u :: u in waiting ==> u in queue
        invariant forall u :: u in queue ==> u in starts || u in visited
        invariant forall u :: u in visited ==> u in before || u in queue
        invariant forall v :: v in visited ==> Reachable(nodes, edges, starts, v)
        invariant forall j :: 0 <= j < k ==> next[j] in visited
      {
        var nxt := next[k];
        assert nxt in next;
        assert (curr, nxt).1 in targets;
        if nxt !in visited {
          ReachableByEdge(nodes, edges, starts, curr, nxt);
          visited := visited + {nxt};
          queue := queue + [nxt];
        }
      }
    }
    forall v | Reachable(nodes, edges, starts, v)
      ensures v in visited
    {
      var p :| LeadsTo(nodes, edges, starts, p, v);
      ClosedHoldsReachable(nodes, edges, starts, visited, p, v);
    }
  }

  predicate Contains(s: string, key: string) {
    exists i :: 0 <= i <= |s| && key <= s[i..]
  }

  function LowerChar(c: char): char {
    if 'A' <= c <= 'Z' then c - 'A' + 'a' else c
  }

  function Lower(s: string): string {
    seq(|s|, i requires 0 <= i < |s| => LowerChar(s[i]))
  }

  function Matching(nodes: seq<string>, key: string): (r: seq<string>)
    ensures forall n :: n in r <==> n in nodes && Contains(Lower(n), key)
  {
    if nodes == [] then []
    else (if Contains(Lower(nodes[0]), key) then [nodes[0]] else []) + Matching(nodes[1..], key)
  }

  lemma ShareAtMostOne(part: nat, whole: nat)
    requires part <= whole && whole > 0
    ensures part as real / whole as real <= 1.0
  {
  }

  /** The nodes reachable by at least one kept edge, as a set. */
  ghost function ReachSet(nodes: seq<string>, edges: seq<(string, string)>, starts: seq<string>): (r: set<string>)
    ensures forall v :: v in r <==> Reachable(nodes, edges, starts, v)
  {
    var r := set e | e in edges && Reachable(nodes, edges, starts, e.1) :: e.1;
    assert forall v :: Reachable(nodes, edges, starts, v) ==> v in r by {
      forall v | Reachable(nodes, edges, starts, v)
        ensures v in r
      {
        ReachedIsTarget(nodes, edges, starts, v);
      }
    }
    r
  }

  lemma ReachedIsTarget(nodes: seq<string>, edges: seq<(string, string)>, starts: seq<string>, v: string)
    requires Reachable(nodes, edges, starts, v)
    ensures exists e :: e in edges && e.1 == v
  {
    var p :| LeadsTo(nodes, edges, starts, p, v);
    assert Kept(nodes, edges, p[|p| - 2], p[|p| - 1]);
    assert (p[|p| - 2], v) in edges;
  }

  // ----- what is matched and what is followed

  /** The key occurs somewhere in the text. */
  lemma ContainsIs(s: string, key: string)
    ensures Contains(s, key) <==> exists before, after :: s == before + key + after
  {
    if i :| 0 <= i <= |s| && key <= s[i..] {
      assert s == s[..i] + key + s[i + |key|..];
    }
    if before, after :| s == before + key + after {
      assert s[|before|..] == key + after;
    }
  }

  /** Only the capital letters A to Z change, each to its small letter. */
  lemma LowerIs(s: string, i: nat)
    requires i < |s|
    ensures |Lower(s)| == |s|
    ensures Lower(s)[i] as int == if 65 <= s[i] as int <= 90 then s[i] as int + 32 else s[i] as int
  {
  }

  /** Case plays no part in matching nodes to a component. */
  lemma CaseIrrelevant(nodes: seq<string>, component: string, n: string)
    ensures Lower(Lower(component)) == Lower(component)
    ensures n in Matching(nodes, Lower(component)) <==>
            n in nodes && exists before, after :: Lower(n) == before + Lower(component) + after
  {
    ContainsIs(Lower(n), Lower(component));
  }

  /** An edge that leaves an unlisted node adds nothing to the reach. */
  lemma UnlistedSourceIgnored(nodes: seq<string>, edges: seq<(string, string)>, e: (string, string),
                              starts: seq<string>)
    requires e.0 !in nodes
    ensures ReachSet(nodes, edges + [e], starts) == ReachSet(nodes, edges, starts)
  {
    assert forall u, v :: Kept(nodes, edges + [e], u, v) <==> Kept(nodes, edges, u, v) by {
      assert forall x :: x in edges + [e] <==> x in edges || x == e;
    }
    forall p, v
      ensures LeadsTo(nodes, edges + [e], starts, p, v) <==> LeadsTo(nodes, edges, starts, p, v)
    {
      hide Kept;
    }
    assert forall v :: Reachable(nodes, edges + [e], starts, v) <==> Reachable(nodes, edges, starts, v);
  }

  // ----- the fallback table

  /** Base radii by component key, in table order. */
  type Radii = seq<(string, real)>

  ghost predicate FirstKey(radii: Radii, component: string, i: int) {
    && 0 <= i < |radii| && Contains(component, radii[i].0)
    && forall j :: 0 <= j < i ==> !Contains(component, radii[j].0)
  }

  ghost predicate NoKey(radii: Radii, component: string) {
    forall i :: 0 <= i < |radii| ==> !Contains(component, radii[i].0)
  }

  /** Keys are unique, as in a dictionary. */
  predicate DistinctKeys(radii: Radii) {
    forall i, j :: 0 <= i < j < |radii| ==> radii[i].0 != radii[j].0
  }

  /** The radius of the first key the component's name contains, else that of the key
      "default", else 0.10. */
  ghost predicate IsBase(radii: Radii, component: string, radius: real) {
    && (forall i :: FirstKey(radii, component, i) ==> radius == radii[i].1)
    && (NoKey(radii, component) ==>
          && (forall i :: 0 <= i < |radii| && radii[i].0 == "default" ==> radius == radii[i].1)
          && ((forall i :: 0 <= i < |radii| ==> radii[i].0 != "default") ==> radius == 0.10))
  }

  method BaseRadius(radii: Radii, component: string) returns (radius: real)
    requires DistinctKeys(radii)
    ensures IsBase(radii, component, radius)
  {
    for k := 0 to |radii|
      invariant forall j :: 0 <= j < k ==> !Contains(component, radii[j].0)
    {
      if Contains(component, radii[k].0) {
        return radii[k].1;
      }
    }
    for k := 0 to |radii|
      invariant forall j :: 0 <= j < k ==> radii[j].0 != "default"
    {
      if radii[k].0 == "default" {
        return radii[k].1;
      }
    }
    return 0.10;
  }

  // ----- the estimate

  function Targets(edges: seq<(string, string)>): set<string> {
    set e | e in edges :: e.1
  }

  /** The estimate: with edges, nodes and a matching node it is the reachable share of
      the graph, never below 0.05 and, when the edges have no more targets than there
      are nodes, never above 1. Otherwise it is the component's base radius. */
  method Estimate(componentType: string, edges: seq<(string, string)>, nodes: seq<string>, radii: Radii)
      returns (radius: real)
    requires DistinctKeys(radii)
    ensures edges == [] || Matching(nodes, Lower(componentType)) == [] ==>
              IsBase(radii, Lower(componentType), radius)
    ensures edges != [] && Matching(nodes, Lower(componentType)) != [] ==>
              && nodes != []
              && var reached := ReachSet(nodes, edges, Matching(nodes, Lower(componentType)));
                 radius == MaxReal(|reached| as real / |nodes| as real, 0.05)
    ensures edges != [] && Matching(nodes, Lower(componentType)) != [] && |Targets(edges)| <= |nodes| ==>
              0.05 <= radius <= 1.0
  {
    var starts := Matching(nodes, Lower(componentType));
    if edges == [] || starts == [] {
      radius := BaseRadius(radii, Lower(componentType));
      return;
    }
    assert starts[0] in nodes;
    var visited := Reach(nodes, edges, starts);
    assert visited == ReachSet(nodes, edges, starts);
    radius := MaxReal(|visited| as real / |nodes| as real, 0.05);
    ReachWithinTargets(nodes, edges, starts);
    if |Targets(edges)| <= |nodes| {
      ShareAtMostOne(|visited|, |nodes|);
    }
  }

  lemma ReachWithinTargets(nodes: seq<string>, edges: seq<(string, string)>, starts: seq<string>)
    ensures ReachSet(nodes, edges, starts) <= Targets(edges)
    ensures |ReachSet(nodes, edges, starts)| <= |Targets(edges)|
  {
    forall v | v in ReachSet(nodes, edges, starts)
      ensures v in Targets(edges)
    {
      ReachedIsTarget(nodes, edges, starts, v);
    }
    SubsetSize(ReachSet(nodes, edges, starts), Targets(edges));
  }

  /** Targets are never checked against the node list. From any nonempty list of
      matching nodes, and over the edge lists whose targets lie in a given set, the
      share stays at most 1 for every edge list if and only if the set is no larger
      than the node list. */
  lemma ShareBoundedIff(nodes: seq<string>, starts: seq<string>, targets: set<string>)
    requires starts != [] && forall s :: s in starts ==> s in nodes
    ensures (forall edges :: Targets(edges) <= targets ==> |ReachSet(nodes, edges, starts)| <= |nodes|)
            <==> |targets| <= |nodes|
  {
    if |targets| <= |nodes| {
      forall edges | Targets(edges) <= targets
        ensures |ReachSet(nodes, edges, starts)| <= |nodes|
      {
        ReachWithinTargets(nodes, edges, starts);
        SubsetSize(Targets(edges), targets);
      }
    } else {
      var start := starts[0];
      var edges := Fan(start, targets);
      var reach := ReachSet(nodes, edges, starts);
      forall v | v in targets
        ensures v in reach
      {
        assert Kept(nodes, edges, start, v);
        ReachableByEdge(nodes, edges, starts, start, v);
      }
      SubsetSize(targets, reach);
      assert Targets(edges) <= targets;
    }
  }

  /** One edge from `start` to each target. */
  lemma {:induction false} Fan(start: string, targets: set<string>) returns (edges: seq<(string, string)>)
    ensures forall e :: e in edges <==> e.0 == start && e.1 in targets
    decreases targets
  {
    if targets == {} {
      edges := [];
    } else {
      var t :| t in targets;
      var rest := Fan(start, targets - {t});
      edges := rest + [(start, t)];
    }
  }

  /** The share can exceed 1: one node with two unlisted successors has radius 2. */
  lemma UnlistedTargetsOverflow()
    ensures var nodes, edges := ["a"], [("a", "b"), ("a", "c")];
            forall v :: v in {"b", "c"} <==> Reachable(nodes, edges, ["a"], v)
    ensures |{"b", "c"}| as real / |["a"]| as real == 2.0
  {
    var nodes, edges := ["a"], [("a", "b"), ("a", "c")];
    assert edges[0] == ("a", "b") && edges[1] == ("a", "c");
    assert nodes[0] == "a" && "b"[0] != "c"[0];
    forall v | v in {"b", "c"}
      ensures Reachable(nodes, edges, ["a"], v)
    {
      assert Kept(nodes, edges, "a", v);
      ReachableByEdge(nodes, edges, ["a"], "a", v);
    }
    forall v | Reachable(nodes, edges, ["a"], v)
      ensures v in {"b", "c"}
    {
      var p :| LeadsTo(nodes, edges, ["a"], p, v);
      assert Kept(nodes, edges, p[|p| - 2], p[|p| - 1]);
    }
  }
}
