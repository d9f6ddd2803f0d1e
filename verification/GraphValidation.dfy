/** Depth-first cycle detection over the causal edges of a reliability graph. */
module GraphValidation {

  datatype EdgeType =
    | DataDependency | ControlFlow | ExecutionOrder | VersionLineage | PolicyDependency
    | MemoryInfluence | EvidenceCitation | ToolEffect | RetryFallback | InterAgentCommunication

  datatype Edge = Edge(source: string, target: string, kind: EdgeType)

  /** Successor lists of the declared nodes. */
  type Adjacency = map<string, seq<string>>

  predicate Causal(e: Edge) {
    e.kind != MemoryInfluence && e.kind != RetryFallback
  }

  /** A causal edge u -> v is present, whether or not its ends are declared. */
  ghost predicate CausalStep(edges: seq<Edge>, u: string, v: string) {
    exists i :: 0 <= i < |edges| && Causal(edges[i]) && edges[i].source == u && edges[i].target == v
  }

  /** A directed cycle of causal edges, written with its first vertex repeated at the end. */
  ghost predicate CausalCycle(edges: seq<Edge>, p: seq<string>) {
    && |p| >= 2 && p[0] == p[|p| - 1]
    && forall i :: 0 <= i < |p| - 1 ==> CausalStep(edges, p[i], p[i + 1])
  }

  ghost predicate HasCycle(edges: seq<Edge>) {
    exists p :: CausalCycle(edges, p)
  }

  ghost predicate HasDeclaredCycle(nodes: seq<string>, edges: seq<Edge>) {
    exists p :: CausalCycle(edges, p) && forall i :: 0 <= i < |p| ==> p[i] in nodes
  }

  predicate Step(adj: Adjacency, u: string, v: string) {
    u in adj && v in adj[u]
  }

  ghost predicate Walk(adj: Adjacency, p: seq<string>) {
    forall i :: 0 <= i < |p| - 1 ==> Step(adj, p[i], p[i + 1])
  }

  ghost predicate Loop(adj: Adjacency, p: seq<string>) {
    |p| >= 2 && p[0] == p[|p| - 1] && Walk(adj, p)
  }

  ghost predicate Cyclic(adj: Adjacency) {
    exists p :: Loop(adj, p)
  }

  /** The vertices listed so far have all their successors listed strictly earlier. */
  ghost predicate Topological(adj: Adjacency, order: seq<string>) {
    && (forall i, j :: 0 <= i < j < |order| ==> order[i] != order[j])
    && (forall i, v :: 0 <= i < |order| && Step(adj, order[i], v) ==> v in order[..i])
  }

  lemma TopologicalExtend(adj: Adjacency, order: seq<string>, u: string)
    requires Topological(adj, order) && u !in order
    requires forall v :: Step(adj, u, v) ==> v in order
    ensures Topological(adj, order + [u])
  {
    var next := order + [u];
    forall i, v | 0 <= i < |next| && Step(adj, next[i], v)
      ensures v in next[..i]
    {
      assert next[..i] == order[..i];
    }
  }

  /** Every walk from a listed vertex runs strictly down the list. */
  lemma {:induction false} WalkDescends(adj: Adjacency, order: seq<string>, p: seq<string>, i: nat) returns (j: nat)
    requires Topological(adj, order) && Walk(adj, p) && |p| >= 2
    requires i < |order| && order[i] == p[0]
    ensures j < i && order[j] == p[|p| - 1]
    decreases |p|
  {
    assert Step(adj, order[i], p[1]);
    j :| 0 <= j < i && order[j] == p[1];
    if |p| > 2 {
      var rest := p[1..];
      assert Walk(adj, rest) by {
        forall k | 0 <= k < |rest| - 1
          ensures Step(adj, rest[k], rest[k + 1])
        {
          assert Step(adj, p[k + 1], p[k + 2]);
        }
      }
      j := WalkDescends(adj, order, rest, j);
    }
  }

  lemma TopologicalAcyclic(adj: Adjacency, order: seq<string>)
    requires Topological(adj, order)
    requires forall u :: u in adj ==> u in order
    ensures !Cyclic(adj)
  {
    forall p | Loop(adj, p)
      ensures false
    {
      assert Step(adj, p[0], p[1]);
      var i :| 0 <= i < |order| && order[i] == p[0];
      var j := WalkDescends(adj, order, p, i);
    }
  }

  /** A step back onto the current path closes a loop. */
  lemma BackEdge(adj: Adjacency, path: seq<string>, v: string)
    requires Walk(adj, path) && path != [] && v in path
    requires Step(adj, path[|path| - 1], v)
    ensures Cyclic(adj)
  {
    var k :| 0 <= k < |path| && path[k] == v;
    var p := path[k..] + [v];
    forall i | 0 <= i < |p| - 1
      ensures Step(adj, p[i], p[i + 1])
    {
      if i < |p| - 2 {
        assert Step(adj, path[k + i], path[k + i + 1]);
      }
    }
    assert Loop(adj, p);
  }

  class CycleSearch {
    const adj: Adjacency
    var visited: set<string>
    var recStack: set<string>
    /** The recursion stack as a path, and the vertices already finished, oldest first. */
    ghost var path: seq<string>
    ghost var finished: seq<string>
    ghost const universe: set<string>

    ghost predicate Valid()
      reads this
    {
      && (forall u, v :: Step(adj, u, v) ==> v in universe)
      && visited <= universe
      && (forall u :: u in recStack <==> u in path)
      && (forall u :: u in visited <==> u in path || u in finished)
      && (forall u :: u in path ==> u !in finished)
      && Walk(adj, path)
      && Topological(adj, finished)
    }

    constructor (adj: Adjacency)
      ensures this.adj == adj && Valid()
      ensures visited == {} && path == [] && finished == []
      ensures adj.Keys <= universe
    {
      this.adj := adj;
      visited, recStack := {}, {};
      path, finished := [], [];
      universe := adj.Keys + set u, v | u in adj && v in adj[u] :: v;
    }

    /** Explores everything reachable from `curr` that is not yet visited. A
        refusal exhibits a loop; otherwise `curr` is finished and the recursion
        stack is as before. */
    method IsCyclic(curr: string) returns (cyclic: bool)
      requires Valid() && curr in universe && curr !in visited
      requires path != [] ==> Step(adj, path[|path| - 1], curr)
      modifies this
      ensures cyclic ==> Cyclic(adj)
      ensures !cyclic ==>
                && Valid() && path == old(path) && recStack == old(recStack)
                && old(visited) <= visited && curr in finished
      decreases universe - visited
    {
      visited := visited + {curr};
      recStack := recStack + {curr};
      path := path + [curr];
      ghost var here := path;
      var neighbors := if curr in adj then adj[curr] else [];
      for k := 0 to |neighbors|
        invariant Valid() && path == here
        invariant old(visited) + {curr} <= visited && curr !in finished
        invariant recStack == old(recStack) + {curr}
        invariant forall j :: 0 <= j < k ==> neighbors[j] in finished
      {
        var neighbor := neighbors[k];
        assert Step(adj, curr, neighbor);
        if neighbor !in visited {
          var found := IsCyclic(neighbor);
          if found {
            return true;
          }
        } else if neighbor in recStack {
          BackEdge(adj, path, neighbor);
          return true;
        }
      }
      recStack := recStack - {curr};
      TopologicalExtend(adj, finished, curr);
      path := path[..|path| - 1];
      finished := finished + [curr];
      return false;
    }
  }

  /** The successor lists keep the causal edges that leave a declared node. */
  method BuildAdjacency(nodes: seq<string>, edges: seq<Edge>) returns (adj: Adjacency)
    ensures forall u :: u in adj <==> u in nodes
    ensures forall u, v :: Step(adj, u, v) <==> u in nodes && CausalStep(edges, u, v)
  {
    adj := map u | u in nodes :: [];
    for k := 0 to |edges|
      invariant forall u :: u in adj <==> u in nodes
      invariant forall u, v :: Step(adj, u, v) <==> u in nodes && CausalStep(edges[..k], u, v)
    {
      var e := edges[k];
      ghost var before := adj;
      if Causal(e) && e.source in adj {
        adj := adj[e.source := adj[e.source] + [e.target]];
      }
      forall u, v
        ensures Step(adj, u, v) <==> u in nodes && CausalStep(edges[..k + 1], u, v)
      {
        CausalStepExtend(edges, k, u, v);
        assert Step(before, u, v) <==> u in nodes && CausalStep(edges[..k], u, v);
      }
    }
    assert edges[..|edges|] == edges;
  }

  lemma CausalStepExtend(edges: seq<Edge>, k: nat, u: string, v: string)
    requires k < |edges|
    ensures CausalStep(edges[..k + 1], u, v) <==>
            CausalStep(edges[..k], u, v) || (Causal(edges[k]) && edges[k].source == u && edges[k].target == v)
  {
    var longer, shorter := edges[..k + 1], edges[..k];
    assert longer[k] == edges[k];
    if CausalStep(shorter, u, v) {
      var i :| 0 <= i < |shorter| && Causal(shorter[i]) && shorter[i].source == u && shorter[i].target == v;
      assert longer[i] == shorter[i];
    }
    if CausalStep(longer, u, v) {
      var i :| 0 <= i < |longer| && Causal(longer[i]) && longer[i].source == u && longer[i].target == v;
      if i < k {
        assert longer[i] == shorter[i];
      }
    }
  }

  /** Loops in the successor lists are the causal cycles through declared nodes. */
  lemma LoopIsDeclaredCycle(nodes: seq<string>, edges: seq<Edge>, adj: Adjacency, p: seq<string>)
    requires forall u, v :: Step(adj, u, v) <==> u in nodes && CausalStep(edges, u, v)
    ensures Loop(adj, p) <==> CausalCycle(edges, p) && forall i :: 0 <= i < |p| ==> p[i] in nodes
  {
    if Loop(adj, p) {
      forall i | 0 <= i < |p| - 1
        ensures p[i] in nodes && CausalStep(edges, p[i], p[i + 1])
      {
        assert Step(adj, p[i], p[i + 1]);
      }
    }
  }

  /** The cycle check raises exactly on a causal cycle all of whose vertices are
      declared nodes. Self-loops count; an undeclared target has no successors. */
  method CheckCycles(nodes: seq<string>, edges: seq<Edge>) returns (raised: bool)
    ensures raised <==> HasDeclaredCycle(nodes, edges)
  {
    var adj := BuildAdjacency(nodes, edges);
    forall p
      ensures Loop(adj, p) <==> CausalCycle(edges, p) && forall i :: 0 <= i < |p| ==> p[i] in nodes
    {
      LoopIsDeclaredCycle(nodes, edges, adj, p);
    }
    var search := new CycleSearch(adj);
    for k := 0 to |nodes|
      invariant search.Valid() && search.adj == adj && search.path == []
      invariant forall j :: 0 <= j < k ==> nodes[j] in search.finished
      invariant forall u :: u in nodes ==> u in search.universe
      invariant fresh(search)
    {
      if nodes[k] !in search.visited {
        var found := search.IsCyclic(nodes[k]);
        if found {
          return true;
        }
      }
    }
    TopologicalAcyclic(adj, search.finished);
    return false;
  }

  predicate SourcesWithin(edges: seq<Edge>, sources: set<string>) {
    forall i :: 0 <= i < |edges| ==> edges[i].source in sources
  }

  /** Edges leaving undeclared nodes are dropped before the search. So over the
      edge lists whose sources lie in a given set, the check is exact for every
      list if and only if all those sources are declared. */
  lemma ExactIffSourcesDeclared(nodes: seq<string>, sources: set<string>)
    ensures (forall edges :: SourcesWithin(edges, sources) ==>
               (HasDeclaredCycle(nodes, edges) <==> HasCycle(edges)))
            <==> (forall u :: u in sources ==> u in nodes)
  {
    if forall u :: u in sources ==> u in nodes {
      forall edges | SourcesWithin(edges, sources)
        ensures HasDeclaredCycle(nodes, edges) <==> HasCycle(edges)
      {
        forall p | CausalCycle(edges, p)
          ensures forall i :: 0 <= i < |p| ==> p[i] in nodes
        {
          CycleVerticesAreSources(edges, sources, p);
        }
      }
    } else {
      var u :| u in sources && u !in nodes;
      UndeclaredSelfLoop(nodes, u);
      assert SourcesWithin([Edge(u, u, ControlFlow)], sources);
    }
  }

  lemma CycleVerticesAreSources(edges: seq<Edge>, sources: set<string>, p: seq<string>)
    requires SourcesWithin(edges, sources) && CausalCycle(edges, p)
    ensures forall i :: 0 <= i < |p| ==> p[i] in sources
  {
    forall i | 0 <= i < |p|
      ensures p[i] in sources
    {
      var j := if i < |p| - 1 then i else 0;
      assert CausalStep(edges, p[j], p[j + 1]);
    }
  }

  /** The case the code misses: a self-loop on a node that was never declared. */
  lemma UndeclaredSelfLoop(nodes: seq<string>, u: string)
    requires u !in nodes
    ensures HasCycle([Edge(u, u, ControlFlow)])
    ensures !HasDeclaredCycle(nodes, [Edge(u, u, ControlFlow)])
  {
    var edges := [Edge(u, u, ControlFlow)];
    assert edges[0] == Edge(u, u, ControlFlow);
    assert CausalStep(edges, u, u);
    assert CausalCycle(edges, [u, u]);
    forall p | CausalCycle(edges, p)
      ensures p[0] !in nodes
    {
      assert CausalStep(edges, p[0], p[1]);
    }
  }

  /** Every kind of edge closes a cycle except memory influence and retry or fallback. */
  lemma SelfLoopCounts(u: string, kind: EdgeType)
    ensures HasDeclaredCycle([u], [Edge(u, u, kind)]) <==> kind !in {MemoryInfluence, RetryFallback}
  {
    var edges := [Edge(u, u, kind)];
    assert edges[0] == Edge(u, u, kind);
    if kind !in {MemoryInfluence, RetryFallback} {
      assert CausalStep(edges, u, u);
      assert CausalCycle(edges, [u, u]);
    } else {
      forall p | |p| >= 2
        ensures !CausalCycle(edges, p)
      {
        assert !CausalStep(edges, p[0], p[1]);
      }
    }
  }
}
