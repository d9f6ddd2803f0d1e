/** Backward message passing of anomaly scores, with every score capped at 1. */
module Diffusion {
  import opened Common

  datatype Node = Node(id: string, symptom: real)

  datatype Edge = Edge(source: string, target: string, confidence: real, directionality: real)

  datatype Graph = Graph(nodes: seq<Node>, edges: seq<Edge>)

  /** A score for every identifier; unknown identifiers score 0. */
  type Scores = string -> real

  predicate Unit(x: real) {
    0.0 <= x <= 1.0
  }

  /** The documented ranges of symptoms, confidences and decay. */
  ghost predicate InRange(g: Graph, decay: real) {
    && (forall i :: 0 <= i < |g.nodes| ==> Unit(g.nodes[i].symptom))
    && (forall i :: 0 <= i < |g.edges| ==> Unit(g.edges[i].confidence))
    && 0.0 < decay <= 1.0
  }

  /** The symptom of an identifier: the last node of that name decides. */
  function Symptom(nodes: seq<Node>, v: string): real {
    if nodes == [] then 0.0
    else if nodes[|nodes| - 1].id == v then nodes[|nodes| - 1].symptom
    else Symptom(nodes[..|nodes| - 1], v)
  }

  /** What an edge passes back to its source when its target has this score. */
  function Message(e: Edge, score: real, decay: real): real {
    if score <= 0.0 then 0.0
    else
      var message := score * e.confidence * decay;
      if e.directionality < 0.0 then message * 0.5 else message
  }

  function Sent(e: Edge, f: Scores, decay: real, v: string): real {
    if e.source == v then Message(e, f(e.target), decay) else 0.0
  }

  /** Total message into v. */
  function Inflow(edges: seq<Edge>, f: Scores, decay: real, v: string): real {
    if edges == [] then 0.0
    else
      Inflow(edges[..|edges| - 1], f, decay, v) + Sent(edges[|edges| - 1], f, decay, v)
  }

  /** The reference semantics: synchronous rounds, each adding all messages at
      once and capping the result. */
  function Diffused(g: Graph, decay: real, k: nat, v: string): real
    decreases k
  {
    if k == 0 then Symptom(g.nodes, v)
    else
      MinReal(1.0, Diffused(g, decay, k - 1, v)
                   + Inflow(g.edges, u => Diffused(g, decay, k - 1, u), decay, v))
  }

  // ----- messages

  lemma MulMonotone(a: real, b: real, c: real, d: real)
    requires 0.0 <= a <= b && 0.0 <= c <= d
    ensures 0.0 <= a * c <= b * d
  {
    assert a * c <= b * c;
    assert b * c <= b * d;
  }

  lemma MulPositive(a: real, b: real)
    requires a >= 0.0 && b >= 0.0
    ensures a * b > 0.0 <==> a > 0.0 && b > 0.0
  {
  }

  lemma MessageMonotone(e: Edge, e': Edge, x: real, x': real, decay: real, decay': real)
    requires 0.0 <= e.confidence <= e'.confidence && e.directionality == e'.directionality
    requires 0.0 <= x <= x' && 0.0 < decay <= decay'
    ensures 0.0 <= Message(e, x, decay) <= Message(e', x', decay')
  {
    MulMonotone(x, x', e.confidence, e'.confidence);
    MulMonotone(x * e.confidence, x' * e'.confidence, decay, decay');
  }

  lemma MessagePositive(e: Edge, x: real, decay: real)
    requires 0.0 <= e.confidence && 0.0 <= x && 0.0 < decay
    ensures Message(e, x, decay) > 0.0 <==> x > 0.0 && e.confidence > 0.0
  {
    MulPositive(x, e.confidence);
    MulPositive(x * e.confidence, decay);
  }

  ghost predicate Confident(edges: seq<Edge>) {
    forall i :: 0 <= i < |edges| ==> Unit(edges[i].confidence)
  }

  lemma {:induction false} InflowExtensional(edges: seq<Edge>, f: Scores, f': Scores, decay: real, v: string)
    requires forall u :: f(u) == f'(u)
    ensures Inflow(edges, f, decay, v) == Inflow(edges, f', decay, v)
  {
    if edges != [] {
      InflowExtensional(edges[..|edges| - 1], f, f', decay, v);
    }
  }

  lemma {:induction false} InflowNonnegative(edges: seq<Edge>, f: Scores, decay: real, v: string)
    requires Confident(edges) && decay > 0.0
    requires forall u :: f(u) >= 0.0
    ensures Inflow(edges, f, decay, v) >= 0.0
  {
    if edges != [] {
      var e := edges[|edges| - 1];
      InflowNonnegative(edges[..|edges| - 1], f, decay, v);
      MessageMonotone(e, e, f(e.target), f(e.target), decay, decay);
    }
  }

  lemma {:induction false} InflowConcat(a: seq<Edge>, b: seq<Edge>, f: Scores, decay: real, v: string)
    ensures Inflow(a + b, f, decay, v) == Inflow(a, f, decay, v) + Inflow(b, f, decay, v)
  {
    if b == [] {
      assert a + b == a;
    } else {
      assert (a + b)[..|a + b| - 1] == a + b[..|b| - 1];
      InflowConcat(a, b[..|b| - 1], f, decay, v);
    }
  }

  lemma InflowExtract(left: seq<Edge>, e: Edge, right: seq<Edge>, f: Scores, decay: real, v: string)
    ensures Inflow(left + [e] + right, f, decay, v) == Inflow(left + right, f, decay, v) + Sent(e, f, decay, v)
  {
    InflowConcat(left, right, f, decay, v);
    InflowConcat(left + [e], right, f, decay, v);
    assert (left + [e])[..|left|] == left;
  }

  lemma CancelEdge(a: seq<Edge>, e: Edge, left: seq<Edge>, right: seq<Edge>)
    requires multiset(a + [e]) == multiset(left + [e] + right)
    ensures multiset(a) == multiset(left + right)
  {
    assert multiset(a) == multiset(a + [e]) - multiset{e};
    assert multiset(left + right) == multiset(left + [e] + right) - multiset{e};
  }

  lemma SplitAt(b: seq<Edge>, e: Edge) returns (left: seq<Edge>, right: seq<Edge>)
    requires e in multiset(b)
    ensures b == left + [e] + right
  {
    var k :| 0 <= k < |b| && b[k] == e;
    left, right := b[..k], b[k + 1..];
  }

  lemma InflowLast(edges: seq<Edge>, f: Scores, decay: real, v: string)
    requires edges != []
    ensures Inflow(edges, f, decay, v)
         == Inflow(edges[..|edges| - 1], f, decay, v) + Sent(edges[|edges| - 1], f, decay, v)
  {
  }

  /** The total does not depend on the order in which edges are listed. */
  lemma {:induction false} InflowPermutation(a: seq<Edge>, b: seq<Edge>, f: Scores, decay: real, v: string)
    requires multiset(a) == multiset(b)
    ensures Inflow(a, f, decay, v) == Inflow(b, f, decay, v)
    decreases |a|
  {
    hide Inflow, Sent;
    if a == [] {
      assert |multiset(b)| == 0;
    } else {
      var e, rest := a[|a| - 1], a[..|a| - 1];
      InflowLast(a, f, decay, v);
      assert a == rest + [e];
      assert e in multiset(a);
      var left, right := SplitAt(b, e);
      CancelEdge(rest, e, left, right);
      InflowPermutation(rest, left + right, f, decay, v);
      InflowExtract(left, e, right, f, decay, v);
    }
  }

  // ----- grouping edges by target

  function Into(edges: seq<Edge>, target: string): (r: seq<Edge>)
    ensures forall i :: 0 <= i < |r| ==> r[i].target == target && r[i] in edges
  {
    if edges == [] then []
    else
      var last := edges[|edges| - 1];
      Into(edges[..|edges| - 1], target) + (if last.target == target then [last] else [])
  }

  /** Inflow counted group by group. */
  function GroupedInflow(keys: seq<string>, edges: seq<Edge>, f: Scores, decay: real, v: string): real {
    if keys == [] then 0.0
    else
      GroupedInflow(keys[..|keys| - 1], edges, f, decay, v)
      + Inflow(Into(edges, keys[|keys| - 1]), f, decay, v)
  }

  ghost predicate Distinct(keys: seq<string>) {
    forall i, j :: 0 <= i < j < |keys| ==> keys[i] != keys[j]
  }

  lemma IntoInflow(edges: seq<Edge>, key: string, f: Scores, decay: real, v: string)
    requires edges != []
    ensures Inflow(Into(edges, key), f, decay, v)
         == Inflow(Into(edges[..|edges| - 1], key), f, decay, v)
            + (if edges[|edges| - 1].target == key then Sent(edges[|edges| - 1], f, decay, v) else 0.0)
  {
    var e, shorter := edges[|edges| - 1], edges[..|edges| - 1];
    if e.target == key {
      assert Into(edges, key) == Into(shorter, key) + [e];
      assert (Into(shorter, key) + [e])[..|Into(shorter, key)|] == Into(shorter, key);
    } else {
      assert Into(edges, key) == Into(shorter, key);
    }
  }

  lemma {:induction false} GroupedStep(keys: seq<string>, edges: seq<Edge>, f: Scores, decay: real, v: string)
    requires edges != [] && Distinct(keys)
    ensures GroupedInflow(keys, edges, f, decay, v)
         == GroupedInflow(keys, edges[..|edges| - 1], f, decay, v)
            + (if edges[|edges| - 1].target in keys then Sent(edges[|edges| - 1], f, decay, v) else 0.0)
  {
    if keys != [] {
      var key, fewer := keys[|keys| - 1], keys[..|keys| - 1];
      GroupedStep(fewer, edges, f, decay, v);
      IntoInflow(edges, key, f, decay, v);
      assert edges[|edges| - 1].target in keys <==>
             edges[|edges| - 1].target in fewer || edges[|edges| - 1].target == key;
      assert key !in fewer;
    }
  }

  /** Grouping by target neither loses nor repeats a message. */
  lemma {:induction false} GroupedIsInflow(keys: seq<string>, edges: seq<Edge>, f: Scores, decay: real, v: string)
    requires Distinct(keys)
    requires forall i :: 0 <= i < |edges| ==> edges[i].target in keys
    ensures GroupedInflow(keys, edges, f, decay, v) == Inflow(edges, f, decay, v)
  {
    if edges == [] {
      GroupedNothing(keys, f, decay, v);
    } else {
      GroupedStep(keys, edges, f, decay, v);
      GroupedIsInflow(keys, edges[..|edges| - 1], f, decay, v);
    }
  }

  lemma {:induction false} GroupedNothing(keys: seq<string>, f: Scores, decay: real, v: string)
    ensures GroupedInflow(keys, [], f, decay, v) == 0.0
  {
    if keys != [] {
      GroupedNothing(keys[..|keys| - 1], f, decay, v);
    }
  }

  lemma {:induction false} SilentGroup(group: seq<Edge>, target: string, f: Scores, decay: real, v: string)
    requires forall i :: 0 <= i < |group| ==> group[i].target == target
    requires f(target) <= 0.0
    ensures Inflow(group, f, decay, v) == 0.0
  {
    if group != [] {
      SilentGroup(group[..|group| - 1], target, f, decay, v);
    }
  }

  // ----- properties of the rounds

  lemma {:induction false} DiffusedUnit(g: Graph, decay: real, k: nat, v: string)
    requires InRange(g, decay)
    ensures Unit(Diffused(g, decay, k, v))
  {
    if k == 0 {
      SymptomUnit(g.nodes, v);
    } else {
      var m := k - 1;
      forall u
        ensures Unit(Diffused(g, decay, m, u))
      {
        DiffusedUnit(g, decay, m, u);
      }
      InflowNonnegative(g.edges, u => Diffused(g, decay, m, u), decay, v);
    }
  }

  lemma {:induction false} SymptomUnit(nodes: seq<Node>, v: string)
    requires forall i :: 0 <= i < |nodes| ==> Unit(nodes[i].symptom)
    ensures Unit(Symptom(nodes, v))
  {
    if nodes != [] {
      SymptomUnit(nodes[..|nodes| - 1], v);
    }
  }

  /** Scores never fall from one round to a later one. */
  lemma {:induction false} ScoresNeverFall(g: Graph, decay: real, k: nat, k': nat, v: string)
    requires InRange(g, decay) && k <= k'
    ensures Diffused(g, decay, k, v) <= Diffused(g, decay, k', v)
    decreases k'
  {
    if k < k' {
      var m := k' - 1;
      ScoresNeverFall(g, decay, k, m, v);
      forall u
        ensures Unit(Diffused(g, decay, m, u))
      {
        DiffusedUnit(g, decay, m, u);
      }
      InflowNonnegative(g.edges, u => Diffused(g, decay, m, u), decay, v);
    }
  }

  /** Two graphs of the same shape, the second with no smaller symptom or confidence. */
  ghost predicate Dominated(g: Graph, g': Graph) {
    && (forall v :: Symptom(g.nodes, v) <= Symptom(g'.nodes, v))
    && DominatedEdges(g.edges, g'.edges)
  }

  ghost predicate DominatedEdges(a: seq<Edge>, b: seq<Edge>) {
    && |a| == |b|
    && forall i :: 0 <= i < |a| ==>
         && a[i].source == b[i].source && a[i].target == b[i].target
         && a[i].directionality == b[i].directionality
         && a[i].confidence <= b[i].confidence
  }

  lemma {:induction false} InflowMonotone(a: seq<Edge>, b: seq<Edge>, f: Scores, f': Scores,
                                          decay: real, decay': real, v: string)
    requires DominatedEdges(a, b) && Confident(a) && 0.0 < decay <= decay'
    requires forall u :: 0.0 <= f(u) <= f'(u)
    ensures Inflow(a, f, decay, v) <= Inflow(b, f', decay', v)
  {
    if a != [] {
      var n := |a| - 1;
      InflowMonotone(a[..n], b[..n], f, f', decay, decay', v);
      MessageMonotone(a[n], b[n], f(a[n].target), f'(b[n].target), decay, decay');
    }
  }

  /** Raising symptoms, confidences or the decay factor never lowers a score. */
  lemma {:induction false} MonotoneInInputs(g: Graph, g': Graph, decay: real, decay': real, k: nat, v: string)
    requires InRange(g, decay) && InRange(g', decay')
    requires Dominated(g, g') && decay <= decay'
    ensures Diffused(g, decay, k, v) <= Diffused(g', decay', k, v)
  {
    if k > 0 {
      var m := k - 1;
      forall u
        ensures 0.0 <= Diffused(g, decay, m, u) <= Diffused(g', decay', m, u)
      {
        DiffusedUnit(g, decay, m, u);
        MonotoneInInputs(g, g', decay, decay', m, u);
      }
      InflowMonotone(g.edges, g'.edges, u => Diffused(g, decay, m, u),
                     u => Diffused(g', decay', m, u), decay, decay', v);
      MonotoneInInputs(g, g', decay, decay', m, v);
    }
  }

  /** Listing the edges in another order changes nothing. */
  lemma {:induction false} EdgeOrderIrrelevant(g: Graph, g': Graph, decay: real, k: nat, v: string)
    requires g.nodes == g'.nodes && multiset(g.edges) == multiset(g'.edges)
    ensures Diffused(g, decay, k, v) == Diffused(g', decay, k, v)
  {
    if k > 0 {
      var m := k - 1;
      var f, f' := u => Diffused(g, decay, m, u), u => Diffused(g', decay, m, u);
      forall u
        ensures Diffused(g, decay, m, u) == Diffused(g', decay, m, u)
      {
        EdgeOrderIrrelevant(g, g', decay, m, u);
      }
      InflowPermutation(g.edges, g'.edges, f, decay, v);
      InflowExtensional(g'.edges, f, f', decay, v);
    }
  }

  // ----- positivity is bounded reachability

  ghost predicate Link(edges: seq<Edge>, u: string, v: string) {
    exists i :: 0 <= i < |edges| && edges[i].source == u && edges[i].target == v && edges[i].confidence > 0.0
  }

  /** A walk of positive-confidence edges from v to a node with a symptom. */
  ghost predicate Exposes(g: Graph, p: seq<string>, v: string) {
    && p != [] && p[0] == v
    && Symptom(g.nodes, p[|p| - 1]) > 0.0
    && forall i :: 0 <= i < |p| - 1 ==> Link(g.edges, p[i], p[i + 1])
  }

  ghost predicate ReachesSymptom(g: Graph, k: nat, v: string) {
    exists p :: Exposes(g, p, v) && |p| <= k + 1
  }

  lemma {:induction false} InflowPositive(edges: seq<Edge>, f: Scores, decay: real, v: string)
    requires Confident(edges) && decay > 0.0
    requires forall u :: f(u) >= 0.0
    ensures Inflow(edges, f, decay, v) > 0.0 <==> exists u :: Link(edges, v, u) && f(u) > 0.0
  {
    if edges != [] {
      var n := |edges| - 1;
      var e, shorter := edges[n], edges[..n];
      InflowPositive(shorter, f, decay, v);
      InflowNonnegative(shorter, f, decay, v);
      MessageMonotone(e, e, f(e.target), f(e.target), decay, decay);
      MessagePositive(e, f(e.target), decay);
      forall u
        ensures Link(edges, v, u) <==> Link(shorter, v, u) || (e.source == v && e.target == u && e.confidence > 0.0)
      {
        LinkStep(edges, v, u);
      }
    }
  }

  lemma LinkStep(edges: seq<Edge>, v: string, u: string)
    requires edges != []
    ensures Link(edges, v, u) <==>
            || Link(edges[..|edges| - 1], v, u)
            || (var e := edges[|edges| - 1]; e.source == v && e.target == u && e.confidence > 0.0)
  {
    var shorter := edges[..|edges| - 1];
    if Link(shorter, v, u) {
      var i :| 0 <= i < |shorter| && shorter[i].source == v && shorter[i].target == u && shorter[i].confidence > 0.0;
      assert edges[i] == shorter[i];
    }
    if Link(edges, v, u) {
      var i :| 0 <= i < |edges| && edges[i].source == v && edges[i].target == u && edges[i].confidence > 0.0;
      if i < |shorter| {
        assert edges[i] == shorter[i];
      }
    }
  }

  lemma ReachStep(g: Graph, k: nat, v: string)
    requires k > 0
    ensures ReachesSymptom(g, k, v) <==>
            ReachesSymptom(g, k - 1, v) || exists u :: Link(g.edges, v, u) && ReachesSymptom(g, k - 1, u)
  {
    if ReachesSymptom(g, k, v) && !ReachesSymptom(g, k - 1, v) {
      var p :| Exposes(g, p, v) && |p| <= k + 1;
      assert Link(g.edges, p[0], p[1]);
      var q := p[1..];
      assert Exposes(g, q, p[1]) by {
        forall i | 0 <= i < |q| - 1
          ensures Link(g.edges, q[i], q[i + 1])
        {
          assert Link(g.edges, p[i + 1], p[i + 2]);
        }
      }
    }
    if u :| Link(g.edges, v, u) && ReachesSymptom(g, k - 1, u) {
      var q :| Exposes(g, q, u) && |q| <= k;
      var p := [v] + q;
      assert Exposes(g, p, v) by {
        forall i | 0 <= i < |p| - 1
          ensures Link(g.edges, p[i], p[i + 1])
        {
          if i > 0 {
            assert Link(g.edges, q[i - 1], q[i]);
          }
        }
      }
    }
  }

  /** After k rounds a score is positive exactly when a symptom lies within k
      positive-confidence edges. */
  lemma {:induction false} PositiveIffReaches(g: Graph, decay: real, k: nat, v: string)
    requires InRange(g, decay)
    ensures Diffused(g, decay, k, v) > 0.0 <==> ReachesSymptom(g, k, v)
  {
    if k == 0 {
      if Symptom(g.nodes, v) > 0.0 {
        assert Exposes(g, [v], v);
      }
    } else {
      var f := u => Diffused(g, decay, k - 1, u);
      forall u
        ensures f(u) >= 0.0
        ensures f(u) > 0.0 <==> ReachesSymptom(g, k - 1, u)
      {
        DiffusedUnit(g, decay, k - 1, u);
        PositiveIffReaches(g, decay, k - 1, u);
      }
      InflowPositive(g.edges, f, decay, v);
      InflowNonnegative(g.edges, f, decay, v);
      ReachStep(g, k, v);
      assert f(v) == Diffused(g, decay, k - 1, v);
    }
  }

  // ----- what one path carries

  /** Distinct identifiers joined by the edges in order, with a symptom at the last one
      only. */
  ghost predicate SinglePath(g: Graph, ids: seq<string>) {
    && |ids| == |g.edges| + 1
    && (forall i, j :: 0 <= i < j < |ids| ==> ids[i] != ids[j])
    && (forall i :: 0 <= i < |g.edges| ==> g.edges[i].source == ids[i] && g.edges[i].target == ids[i + 1])
    && (forall v :: v != ids[|g.edges|] ==> Symptom(g.nodes, v) == 0.0)
  }

  /** A score after travelling back along the edges: each passes on its confidence times
      the decay, and half of that against its direction. */
  function Carried(edges: seq<Edge>, score: real, decay: real): real {
    if edges == [] then score
    else
      Carried(edges[1..], score, decay)
      * edges[0].confidence * decay * (if edges[0].directionality < 0.0 then 0.5 else 1.0)
  }

  lemma {:induction false} CarriedUnit(edges: seq<Edge>, score: real, decay: real)
    requires Confident(edges) && Unit(score) && 0.0 < decay <= 1.0
    ensures Unit(Carried(edges, score, decay))
  {
    if edges != [] {
      CarriedUnit(edges[1..], score, decay);
      var x, c := Carried(edges[1..], score, decay), edges[0].confidence;
      MulMonotone(x, 1.0, c, 1.0);
      MulMonotone(x * c, 1.0, decay, 1.0);
    }
  }

  lemma {:induction false} PathInflow(g: Graph, ids: seq<string>, f: Scores, decay: real, i: nat, j: nat)
    requires SinglePath(g, ids) && i < |ids| && j <= |g.edges|
    ensures Inflow(g.edges[..j], f, decay, ids[i]) == if i < j then Message(g.edges[i], f(ids[i + 1]), decay) else 0.0
    decreases j
  {
    if j > 0 {
      var k := j - 1;
      PathInflow(g, ids, f, decay, i, k);
      assert g.edges[..j][..k] == g.edges[..k] && g.edges[..j][k] == g.edges[k];
      assert ids[i] == ids[k] <==> i == k;
    }
  }

  /** The symptom arrives at each vertex after exactly as many rounds as there are edges
      in between, with what those edges carry of it. */
  lemma {:induction false} FirstArrival(g: Graph, decay: real, ids: seq<string>, k: nat, i: nat)
    requires InRange(g, decay) && SinglePath(g, ids) && i + k <= |g.edges|
    ensures i + k < |g.edges| ==> Diffused(g, decay, k, ids[i]) == 0.0
    ensures i + k == |g.edges| ==>
              Diffused(g, decay, k, ids[i]) == Carried(g.edges[i..], Symptom(g.nodes, ids[|g.edges|]), decay)
    decreases k
  {
    var n := |g.edges|;
    if k == 0 {
      assert i == n ==> g.edges[i..] == [];
    } else {
      var m := k - 1;
      FirstArrival(g, decay, ids, m, i);
      FirstArrival(g, decay, ids, m, i + 1);
      hide InRange, SinglePath, Inflow;
      ArrivalStep(g, decay, ids, m, i);
      if i + k == n {
        CarriedStep(g, decay, ids, i);
      }
    }
  }

  lemma ArrivalStep(g: Graph, decay: real, ids: seq<string>, m: nat, i: nat)
    requires SinglePath(g, ids) && i < |g.edges|
    ensures Diffused(g, decay, m + 1, ids[i])
         == MinReal(1.0, Diffused(g, decay, m, ids[i])
                         + Message(g.edges[i], Diffused(g, decay, m, ids[i + 1]), decay))
  {
    PathInflow(g, ids, u => Diffused(g, decay, m, u), decay, i, |g.edges|);
    assert g.edges[..|g.edges|] == g.edges;
  }

  lemma CarriedStep(g: Graph, decay: real, ids: seq<string>, i: nat)
    requires InRange(g, decay) && SinglePath(g, ids) && i < |g.edges|
    ensures var x := Symptom(g.nodes, ids[|g.edges|]);
            && Carried(g.edges[i..], x, decay) == Message(g.edges[i], Carried(g.edges[i + 1..], x, decay), decay)
            && Unit(Carried(g.edges[i..], x, decay))
  {
    var x := Symptom(g.nodes, ids[|g.edges|]);
    SymptomUnit(g.nodes, ids[|g.edges|]);
    CarriedUnit(g.edges[i..], x, decay);
    CarriedUnit(g.edges[i + 1..], x, decay);
    assert g.edges[i..][1..] == g.edges[i + 1..] && g.edges[i..][0] == g.edges[i];
    PassedOn(g.edges[i], Carried(g.edges[i + 1..], x, decay), decay);
    hide Message;
  }

  lemma PassedOn(e: Edge, y: real, decay: real)
    requires y >= 0.0
    ensures Message(e, y, decay) == y * e.confidence * decay * (if e.directionality < 0.0 then 0.5 else 1.0)
  {
    if y == 0.0 {
      assert y * e.confidence == 0.0;
    }
  }

  /** The symptom of an identifier is that of its last node, and 0 for an unknown one. */
  lemma {:induction false} SymptomIs(nodes: seq<Node>, v: string, i: nat)
    ensures (forall j :: 0 <= j < |nodes| ==> nodes[j].id != v) ==> Symptom(nodes, v) == 0.0
    ensures i < |nodes| && nodes[i].id == v && (forall j :: i < j < |nodes| ==> nodes[j].id != v) ==>
              Symptom(nodes, v) == nodes[i].symptom
  {
    if nodes != [] {
      SymptomIs(nodes[..|nodes| - 1], v, i);
    }
  }

  // ----- the engine

  function Lookup(scores: map<string, real>, v: string): real {
    if v in scores then scores[v] else 0.0
  }

  function AsScores(scores: map<string, real>): Scores {
    v => Lookup(scores, v)
  }

  method InitialScores(nodes: seq<Node>) returns (scores: map<string, real>)
    ensures forall v :: Lookup(scores, v) == Symptom(nodes, v)
  {
    scores := map[];
    for i := 0 to |nodes|
      invariant forall v :: Lookup(scores, v) == Symptom(nodes[..i], v)
    {
      assert nodes[..i + 1][..i] == nodes[..i];
      scores := scores[nodes[i].id := nodes[i].symptom];
    }
    assert nodes[..|nodes|] == nodes;
  }

  lemma IntoStep(edges: seq<Edge>, i: nat, t: string)
    requires i < |edges|
    ensures Into(edges[..i + 1], t)
         == Into(edges[..i], t) + (if edges[i].target == t then [edges[i]] else [])
  {
    assert edges[..i + 1][..i] == edges[..i];
  }

  ghost predicate Grouped(keys: seq<string>, groups: map<string, seq<Edge>>, edges: seq<Edge>) {
    && Distinct(keys)
    && (forall t :: t in keys <==> t in groups)
    && (forall t :: t in groups ==> groups[t] == Into(edges, t))
    && (forall t :: t !in groups ==> Into(edges, t) == [])
  }

  lemma GroupedKeys(keys: seq<string>, groups: map<string, seq<Edge>>, edges: seq<Edge>, i: nat)
    requires Grouped(keys, groups, edges) && i < |edges|
    ensures edges[i].target in keys
  {
    IntoMember(edges, i);
  }

  lemma {:induction false} IntoMember(edges: seq<Edge>, i: nat)
    requires i < |edges|
    ensures Into(edges, edges[i].target) != []
  {
    if i < |edges| - 1 {
      IntoMember(edges[..|edges| - 1], i);
    }
  }

  /** Edges by target, each group in input order; keys in order of first use. */
  method BackwardEdges(edges: seq<Edge>) returns (keys: seq<string>, groups: map<string, seq<Edge>>)
    ensures Grouped(keys, groups, edges)
  {
    keys, groups := [], map[];
    for i := 0 to |edges|
      invariant Grouped(keys, groups, edges[..i])
    {
      var e := edges[i];
      forall t
        ensures Into(edges[..i + 1], t) == Into(edges[..i], t) + (if e.target == t then [e] else [])
      {
        IntoStep(edges, i, t);
      }
      if e.target !in groups {
        keys := keys + [e.target];
        groups := groups[e.target := []];
      }
      groups := groups[e.target := groups[e.target] + [e]];
    }
    assert edges[..|edges|] == edges;
  }

  /** `updated` is `scores` with the given amounts added under the cap. */
  ghost predicate Capped(scores: map<string, real>, added: Scores, updated: map<string, real>) {
    forall v :: Lookup(updated, v) == MinReal(1.0, Lookup(scores, v) + added(v))
  }

  ghost predicate AtMostOne(scores: map<string, real>) {
    forall v :: Lookup(scores, v) <= 1.0
  }

  /** Capping after each of two nonnegative additions is capping their sum. */
  lemma CappedTwice(a: map<string, real>, f: Scores, b: map<string, real>, g: Scores, c: map<string, real>, h: Scores)
    requires Capped(a, f, b) && Capped(b, g, c)
    requires forall v :: g(v) >= 0.0 && h(v) == f(v) + g(v)
    ensures Capped(a, h, c)
  {
    forall v
      ensures Lookup(c, v) == MinReal(1.0, Lookup(a, v) + h(v))
    {
      assert Lookup(b, v) == MinReal(1.0, Lookup(a, v) + f(v));
    }
  }

  function InflowOf(edges: seq<Edge>, f: Scores, decay: real): Scores {
    v => Inflow(edges, f, decay, v)
  }

  function SentBy(e: Edge, f: Scores, decay: real): Scores {
    v => Sent(e, f, decay, v)
  }

  /** One group of a round: each message is added under the cap as it comes. */
  method AddGroup(group: seq<Edge>, target: string, targetScore: real, ghost f: Scores, decay: real,
                  scores: map<string, real>) returns (updated: map<string, real>)
    requires f(target) == targetScore > 0.0
    requires forall i :: 0 <= i < |group| ==> group[i].target == target
    ensures Confident(group) && decay > 0.0 && AtMostOne(scores) ==>
              Capped(scores, InflowOf(group, f, decay), updated)
  {
    ghost var fair := Confident(group) && decay > 0.0 && AtMostOne(scores);
    updated := scores;
    for j := 0 to |group|
      invariant fair ==> Capped(scores, InflowOf(group[..j], f, decay), updated)
    {
      var e := group[j];
      var message := targetScore * e.confidence * decay;
      if e.directionality < 0.0 {
        message := message * 0.5;
      }
      assert message == Message(e, f(e.target), decay);
      ghost var before := updated;
      updated := updated[e.source := MinReal(1.0, Lookup(updated, e.source) + message)];
      if fair {
        MessageMonotone(e, e, targetScore, targetScore, decay, decay);
        assert Capped(before, SentBy(e, f, decay), updated);
        assert group[..j + 1][..j] == group[..j];
        CappedTwice(scores, InflowOf(group[..j], f, decay), before, SentBy(e, f, decay),
                    updated, InflowOf(group[..j + 1], f, decay));
      }
    }
    assert group[..|group|] == group;
  }

  lemma IntoConfident(edges: seq<Edge>, t: string)
    requires Confident(edges)
    ensures Confident(Into(edges, t))
  {
  }

  function GroupedInflowOf(keys: seq<string>, edges: seq<Edge>, f: Scores, decay: real): Scores {
    v => GroupedInflow(keys, edges, f, decay, v)
  }

  /** Adding group k, or skipping it when its target is silent, extends the
      round by that group's inflow. */
  lemma RoundStep(edges: seq<Edge>, keys: seq<string>, k: nat, f: Scores, decay: real,
                  scores: map<string, real>, before: map<string, real>, after: map<string, real>)
    requires k < |keys| && Confident(edges) && decay > 0.0
    requires forall v :: Unit(f(v))
    requires AtMostOne(scores)
    requires Capped(scores, GroupedInflowOf(keys[..k], edges, f, decay), before)
    requires if f(keys[k]) > 0.0 then Capped(before, InflowOf(Into(edges, keys[k]), f, decay), after)
             else after == before
    ensures Capped(scores, GroupedInflowOf(keys[..k + 1], edges, f, decay), after)
  {
    var target := keys[k];
    var group := Into(edges, target);
    IntoConfident(edges, target);
    forall v
      ensures Inflow(group, f, decay, v) >= 0.0
      ensures f(target) <= 0.0 ==> Inflow(group, f, decay, v) == 0.0
    {
      InflowNonnegative(group, f, decay, v);
      if f(target) <= 0.0 {
        SilentGroup(group, target, f, decay, v);
      }
    }
    assert Capped(before, InflowOf(group, f, decay), after);
    assert keys[..k + 1][..k] == keys[..k];
    CappedTwice(scores, GroupedInflowOf(keys[..k], edges, f, decay), before, InflowOf(group, f, decay),
                after, GroupedInflowOf(keys[..k + 1], edges, f, decay));
  }

  lemma RoundEnd(keys: seq<string>, groups: map<string, seq<Edge>>, edges: seq<Edge>, f: Scores, decay: real)
    requires Grouped(keys, groups, edges)
    ensures forall v :: GroupedInflowOf(keys, edges, f, decay)(v) == InflowOf(edges, f, decay)(v)
  {
    forall i | 0 <= i < |edges|
      ensures edges[i].target in keys
    {
      GroupedKeys(keys, groups, edges, i);
    }
    forall v
      ensures GroupedInflow(keys, edges, f, decay, v) == Inflow(edges, f, decay, v)
    {
      GroupedIsInflow(keys, edges, f, decay, v);
    }
  }

  /** One synchronous round over all groups. */
  method Round(edges: seq<Edge>, keys: seq<string>, groups: map<string, seq<Edge>>, decay: real,
               scores: map<string, real>) returns (newScores: map<string, real>)
    requires Grouped(keys, groups, edges)
    ensures Confident(edges) && decay > 0.0 && (forall v :: Unit(Lookup(scores, v))) ==>
              Capped(scores, InflowOf(edges, AsScores(scores), decay), newScores)
  {
    ghost var f := AsScores(scores);
    ghost var fair := Confident(edges) && decay > 0.0 && forall v :: Unit(Lookup(scores, v));
    newScores := scores;
    for k := 0 to |keys|
      invariant fair ==> Capped(scores, GroupedInflowOf(keys[..k], edges, f, decay), newScores)
    {
      var target := keys[k];
      ghost var before := newScores;
      var targetScore := Lookup(scores, target);
      if targetScore > 0.0 {
        newScores := AddGroup(groups[target], target, targetScore, f, decay, newScores);
      }
      if fair {
        IntoConfident(edges, target);
        RoundStep(edges, keys, k, f, decay, scores, before, newScores);
      }
    }
    assert keys[..|keys|] == keys;
    RoundEnd(keys, groups, edges, f, decay);
  }

  /** The engine: within the documented ranges every node's root probability is
      the reference score after `steps` rounds. */
  method RunBackwardDiffusion(g: Graph, steps: nat, decay: real) returns (root: map<string, real>)
    ensures forall v :: v in root <==> exists i :: 0 <= i < |g.nodes| && g.nodes[i].id == v
    ensures InRange(g, decay) ==> forall v :: v in root ==> root[v] == Diffused(g, decay, steps, v)
  {
    var scores := InitialScores(g.nodes);
    var keys, groups := BackwardEdges(g.edges);
    for k := 0 to steps
      invariant InRange(g, decay) ==> forall v :: Lookup(scores, v) == Diffused(g, decay, k, v)
    {
      ghost var before := scores;
      scores := Round(g.edges, keys, groups, decay, scores);
      if InRange(g, decay) {
        forall v
          ensures Unit(Lookup(before, v))
        {
          DiffusedUnit(g, decay, k, v);
        }
        forall v
          ensures Lookup(scores, v) == Diffused(g, decay, k + 1, v)
        {
          InflowExtensional(g.edges, AsScores(before), u => Diffused(g, decay, k, u), decay, v);
        }
      }
    }
    root := map i | 0 <= i < |g.nodes| :: g.nodes[i].id := MinReal(1.0, Lookup(scores, g.nodes[i].id));
    if InRange(g, decay) {
      forall v | v in root
        ensures root[v] == Diffused(g, decay, steps, v)
      {
        DiffusedUnit(g, decay, steps, v);
      }
    }
  }
}
