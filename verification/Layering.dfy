/** Repairing layers after an edge has been added: valid layerings, the least one above the current
    layers, and the measure that bounds the worklist. */
module Layering {
  import opened GraphModel
  import opened Evaluation
  import opened Acyclic

  /** `bound` is a layering of the live nodes, nowhere below their current layers. */
  ghost predicate LayeringAbove(nodes: seq<NodeData>, bound: seq<nat>) {
    && |bound| == |nodes|
    && (forall i :: 0 <= i < |nodes| ==> nodes[i].layer <= bound[i])
    && (forall i: nat, e :: Live(nodes, i) && e in nodes[i].upstreams ==> e.node < |nodes| && bound[e.node] < bound[i])
  }

  /** The live graph is acyclic, as witnessed by a rank that falls along every edge. */
  ghost predicate Ranked(nodes: seq<NodeData>, rank: seq<nat>) {
    && |rank| == |nodes|
    && forall i: nat, e :: Live(nodes, i) && e in nodes[i].upstreams ==> e.node < |nodes| && rank[e.node] < rank[i]
  }

  function MaxLayer(nodes: seq<NodeData>): (m: nat)
    ensures forall i :: 0 <= i < |nodes| ==> nodes[i].layer <= m
  {
    if nodes == [] then 0
    else
      var m := MaxLayer(nodes[..|nodes| - 1]);
      if nodes[|nodes| - 1].layer > m then nodes[|nodes| - 1].layer else m
  }

  function Lifted(rank: seq<nat>, base: nat): (bound: seq<nat>)
    ensures |bound| == |rank| && forall i :: 0 <= i < |rank| ==> bound[i] == base + rank[i]
  {
    if rank == [] then [] else Lifted(rank[..|rank| - 1], base) + [base + rank[|rank| - 1]]
  }

  /** An acyclic graph has a layering above any current layers. */
  lemma RankGivesLayering(nodes: seq<NodeData>, rank: seq<nat>)
    requires Ranked(nodes, rank)
    ensures LayeringAbove(nodes, Lifted(rank, MaxLayer(nodes)))
  {
  }

  // ----- A layering exists if and only if the live edges close no cycle -----

  ghost predicate LivePath(nodes: seq<NodeData>, p: seq<nat>) {
    && |p| > 0
    && (forall i :: 0 <= i < |p| ==> Live(nodes, p[i]))
    && forall i, j :: 0 <= i < |p| - 1 && j == i + 1 ==> LiveEdge(nodes, p[i], p[j])
  }

  ghost predicate LiveEdge(nodes: seq<NodeData>, u: nat, v: nat) {
    Live(nodes, v) && exists a :: Edge(u, a) in nodes[v].upstreams
  }

  /** Some path along live edges comes back to where it started. */
  ghost predicate Cyclic(nodes: seq<NodeData>) {
    exists p :: LivePath(nodes, p) && |p| > 1 && p[0] == p[|p| - 1]
  }

  ghost function LiveRelation(nodes: seq<NodeData>): Relation {
    (u: nat, v: nat) => LiveEdge(nodes, u, v)
  }

  lemma CyclicIsCycle(nodes: seq<NodeData>)
    ensures Cyclic(nodes) <==> HasCycle(LiveRelation(nodes))
  {
    var r := LiveRelation(nodes);
    if p :| LivePath(nodes, p) && |p| > 1 && p[0] == p[|p| - 1] {
      assert Closes(r, p);
    }
    if p :| Closes(r, p) {
      forall i | 0 <= i < |p| ensures Live(nodes, p[i]) {
        var k := if i == 0 then |p| - 1 else i;
        assert r(p[k - 1], p[k]);
      }
      forall i, j | 0 <= i < |p| - 1 && j == i + 1 ensures LiveEdge(nodes, p[i], p[j]) {
        assert r(p[i], p[j]);
      }
      assert LivePath(nodes, p);
    }
  }

  function RanksBy(rank: nat -> nat, n: nat): (ranks: seq<nat>)
    ensures |ranks| == n && forall i :: 0 <= i < n ==> ranks[i] == rank(i)
  {
    if n == 0 then [] else RanksBy(rank, n - 1) + [rank(n - 1)]
  }

  /** Without a cycle, walking upstream comes to an end, and how soon it does is a layering. */
  lemma AcyclicHasLayering(nodes: seq<NodeData>) returns (bound: seq<nat>)
    requires LiveEdges(nodes) && !Cyclic(nodes)
    ensures LayeringAbove(nodes, bound)
  {
    CyclicIsCycle(nodes);
    var r := LiveRelation(nodes);
    assert Within(r, Below(|nodes|)) by {
      forall u: nat, v: nat | r(u, v) ensures u < |nodes| && v < |nodes| {
        var a :| Edge(u, a) in nodes[v].upstreams;
        assert Live(nodes, u);
      }
    }
    var rank := AcyclicHasRank(r, Below(|nodes|));
    var ranks := RanksBy(rank, |nodes|);
    forall i: nat, e | Live(nodes, i) && e in nodes[i].upstreams ensures e.node < |nodes| && ranks[e.node] < ranks[i] {
      assert e == Edge(e.node, e.active);
      assert Live(nodes, e.node) && r(e.node, i);
    }
    RankGivesLayering(nodes, ranks);
    bound := Lifted(ranks, MaxLayer(nodes));
  }

  /** If the live edges close a cycle, no layering exists. */
  lemma CycleHasNoLayering(nodes: seq<NodeData>, bound: seq<nat>)
    requires Cyclic(nodes)
    ensures !LayeringAbove(nodes, bound)
  {
    if LayeringAbove(nodes, bound) {
      var p :| LivePath(nodes, p) && |p| > 1 && p[0] == p[|p| - 1];
      LayersRiseAlongPath(nodes, bound, p);
    }
  }

  lemma {:induction false} LayersRiseAlongPath(nodes: seq<NodeData>, bound: seq<nat>, p: seq<nat>)
    requires LayeringAbove(nodes, bound) && LivePath(nodes, p)
    ensures bound[p[0]] + |p| - 1 <= bound[p[|p| - 1]]
  {
    if |p| > 1 {
      var q := p[..|p| - 1];
      LayersRiseAlongPath(nodes, bound, q);
      assert LiveEdge(nodes, p[|p| - 2], p[|p| - 1]);
    }
  }

  /** A layering above the current layers exists if and only if the live edges close no cycle. */
  lemma LayeringIffAcyclic(nodes: seq<NodeData>)
    requires LiveEdges(nodes)
    ensures (exists bound :: LayeringAbove(nodes, bound)) <==> !Cyclic(nodes)
  {
    if !Cyclic(nodes) {
      var bound := AcyclicHasLayering(nodes);
    }
    if bound :| LayeringAbove(nodes, bound) {
      if Cyclic(nodes) {
        CycleHasNoLayering(nodes, bound);
      }
    }
  }

  // ----- The worklist -----

  ghost predicate SameButLayers(nodes: seq<NodeData>, nodes': seq<NodeData>) {
    && |nodes'| == |nodes|
    && forall i :: 0 <= i < |nodes| ==> nodes'[i] == nodes[i].(layer := nodes'[i].layer)
  }

  ghost predicate Satisfied(nodes: seq<NodeData>, v: nat)
    requires v < |nodes|
  {
    forall e :: e in nodes[v].upstreams ==> e.node < |nodes| && nodes[e.node].layer < nodes[v].layer
  }

  function Raise(nodes: seq<NodeData>, v: nat, layer: nat): seq<NodeData>
    requires v < |nodes|
  {
    nodes[v := nodes[v].(layer := layer)]
  }

  function Targets(edges: seq<Edge>): seq<nat> {
    seq(|edges|, k requires 0 <= k < |edges| => edges[k].node)
  }

  lemma TargetsMember(edges: seq<Edge>, v: nat)
    ensures v in Targets(edges) <==> exists a :: Edge(v, a) in edges
  {
    if v in Targets(edges) {
      var k :| 0 <= k < |edges| && Targets(edges)[k] == v;
      assert edges[k] == Edge(v, edges[k].active);
    }
    if a :| Edge(v, a) in edges {
      var k :| 0 <= k < |edges| && edges[k] == Edge(v, a);
      assert Targets(edges)[k] == v;
    }
  }

  ghost function Headroom(nodes: seq<NodeData>, bound: seq<nat>): nat
    requires |bound| == |nodes|
  {
    if nodes == [] then 0
    else
      var n := |nodes| - 1;
      Headroom(nodes[..n], bound[..n]) + (if nodes[n].layer <= bound[n] then bound[n] - nodes[n].layer else 0)
  }

  lemma {:induction false} RaiseUsesHeadroom(nodes: seq<NodeData>, bound: seq<nat>, v: nat, layer: nat)
    requires |bound| == |nodes| && v < |nodes| && nodes[v].layer < layer <= bound[v]
    ensures Headroom(Raise(nodes, v, layer), bound) < Headroom(nodes, bound)
  {
    var n := |nodes| - 1;
    var nodes' := Raise(nodes, v, layer);
    if v < n {
      RaiseUsesHeadroom(nodes[..n], bound[..n], v, layer);
      assert nodes'[..n] == Raise(nodes[..n], v, layer);
    } else {
      assert nodes'[..n] == nodes[..n];
    }
  }

  /** Only live nodes wait in the queue, and whatever is violated waits. */
  ghost predicate QueueCovers(nodes: seq<NodeData>, queue: seq<nat>) {
    && (forall v :: v in queue ==> Live(nodes, v))
    && (forall v: nat :: Live(nodes, v) && !Satisfied(nodes, v) ==> v in queue)
  }

  /** Layers have only risen, and not above any layering. */
  ghost predicate Least(nodes0: seq<NodeData>, nodes: seq<NodeData>) {
    && SameButLayers(nodes0, nodes)
    && (forall i :: 0 <= i < |nodes0| ==> nodes0[i].layer <= nodes[i].layer)
    && (forall bound :: LayeringAbove(nodes0, bound) ==> forall i :: 0 <= i < |nodes0| ==> nodes[i].layer <= bound[i])
  }

  lemma RequiredWithin(nodes: seq<NodeData>, v: nat, bound: seq<nat>)
    requires Live(nodes, v) && LayeringAbove(nodes, bound) && EdgesInRange(nodes[v].upstreams, |nodes|)
    ensures RequiredLayer(nodes[v].upstreams, nodes) <= bound[v]
  {
    var edges := nodes[v].upstreams;
    if RequiredLayer(edges, nodes) > 0 {
      var k :| 0 <= k < |edges| && RequiredLayer(edges, nodes) == nodes[edges[k].node].layer + 1;
      assert edges[k] in nodes[v].upstreams;
    }
  }

  lemma LeastIsBelow(nodes0: seq<NodeData>, nodes: seq<NodeData>, bound: seq<nat>)
    requires Least(nodes0, nodes) && LayeringAbove(nodes0, bound)
    ensures LayeringAbove(nodes, bound)
  {
    forall i: nat, e | Live(nodes, i) && e in nodes[i].upstreams ensures e.node < |nodes| && bound[e.node] < bound[i] {
      assert Live(nodes0, i) && e in nodes0[i].upstreams;
    }
  }

  lemma RaiseStaysLeast(nodes0: seq<NodeData>, nodes: seq<NodeData>, v: nat)
    requires Least(nodes0, nodes) && Live(nodes, v)
    requires EdgesInRange(nodes[v].upstreams, |nodes|)
    requires RequiredLayer(nodes[v].upstreams, nodes) > nodes[v].layer
    ensures Least(nodes0, Raise(nodes, v, RequiredLayer(nodes[v].upstreams, nodes)))
  {
    var nodes' := Raise(nodes, v, RequiredLayer(nodes[v].upstreams, nodes));
    forall bound | LayeringAbove(nodes0, bound)
      ensures forall i :: 0 <= i < |nodes0| ==> nodes'[i].layer <= bound[i]
    {
      LeastIsBelow(nodes0, nodes, bound);
      RequiredWithin(nodes, v, bound);
    }
  }

  lemma RequiredSatisfies(nodes: seq<NodeData>, v: nat, layer: nat)
    requires v < |nodes| && EdgesInRange(nodes[v].upstreams, |nodes|)
    requires layer >= RequiredLayer(nodes[v].upstreams, nodes) && layer >= nodes[v].layer
    ensures Satisfied(Raise(nodes, v, layer), v) || exists a :: Edge(v, a) in nodes[v].upstreams
  {
    forall e | e in nodes[v].upstreams ensures e.node < |nodes| && nodes[e.node].layer < layer {
      var k :| 0 <= k < |nodes[v].upstreams| && nodes[v].upstreams[k] == e;
    }
    if e :| e in nodes[v].upstreams && e.node == v {
      assert e == Edge(v, e.active);
    }
  }

  lemma RaiseQueues(nodes: seq<NodeData>, v: nat, layer: nat, w: nat)
    requires LiveEdges(nodes) && Transposed(nodes) && Live(nodes, v) && Live(nodes, w)
    requires layer >= nodes[v].layer
    requires Satisfied(nodes, w) && !Satisfied(Raise(nodes, v, layer), w)
    ensures w in Targets(nodes[v].downstreams)
  {
    var nodes' := Raise(nodes, v, layer);
    var e :| e in nodes[w].upstreams && !(nodes'[e.node].layer < nodes'[w].layer);
    assert e == Edge(v, e.active);
    Mirrored(nodes, v, w, e.active);
    TargetsMember(nodes[v].downstreams, w);
  }

  lemma TargetsLive(nodes: seq<NodeData>, v: nat)
    requires LiveEdges(nodes) && Live(nodes, v)
    ensures forall w :: w in Targets(nodes[v].downstreams) ==> Live(nodes, w)
  {
    forall w | w in Targets(nodes[v].downstreams) ensures Live(nodes, w) {
      TargetsMember(nodes[v].downstreams, w);
    }
  }

  lemma PopRaises(nodes: seq<NodeData>, queue: seq<nat>, v: nat, layer: nat)
    requires LiveEdges(nodes) && Transposed(nodes) && QueueCovers(nodes, queue) && queue != []
    requires v == queue[0] && v < |nodes| && EdgesInRange(nodes[v].upstreams, |nodes|)
    requires layer == RequiredLayer(nodes[v].upstreams, nodes) > nodes[v].layer
    ensures QueueCovers(Raise(nodes, v, layer), queue[1..] + Targets(nodes[v].downstreams))
  {
    var nodes' := Raise(nodes, v, layer);
    var targets := Targets(nodes[v].downstreams);
    forall w: nat | Live(nodes', w) && !Satisfied(nodes', w) ensures w in queue[1..] + targets {
      PopRaisesAt(nodes, queue, v, layer, w);
    }
    TargetsLive(nodes, v);
    hide Targets, LiveEdges, RequiredLayer, Satisfied, Transposed;
    assert forall w: nat :: Live(nodes', w) <==> Live(nodes, w);
  }

  lemma PopRaisesAt(nodes: seq<NodeData>, queue: seq<nat>, v: nat, layer: nat, w: nat)
    requires LiveEdges(nodes) && Transposed(nodes) && QueueCovers(nodes, queue) && queue != []
    requires v == queue[0] && v < |nodes| && EdgesInRange(nodes[v].upstreams, |nodes|)
    requires layer == RequiredLayer(nodes[v].upstreams, nodes) > nodes[v].layer
    requires Live(Raise(nodes, v, layer), w) && !Satisfied(Raise(nodes, v, layer), w)
    ensures w in queue[1..] + Targets(nodes[v].downstreams)
  {
    RequiredSatisfies(nodes, v, layer);
    hide Targets, LiveEdges, RequiredLayer;
    if w == v {
      var a :| Edge(v, a) in nodes[v].upstreams;
      Mirrored(nodes, v, v, a);
      TargetsMember(nodes[v].downstreams, v);
    } else if Satisfied(nodes, w) {
      RaiseQueues(nodes, v, layer, w);
    } else {
      assert Live(nodes, w) && w in queue;
    }
  }

  lemma PopSettled(nodes: seq<NodeData>, queue: seq<nat>, v: nat)
    requires QueueCovers(nodes, queue) && queue != []
    requires v == queue[0] && v < |nodes| && EdgesInRange(nodes[v].upstreams, |nodes|)
    requires RequiredLayer(nodes[v].upstreams, nodes) <= nodes[v].layer
    ensures QueueCovers(nodes, queue[1..])
  {
    assert Satisfied(nodes, v) by {
      forall e | e in nodes[v].upstreams ensures e.node < |nodes| && nodes[e.node].layer < nodes[v].layer {
        var k :| 0 <= k < |nodes[v].upstreams| && nodes[v].upstreams[k] == e;
      }
    }
    hide Satisfied, RequiredLayer;
    assert forall w :: w in queue <==> w == v || w in queue[1..];
  }

  // ----- The worklist, step by step -----

  datatype Work = Work(nodes: seq<NodeData>, queue: seq<nat>)

  /** What every step maintains, cycle or no cycle. */
  ghost predicate WorkOk(w: Work) {
    LiveEdges(w.nodes) && Transposed(w.nodes) && QueueCovers(w.nodes, w.queue)
  }

  lemma UpstreamsUsable(nodes: seq<NodeData>, v: nat)
    requires LiveEdges(nodes) && Live(nodes, v)
    ensures EdgesInRange(nodes[v].upstreams, |nodes|)
  {
    forall k | 0 <= k < |nodes[v].upstreams| ensures nodes[v].upstreams[k].node < |nodes| {
      assert nodes[v].upstreams[k] in nodes[v].upstreams;
    }
  }

  /** One turn of the loop: the node at the front of the queue is raised to the layer it requires, and its
      downstreams queue behind; or it is in order, and leaves. */
  ghost function Pop(w: Work): Work
    requires WorkOk(w) && w.queue != []
  {
    var v := w.queue[0];
    UpstreamsUsable(w.nodes, v);
    var required := RequiredLayer(w.nodes[v].upstreams, w.nodes);
    if required > w.nodes[v].layer
    then Work(Raise(w.nodes, v, required), w.queue[1..] + Targets(w.nodes[v].downstreams))
    else Work(w.nodes, w.queue[1..])
  }

  lemma EdgesSurvive(nodes0: seq<NodeData>, nodes: seq<NodeData>)
    requires LiveEdges(nodes0) && Transposed(nodes0) && SameButLayers(nodes0, nodes)
    ensures LiveEdges(nodes) && Transposed(nodes)
  {
    assert forall i: nat :: Live(nodes, i) <==> Live(nodes0, i);
    assert forall i :: 0 <= i < |nodes| ==>
      nodes[i].upstreams == nodes0[i].upstreams && nodes[i].downstreams == nodes0[i].downstreams;
  }

  lemma PopOk(w: Work)
    requires WorkOk(w) && w.queue != []
    ensures WorkOk(Pop(w)) && SameButLayers(w.nodes, Pop(w).nodes)
  {
    var v := w.queue[0];
    UpstreamsUsable(w.nodes, v);
    var required := RequiredLayer(w.nodes[v].upstreams, w.nodes);
    if required > w.nodes[v].layer {
      PopRaises(w.nodes, w.queue, v, required);
      RaiseSame(w.nodes, v, required);
      EdgesSurvive(w.nodes, Raise(w.nodes, v, required));
    } else {
      PopSettled(w.nodes, w.queue, v);
      SameAsItself(w.nodes);
    }
    hide LiveEdges, Transposed, QueueCovers, RequiredLayer, Targets, SameButLayers, Raise;
  }

  lemma RaiseSame(nodes: seq<NodeData>, v: nat, layer: nat)
    requires v < |nodes|
    ensures SameButLayers(nodes, Raise(nodes, v, layer))
  {
  }

  /** A step stays below every layering and uses up headroom or queue. */
  lemma PopProgresses(w: Work, bound: seq<nat>)
    requires WorkOk(w) && w.queue != [] && LayeringAbove(w.nodes, bound)
    ensures LayeringAbove(Pop(w).nodes, bound)
    ensures || Headroom(Pop(w).nodes, bound) < Headroom(w.nodes, bound)
            || (Pop(w).nodes == w.nodes && |Pop(w).queue| < |w.queue|)
  {
    var v := w.queue[0];
    UpstreamsUsable(w.nodes, v);
    var required := RequiredLayer(w.nodes[v].upstreams, w.nodes);
    RequiredWithin(w.nodes, v, bound);
    if required > w.nodes[v].layer {
      RaiseUsesHeadroom(w.nodes, bound, v, required);
      RaiseStaysBelow(w.nodes, v, required, bound);
    }
    hide LiveEdges, Transposed, QueueCovers, RequiredLayer, Targets, LayeringAbove, Headroom, Raise;
  }

  lemma RaiseStaysBelow(nodes: seq<NodeData>, v: nat, layer: nat, bound: seq<nat>)
    requires LayeringAbove(nodes, bound) && v < |nodes| && layer <= bound[v]
    ensures LayeringAbove(Raise(nodes, v, layer), bound)
  {
    var nodes' := Raise(nodes, v, layer);
    forall i: nat, e | Live(nodes', i) && e in nodes'[i].upstreams
      ensures e.node < |nodes'| && bound[e.node] < bound[i]
    {
      assert Live(nodes, i) && e in nodes[i].upstreams;
    }
  }

  /** The worklist after `k` turns of the loop, or after as many as there are. */
  ghost function Worked(w: Work, k: nat): (w': Work)
    requires WorkOk(w)
    ensures WorkOk(w')
  {
    if k == 0 then w
    else
      var w1 := Worked(w, k - 1);
      if w1.queue == [] then w1
      else
        PopOk(w1);
        Pop(w1)
  }

  lemma {:induction false} WorkedKeepsEdges(w: Work, k: nat)
    requires WorkOk(w)
    ensures SameButLayers(w.nodes, Worked(w, k).nodes)
  {
    hide WorkOk, Pop, SameButLayers;
    if k == 0 {
      SameAsItself(w.nodes);
    } else {
      var w1 := Worked(w, k - 1);
      WorkedKeepsEdges(w, k - 1);
      if w1.queue != [] {
        PopOk(w1);
        SameThrough(w.nodes, w1.nodes, Pop(w1).nodes);
      }
    }
  }

  lemma SameAsItself(nodes: seq<NodeData>)
    ensures SameButLayers(nodes, nodes)
  {
  }

  lemma SameThrough(a: seq<NodeData>, b: seq<NodeData>, c: seq<NodeData>)
    requires SameButLayers(a, b) && SameButLayers(b, c)
    ensures SameButLayers(a, c)
  {
  }

  /** With the queue empty, the layers are in order. */
  lemma Settles(w: Work)
    requires WorkOk(w) && w.queue == []
    ensures Layered(w.nodes) && !Cyclic(w.nodes)
  {
    var nodes := w.nodes;
    forall i: nat, e | Live(nodes, i) && e in nodes[i].upstreams
      ensures e.node < |nodes| && nodes[e.node].layer < nodes[i].layer
    {
      assert Satisfied(nodes, i);
    }
    var bound := LayersOf(nodes);
    assert LayeringAbove(nodes, bound);
    if Cyclic(nodes) {
      CycleHasNoLayering(nodes, bound);
    }
  }

  function LayersOf(nodes: seq<NodeData>): (layers: seq<nat>)
    ensures |layers| == |nodes| && forall i :: 0 <= i < |nodes| ==> layers[i] == nodes[i].layer
  {
    if nodes == [] then [] else LayersOf(nodes[..|nodes| - 1]) + [nodes[|nodes| - 1].layer]
  }

  lemma CyclesSurvive(nodes: seq<NodeData>, nodes': seq<NodeData>)
    requires SameButLayers(nodes, nodes') && Cyclic(nodes)
    ensures Cyclic(nodes')
  {
    var p :| LivePath(nodes, p) && |p| > 1 && p[0] == p[|p| - 1];
    forall i, j | 0 <= i < |p| - 1 && j == i + 1 ensures LiveEdge(nodes', p[i], p[j]) {
      assert LiveEdge(nodes, p[i], p[j]);
    }
    assert LivePath(nodes', p);
  }

  lemma {:induction false} EndsFrom(w: Work, k: nat, bound: seq<nat>) returns (k': nat)
    requires WorkOk(w) && LayeringAbove(Worked(w, k).nodes, bound)
    ensures Worked(w, k').queue == []
    decreases Headroom(Worked(w, k).nodes, bound), |Worked(w, k).queue|
  {
    var w1 := Worked(w, k);
    if w1.queue == [] {
      k' := k;
    } else {
      PopProgresses(w1, bound);
      assert Worked(w, k + 1) == Pop(w1);
      hide *;
      k' := EndsFrom(w, k + 1, bound);
    }
  }

  /** The worklist runs empty if and only if the live edges close no cycle; on a cycle it goes on raising
      layers for ever. */
  lemma WorklistEndsIffAcyclic(w: Work)
    requires WorkOk(w)
    ensures (exists k: nat :: Worked(w, k).queue == []) <==> !Cyclic(w.nodes)
  {
    if !Cyclic(w.nodes) {
      var bound := AcyclicHasLayering(w.nodes);
      assert Worked(w, 0) == w;
      var k := EndsFrom(w, 0, bound);
    }
    if k: nat :| Worked(w, k).queue == [] {
      Settles(Worked(w, k));
      WorkedKeepsEdges(w, k);
      if Cyclic(w.nodes) {
        CyclesSurvive(w.nodes, Worked(w, k).nodes);
      }
    }
  }

  lemma PopStaysLeast(nodes0: seq<NodeData>, w: Work)
    requires WorkOk(w) && w.queue != [] && Least(nodes0, w.nodes)
    ensures Least(nodes0, Pop(w).nodes)
  {
    var v := w.queue[0];
    UpstreamsUsable(w.nodes, v);
    if RequiredLayer(w.nodes[v].upstreams, w.nodes) > w.nodes[v].layer {
      RaiseStaysLeast(nodes0, w.nodes, v);
    }
    hide Least, WorkOk;
  }

  /** The loop has taken `k` turns of the worklist that started at `start`, below `bound` all the way. */
  ghost predicate Progress(nodes0: seq<NodeData>, nodes: seq<NodeData>, queue: seq<nat>, bound: seq<nat>, start: nat,
                           k: nat) {
    && WorkOk(Work(nodes0, [start])) && Work(nodes, queue) == Worked(Work(nodes0, [start]), k)
    && LayeringAbove(nodes, bound) && Least(nodes0, nodes)
  }

  lemma ProgressStarts(nodes: seq<NodeData>, bound: seq<nat>, start: nat)
    requires LiveEdges(nodes) && Transposed(nodes) && LayeringAbove(nodes, bound) && Live(nodes, start)
    requires forall v: nat :: Live(nodes, v) && v != start ==> Satisfied(nodes, v)
    ensures Progress(nodes, nodes, [start], bound, start, 0)
  {
    assert start in [start];
  }

  /** The worklist as the loop finds it before one of its turns. */
  lemma PopFront(nodes0: seq<NodeData>, nodes: seq<NodeData>, queue: seq<nat>, bound: seq<nat>, start: nat, k: nat,
                 v: nat)
    requires Progress(nodes0, nodes, queue, bound, start, k) && queue != [] && v == queue[0]
    ensures Live(nodes, v) && EdgesInRange(nodes[v].upstreams, |nodes|) && |bound| == |nodes|
    ensures var required := RequiredLayer(nodes[v].upstreams, nodes);
            if required > nodes[v].layer then
              && |Raise(nodes, v, required)| == |nodes| && Raise(nodes, v, required)[v].layer == required
              && Progress(nodes0, Raise(nodes, v, required), queue[1..] + Targets(nodes[v].downstreams),
                          bound, start, k + 1)
              && Headroom(Raise(nodes, v, required), bound) < Headroom(nodes, bound)
            else Progress(nodes0, nodes, queue[1..], bound, start, k + 1)
  {
    var w := Work(nodes, queue);
    assert WorkOk(w);
    UpstreamsUsable(nodes, v);
    PopProgresses(w, bound);
    PopStaysLeast(nodes0, w);
    RaiseChanges(nodes, v);
    assert forall layer: nat :: |Raise(nodes, v, layer)| == |nodes| && Raise(nodes, v, layer)[v].layer == layer;
    hide Least, QueueCovers, LiveEdges, Transposed, LayeringAbove, RequiredLayer, Targets, Raise, Headroom;
  }

  lemma RaiseChanges(nodes: seq<NodeData>, v: nat)
    requires v < |nodes|
    ensures forall layer: nat :: layer != nodes[v].layer ==> Raise(nodes, v, layer) != nodes
  {
    forall layer: nat | layer != nodes[v].layer ensures Raise(nodes, v, layer) != nodes {
      assert Raise(nodes, v, layer)[v].layer == layer;
    }
  }

  /** When the queue has run empty, the layers are in order. */
  lemma ProgressEnds(nodes0: seq<NodeData>, nodes: seq<NodeData>, bound: seq<nat>, start: nat, k: nat)
    requires Progress(nodes0, nodes, [], bound, start, k)
    ensures LiveEdges(nodes) && Transposed(nodes) && Layered(nodes) && Least(nodes0, nodes)
    ensures WorkOk(Work(nodes0, [start])) && Worked(Work(nodes0, [start]), k) == Work(nodes, [])
  {
    Settles(Work(nodes, []));
  }
}
