/** Wiring a new upstream into a running graph. */
module Additions {
  import opened GraphModel
  import opened Evaluation
  import opened Wiring
  import opened Edits
  import opened Layering
  import opened Dispatch
  import opened Acyclic

  /** A pending `add_upstream`: `node` is to become an upstream of the node at index `caller`. */
  datatype Addition = Addition(node: Id, caller: nat, active: bool)

  function NodesOf(additions: seq<Addition>): (ids: seq<Id>)
    ensures |ids| == |additions| && forall k :: 0 <= k < |ids| ==> ids[k] == additions[k].node
  {
    if additions == [] then [] else [additions[0].node] + NodesOf(additions[1..])
  }

  /** The edges the additions give to node `i`: one per distinct upstream, the first request wins. */
  function CallerEdges(additions: seq<Addition>, index: map<Id, nat>, i: nat): (edges: seq<Edge>)
    requires forall a :: a in additions ==> a.node in index
  {
    if additions == [] then []
    else
      var earlier, last := additions[..|additions| - 1], additions[|additions| - 1];
      assert last in additions;
      if last.caller == i && !Requested(earlier, last.caller, last.node)
      then CallerEdges(earlier, index, i) + [Edge(index[last.node], last.active)]
      else CallerEdges(earlier, index, i)
  }

  predicate Requested(additions: seq<Addition>, caller: nat, node: Id) {
    exists a :: a in additions && a.caller == caller && a.node == node
  }

  // ----- Acyclicity -----

  ghost predicate RankedBy(nodes: seq<NodeData>, rank: Id -> nat) {
    forall i: nat, e :: Live(nodes, i) && e in nodes[i].upstreams ==>
      e.node < |nodes| && rank(nodes[e.node].id) < rank(nodes[i].id)
  }

  /** Node `y` feeds node `x` once the nodes in `gone` are removed and the additions are in place: by an edge
      between nodes that stay, by the declaration of a new node, or by an added caller edge. */
  ghost predicate FeedsAfter(decl: Declaration, nodes: seq<NodeData>, index: map<Id, nat>, gone: seq<Id>,
                             additions: seq<Addition>, y: Id, x: Id) {
    || (x !in gone && y !in gone && HasEdge(nodes, y, x))
    || (x !in index && NeededBy(decl, NodesOf(additions), x) && DependsOn(decl, x, y))
    || (exists a :: a in additions && a.node == y && a.caller < |nodes| && nodes[a.caller].id == x)
  }

  ghost predicate HasEdge(nodes: seq<NodeData>, y: Id, x: Id) {
    exists i: nat, e ::
      Live(nodes, i) && e in nodes[i].upstreams && e.node < |nodes| && nodes[i].id == x && nodes[e.node].id == y
  }

  ghost function FeedingAfter(decl: Declaration, nodes: seq<NodeData>, index: map<Id, nat>, gone: seq<Id>,
                              additions: seq<Addition>): Relation {
    (y: nat, x: nat) => FeedsAfter(decl, nodes, index, gone, additions, y, x)
  }

  /** With the removals and the additions in place, the graph has no cycle. */
  ghost predicate NoNewCycle(decl: Declaration, nodes: seq<NodeData>, index: map<Id, nat>, gone: seq<Id>,
                             additions: seq<Addition>) {
    !HasCycle(FeedingAfter(decl, nodes, index, gone, additions))
  }

  /** The same, as witnessed by a rank: it falls along every existing edge, every declared edge of a new node,
      and every added caller edge. */
  ghost predicate StaysAcyclic(decl: Declaration, nodes: seq<NodeData>, index: map<Id, nat>,
                               additions: seq<Addition>, rank: Id -> nat) {
    && RankedBy(nodes, rank)
    && (forall x, y {:trigger DependsOn(decl, x, y)} ::
          x !in index && NeededBy(decl, NodesOf(additions), x) && DependsOn(decl, x, y) ==> rank(y) < rank(x))
    && (forall a :: a in additions ==> a.caller < |nodes| && rank(a.node) < rank(nodes[a.caller].id))
  }

  lemma {:induction false} PathStaysWithin(decl: Declaration, universe: set<Id>, p: seq<Id>)
    requires ClosedUnder(decl, universe) && IsPath(decl, p) && p[0] in universe
    ensures p[|p| - 1] in universe
    decreases |p|
  {
    if |p| > 1 {
      PathTail(decl, p);
      PathStaysWithin(decl, universe, p[1..]);
    }
  }

  lemma NeededIsWithin(decl: Declaration, universe: set<Id>, roots: seq<Id>, x: Id)
    requires ClosedUnder(decl, universe) && (forall y :: y in roots ==> y in universe) && NeededBy(decl, roots, x)
    ensures x in universe
  {
    var y :| y in roots && Reaches(decl, y, x);
    var p :| PathBetween(decl, p, y, x);
    PathStaysWithin(decl, universe, p);
  }

  function IdsOf(nodes: seq<NodeData>): (ids: set<Id>)
    ensures forall i :: 0 <= i < |nodes| ==> nodes[i].id in ids
  {
    if nodes == [] then {} else IdsOf(nodes[..|nodes| - 1]) + {nodes[|nodes| - 1].id}
  }

  /** Without a cycle there is such a rank. */
  lemma AcyclicGivesRank(decl: Declaration, nodes: seq<NodeData>, index: map<Id, nat>, additions: seq<Addition>,
                         universe: set<Id>)
    returns (rank: Id -> nat)
    requires LiveEdges(nodes) && NoNewCycle(decl, nodes, index, [], additions)
    requires ClosedUnder(decl, universe) && forall a :: a in additions ==> a.node in universe && a.caller < |nodes|
    ensures StaysAcyclic(decl, nodes, index, additions, rank)
  {
    var r, all := FeedingAfter(decl, nodes, index, [], additions), universe + IdsOf(nodes);
    FeedingIsFinite(decl, nodes, index, additions, universe);
    rank := AcyclicHasRank(r, all);
    forall i: nat, e | Live(nodes, i) && e in nodes[i].upstreams
      ensures e.node < |nodes| && rank(nodes[e.node].id) < rank(nodes[i].id)
    {
      assert Live(nodes, e.node);
      assert HasEdge(nodes, nodes[e.node].id, nodes[i].id);
      assert r(nodes[e.node].id, nodes[i].id);
    }
    forall x, y {:trigger DependsOn(decl, x, y)} | x !in index && NeededBy(decl, NodesOf(additions), x) &&
      DependsOn(decl, x, y)
      ensures rank(y) < rank(x)
    {
      assert r(y, x);
    }
    forall a | a in additions ensures rank(a.node) < rank(nodes[a.caller].id) {
      assert r(a.node, nodes[a.caller].id);
    }
  }

  lemma FeedingIsFinite(decl: Declaration, nodes: seq<NodeData>, index: map<Id, nat>, additions: seq<Addition>,
                        universe: set<Id>)
    requires ClosedUnder(decl, universe) && forall a :: a in additions ==> a.node in universe && a.caller < |nodes|
    ensures Within(FeedingAfter(decl, nodes, index, [], additions), universe + IdsOf(nodes))
  {
    forall y: nat, x: nat | FeedsAfter(decl, nodes, index, [], additions, y, x)
      ensures y in universe + IdsOf(nodes) && x in universe + IdsOf(nodes)
    {
      if x !in index && NeededBy(decl, NodesOf(additions), x) && DependsOn(decl, x, y) {
        NodesOfMembers(additions);
        NeededIsWithin(decl, universe, NodesOf(additions), x);
      }
    }
  }

  /** A ranked graph has no cycle. */
  lemma RankedIsAcyclic(nodes: seq<NodeData>, rank: Id -> nat)
    requires RankedBy(nodes, rank)
    ensures !Cyclic(nodes)
  {
    if Cyclic(nodes) {
      CycleHasNoLayering(nodes, BoundFor(nodes, rank));
    }
  }

  function RanksOf(nodes: seq<NodeData>, rank: Id -> nat): (ranks: seq<nat>)
    ensures |ranks| == |nodes| && forall i :: 0 <= i < |nodes| ==> ranks[i] == rank(nodes[i].id)
  {
    if nodes == [] then [] else RanksOf(nodes[..|nodes| - 1], rank) + [rank(nodes[|nodes| - 1].id)]
  }

  /** The witness `FixLayers` needs. */
  ghost function BoundFor(nodes: seq<NodeData>, rank: Id -> nat): (bound: seq<nat>)
    requires RankedBy(nodes, rank)
    ensures LayeringAbove(nodes, bound)
  {
    assert Ranked(nodes, RanksOf(nodes, rank));
    RankGivesLayering(nodes, RanksOf(nodes, rank));
    Lifted(RanksOf(nodes, rank), MaxLayer(nodes))
  }

  lemma RankedSurvives(nodes0: seq<NodeData>, nodes: seq<NodeData>, rank: Id -> nat)
    requires RankedBy(nodes0, rank) && |nodes| == |nodes0|
    requires forall i :: 0 <= i < |nodes| ==>
               nodes[i].id == nodes0[i].id && nodes[i].active == nodes0[i].active &&
                 nodes[i].upstreams == nodes0[i].upstreams
    ensures RankedBy(nodes, rank)
  {
    forall i: nat, e | Live(nodes, i) && e in nodes[i].upstreams
      ensures e.node < |nodes| && rank(nodes[e.node].id) < rank(nodes[i].id)
    {
      assert Live(nodes0, i) && e in nodes0[i].upstreams;
    }
  }

  lemma NewNodesRanked(decl: Declaration, before: seq<NodeData>, index0: map<Id, nat>,
                       nodes: seq<NodeData>, index: map<Id, nat>, additions: seq<Addition>, rank: Id -> nat)
    requires Indexed(before, index0) && Indexed(nodes, index) && before <= nodes && LiveEdges(before)
    requires StaysAcyclic(decl, before, index0, additions, rank)
    requires forall i :: |before| <= i < |nodes| ==> Wired(decl, nodes, index, i)
    requires forall x :: x in index && x !in index0 ==> NeededBy(decl, NodesOf(additions), x)
    ensures RankedBy(nodes, rank)
  {
    forall i: nat, e | Live(nodes, i) && e in nodes[i].upstreams
      ensures e.node < |nodes| && rank(nodes[e.node].id) < rank(nodes[i].id)
    {
      if i < |before| {
        assert Live(before, i) && e in before[i].upstreams && Live(before, e.node);
      } else {
        NewIsUnregistered(before, index0, nodes, index, i);
        UpstreamIsDeclared(decl, nodes, index, i, e);
      }
    }
  }

  lemma UpstreamIsDeclared(decl: Declaration, nodes: seq<NodeData>, index: map<Id, nat>, i: nat, e: Edge)
    requires Indexed(nodes, index) && i < |nodes| && Wired(decl, nodes, index, i) && e in nodes[i].upstreams
    ensures e.node < |nodes| && DependsOn(decl, nodes[i].id, nodes[e.node].id)
  {
    var k :| 0 <= k < |nodes[i].upstreams| && nodes[i].upstreams[k] == e;
    DeclaredAreDependencies(decl, nodes[i].id);
    assert index[Declared(decl, nodes[i].id)[k].id] == e.node;
  }

  // ----- One caller edge -----

  function AddEdge(nodes: seq<NodeData>, caller: nat, n: nat, active: bool): (nodes': seq<NodeData>)
    requires caller < |nodes| && n < |nodes|
    ensures |nodes'| == |nodes|
  {
    var nodes1 := nodes[caller := nodes[caller].(upstreams := nodes[caller].upstreams + [Edge(n, active)])];
    nodes1[n := nodes1[n].(downstreams := nodes1[n].downstreams + [Edge(caller, active)])]
  }

  lemma AddEdgeFields(nodes: seq<NodeData>, caller: nat, n: nat, active: bool)
    requires caller < |nodes| && n < |nodes|
    ensures var nodes' := AddEdge(nodes, caller, n, active);
            forall i :: 0 <= i < |nodes| ==>
              nodes'[i] == nodes[i].(
                upstreams := nodes[i].upstreams + (if i == caller then [Edge(n, active)] else []),
                downstreams := nodes[i].downstreams + (if i == n then [Edge(caller, active)] else []))
  {
    assert forall s: seq<Edge> :: s + [] == s;
  }

  lemma AddEdgeTransposed(nodes: seq<NodeData>, caller: nat, n: nat, active: bool)
    requires Transposed(nodes) && Live(nodes, caller) && Live(nodes, n)
    ensures Transposed(AddEdge(nodes, caller, n, active))
  {
    var nodes' := AddEdge(nodes, caller, n, active);
    forall u: nat, v: nat, a: bool | Live(nodes', u) && Live(nodes', v)
      ensures multiset(nodes'[v].upstreams)[Edge(u, a)] == multiset(nodes'[u].downstreams)[Edge(v, a)]
    {
      AddEdgeAt(nodes, caller, n, active, u, v, a);
    }
  }

  lemma AddEdgeAt(nodes: seq<NodeData>, caller: nat, n: nat, active: bool, u: nat, v: nat, a: bool)
    requires Transposed(nodes) && Live(nodes, caller) && Live(nodes, n)
    requires Live(AddEdge(nodes, caller, n, active), u) && Live(AddEdge(nodes, caller, n, active), v)
    ensures var nodes' := AddEdge(nodes, caller, n, active);
            multiset(nodes'[v].upstreams)[Edge(u, a)] == multiset(nodes'[u].downstreams)[Edge(v, a)]
  {
    AddEdgeFieldsAt(nodes, caller, n, active, u);
    AddEdgeFieldsAt(nodes, caller, n, active, v);
    assert Live(nodes, u) && Live(nodes, v);
    assert multiset(nodes[v].upstreams)[Edge(u, a)] == multiset(nodes[u].downstreams)[Edge(v, a)];
    hide *;
    CountAppended(nodes[v].upstreams, Edge(n, active), Edge(u, a));
    CountAppended(nodes[u].downstreams, Edge(caller, active), Edge(v, a));
  }

  lemma AddEdgeFieldsAt(nodes: seq<NodeData>, caller: nat, n: nat, active: bool, i: nat)
    requires caller < |nodes| && n < |nodes| && i < |nodes|
    ensures var node := AddEdge(nodes, caller, n, active)[i];
            && node.active == nodes[i].active
            && node.upstreams == (if i == caller then nodes[i].upstreams + [Edge(n, active)] else nodes[i].upstreams)
            && node.downstreams ==
               (if i == n then nodes[i].downstreams + [Edge(caller, active)] else nodes[i].downstreams)
  {
  }

  lemma CountAppended(s: seq<Edge>, e: Edge, x: Edge)
    ensures multiset(s + [e])[x] == multiset(s)[x] + if e == x then 1 else 0
  {
  }

  lemma AddEdgeLive(nodes: seq<NodeData>, caller: nat, n: nat, active: bool)
    requires LiveEdges(nodes) && Layered(nodes) && Live(nodes, caller) && Live(nodes, n)
    ensures LiveEdges(AddEdge(nodes, caller, n, active))
    ensures forall v: nat :: Live(nodes, v) && v != caller ==> Satisfied(AddEdge(nodes, caller, n, active), v)
  {
    var nodes' := AddEdge(nodes, caller, n, active);
    AddEdgeFields(nodes, caller, n, active);
    hide AddEdge;
    forall i: nat, e | Live(nodes', i) && e in nodes'[i].upstreams ensures Live(nodes', e.node) {
      assert Live(nodes, i);
      assert e in nodes[i].upstreams || e == Edge(n, active);
    }
    forall i: nat, e | Live(nodes', i) && e in nodes'[i].downstreams ensures Live(nodes', e.node) {
      assert Live(nodes, i);
      assert e in nodes[i].downstreams || e == Edge(caller, active);
    }
    forall v: nat | Live(nodes, v) && v != caller ensures Satisfied(nodes', v) {
      assert nodes'[v].upstreams == nodes[v].upstreams;
    }
  }

  lemma AddEdgeRanked(nodes: seq<NodeData>, caller: nat, n: nat, active: bool, rank: Id -> nat)
    requires RankedBy(nodes, rank) && caller < |nodes| && n < |nodes|
    requires rank(nodes[n].id) < rank(nodes[caller].id)
    ensures RankedBy(AddEdge(nodes, caller, n, active), rank)
  {
    var nodes' := AddEdge(nodes, caller, n, active);
    AddEdgeFields(nodes, caller, n, active);
    hide AddEdge;
    forall i: nat, e | Live(nodes', i) && e in nodes'[i].upstreams
      ensures e.node < |nodes'| && rank(nodes'[e.node].id) < rank(nodes'[i].id)
    {
      assert Live(nodes, i);
      assert e in nodes[i].upstreams || (i == caller && e == Edge(n, active));
    }
  }

  // ----- When a caller edge closes a cycle -----

  ghost predicate LeadsTo(nodes: seq<NodeData>, u: nat, v: nat) {
    exists p :: LivePath(nodes, p) && p[0] == u && p[|p| - 1] == v
  }

  lemma LeadsFurther(nodes: seq<NodeData>, u: nat, v: nat, w: nat)
    requires LeadsTo(nodes, u, v) && LiveEdge(nodes, v, w)
    ensures LeadsTo(nodes, u, w)
  {
    var p :| LivePath(nodes, p) && p[0] == u && p[|p| - 1] == v;
    assert LivePath(nodes, p + [w]);
  }

  lemma EdgeOfAdded(nodes: seq<NodeData>, caller: nat, n: nat, active: bool, u: nat, v: nat)
    requires Live(nodes, caller) && Live(nodes, n)
    ensures LiveEdge(AddEdge(nodes, caller, n, active), u, v) <==> LiveEdge(nodes, u, v) || (u == n && v == caller)
  {
    if v < |nodes| {
      AddEdgeFieldsAt(nodes, caller, n, active, v);
    }
    hide AddEdge;
    if u == n && v == caller {
      assert Edge(n, active) in nodes[v].upstreams + [Edge(n, active)];
    }
  }

  /** A way from the caller to its new upstream closes a cycle with the caller edge. */
  lemma ClosingEdge(nodes: seq<NodeData>, caller: nat, n: nat, active: bool)
    requires Live(nodes, caller) && Live(nodes, n) && LeadsTo(nodes, caller, n)
    ensures Cyclic(AddEdge(nodes, caller, n, active))
  {
    var nodes' := AddEdge(nodes, caller, n, active);
    var p :| LivePath(nodes, p) && p[0] == caller && p[|p| - 1] == n;
    var q := p + [caller];
    forall i | 0 <= i < |q| ensures Live(nodes', q[i]) {
      AddEdgeFieldsAt(nodes, caller, n, active, q[i]);
    }
    forall i, j | 0 <= i < |q| - 1 && j == i + 1 ensures LiveEdge(nodes', q[i], q[j]) {
      EdgeOfAdded(nodes, caller, n, active, q[i], q[j]);
      assert j < |p| ==> LiveEdge(nodes, p[i], p[j]);
    }
    assert LivePath(nodes', q);
  }

  /** Without such a way, lifting everything downstream of the caller gives a layering. */
  lemma OpenEdge(nodes: seq<NodeData>, caller: nat, n: nat, active: bool)
    requires Structure(nodes) && Live(nodes, caller) && Live(nodes, n) && !LeadsTo(nodes, caller, n)
    ensures !Cyclic(AddEdge(nodes, caller, n, active))
  {
    var nodes' := AddEdge(nodes, caller, n, active);
    var rank := (i: nat) => LiftedLayer(nodes, caller, i);
    var bound := RanksBy(rank, |nodes|);
    hide LiftedLayer;
    forall i | 0 <= i < |nodes'| ensures nodes'[i].layer <= bound[i] {
      LiftedIsAbove(nodes, caller, i);
      AddEdgeFieldsAt(nodes, caller, n, active, i);
    }
    forall i: nat, e | Live(nodes', i) && e in nodes'[i].upstreams
      ensures e.node < |nodes'| && bound[e.node] < bound[i]
    {
      assert e == Edge(e.node, e.active);
      assert LiveEdge(nodes', e.node, i);
      LiftedRises(nodes, caller, n, active, e.node, i);
    }
    assert LayeringAbove(nodes', bound);
    if Cyclic(nodes') {
      CycleHasNoLayering(nodes', bound);
    }
  }

  ghost function LiftedLayer(nodes: seq<NodeData>, caller: nat, i: nat): nat {
    (if i < |nodes| then nodes[i].layer else 0) + if LeadsTo(nodes, caller, i) then MaxLayer(nodes) + 1 else 0
  }

  lemma LiftedIsAbove(nodes: seq<NodeData>, caller: nat, i: nat)
    requires i < |nodes|
    ensures nodes[i].layer <= LiftedLayer(nodes, caller, i)
  {
  }

  lemma LiftedRises(nodes: seq<NodeData>, caller: nat, n: nat, active: bool, u: nat, v: nat)
    requires Structure(nodes) && Live(nodes, caller) && Live(nodes, n) && !LeadsTo(nodes, caller, n)
    requires LiveEdge(AddEdge(nodes, caller, n, active), u, v)
    ensures u < |nodes| && v < |nodes| && LiftedLayer(nodes, caller, u) < LiftedLayer(nodes, caller, v)
  {
    EdgeOfAdded(nodes, caller, n, active, u, v);
    hide AddEdge;
    if LiveEdge(nodes, u, v) {
      var a :| Edge(u, a) in nodes[v].upstreams;
      assert nodes[u].layer < nodes[v].layer;
      if LeadsTo(nodes, caller, u) {
        LeadsFurther(nodes, caller, u, v);
      }
    } else {
      assert LivePath(nodes, [caller]);
    }
  }

  /** A caller edge is repaired in finitely many turns if and only if its new upstream does not already depend
      on the caller. */
  lemma CallerEdgeSettlesIff(nodes: seq<NodeData>, caller: nat, n: nat, active: bool)
    requires Structure(nodes) && Live(nodes, caller) && Live(nodes, n)
    ensures var w := Work(AddEdge(nodes, caller, n, active), [caller]);
            WorkOk(w) && ((exists k: nat :: Worked(w, k).queue == []) <==> !LeadsTo(nodes, caller, n))
  {
    var w := Work(AddEdge(nodes, caller, n, active), [caller]);
    NewlyLinked(nodes, caller, n, active);
    assert caller in w.queue;
    assert WorkOk(w);
    WorklistEndsIffAcyclic(w);
    hide AddEdge, WorkOk, Worked, Structure;
    if LeadsTo(nodes, caller, n) {
      ClosingEdge(nodes, caller, n, active);
    } else {
      OpenEdge(nodes, caller, n, active);
    }
  }

  /** The smallest case: node 1 declares node 0 and is then made an upstream of node 0.  Wiring node 1 finds no
      cycle, but the caller edge closes one, and no number of turns settles the layers. */
  lemma TwoNodesNeverSettle()
    ensures var decl: Declaration := x => if x == 1 then UpStreams([0], []) else UpStreams([], []);
            var wired := [NodeData(0, [], [Edge(1, true)], 0, true), NodeData(1, [Edge(0, true)], [], 1, true)];
            var w := Work(AddEdge(wired, 0, 1, true), [0]);
            && !CycleReachable(decl, 1) && Structure(wired) && WorkOk(w)
            && forall k: nat :: Worked(w, k).queue != []
  {
    var decl: Declaration := x => if x == 1 then UpStreams([0], []) else UpStreams([], []);
    var wired := [NodeData(0, [], [Edge(1, true)], 0, true), NodeData(1, [Edge(0, true)], [], 1, true)];
    var index := map[0 := 0, 1 := 1];
    assert Topological(decl, index);
    RegisteredHasNoCycle(decl, index, 1);
    TwoNodesAreSound();
    assert Edge(0, true) in wired[1].upstreams;
    assert LiveEdge(wired, 0, 1);
    assert LivePath(wired, [0, 1]);
    CallerEdgeSettlesIff(wired, 0, 1, true);
  }

  lemma TwoNodesAreSound()
    ensures Structure([NodeData(0, [], [Edge(1, true)], 0, true), NodeData(1, [Edge(0, true)], [], 1, true)])
  {
    var nodes := [NodeData(0, [], [Edge(1, true)], 0, true), NodeData(1, [Edge(0, true)], [], 1, true)];
    assert LiveEdges(nodes) && Layered(nodes);
    assert Transposed(nodes) by {
      hide LiveEdges, Layered;
      forall u: nat, v: nat, a: bool | Live(nodes, u) && Live(nodes, v)
        ensures multiset(nodes[v].upstreams)[Edge(u, a)] == multiset(nodes[u].downstreams)[Edge(v, a)]
      {
        TwoNodesMirrored(u, v, a);
      }
    }
    hide Transposed, LiveEdges, Layered;
  }

  lemma TwoNodesMirrored(u: nat, v: nat, a: bool)
    requires u < 2 && v < 2
    ensures var nodes := [NodeData(0, [], [Edge(1, true)], 0, true), NodeData(1, [Edge(0, true)], [], 1, true)];
            multiset(nodes[v].upstreams)[Edge(u, a)] == multiset(nodes[u].downstreams)[Edge(v, a)]
  {
    CountOne(Edge(0, true), Edge(u, a));
    CountOne(Edge(1, true), Edge(v, a));
  }

  lemma CountOne(e: Edge, x: Edge)
    ensures multiset([e])[x] == if e == x then 1 else 0
  {
  }

  // ----- The additions applied so far -----

  /** Identities and liveness are unchanged, layers have not fallen, and each node has gained exactly
      the edges the additions ask for. */
  ghost predicate Grown(nodes0: seq<NodeData>, nodes: seq<NodeData>, index: map<Id, nat>, additions: seq<Addition>)
    requires forall a :: a in additions ==> a.node in index
  {
    && |nodes| == |nodes0|
    && forall i :: 0 <= i < |nodes0| ==>
         && nodes[i].id == nodes0[i].id && nodes[i].active == nodes0[i].active
         && nodes0[i].layer <= nodes[i].layer
         && nodes[i].upstreams == nodes0[i].upstreams + CallerEdges(additions, index, i)
  }

  /** The same for one step. */
  ghost predicate GrownBy(nodes0: seq<NodeData>, nodes: seq<NodeData>, caller: nat, edges: seq<Edge>) {
    && |nodes| == |nodes0|
    && forall i :: 0 <= i < |nodes0| ==>
         && nodes[i].id == nodes0[i].id && nodes[i].active == nodes0[i].active
         && nodes0[i].layer <= nodes[i].layer
         && nodes[i].upstreams == nodes0[i].upstreams + (if i == caller then edges else [])
  }

  lemma GrownNext(nodes0: seq<NodeData>, nodes1: seq<NodeData>, nodes: seq<NodeData>, index: map<Id, nat>,
                  additions: seq<Addition>, a: Addition)
    requires (forall b :: b in additions ==> b.node in index) && a.node in index
    requires Grown(nodes0, nodes1, index, additions)
    requires GrownBy(nodes1, nodes, a.caller,
                     if Requested(additions, a.caller, a.node) then [] else [Edge(index[a.node], a.active)])
    ensures forall b :: b in additions + [a] ==> b.node in index
    ensures Grown(nodes0, nodes, index, additions + [a])
  {
    var more := additions + [a];
    assert more[..|more| - 1] == additions && more[|more| - 1] == a;
    forall i: nat | i < |nodes0|
      ensures nodes[i].upstreams == nodes0[i].upstreams + CallerEdges(more, index, i)
    {
      assert forall s: seq<Edge> :: s + [] == s;
    }
  }

  lemma {:induction false} CallerEdgesHold(additions: seq<Addition>, index: map<Id, nat>, a: Addition)
    requires (forall b :: b in additions ==> b.node in index) && a in additions
    ensures exists e :: e in CallerEdges(additions, index, a.caller) && e.node == index[a.node]
  {
    var earlier, last := additions[..|additions| - 1], additions[|additions| - 1];
    assert additions == earlier + [last];
    if a in earlier {
      CallerEdgesHold(earlier, index, a);
    } else if Requested(earlier, a.caller, a.node) {
      var b :| b in earlier && b.caller == a.caller && b.node == a.node;
      CallerEdgesHold(earlier, index, b);
    } else {
      assert Edge(index[a.node], a.active) in CallerEdges(additions, index, a.caller);
    }
  }

  // ----- Every new layer gets a bucket -----

  /** Each node has a bucket for its layer, or is a new node that one of `roots` still pulls in. */
  ghost predicate Housing(decl: Declaration, nodes: seq<NodeData>, start: nat, buckets: nat, roots: seq<Id>) {
    forall i :: 0 <= i < |nodes| ==>
      nodes[i].layer < buckets || (start <= i && NeededBy(decl, roots, nodes[i].id))
  }

  /** New nodes have an upstream edge for each of their declared dependencies. */
  ghost predicate Rooted(decl: Declaration, nodes: seq<NodeData>, index: map<Id, nat>, start: nat) {
    forall i: nat, y {:trigger DependsOn(decl, nodes[i].id, y)} ::
      start <= i < |nodes| && DependsOn(decl, nodes[i].id, y) ==>
        y in index && exists e :: e in nodes[i].upstreams && e.node == index[y]
  }

  lemma WiredIsRooted(decl: Declaration, nodes: seq<NodeData>, index: map<Id, nat>, start: nat)
    requires Indexed(nodes, index) && forall i :: start <= i < |nodes| ==> Wired(decl, nodes, index, i)
    ensures Rooted(decl, nodes, index, start)
  {
    forall i: nat, y {:trigger DependsOn(decl, nodes[i].id, y)} | start <= i < |nodes| &&
      DependsOn(decl, nodes[i].id, y)
      ensures y in index && exists e :: e in nodes[i].upstreams && e.node == index[y]
    {
      assert Wired(decl, nodes, index, i);
      DeclaredAreDependencies(decl, nodes[i].id);
      var k :| 0 <= k < |Declared(decl, nodes[i].id)| && Declared(decl, nodes[i].id)[k].id == y;
      assert nodes[i].upstreams[k].node == index[y] && nodes[i].upstreams[k] in nodes[i].upstreams;
    }
  }

  lemma RootedSurvives(decl: Declaration, nodes0: seq<NodeData>, nodes: seq<NodeData>, index: map<Id, nat>, start: nat)
    requires Rooted(decl, nodes0, index, start) && |nodes| == |nodes0|
    requires forall i :: 0 <= i < |nodes| ==> nodes[i].id == nodes0[i].id && nodes0[i].upstreams <= nodes[i].upstreams
    ensures Rooted(decl, nodes, index, start)
  {
    forall i: nat, y {:trigger DependsOn(decl, nodes[i].id, y)} | start <= i < |nodes| &&
      DependsOn(decl, nodes[i].id, y)
      ensures y in index && exists e :: e in nodes[i].upstreams && e.node == index[y]
    {
      assert DependsOn(decl, nodes0[i].id, y);
      var e :| e in nodes0[i].upstreams && e.node == index[y];
      assert e in nodes[i].upstreams;
    }
  }

  /** Along a path of declarations that ends in a new node, layers do not rise. */
  lemma {:induction false} LayersFallAlongPath(decl: Declaration, nodes: seq<NodeData>, index: map<Id, nat>, start: nat,
                                               p: seq<Id>)
    requires Indexed(nodes, index) && Topological(decl, index) && Layered(nodes) && Rooted(decl, nodes, index, start)
    requires forall i: nat :: start <= i < |nodes| ==> nodes[i].active
    requires IsPath(decl, p) && p[0] in index && p[|p| - 1] in index && index[p[|p| - 1]] >= start
    ensures nodes[index[p[|p| - 1]]].layer <= nodes[index[p[0]]].layer
    decreases |p|
  {
    if |p| > 1 {
      IndicesFallAlongPath(decl, index, p, 0, |p| - 1);
      PathTail(decl, p);
      var i := index[p[0]];
      assert DependsOn(decl, nodes[i].id, p[1]);
      var e :| e in nodes[i].upstreams && e.node == index[p[1]];
      assert Live(nodes, i);
      LayersFallAlongPath(decl, nodes, index, start, p[1..]);
    }
  }

  lemma NeededIsLower(decl: Declaration, nodes: seq<NodeData>, index: map<Id, nat>, start: nat, root: Id, i: nat)
    requires Indexed(nodes, index) && Topological(decl, index) && Layered(nodes) && Rooted(decl, nodes, index, start)
    requires forall i: nat :: start <= i < |nodes| ==> nodes[i].active
    requires root in index && start <= i < |nodes| && Reaches(decl, root, nodes[i].id)
    ensures nodes[i].layer <= nodes[index[root]].layer
  {
    var p :| PathBetween(decl, p, root, nodes[i].id);
    LayersFallAlongPath(decl, nodes, index, start, p);
  }

  ghost predicate RaisedHoused(nodes0: seq<NodeData>, nodes: seq<NodeData>, buckets: nat) {
    forall i :: 0 <= i < |nodes| && i < |nodes0| && nodes[i].layer != nodes0[i].layer ==> nodes[i].layer < buckets
  }

  lemma HousingNext(decl: Declaration, before: seq<NodeData>, nodes: seq<NodeData>, index: map<Id, nat>, start: nat,
                    buckets0: nat, buckets: nat, roots: seq<Id>, caller: nat)
    requires Indexed(nodes, index) && Topological(decl, index) && Layered(nodes) && Rooted(decl, nodes, index, start)
    requires forall i: nat :: start <= i < |nodes| ==> nodes[i].active
    requires roots != [] && roots[0] in index && caller < |nodes|
    requires |nodes| == |before| && forall i :: 0 <= i < |nodes| ==> nodes[i].id == before[i].id
    requires Housing(decl, before, start, buckets0, roots) && buckets0 <= buckets
    requires RaisedHoused(before, nodes, buckets)
    requires nodes[index[roots[0]]].layer < nodes[caller].layer < buckets
    ensures Housing(decl, nodes, start, buckets, roots[1..])
  {
    forall i: nat | i < |nodes| && nodes[i].layer >= buckets
      ensures start <= i && NeededBy(decl, roots[1..], nodes[i].id)
    {
      assert before[i].layer == nodes[i].layer;
      var y :| y in roots && Reaches(decl, y, nodes[i].id);
      if y == roots[0] {
        NeededIsLower(decl, nodes, index, start, y, i);
      } else {
        assert y in roots[1..];
      }
    }
  }

  /** Once the layers are repaired, the whole step is accounted for. */
  lemma CallerSettled(nodes0: seq<NodeData>, nodes1: seq<NodeData>, nodes: seq<NodeData>, caller: nat, n: nat,
                      edges: seq<Edge>, buckets: nat)
    requires GrownBy(nodes0, nodes1, caller, edges) && SameLayers(nodes0, nodes1)
    requires CallerLinked(nodes1, caller, n)
    requires Least(nodes1, nodes) && Structure(nodes) && RaisedHoused(nodes1, nodes, buckets)
    ensures GrownBy(nodes0, nodes, caller, edges) && RaisedHoused(nodes0, nodes, buckets)
    ensures caller < |nodes| && n < |nodes| && nodes[n].layer < nodes[caller].layer
  {
    assert GrownBy(nodes0, nodes, caller, edges) && RaisedHoused(nodes0, nodes, buckets);
    var e :| e in nodes1[caller].upstreams && e.node == n;
    assert Live(nodes, caller) && e in nodes[caller].upstreams;
  }

  ghost predicate SameLayers(nodes0: seq<NodeData>, nodes: seq<NodeData>) {
    |nodes| == |nodes0| && forall i :: 0 <= i < |nodes| ==> nodes[i].layer == nodes0[i].layer
  }

  /** The caller edge is in place; only edges into the caller may now violate the layer order. */
  ghost predicate CallerLinked(nodes: seq<NodeData>, caller: nat, n: nat) {
    && LiveEdges(nodes) && Transposed(nodes)
    && Live(nodes, caller)
    && (exists e :: e in nodes[caller].upstreams && e.node == n)
    && (forall v: nat :: Live(nodes, v) && v != caller ==> Satisfied(nodes, v))
  }

  /** The nodes with the caller edge, unless it is already there. */
  function WithCaller(nodes: seq<NodeData>, caller: nat, n: nat, active: bool, present: bool): seq<NodeData>
    requires caller < |nodes| && n < |nodes|
  {
    if present then nodes else AddEdge(nodes, caller, n, active)
  }

  lemma AlreadyLinked(nodes: seq<NodeData>, caller: nat, n: nat)
    requires Structure(nodes) && Live(nodes, caller)
    requires exists e :: e in nodes[caller].upstreams && e.node == n
    ensures CallerLinked(nodes, caller, n)
    ensures GrownBy(nodes, nodes, caller, []) && SameLayers(nodes, nodes)
  {
    assert forall s: seq<Edge> :: s + [] == s;
  }

  lemma NewlyLinked(nodes: seq<NodeData>, caller: nat, n: nat, active: bool)
    requires Structure(nodes) && Live(nodes, caller) && Live(nodes, n)
    ensures CallerLinked(AddEdge(nodes, caller, n, active), caller, n)
    ensures GrownBy(nodes, AddEdge(nodes, caller, n, active), caller, [Edge(n, active)])
    ensures SameLayers(nodes, AddEdge(nodes, caller, n, active))
  {
    var nodes' := AddEdge(nodes, caller, n, active);
    AddEdgeTransposed(nodes, caller, n, active);
    AddEdgeLive(nodes, caller, n, active);
    AddEdgeFields(nodes, caller, n, active);
    hide AddEdge, LiveEdges, Transposed, Layered, Satisfied;
    assert Edge(n, active) in nodes'[caller].upstreams;
  }

  /** A rank that falls along the caller edge as well leaves no cycle. */
  lemma CallerEdgeIsAcyclic(nodes: seq<NodeData>, caller: nat, n: nat, active: bool, present: bool, rank: Id -> nat)
    requires RankedBy(nodes, rank) && caller < |nodes| && n < |nodes| && rank(nodes[n].id) < rank(nodes[caller].id)
    ensures !Cyclic(WithCaller(nodes, caller, n, active, present))
  {
    AddEdgeRanked(nodes, caller, n, active, rank);
    RankedIsAcyclic(WithCaller(nodes, caller, n, active, present), rank);
  }

  // ----- The loop over the additions -----

  /** The callers are live, the nodes to add are registered and live, and rank below their callers. */
  ghost predicate Admissible(nodes: seq<NodeData>, index: map<Id, nat>, additions: seq<Addition>, rank: Id -> nat) {
    forall a :: a in additions ==>
      && Live(nodes, a.caller) && a.node in index && Live(nodes, index[a.node])
      && rank(a.node) < rank(nodes[a.caller].id)
  }

  /** The additions in `done` have been applied, those in `todo` are still to come. */
  ghost predicate AddInv(decl: Declaration, nodes0: seq<NodeData>, nodes: seq<NodeData>, index: map<Id, nat>,
                         start: nat, buckets: nat, done: seq<Addition>, todo: seq<Addition>, rank: Id -> nat)
  {
    && Structure(nodes) && RankedBy(nodes, rank)
    && Indexed(nodes, index) && Topological(decl, index)
    && Rooted(decl, nodes, index, start) && NewAreLive(nodes, start)
    && Admissible(nodes, index, todo, rank)
    && (forall a :: a in done ==> a.node in index)
    && Grown(nodes0, nodes, index, done)
    && Housing(decl, nodes, start, buckets, NodesOf(todo))
  }

  ghost predicate NewAreLive(nodes: seq<NodeData>, start: nat) {
    forall i: nat :: start <= i < |nodes| ==> nodes[i].active
  }

  lemma GrownNone(nodes: seq<NodeData>, index: map<Id, nat>)
    ensures Grown(nodes, nodes, index, [])
  {
    assert forall s: seq<Edge> :: s + [] == s;
  }

  /** The next addition is admissible, and its edge is already there if it was requested before. */
  lemma NextAddition(decl: Declaration, nodes0: seq<NodeData>, nodes: seq<NodeData>, index: map<Id, nat>, start: nat,
                     buckets: nat, done: seq<Addition>, todo: seq<Addition>, rank: Id -> nat, a: Addition)
    requires AddInv(decl, nodes0, nodes, index, start, buckets, done, todo, rank) && todo != [] && a == todo[0]
    ensures Structure(nodes) && RankedBy(nodes, rank) && Indexed(nodes, index)
    ensures Live(nodes, a.caller) && a.node in index && Live(nodes, index[a.node])
    ensures rank(nodes[index[a.node]].id) < rank(nodes[a.caller].id)
    ensures Requested(done, a.caller, a.node) ==>
              exists e :: e in nodes[a.caller].upstreams && e.node == index[a.node]
  {
    assert a in todo;
    if Requested(done, a.caller, a.node) {
      var b :| b in done && b.caller == a.caller && b.node == a.node;
      CallerEdgesHold(done, index, b);
      var e :| e in CallerEdges(done, index, a.caller) && e.node == index[a.node];
      assert e in nodes[a.caller].upstreams;
    }
  }

  lemma AdmissibleRest(nodes1: seq<NodeData>, nodes: seq<NodeData>, index: map<Id, nat>, todo: seq<Addition>,
                       rank: Id -> nat, caller: nat, edges: seq<Edge>, start: nat)
    requires todo != [] && Admissible(nodes1, index, todo, rank) && GrownBy(nodes1, nodes, caller, edges)
    requires NewAreLive(nodes1, start)
    ensures Admissible(nodes, index, todo[1..], rank) && NewAreLive(nodes, start)
  {
    forall a | a in todo[1..]
      ensures && Live(nodes, a.caller) && a.node in index && Live(nodes, index[a.node])
              && rank(a.node) < rank(nodes[a.caller].id)
    {
      assert a in todo && Live(nodes1, a.caller) && Live(nodes1, index[a.node]);
    }
  }

  /** `caller` has gained `edges` and sits above `n`, and everything is layered and housed again. */
  ghost predicate EdgeInPlace(nodes1: seq<NodeData>, nodes: seq<NodeData>, buckets1: nat, buckets: nat, caller: nat,
                              n: nat, edges: seq<Edge>) {
    && Structure(nodes) && buckets1 <= buckets && |nodes| == |nodes1|
    && GrownBy(nodes1, nodes, caller, edges) && RaisedHoused(nodes1, nodes, buckets)
    && caller < |nodes| && n < |nodes| && nodes[n].layer < nodes[caller].layer < buckets
  }

  lemma AddInvNext(decl: Declaration, nodes0: seq<NodeData>, nodes1: seq<NodeData>, nodes: seq<NodeData>,
                   index: map<Id, nat>,
                   start: nat, buckets1: nat, buckets: nat, done: seq<Addition>, todo: seq<Addition>, rank: Id -> nat,
                   a: Addition, edges: seq<Edge>)
    requires AddInv(decl, nodes0, nodes1, index, start, buckets1, done, todo, rank) && todo != [] && a == todo[0]
    requires a.node in index
    requires edges == if Requested(done, a.caller, a.node) then [] else [Edge(index[a.node], a.active)]
    requires EdgeInPlace(nodes1, nodes, buckets1, buckets, a.caller, index[a.node], edges)
    ensures AddInv(decl, nodes0, nodes, index, start, buckets, done + [a], todo[1..], rank)
  {
    GrownNext(nodes0, nodes1, nodes, index, done, a);
    GrownStaysRanked(nodes1, nodes, index, a, edges, rank) by {
      assert a in todo;
    }
    AdmissibleRest(nodes1, nodes, index, todo, rank, a.caller, edges, start);
    SameUpTo(nodes1, nodes, a.caller, edges);
    hide Grown, GrownBy, Admissible, CallerEdges, Requested, RaisedHoused;
    PlacingNext(decl, nodes1, nodes, index, start, buckets1, buckets, todo, a);
    hide *;
  }

  lemma GrownStaysRanked(nodes1: seq<NodeData>, nodes: seq<NodeData>, index: map<Id, nat>, a: Addition,
                         edges: seq<Edge>, rank: Id -> nat)
    requires RankedBy(nodes1, rank) && GrownBy(nodes1, nodes, a.caller, edges) && Indexed(nodes1, index)
    requires a.node in index && a.caller < |nodes1| && rank(a.node) < rank(nodes1[a.caller].id)
    requires edges == [] || edges == [Edge(index[a.node], a.active)]
    ensures RankedBy(nodes, rank)
  {
    forall i: nat, e | Live(nodes, i) && e in nodes[i].upstreams
      ensures e.node < |nodes| && rank(nodes[e.node].id) < rank(nodes[i].id)
    {
      assert Live(nodes1, i);
      assert e in nodes1[i].upstreams || (i == a.caller && e in edges);
    }
  }

  lemma SameUpTo(nodes1: seq<NodeData>, nodes: seq<NodeData>, caller: nat, edges: seq<Edge>)
    requires GrownBy(nodes1, nodes, caller, edges)
    ensures Extended(nodes1, nodes)
  {
  }

  /** The same nodes, with no upstream lost. */
  ghost predicate Extended(nodes1: seq<NodeData>, nodes: seq<NodeData>) {
    |nodes| == |nodes1| && forall i :: 0 <= i < |nodes| ==>
      nodes[i].id == nodes1[i].id && nodes1[i].upstreams <= nodes[i].upstreams
  }

  lemma PlacingNext(decl: Declaration, nodes1: seq<NodeData>, nodes: seq<NodeData>, index: map<Id, nat>, start: nat,
                    buckets1: nat, buckets: nat, todo: seq<Addition>, a: Addition)
    requires Indexed(nodes1, index) && Topological(decl, index) && Rooted(decl, nodes1, index, start) &&
             Extended(nodes1, nodes)
    requires Structure(nodes) && NewAreLive(nodes, start) && todo != [] && a == todo[0] && a.node in index
    requires Housing(decl, nodes1, start, buckets1, NodesOf(todo)) && buckets1 <= buckets &&
             RaisedHoused(nodes1, nodes, buckets)
    requires a.caller < |nodes| && index[a.node] < |nodes| &&
             nodes[index[a.node]].layer < nodes[a.caller].layer < buckets
    ensures Indexed(nodes, index) && Rooted(decl, nodes, index, start) &&
            Housing(decl, nodes, start, buckets, NodesOf(todo[1..]))
  {
    IndexedFrame(nodes1, nodes, index);
    RootedSurvives(decl, nodes1, nodes, index, start);
    assert NodesOf(todo)[1..] == NodesOf(todo[1..]);
    hide Rooted, Housing, RaisedHoused, Indexed, Topological;
    HousingNext(decl, nodes1, nodes, index, start, buckets1, buckets, NodesOf(todo), a.caller);
  }

  // ----- The whole batch -----

  /** What the engine demands of a batch: the callers are live, and no removed node comes back. */
  ghost predicate Requestable(nodes: seq<NodeData>, index: map<Id, nat>, additions: seq<Addition>)
    requires Indexed(nodes, index)
  {
    forall a :: a in additions ==> Live(nodes, a.caller) && (a.node in index ==> nodes[index[a.node]].active)
  }

  lemma BecomesAdmissible(decl: Declaration, before: seq<NodeData>, index0: map<Id, nat>, nodes: seq<NodeData>,
                          index: map<Id, nat>, additions: seq<Addition>, rank: Id -> nat)
    requires Indexed(before, index0) && Indexed(nodes, index) && before <= nodes
    requires Requestable(before, index0, additions) && StaysAcyclic(decl, before, index0, additions, rank)
    requires forall a :: a in additions ==> a.node in index
    requires NewAreLive(nodes, |before|)
    ensures Admissible(nodes, index, additions, rank)
  {
    forall a | a in additions
      ensures && Live(nodes, a.caller) && a.node in index && Live(nodes, index[a.node])
              && rank(a.node) < rank(nodes[a.caller].id)
    {
      assert Live(before, a.caller) && nodes[a.caller] == before[a.caller];
      var i := index[a.node];
      if i < |before| {
        assert before[i].id == a.node && index0[a.node] == i;
      }
    }
  }

  lemma HousingStart(decl: Declaration, before: seq<NodeData>, index0: map<Id, nat>, nodes: seq<NodeData>,
                     index: map<Id, nat>, buckets: nat, roots: seq<Id>)
    requires Indexed(before, index0) && Indexed(nodes, index)
    requires LayersHoused(before, buckets) && WiredFrom(decl, roots, before, index0, nodes, index)
    ensures Housing(decl, nodes, |before|, buckets, roots)
  {
    forall i: nat | |before| <= i < |nodes| ensures NeededBy(decl, roots, nodes[i].id) {
      NewIsUnregistered(before, index0, nodes, index, i);
    }
  }

  lemma StartSurvivesLinking(decl: Declaration, nodes0: seq<NodeData>, nodes: seq<NodeData>, index: map<Id, nat>,
                             start: nat, buckets: nat, additions: seq<Addition>, rank: Id -> nat)
    requires SameButDownstreams(nodes0, nodes)
    requires RankedBy(nodes0, rank) && Indexed(nodes0, index)
    requires Rooted(decl, nodes0, index, start) && NewAreLive(nodes0, start) &&
             Admissible(nodes0, index, additions, rank)
    requires Housing(decl, nodes0, start, buckets, NodesOf(additions))
    ensures RankedBy(nodes, rank) && Indexed(nodes, index)
    ensures Rooted(decl, nodes, index, start) && NewAreLive(nodes, start) && Admissible(nodes, index, additions, rank)
    ensures Housing(decl, nodes, start, buckets, NodesOf(additions))
  {
    RankedSurvives(nodes0, nodes, rank);
    RootedSurvives(decl, nodes0, nodes, index, start);
    hide RankedBy, Rooted;
    assert forall i: nat :: Live(nodes0, i) ==> Live(nodes, i);
  }

  /** The batch has been applied: old nodes keep their place and gain the requested edges; new nodes are
      live, needed by the batch, and have exactly the edges they declare. */
  ghost predicate Applied(decl: Declaration, before: seq<NodeData>, index0: map<Id, nat>, nodes: seq<NodeData>,
                          index: map<Id, nat>, additions: seq<Addition>)
    requires forall a :: a in additions ==> a.node in index
  {
    && |before| <= |nodes|
    && (forall i :: 0 <= i < |before| ==>
          && nodes[i].id == before[i].id && nodes[i].active == before[i].active && before[i].layer <= nodes[i].layer
          && nodes[i].upstreams == before[i].upstreams + CallerEdges(additions, index, i))
    && (forall i :: |before| <= i < |nodes| ==>
          && nodes[i].active && nodes[i].id !in index0 && NeededBy(decl, NodesOf(additions), nodes[i].id)
          && AsDeclared(nodes[i].upstreams, decl(nodes[i].id), index))
  }

  lemma {:induction false} NoEdgesForOthers(additions: seq<Addition>, index: map<Id, nat>, i: nat)
    requires forall a :: a in additions ==> a.node in index && a.caller != i
    ensures CallerEdges(additions, index, i) == []
  {
    if additions != [] {
      assert additions[|additions| - 1] in additions;
      NoEdgesForOthers(additions[..|additions| - 1], index, i);
    }
  }

  lemma GrownIsApplied(decl: Declaration, before: seq<NodeData>, index0: map<Id, nat>, wired: seq<NodeData>,
                       linked: seq<NodeData>, nodes: seq<NodeData>, index: map<Id, nat>, additions: seq<Addition>)
    requires Indexed(before, index0) && Indexed(wired, index)
    requires WiredFrom(decl, NodesOf(additions), before, index0, wired, index)
    requires SameButDownstreams(wired, linked)
    requires forall a :: a in additions ==> a.node in index && a.caller < |before|
    requires Grown(linked, nodes, index, additions)
    ensures Applied(decl, before, index0, nodes, index, additions)
  {
    forall i: nat | |before| <= i < |nodes|
      ensures && nodes[i].active && nodes[i].id !in index0 && NeededBy(decl, NodesOf(additions), nodes[i].id)
              && AsDeclared(nodes[i].upstreams, decl(nodes[i].id), index)
    {
      assert Wired(decl, wired, index, i);
      NewIsUnregistered(before, index0, wired, index, i);
      NoEdgesForOthers(additions, index, i);
      assert nodes[i].upstreams == wired[i].upstreams;
      ResolvedAsDeclared(decl, nodes[i].id, nodes[i].upstreams, index);
    }
  }

  lemma NodesOfMembers(additions: seq<Addition>)
    ensures forall a :: a in additions ==> a.node in NodesOf(additions)
    ensures forall x :: x in NodesOf(additions) ==> exists a :: a in additions && a.node == x
  {
    forall a | a in additions ensures a.node in NodesOf(additions) {
      var k :| 0 <= k < |additions| && additions[k] == a;
      assert NodesOf(additions)[k] == a.node;
    }
    forall x | x in NodesOf(additions) ensures exists a :: a in additions && a.node == x {
      var k :| 0 <= k < |additions| && NodesOf(additions)[k] == x;
      assert additions[k] in additions;
    }
  }

  /** Once the new subgraphs are wired and linked, the caller edges can be added. */
  lemma AddInvStart(decl: Declaration, before: seq<NodeData>, index0: map<Id, nat>, wired: seq<NodeData>,
                    linked: seq<NodeData>, index: map<Id, nat>, buckets: nat, additions: seq<Addition>, rank: Id -> nat)
    requires Structure(before) && Indexed(before, index0) && LayersHoused(before, buckets)
    requires NoDeadUpstreams(decl, NodesOf(additions), before, index0) && Requestable(before, index0, additions)
    requires StaysAcyclic(decl, before, index0, additions, rank)
    requires Indexed(wired, index) && Topological(decl, index)
    requires WiredFrom(decl, NodesOf(additions), before, index0, wired, index)
    requires forall a :: a in additions ==> a.node in index
    requires Linked(wired, linked, |before|, |wired|, 0)
    ensures AddInv(decl, linked, linked, index, |before|, buckets, [], additions, rank)
  {
    WiredExtends(decl, NodesOf(additions), before, index0, wired, index);
    LinkedStructure(before, wired, linked);
    NewNodesRanked(decl, before, index0, wired, index, additions, rank);
    WiredIsRooted(decl, wired, index, |before|);
    BecomesAdmissible(decl, before, index0, wired, index, additions, rank);
    HousingStart(decl, before, index0, wired, index, buckets, NodesOf(additions));
    StartSurvivesLinking(decl, wired, linked, index, |before|, buckets, additions, rank);
    GrownNone(linked, index);
    hide *;
  }

  /** When no addition is left, every layer is housed and the batch is applied. */
  lemma AddInvEnd(decl: Declaration, before: seq<NodeData>, index0: map<Id, nat>, wired: seq<NodeData>,
                  linked: seq<NodeData>,
                  nodes: seq<NodeData>, index: map<Id, nat>, buckets: nat, additions: seq<Addition>, rank: Id -> nat)
    requires AddInv(decl, linked, nodes, index, |before|, buckets, additions, [], rank)
    requires Indexed(before, index0) && Indexed(wired, index)
    requires WiredFrom(decl, NodesOf(additions), before, index0, wired, index)
    requires SameButDownstreams(wired, linked)
    requires forall a :: a in additions ==> a.caller < |before|
    ensures Structure(nodes) && Indexed(nodes, index) && Topological(decl, index) && LayersHoused(nodes, buckets)
    ensures (forall a :: a in additions ==> a.node in index) && Applied(decl, before, index0, nodes, index, additions)
  {
    GrownIsApplied(decl, before, index0, wired, linked, nodes, index, additions);
  }

  lemma UpstreamsInRange(decl: Declaration, roots: seq<Id>, before: seq<NodeData>, index0: map<Id, nat>,
                         nodes: seq<NodeData>, index: map<Id, nat>)
    requires WiredFrom(decl, roots, before, index0, nodes, index)
    ensures forall i :: |before| <= i < |nodes| ==> EdgesInRange(nodes[i].upstreams, |nodes|)
  {
    forall i | |before| <= i < |nodes| ensures EdgesInRange(nodes[i].upstreams, |nodes|) {
      assert Wired(decl, nodes, index, i);
    }
  }
}
