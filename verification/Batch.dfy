/** When a whole batch of additions can be settled: if and only if, with its edges in place, the graph has no
    cycle. */
module Batches {
  import opened GraphModel
  import opened Evaluation
  import opened Wiring
  import opened Edits
  import opened Layering
  import opened Additions
  import opened Acyclic
  import Dispatch

  /** The caller edge is added, unless it is there already, and the layers are repaired from the caller on, which
      comes to an end and leaves `nodes'`. */
  ghost predicate SettlesTo(nodes: seq<NodeData>, caller: nat, n: nat, active: bool, present: bool,
                            nodes': seq<NodeData>) {
    && caller < |nodes| && n < |nodes|
    && var w := Work(WithCaller(nodes, caller, n, active, present), [caller]);
       WorkOk(w) && exists k: nat :: Worked(w, k) == Work(nodes', [])
  }

  /** One addition after the other is settled. */
  ghost predicate BatchSettles(nodes: seq<NodeData>, index: map<Id, nat>, done: seq<Addition>, todo: seq<Addition>)
    requires forall a :: a in todo ==> a.node in index
    decreases |todo|
  {
    if todo == [] then true
    else
      var a := todo[0];
      assert a in todo && forall b :: b in todo[1..] ==> b in todo;
      exists nodes' ::
        && SettlesTo(nodes, a.caller, index[a.node], a.active, Requested(done, a.caller, a.node), nodes')
        && BatchSettles(nodes', index, done + [a], todo[1..])
  }

  // ----- One addition -----

  lemma {:induction false} WorkedIsLeast(w: Work, k: nat)
    requires WorkOk(w)
    ensures Least(w.nodes, Worked(w, k).nodes)
  {
    hide WorkOk, Least, Pop;
    if k == 0 {
      LeastItself(w.nodes);
    } else {
      var w1 := Worked(w, k - 1);
      WorkedIsLeast(w, k - 1);
      if w1.queue != [] {
        PopStaysLeast(w.nodes, w1);
      }
    }
  }

  lemma LeastItself(nodes: seq<NodeData>)
    ensures Least(nodes, nodes)
  {
  }

  ghost predicate Attachable(nodes: seq<NodeData>, caller: nat, n: nat, present: bool) {
    && Structure(nodes) && Live(nodes, caller) && Live(nodes, n)
    && (present ==> exists e :: e in nodes[caller].upstreams && e.node == n)
  }

  lemma AttachingIsWork(nodes: seq<NodeData>, caller: nat, n: nat, active: bool, present: bool)
    requires Attachable(nodes, caller, n, present)
    ensures var nodes1 := WithCaller(nodes, caller, n, active, present);
            && WorkOk(Work(nodes1, [caller])) && SameLayers(nodes, nodes1)
            && GrownBy(nodes, nodes1, caller, if present then [] else [Edge(n, active)])
  {
    var nodes1 := WithCaller(nodes, caller, n, active, present);
    if present {
      AlreadyLinked(nodes, caller, n);
    } else {
      NewlyLinked(nodes, caller, n, active);
    }
    hide AddEdge, Structure, GrownBy;
    assert CallerLinked(nodes1, caller, n) && caller in [caller];
  }

  /** Settling adds exactly the edge, and leaves a sound graph. */
  lemma SettledIsSound(nodes: seq<NodeData>, caller: nat, n: nat, active: bool, present: bool, nodes': seq<NodeData>)
    requires Attachable(nodes, caller, n, present) && SettlesTo(nodes, caller, n, active, present, nodes')
    ensures Structure(nodes') && GrownBy(nodes, nodes', caller, if present then [] else [Edge(n, active)])
  {
    var nodes1 := WithCaller(nodes, caller, n, active, present);
    var w := Work(nodes1, [caller]);
    AttachingIsWork(nodes, caller, n, active, present);
    var k: nat :| Worked(w, k) == Work(nodes', []);
    WorkedIsLeast(w, k);
    hide Worked, WithCaller, LiveEdges, Transposed, Layered, QueueCovers, Least, GrownBy;
    Settles(Work(nodes', []));
    GrownThrough(nodes, nodes1, nodes', caller, if present then [] else [Edge(n, active)]);
  }

  lemma GrownThrough(nodes0: seq<NodeData>, nodes1: seq<NodeData>, nodes: seq<NodeData>, caller: nat,
                     edges: seq<Edge>)
    requires GrownBy(nodes0, nodes1, caller, edges) && SameLayers(nodes0, nodes1) && Least(nodes1, nodes)
    ensures GrownBy(nodes0, nodes, caller, edges)
  {
    hide LayeringAbove;
  }

  lemma SettlesIfAcyclic(nodes: seq<NodeData>, caller: nat, n: nat, active: bool, present: bool)
    returns (nodes': seq<NodeData>)
    requires Attachable(nodes, caller, n, present) && !Cyclic(WithCaller(nodes, caller, n, active, present))
    ensures SettlesTo(nodes, caller, n, active, present, nodes')
  {
    var w := Work(WithCaller(nodes, caller, n, active, present), [caller]);
    AttachingIsWork(nodes, caller, n, active, present);
    WorklistEndsIffAcyclic(w);
    var k: nat :| Worked(w, k).queue == [];
    nodes' := Worked(w, k).nodes;
    hide WorkOk, WithCaller, Structure;
    assert Worked(w, k) == Work(nodes', []);
  }

  // ----- The batch -----

  /** The additions in `done` are in place, and those in `todo` can be attached. */
  ghost predicate Midway(linked: seq<NodeData>, nodes: seq<NodeData>, index: map<Id, nat>, done: seq<Addition>,
                         todo: seq<Addition>) {
    && Structure(nodes) && Indexed(nodes, index)
    && (forall a :: a in done ==> a.node in index) && Grown(linked, nodes, index, done)
    && Wanted(nodes, index, todo)
  }

  ghost predicate Wanted(nodes: seq<NodeData>, index: map<Id, nat>, todo: seq<Addition>) {
    forall a :: a in todo ==> Live(nodes, a.caller) && a.node in index && Live(nodes, index[a.node])
  }

  lemma NextAttachable(linked: seq<NodeData>, nodes: seq<NodeData>, index: map<Id, nat>, done: seq<Addition>,
                       todo: seq<Addition>, a: Addition)
    requires Midway(linked, nodes, index, done, todo) && todo != [] && a == todo[0]
    ensures a.node in index && Attachable(nodes, a.caller, index[a.node], Requested(done, a.caller, a.node))
  {
    assert a in todo;
    if Requested(done, a.caller, a.node) {
      var b :| b in done && b.caller == a.caller && b.node == a.node;
      CallerEdgesHold(done, index, b);
      var e :| e in CallerEdges(done, index, a.caller) && e.node == index[a.node];
      assert e in nodes[a.caller].upstreams;
    }
    hide Structure, CallerEdges;
  }

  lemma MidwayNext(linked: seq<NodeData>, nodes: seq<NodeData>, index: map<Id, nat>, done: seq<Addition>,
                   todo: seq<Addition>, a: Addition, nodes': seq<NodeData>)
    requires Midway(linked, nodes, index, done, todo) && todo != [] && a == todo[0] && a.node in index
    requires SettlesTo(nodes, a.caller, index[a.node], a.active, Requested(done, a.caller, a.node), nodes')
    ensures Midway(linked, nodes', index, done + [a], todo[1..])
    ensures GrownBy(nodes, nodes', a.caller,
                    if Requested(done, a.caller, a.node) then [] else [Edge(index[a.node], a.active)])
  {
    var present := Requested(done, a.caller, a.node);
    NextAttachable(linked, nodes, index, done, todo, a);
    hide Structure, Grown, GrownBy, SettlesTo, Requested, CallerEdges, Attachable, Wanted, Indexed;
    SettledIsSound(nodes, a.caller, index[a.node], a.active, present, nodes');
    GrownNext(linked, nodes, nodes', index, done, a);
    StillWanted(nodes, nodes', index, a.caller, if present then [] else [Edge(index[a.node], a.active)], todo);
  }

  lemma StillWanted(nodes: seq<NodeData>, nodes': seq<NodeData>, index: map<Id, nat>, caller: nat,
                        edges: seq<Edge>, todo: seq<Addition>)
    requires GrownBy(nodes, nodes', caller, edges) && Indexed(nodes, index) && todo != []
    requires Wanted(nodes, index, todo)
    ensures Indexed(nodes', index) && Wanted(nodes', index, todo[1..])
  {
    forall a | a in todo[1..] ensures Live(nodes', a.caller) && a.node in index && Live(nodes', index[a.node]) {
      assert a in todo;
    }
  }

  lemma FirstSettles(nodes: seq<NodeData>, index: map<Id, nat>, done: seq<Addition>, todo: seq<Addition>)
    returns (nodes': seq<NodeData>)
    requires (forall a :: a in todo ==> a.node in index) && todo != [] && BatchSettles(nodes, index, done, todo)
    ensures todo[0].node in index && forall a :: a in todo[1..] ==> a.node in index
    ensures SettlesTo(nodes, todo[0].caller, index[todo[0].node], todo[0].active,
                      Requested(done, todo[0].caller, todo[0].node), nodes')
    ensures BatchSettles(nodes', index, done + [todo[0]], todo[1..])
  {
    var a := todo[0];
    assert a in todo && forall b :: b in todo[1..] ==> b in todo;
    nodes' :| SettlesTo(nodes, a.caller, index[a.node], a.active, Requested(done, a.caller, a.node), nodes') &&
              BatchSettles(nodes', index, done + [a], todo[1..]);
    hide SettlesTo, Requested;
  }

  /** If the batch settles, it leaves a sound graph with exactly its edges added. */
  lemma {:induction false} SettledBatch(linked: seq<NodeData>, nodes: seq<NodeData>, index: map<Id, nat>,
                                        done: seq<Addition>, todo: seq<Addition>)
    returns (final: seq<NodeData>)
    requires Midway(linked, nodes, index, done, todo)
    requires (forall a :: a in todo ==> a.node in index) && BatchSettles(nodes, index, done, todo)
    ensures Midway(linked, final, index, done + todo, [])
    decreases |todo|
  {
    hide *;
    if todo == [] {
      final := nodes;
      assert done + todo == done;
    } else {
      var nodes' := FirstSettles(nodes, index, done, todo);
      MidwayNext(linked, nodes, index, done, todo, todo[0], nodes');
      final := SettledBatch(linked, nodes', index, done + [todo[0]], todo[1..]);
      assert done + [todo[0]] + todo[1..] == done + todo;
    }
  }

  /** A rank that falls along every edge and every addition is enough for the batch to settle. */
  lemma {:induction false} RankedBatchSettles(linked: seq<NodeData>, nodes: seq<NodeData>, index: map<Id, nat>,
                                              done: seq<Addition>, todo: seq<Addition>, rank: Id -> nat)
    requires Midway(linked, nodes, index, done, todo) && RankedBy(nodes, rank) && Admissible(nodes, index, todo, rank)
    ensures BatchSettles(nodes, index, done, todo)
    decreases |todo|
  {
    if todo != [] {
      var a := todo[0];
      assert a in todo && forall b :: b in todo[1..] ==> b in todo;
      var n, present := index[a.node], Requested(done, a.caller, a.node);
      NextAttachable(linked, nodes, index, done, todo, a);
      CallerEdgeIsAcyclic(nodes, a.caller, n, a.active, present, rank);
      var nodes' := SettlesIfAcyclic(nodes, a.caller, n, a.active, present);
      MidwayNext(linked, nodes, index, done, todo, a, nodes');
      var edges := if present then [] else [Edge(n, a.active)];
      GrownStaysRanked(nodes, nodes', index, a, edges, rank);
      AdmissibleRest(nodes, nodes', index, todo, rank, a.caller, edges, |nodes|);
      hide Midway, SettlesTo, Requested, RankedBy, Admissible, GrownBy, WithCaller;
      RankedBatchSettles(linked, nodes', index, done + [a], todo[1..], rank);
    }
  }

  // ----- The condition, on the graph before the batch -----

  /** The new subgraphs are wired into the graph, without the caller edges. */
  ghost predicate Prepared(decl: Declaration, before: seq<NodeData>, index0: map<Id, nat>, wired: seq<NodeData>,
                           linked: seq<NodeData>, index: map<Id, nat>, additions: seq<Addition>) {
    && Structure(before) && Indexed(before, index0)
    && NoDeadUpstreams(decl, NodesOf(additions), before, index0) && Requestable(before, index0, additions)
    && Indexed(wired, index) && Topological(decl, index)
    && WiredFrom(decl, NodesOf(additions), before, index0, wired, index)
    && (forall a :: a in additions ==> a.node in index)
    && Linked(wired, linked, |before|, |wired|, 0)
  }

  ghost function LayerOf(nodes: seq<NodeData>, index: map<Id, nat>, x: Id): nat {
    if x in index && index[x] < |nodes| then nodes[index[x]].layer else 0
  }

  /** Once the batch has settled, the layers fall along every edge the new graph was to have. */
  lemma {:induction false} LayersRankFeeding(decl: Declaration, before: seq<NodeData>, index0: map<Id, nat>,
                                             wired: seq<NodeData>, linked: seq<NodeData>, index: map<Id, nat>,
                                             additions: seq<Addition>, final: seq<NodeData>, y: Id, x: Id)
    requires Prepared(decl, before, index0, wired, linked, index, additions)
    requires Midway(linked, final, index, additions, [])
    requires FeedsAfter(decl, before, index0, [], additions, y, x)
    ensures LayerOf(final, index, y) < LayerOf(final, index, x)
  {
    assert Indexed(final, index);
    hide Prepared, Midway, Indexed;
    if HasEdge(before, y, x) {
      var i: nat, e :| Live(before, i) && e in before[i].upstreams && e.node < |before| && before[i].id == x &&
                       before[e.node].id == y;
      OldEdgeStays(decl, before, index0, wired, linked, index, additions, final, i, e);
    } else if x !in index0 && NeededBy(decl, NodesOf(additions), x) && DependsOn(decl, x, y) {
      NewEdgeStays(decl, before, index0, wired, linked, index, additions, final, y, x);
    } else {
      var a :| a in additions && a.node == y && a.caller < |before| && before[a.caller].id == x;
      AddedEdgeStays(decl, before, index0, wired, linked, index, additions, final, a);
    }
  }

  /** What the settled graph keeps of a wired node. */
  lemma KeptInFinal(wired: seq<NodeData>, linked: seq<NodeData>, index: map<Id, nat>, additions: seq<Addition>,
                    final: seq<NodeData>, i: nat)
    requires SameButDownstreams(wired, linked) && Midway(linked, final, index, additions, []) && i < |wired|
    ensures |final| == |wired| && final[i].id == wired[i].id && final[i].active == wired[i].active
    ensures index[final[i].id] == i
    ensures final[i].upstreams == wired[i].upstreams + CallerEdges(additions, index, i)
    ensures wired[i].active ==> forall e :: e in final[i].upstreams ==>
              e.node < |final| && final[e.node].layer < final[i].layer
  {
    assert wired[i].active ==> Live(final, i);
    hide CallerEdges;
  }

  lemma OldEdgeStays(decl: Declaration, before: seq<NodeData>, index0: map<Id, nat>, wired: seq<NodeData>,
                     linked: seq<NodeData>, index: map<Id, nat>, additions: seq<Addition>, final: seq<NodeData>,
                     i: nat, e: Edge)
    requires Prepared(decl, before, index0, wired, linked, index, additions)
    requires Midway(linked, final, index, additions, [])
    requires Live(before, i) && e in before[i].upstreams && e.node < |before|
    ensures before[i].id in index && before[e.node].id in index
    ensures final[index[before[e.node].id]].layer < final[index[before[i].id]].layer
  {
    assert wired[i] == before[i] && wired[e.node] == before[e.node];
    hide Structure, NoDeadUpstreams, Requestable, Topological, Midway;
    KeptInFinal(wired, linked, index, additions, final, i);
    KeptInFinal(wired, linked, index, additions, final, e.node);
  }

  lemma NewEdgeStays(decl: Declaration, before: seq<NodeData>, index0: map<Id, nat>, wired: seq<NodeData>,
                     linked: seq<NodeData>, index: map<Id, nat>, additions: seq<Addition>, final: seq<NodeData>,
                     y: Id, x: Id)
    requires Prepared(decl, before, index0, wired, linked, index, additions)
    requires Midway(linked, final, index, additions, [])
    requires x !in index0 && NeededBy(decl, NodesOf(additions), x) && DependsOn(decl, x, y)
    ensures x in index && y in index && final[index[y]].layer < final[index[x]].layer
  {
    hide Structure, NoDeadUpstreams, Requestable, Midway;
    var e := WiredEdge(decl, before, index0, wired, index, additions, y, x);
    KeptInFinal(wired, linked, index, additions, final, index[x]);
  }

  /** A new node is wired to everything it declares. */
  lemma WiredEdge(decl: Declaration, before: seq<NodeData>, index0: map<Id, nat>, wired: seq<NodeData>,
                  index: map<Id, nat>, additions: seq<Addition>, y: Id, x: Id)
    returns (e: Edge)
    requires Indexed(before, index0) && Indexed(wired, index) && Topological(decl, index)
    requires WiredFrom(decl, NodesOf(additions), before, index0, wired, index)
    requires forall a :: a in additions ==> a.node in index
    requires x !in index0 && NeededBy(decl, NodesOf(additions), x) && DependsOn(decl, x, y)
    ensures x in index && y in index && wired[index[x]].active && wired[index[x]].id == x
    ensures e in wired[index[x]].upstreams && e.node == index[y]
  {
    NodesOfMembers(additions);
    NeededIsRegistered(decl, NodesOf(additions), index, x);
    var i := index[x];
    assert i >= |before| by {
      assert forall j :: 0 <= j < |before| ==> wired[j].id in index0;
    }
    assert Wired(decl, wired, index, i);
    hide Indexed, WiredFrom, NeededBy;
    DeclaredAreDependencies(decl, x);
    var k :| 0 <= k < |Declared(decl, x)| && Declared(decl, x)[k].id == y;
    hide Declared;
    e := wired[i].upstreams[k];
  }

  lemma AddedEdgeStays(decl: Declaration, before: seq<NodeData>, index0: map<Id, nat>, wired: seq<NodeData>,
                       linked: seq<NodeData>, index: map<Id, nat>, additions: seq<Addition>, final: seq<NodeData>,
                       a: Addition)
    requires Prepared(decl, before, index0, wired, linked, index, additions)
    requires Midway(linked, final, index, additions, [])
    requires a in additions && a.caller < |before|
    ensures before[a.caller].id in index && a.node in index
    ensures final[index[a.node]].layer < final[index[before[a.caller].id]].layer
  {
    var i := a.caller;
    assert wired[i] == before[i] && Live(before, i);
    CallerEdgesHold(additions, index, a);
    var e :| e in CallerEdges(additions, index, i) && e.node == index[a.node];
    hide Structure, NoDeadUpstreams, Requestable, Topological, Midway;
    KeptInFinal(wired, linked, index, additions, final, i);
    assert e in final[i].upstreams;
  }

  lemma PreparedIsMidway(decl: Declaration, before: seq<NodeData>, index0: map<Id, nat>, wired: seq<NodeData>,
                         linked: seq<NodeData>, index: map<Id, nat>, additions: seq<Addition>)
    requires Prepared(decl, before, index0, wired, linked, index, additions)
    ensures Midway(linked, linked, index, [], additions) && forall a :: a in additions ==> a.node in index
  {
    WiredExtends(decl, NodesOf(additions), before, index0, wired, index);
    LinkedStructure(before, wired, linked);
    GrownNone(linked, index);
    assert Indexed(linked, index);
    hide Structure, NoDeadUpstreams, Topological, Grown, Indexed, Wanted, Extends;
    RequestedIsWanted(decl, before, index0, wired, linked, index, additions);
  }

  lemma RequestedIsWanted(decl: Declaration, before: seq<NodeData>, index0: map<Id, nat>, wired: seq<NodeData>,
                          linked: seq<NodeData>, index: map<Id, nat>, additions: seq<Addition>)
    requires Prepared(decl, before, index0, wired, linked, index, additions)
    ensures Wanted(linked, index, additions)
  {
    hide Structure, NoDeadUpstreams, Topological;
    forall a | a in additions ensures Live(linked, a.caller) && a.node in index && Live(linked, index[a.node]) {
      var i := index[a.node];
      assert Live(before, a.caller) && wired[a.caller] == before[a.caller];
      if i < |before| {
        assert wired[i] == before[i] && index0[a.node] == i;
      } else {
        assert Wired(decl, wired, index, i);
      }
    }
  }

  /** With the new subgraphs wired, the batch settles if and only if the graph it asks for has no cycle. */
  lemma {:induction false} BatchSettlesIff(decl: Declaration, before: seq<NodeData>, index0: map<Id, nat>,
                                           wired: seq<NodeData>, linked: seq<NodeData>, index: map<Id, nat>,
                                           additions: seq<Addition>, universe: set<Id>)
    requires Prepared(decl, before, index0, wired, linked, index, additions)
    requires ClosedUnder(decl, universe) && forall a :: a in additions ==> a.node in universe
    ensures forall a :: a in additions ==> a.node in index
    ensures BatchSettles(linked, index, [], additions) <==> NoNewCycle(decl, before, index0, [], additions)
  {
    hide *;
    PreparedIsMidway(decl, before, index0, wired, linked, index, additions);
    assert [] + additions == additions;
    if BatchSettles(linked, index, [], additions) {
      var final := SettledBatch(linked, linked, index, [], additions);
      SettledHasNoCycle(decl, before, index0, wired, linked, index, additions, final);
    }
    if NoNewCycle(decl, before, index0, [], additions) {
      var rank := PreparedIsRanked(decl, before, index0, wired, linked, index, additions, universe);
      RankedBatchSettles(linked, linked, index, [], additions, rank);
    }
  }

  lemma SettledHasNoCycle(decl: Declaration, before: seq<NodeData>, index0: map<Id, nat>, wired: seq<NodeData>,
                          linked: seq<NodeData>, index: map<Id, nat>, additions: seq<Addition>,
                          final: seq<NodeData>)
    requires Prepared(decl, before, index0, wired, linked, index, additions)
    requires Midway(linked, final, index, additions, [])
    ensures NoNewCycle(decl, before, index0, [], additions)
  {
    hide Prepared, Midway, FeedsAfter, LayerOf, HasCycle;
    var rank: nat -> nat := x => LayerOf(final, index, x);
    var r := FeedingAfter(decl, before, index0, [], additions);
    forall y: nat, x: nat | r(y, x) ensures rank(y) < rank(x) {
      LayersRankFeeding(decl, before, index0, wired, linked, index, additions, final, y, x);
    }
    RankedHasNoCycle(r, rank);
  }

  lemma PreparedIsRanked(decl: Declaration, before: seq<NodeData>, index0: map<Id, nat>, wired: seq<NodeData>,
                         linked: seq<NodeData>, index: map<Id, nat>, additions: seq<Addition>, universe: set<Id>)
    returns (rank: Id -> nat)
    requires Prepared(decl, before, index0, wired, linked, index, additions)
    requires ClosedUnder(decl, universe) && forall a :: a in additions ==> a.node in universe
    requires NoNewCycle(decl, before, index0, [], additions)
    ensures RankedBy(linked, rank) && Admissible(linked, index, additions, rank)
  {
    assert forall a :: a in additions ==> a.caller < |before|;
    rank := AcyclicGivesRank(decl, before, index0, additions, universe);
    var buckets := MaxLayer(before) + 1;
    assert Dispatch.LayersHoused(before, buckets);
    AddInvStart(decl, before, index0, wired, linked, index, buckets, additions, rank);
    hide RankedBy, Admissible;
  }
}
