/** Value-level facts behind linking, unlinking and re-layering nodes. */
module Edits {
  import opened GraphModel
  import opened Evaluation
  import opened Wiring

  ghost predicate Structure(nodes: seq<NodeData>) {
    LiveEdges(nodes) && Layered(nodes) && Transposed(nodes)
  }

  /** Nothing but downstream lists differs. */
  ghost predicate SameButDownstreams(nodes: seq<NodeData>, nodes': seq<NodeData>) {
    && |nodes'| == |nodes|
    && forall i :: 0 <= i < |nodes| ==> nodes'[i] == nodes[i].(downstreams := nodes'[i].downstreams)
  }

  function Ups(nodes: seq<NodeData>, v: nat, u: nat, a: bool): nat
    requires v < |nodes|
  {
    multiset(nodes[v].upstreams)[Edge(u, a)]
  }

  function Downs(nodes: seq<NodeData>, u: nat, v: nat, a: bool): nat
    requires u < |nodes|
  {
    multiset(nodes[u].downstreams)[Edge(v, a)]
  }

  // ----- Linking new nodes into their upstreams' downstream lists -----

  function Link(nodes: seq<NodeData>, u: nat, e: Edge): seq<NodeData>
    requires u < |nodes|
  {
    nodes[u := nodes[u].(downstreams := nodes[u].downstreams + [e])]
  }

  lemma LinkCounts(nodes: seq<NodeData>, u: nat, e: Edge)
    requires u < |nodes|
    ensures SameButDownstreams(nodes, Link(nodes, u, e))
    ensures forall w: nat, v: nat, a: bool :: w < |nodes| ==>
              Downs(Link(nodes, u, e), w, v, a) == Downs(nodes, w, v, a) + (if w == u && e == Edge(v, a) then 1 else 0)
  {
  }

  /** Nodes `from..i` are linked completely, node `i` for its first `j` upstreams, later ones not at all. */
  ghost predicate Linked(nodes0: seq<NodeData>, nodes: seq<NodeData>, from: nat, i: nat, j: nat)
    requires i <= |nodes0| && (i < |nodes0| ==> j <= |nodes0[i].upstreams|)
  {
    && SameButDownstreams(nodes0, nodes)
    && forall u: nat, v: nat, a: bool :: u < |nodes0| ==>
         Downs(nodes, u, v, a) == Downs(nodes0, u, v, a) +
           (if from <= v < i then Ups(nodes0, v, u, a)
            else if from <= v == i < |nodes0| then multiset(nodes0[i].upstreams[..j])[Edge(u, a)]
            else 0)
  }

  lemma LinkStep(nodes0: seq<NodeData>, nodes: seq<NodeData>, from: nat, i: nat, j: nat)
    requires from <= i < |nodes0| && j < |nodes0[i].upstreams|
    requires Linked(nodes0, nodes, from, i, j)
    requires nodes0[i].upstreams[j].node < |nodes0|
    ensures var e := nodes0[i].upstreams[j];
            Linked(nodes0, Link(nodes, e.node, Edge(i, e.active)), from, i, j + 1)
  {
    var e := nodes0[i].upstreams[j];
    LinkCounts(nodes, e.node, Edge(i, e.active));
    assert nodes0[i].upstreams[..j + 1] == nodes0[i].upstreams[..j] + [e];
    hide Link;
  }

  lemma LinkNext(nodes0: seq<NodeData>, nodes: seq<NodeData>, from: nat, i: nat)
    requires from <= i < |nodes0|
    requires Linked(nodes0, nodes, from, i, |nodes0[i].upstreams|)
    ensures Linked(nodes0, nodes, from, i + 1, 0)
  {
    assert nodes0[i].upstreams[..|nodes0[i].upstreams|] == nodes0[i].upstreams;
    if i + 1 < |nodes0| {
      assert nodes0[i + 1].upstreams[..0] == [];
    }
  }

  /** Freshly wired nodes on top of an existing graph: known to nobody yet, fed by live, lower nodes. */
  ghost predicate Extends(before: seq<NodeData>, nodes: seq<NodeData>) {
    && before <= nodes
    && forall i: nat :: |before| <= i < |nodes| ==>
         && nodes[i].active && nodes[i].downstreams == []
         && forall e :: e in nodes[i].upstreams ==>
              e.node < i && nodes[e.node].active && nodes[e.node].layer < nodes[i].layer
  }

  lemma ExtendedLiveEdges(before: seq<NodeData>, nodes: seq<NodeData>)
    requires Structure(before) && Extends(before, nodes)
    ensures LiveEdges(nodes) && Layered(nodes)
  {
    forall i: nat, e | Live(nodes, i) && e in nodes[i].upstreams
      ensures Live(nodes, e.node) && nodes[e.node].layer < nodes[i].layer
    {
      if i < |before| {
        assert Live(before, i);
      }
    }
    forall i: nat, e | Live(nodes, i) && e in nodes[i].downstreams ensures Live(nodes, e.node) {
      if i < |before| {
        assert Live(before, i);
      }
    }
  }

  lemma ExtendedCounts(before: seq<NodeData>, nodes: seq<NodeData>, u: nat, v: nat, a: bool)
    requires Structure(before) && Extends(before, nodes)
    requires Live(nodes, u) && Live(nodes, v)
    ensures v >= |before| ==> Downs(nodes, u, v, a) == 0
    ensures v < |before| ==> Downs(nodes, u, v, a) == Ups(nodes, v, u, a)
  {
    if u < |before| {
      assert Live(before, u);
      if v >= |before| {
        assert Edge(v, a) !in nodes[u].downstreams;
      } else {
        assert Live(before, v);
      }
    } else if v < |before| {
      assert Live(before, v);
      assert Edge(u, a) !in nodes[v].upstreams;
    }
  }

  lemma LinkedStructure(before: seq<NodeData>, nodes0: seq<NodeData>, nodes: seq<NodeData>)
    requires Structure(before) && Extends(before, nodes0)
    requires Linked(nodes0, nodes, |before|, |nodes0|, 0)
    ensures Structure(nodes)
  {
    ExtendedLiveEdges(before, nodes0);
    assert Transposed(nodes) by {
      forall u: nat, v: nat, a: bool | Live(nodes, u) && Live(nodes, v)
        ensures multiset(nodes[v].upstreams)[Edge(u, a)] == multiset(nodes[u].downstreams)[Edge(v, a)]
      {
        ExtendedCounts(before, nodes0, u, v, a);
        assert Downs(nodes, u, v, a) == Ups(nodes0, v, u, a);
      }
    }
    forall i: nat, e | Live(nodes, i) && e in nodes[i].downstreams ensures Live(nodes, e.node) {
      assert Downs(nodes, i, e.node, e.active) > 0;
      if Downs(nodes0, i, e.node, e.active) > 0 {
        assert e in nodes0[i].downstreams && Live(nodes0, i);
      }
    }
  }

  /** The nodes that `roots` newly need do not declare a removed node as an upstream. */
  ghost predicate NoDeadUpstreams(decl: Declaration, roots: seq<Id>, nodes: seq<NodeData>, index: map<Id, nat>)
    requires Indexed(nodes, index)
  {
    forall x, y {:trigger DependsOn(decl, x, y)} ::
      x !in index && NeededBy(decl, roots, x) && DependsOn(decl, x, y) && y in index ==> nodes[index[y]].active
  }

  lemma WiredExtends(decl: Declaration, roots: seq<Id>, before: seq<NodeData>, index0: map<Id, nat>,
                     nodes: seq<NodeData>, index: map<Id, nat>)
    requires Indexed(before, index0) && Indexed(nodes, index) && before <= nodes
    requires NoDeadUpstreams(decl, roots, before, index0) &&
             (forall x :: x in index && x !in index0 ==> NeededBy(decl, roots, x))
    requires forall i: nat :: |before| <= i < |nodes| ==> Wired(decl, nodes, index, i)
    ensures Extends(before, nodes)
  {
    forall i: nat, e | |before| <= i < |nodes| && e in nodes[i].upstreams
      ensures e.node < i && nodes[e.node].active && nodes[e.node].layer < nodes[i].layer
    {
      WiredUpstream(decl, roots, before, index0, nodes, index, i, e);
    }
    forall i: nat | |before| <= i < |nodes| ensures nodes[i].active && nodes[i].downstreams == [] {
      assert Wired(decl, nodes, index, i);
    }
  }

  lemma NewIsUnregistered(before: seq<NodeData>, index0: map<Id, nat>, nodes: seq<NodeData>, index: map<Id, nat>,
                          i: nat)
    requires Indexed(before, index0) && Indexed(nodes, index) && before <= nodes && |before| <= i < |nodes|
    ensures nodes[i].id !in index0
  {
    forall x | x in index0 ensures x != nodes[i].id {
      var j := index0[x];
      assert before[j] == nodes[j] && index[nodes[j].id] == j;
    }
  }

  lemma WiredUpstream(decl: Declaration, roots: seq<Id>, before: seq<NodeData>, index0: map<Id, nat>,
                      nodes: seq<NodeData>, index: map<Id, nat>, i: nat, e: Edge)
    requires Indexed(before, index0) && Indexed(nodes, index) && before <= nodes
    requires NoDeadUpstreams(decl, roots, before, index0) &&
             (forall x :: x in index && x !in index0 ==> NeededBy(decl, roots, x))
    requires forall i: nat :: |before| <= i < |nodes| ==> Wired(decl, nodes, index, i)
    requires |before| <= i < |nodes| && e in nodes[i].upstreams
    ensures e.node < i && nodes[e.node].active && nodes[e.node].layer < nodes[i].layer
  {
    assert Wired(decl, nodes, index, i);
    var k :| 0 <= k < |nodes[i].upstreams| && nodes[i].upstreams[k] == e;
    if e.node < |before| {
      DeclaredAreDependencies(decl, nodes[i].id);
      var y := Declared(decl, nodes[i].id)[k].id;
      assert DependsOn(decl, nodes[i].id, y) && index[y] == e.node && before[e.node].id == y;
      NewIsUnregistered(before, index0, nodes, index, i);
    } else {
      assert Wired(decl, nodes, index, e.node);
    }
  }

  lemma LinkedStaysPlaced(decl: Declaration, nodes0: seq<NodeData>, nodes: seq<NodeData>, index: map<Id, nat>)
    requires SameButDownstreams(nodes0, nodes) && Indexed(nodes0, index)
    requires forall i :: 0 <= i < |nodes0| ==> Wired(decl, nodes0, index, i)
    ensures Indexed(nodes, index)
    ensures forall i :: 0 <= i < |nodes| ==> Placed(decl, nodes, index, i) && nodes[i].active
  {
    forall i | 0 <= i < |nodes| ensures Placed(decl, nodes, index, i) && nodes[i].active {
      assert Wired(decl, nodes0, index, i);
      RequiredLayerFrame(nodes0[i].upstreams, nodes0, nodes);
    }
  }

  lemma NeededIsRegistered(decl: Declaration, roots: seq<Id>, index: map<Id, nat>, x: Id)
    requires Topological(decl, index) && NeededBy(decl, roots, x)
    requires forall y :: y in roots ==> y in index
    ensures x in index
  {
    var y :| y in roots && Reaches(decl, y, x);
    var p :| PathBetween(decl, p, y, x);
    IndicesFallAlongPath(decl, index, p, 0, |p| - 1);
  }
}
