/** Unlinking a node from its neighbours. */
module Removal {
  import opened GraphModel
  import opened Evaluation
  import opened Edits

  /** The list without the edges that name node `x`. */
  function Without(edges: seq<Edge>, x: nat): (kept: seq<Edge>)
    ensures forall e :: e in kept <==> e in edges && e.node != x
    ensures forall e :: multiset(kept)[e] == if e.node == x then 0 else multiset(edges)[e]
  {
    if edges == [] then []
    else
      var init, last := edges[..|edges| - 1], edges[|edges| - 1];
      assert edges == init + [last];
      if last.node == x then Without(init, x) else Without(init, x) + [last]
  }

  lemma {:induction false} WithoutAbsent(edges: seq<Edge>, x: nat)
    requires forall a :: Edge(x, a) !in edges
    ensures Without(edges, x) == edges
  {
    if edges != [] {
      var init, last := edges[..|edges| - 1], edges[|edges| - 1];
      assert edges == init + [last];
      assert last in edges && last == Edge(last.node, last.active);
      WithoutAbsent(init, x);
    }
  }

  function DropDownstream(nodes: seq<NodeData>, u: nat, x: nat): seq<NodeData>
    requires u < |nodes|
  {
    nodes[u := nodes[u].(downstreams := Without(nodes[u].downstreams, x))]
  }

  function DropUpstream(nodes: seq<NodeData>, u: nat, x: nat): seq<NodeData>
    requires u < |nodes|
  {
    nodes[u := nodes[u].(upstreams := Without(nodes[u].upstreams, x))]
  }

  lemma WithoutTwice(edges: seq<Edge>, x: nat)
    ensures Without(Without(edges, x), x) == Without(edges, x)
  {
    WithoutAbsent(Without(edges, x), x);
  }

  /** While `x` is being unlinked: nodes named by `ups` no longer list it downstream, nodes named by
      `downs` no longer list it upstream, everything else is as before. */
  ghost predicate Unlinked(nodes0: seq<NodeData>, nodes: seq<NodeData>, x: nat, ups: seq<Edge>, downs: seq<Edge>) {
    && |nodes| == |nodes0|
    && forall i :: 0 <= i < |nodes0| ==> nodes[i] == nodes0[i].(
         downstreams := if Names(ups, i) then Without(nodes0[i].downstreams, x) else nodes0[i].downstreams,
         upstreams := if Names(downs, i) then Without(nodes0[i].upstreams, x) else nodes0[i].upstreams)
  }

  predicate Names(edges: seq<Edge>, i: nat) {
    Edge(i, true) in edges || Edge(i, false) in edges
  }

  lemma NamesNext(edges: seq<Edge>, e: Edge, i: nat)
    ensures Names(edges + [e], i) <==> Names(edges, i) || e.node == i
  {
    assert e in edges + [e] && e == Edge(e.node, e.active);
  }

  lemma UnlinkedStart(nodes: seq<NodeData>, x: nat)
    requires Structure(nodes) && Live(nodes, x)
    ensures Unlinked(nodes, nodes, x, [], [])
    ensures forall e :: e in nodes[x].upstreams ==> e.node < |nodes|
  {
    assert forall e :: e in nodes[x].upstreams ==> Live(nodes, e.node);
  }

  lemma DropDownstreamStep(nodes0: seq<NodeData>, nodes: seq<NodeData>, x: nat, ups: seq<Edge>, e: Edge)
    requires Unlinked(nodes0, nodes, x, ups, []) && e.node < |nodes|
    ensures Unlinked(nodes0, DropDownstream(nodes, e.node, x), x, ups + [e], [])
  {
    WithoutTwice(nodes0[e.node].downstreams, x);
    forall i: nat { NamesNext(ups, e, i); }
    hide Without, Names;
  }

  lemma DropUpstreamStep(nodes0: seq<NodeData>, nodes: seq<NodeData>, x: nat, ups: seq<Edge>, downs: seq<Edge>, e: Edge)
    requires Unlinked(nodes0, nodes, x, ups, downs) && e.node < |nodes|
    ensures Unlinked(nodes0, DropUpstream(nodes, e.node, x), x, ups, downs + [e])
  {
    WithoutTwice(nodes0[e.node].upstreams, x);
    forall i: nat { NamesNext(downs, e, i); }
    hide Without, Names;
  }

  /** Every node named by `edges` drops `x` from its downstreams, one edge after the other. */
  function DropFromUpstreams(nodes: seq<NodeData>, edges: seq<Edge>, x: nat): (r: seq<NodeData>)
    requires forall e :: e in edges ==> e.node < |nodes|
    ensures |r| == |nodes|
  {
    if edges == [] then nodes
    else
      assert forall e :: e in edges[..|edges| - 1] ==> e in edges;
      DropDownstream(DropFromUpstreams(nodes, edges[..|edges| - 1], x), edges[|edges| - 1].node, x)
  }

  function DropFromDownstreams(nodes: seq<NodeData>, edges: seq<Edge>, x: nat): (r: seq<NodeData>)
    requires forall e :: e in edges ==> e.node < |nodes|
    ensures |r| == |nodes|
  {
    if edges == [] then nodes
    else
      assert forall e :: e in edges[..|edges| - 1] ==> e in edges;
      DropUpstream(DropFromDownstreams(nodes, edges[..|edges| - 1], x), edges[|edges| - 1].node, x)
  }

  lemma {:induction false} DroppedFromUpstreams(nodes0: seq<NodeData>, nodes: seq<NodeData>, edges: seq<Edge>, x: nat)
    requires Unlinked(nodes0, nodes, x, [], []) && forall e :: e in edges ==> e.node < |nodes|
    ensures Unlinked(nodes0, DropFromUpstreams(nodes, edges, x), x, edges, [])
    decreases |edges|
  {
    if edges != [] {
      var init, last := edges[..|edges| - 1], edges[|edges| - 1];
      assert edges == init + [last];
      hide Unlinked, DropDownstream;
      DroppedFromUpstreams(nodes0, nodes, init, x);
      DropDownstreamStep(nodes0, DropFromUpstreams(nodes, init, x), x, init, last);
    }
  }

  lemma {:induction false} DroppedFromDownstreams(nodes0: seq<NodeData>, nodes: seq<NodeData>, ups: seq<Edge>,
                                                  edges: seq<Edge>, x: nat)
    requires Unlinked(nodes0, nodes, x, ups, []) && forall e :: e in edges ==> e.node < |nodes|
    ensures Unlinked(nodes0, DropFromDownstreams(nodes, edges, x), x, ups, edges)
    decreases |edges|
  {
    if edges != [] {
      var init, last := edges[..|edges| - 1], edges[|edges| - 1];
      assert edges == init + [last];
      hide Unlinked, DropUpstream;
      DroppedFromDownstreams(nodes0, nodes, ups, init, x);
      DropUpstreamStep(nodes0, DropFromDownstreams(nodes, init, x), x, ups, init, last);
    }
  }

  lemma DropNext(nodes: seq<NodeData>, edges: seq<Edge>, x: nat, k: nat)
    requires (forall e :: e in edges ==> e.node < |nodes|) && k < |edges|
    ensures edges[k].node < |nodes| && (forall e :: e in edges[..k + 1] ==> e.node < |nodes|)
    ensures (forall e :: e in edges[..k] ==> e.node < |nodes|)
    ensures DropFromUpstreams(nodes, edges[..k + 1], x) ==
            DropDownstream(DropFromUpstreams(nodes, edges[..k], x), edges[k].node, x)
    ensures DropFromDownstreams(nodes, edges[..k + 1], x) ==
            DropUpstream(DropFromDownstreams(nodes, edges[..k], x), edges[k].node, x)
  {
    assert edges[..k + 1][..k] == edges[..k] && edges[k] in edges;
    hide DropDownstream, DropUpstream;
  }

  /** `x` is gone: every other live node has lost exactly its edges to and from `x`. */
  ghost predicate Removed(nodes0: seq<NodeData>, nodes: seq<NodeData>, x: nat) {
    && x < |nodes0| && |nodes| == |nodes0|
    && nodes[x] == nodes0[x].(active := false)
    && (forall i: nat :: i < |nodes0| && !nodes0[i].active ==> nodes[i] == nodes0[i])
    && forall i: nat :: i != x && Live(nodes0, i) ==>
         nodes[i] ==
         nodes0[i].(upstreams := Without(nodes0[i].upstreams, x), downstreams := Without(nodes0[i].downstreams, x))
  }

  lemma UnlinkedIsRemoved(nodes0: seq<NodeData>, nodes: seq<NodeData>, x: nat)
    requires Structure(nodes0) && Live(nodes0, x)
    requires Unlinked(nodes0, nodes, x, nodes0[x].upstreams, nodes0[x].downstreams)
    ensures Removed(nodes0, nodes[x := nodes[x].(active := false)], x)
  {
    NoSelfEdges(nodes0, x);
    forall i: nat | i < |nodes0| && !nodes0[i].active
      ensures !Names(nodes0[x].upstreams, i) && !Names(nodes0[x].downstreams, i)
    {
    }
    forall i: nat | i != x && Live(nodes0, i)
      ensures nodes[i] ==
              nodes0[i].(upstreams := Without(nodes0[i].upstreams, x), downstreams := Without(nodes0[i].downstreams, x))
    {
      NeighbourUnlinked(nodes0, x, i);
    }
  }

  lemma UnlinkedSelf(nodes0: seq<NodeData>, nodes: seq<NodeData>, x: nat)
    requires Structure(nodes0) && Live(nodes0, x)
    requires Unlinked(nodes0, nodes, x, nodes0[x].upstreams, [])
    ensures |nodes| == |nodes0| && nodes[x].downstreams == nodes0[x].downstreams
    ensures Unlinked(nodes0, nodes, x, nodes0[x].upstreams, [])
    ensures forall e :: e in nodes0[x].downstreams ==> e.node < |nodes0|
  {
    NoSelfEdges(nodes0, x);
  }

  lemma NoSelfEdges(nodes: seq<NodeData>, x: nat)
    requires Structure(nodes) && Live(nodes, x)
    ensures !Names(nodes[x].upstreams, x) && !Names(nodes[x].downstreams, x)
  {
    Mirrored(nodes, x, x, true);
    Mirrored(nodes, x, x, false);
  }

  lemma NeighbourUnlinked(nodes: seq<NodeData>, x: nat, i: nat)
    requires Structure(nodes) && Live(nodes, x) && Live(nodes, i)
    ensures !Names(nodes[x].upstreams, i) ==> Without(nodes[i].downstreams, x) == nodes[i].downstreams
    ensures !Names(nodes[x].downstreams, i) ==> Without(nodes[i].upstreams, x) == nodes[i].upstreams
  {
    Mirrored(nodes, i, x, true);
    Mirrored(nodes, i, x, false);
    Mirrored(nodes, x, i, true);
    Mirrored(nodes, x, i, false);
    if !Names(nodes[x].upstreams, i) {
      WithoutAbsent(nodes[i].downstreams, x);
    }
    if !Names(nodes[x].downstreams, i) {
      WithoutAbsent(nodes[i].upstreams, x);
    }
  }

  lemma RemovedEdges(nodes0: seq<NodeData>, nodes: seq<NodeData>, x: nat)
    requires LiveEdges(nodes0) && Layered(nodes0) && Removed(nodes0, nodes, x)
    ensures LiveEdges(nodes) && Layered(nodes)
  {
    forall i: nat, e | Live(nodes, i) && e in nodes[i].upstreams
      ensures Live(nodes, e.node) && nodes[e.node].layer < nodes[i].layer
    {
      assert Live(nodes0, i) && e in nodes0[i].upstreams && Live(nodes0, e.node);
    }
    forall i: nat, e | Live(nodes, i) && e in nodes[i].downstreams ensures Live(nodes, e.node) {
      assert Live(nodes0, i) && e in nodes0[i].downstreams && Live(nodes0, e.node);
    }
  }

  /** Removing a node leaves the rest of the graph sound. */
  lemma RemovedStructure(nodes0: seq<NodeData>, nodes: seq<NodeData>, x: nat)
    requires Structure(nodes0) && Live(nodes0, x) && Removed(nodes0, nodes, x)
    ensures Structure(nodes)
  {
    RemovedEdges(nodes0, nodes, x);
    hide LiveEdges, Layered;
    forall u: nat, v: nat, a: bool | Live(nodes, u) && Live(nodes, v)
      ensures multiset(nodes[v].upstreams)[Edge(u, a)] == multiset(nodes[u].downstreams)[Edge(v, a)]
    {
      assert Live(nodes0, u) && Live(nodes0, v) && u != x && v != x;
    }
  }

  // ----- A whole batch of removals -----

  ghost predicate Survives(nodes: seq<NodeData>, i: nat, removals: seq<Id>) {
    Live(nodes, i) && nodes[i].id !in removals
  }

  ghost predicate Retires(nodes: seq<NodeData>, i: nat, removals: seq<Id>) {
    Live(nodes, i) && nodes[i].id in removals
  }

  /** The edges that do not touch a retiring node, in order. */
  ghost function Spared(nodes: seq<NodeData>, removals: seq<Id>, edges: seq<Edge>): seq<Edge> {
    if edges == [] then []
    else
      var init, last := edges[..|edges| - 1], edges[|edges| - 1];
      if Retires(nodes, last.node, removals) then Spared(nodes, removals, init)
      else Spared(nodes, removals, init) + [last]
  }

  /** The live nodes named in `removals` are no longer live; every other live node keeps exactly its edges to
      nodes that stay, in order; nodes removed earlier, identities and layers are as before. */
  ghost predicate Retired(nodes0: seq<NodeData>, nodes: seq<NodeData>, removals: seq<Id>) {
    && |nodes| == |nodes0|
    && forall i :: 0 <= i < |nodes0| ==> RetiredAt(nodes0, nodes[i], removals, i)
  }

  ghost predicate RetiredAt(nodes0: seq<NodeData>, node: NodeData, removals: seq<Id>, i: nat)
    requires i < |nodes0|
  {
    && node.id == nodes0[i].id && node.layer == nodes0[i].layer
    && (node.active <==> Survives(nodes0, i, removals))
    && (node.active ==> node.upstreams == Spared(nodes0, removals, nodes0[i].upstreams))
    && (node.active ==> node.downstreams == Spared(nodes0, removals, nodes0[i].downstreams))
    && (!nodes0[i].active ==> node == nodes0[i])
  }

  lemma {:induction false} SparedMember(nodes: seq<NodeData>, removals: seq<Id>, edges: seq<Edge>, e: Edge)
    ensures e in Spared(nodes, removals, edges) <==> e in edges && !Retires(nodes, e.node, removals)
  {
    if edges != [] {
      var init, last := edges[..|edges| - 1], edges[|edges| - 1];
      assert edges == init + [last];
      SparedMember(nodes, removals, init, e);
    }
  }

  lemma {:induction false} SparedSame(nodes: seq<NodeData>, removals: seq<Id>, removals': seq<Id>, edges: seq<Edge>)
    requires forall i: nat :: Retires(nodes, i, removals) <==> Retires(nodes, i, removals')
    ensures Spared(nodes, removals, edges) == Spared(nodes, removals', edges)
  {
    if edges != [] {
      SparedSame(nodes, removals, removals', edges[..|edges| - 1]);
    }
  }

  lemma {:induction false} SparedNone(nodes: seq<NodeData>, edges: seq<Edge>)
    ensures Spared(nodes, [], edges) == edges
  {
    if edges != [] {
      SparedNone(nodes, edges[..|edges| - 1]);
    }
  }

  lemma WithoutLast(edges: seq<Edge>, last: Edge, x: nat)
    ensures Without(edges + [last], x) == if last.node == x then Without(edges, x) else Without(edges, x) + [last]
  {
    assert (edges + [last])[..|edges|] == edges;
  }

  /** Retiring one more node drops its edges from what was spared so far. */
  lemma {:induction false} SparedNext(nodes: seq<NodeData>, removals: seq<Id>, edges: seq<Edge>, x: nat)
    requires Live(nodes, x) && forall i: nat :: i < |nodes| && i != x ==> nodes[i].id != nodes[x].id
    ensures Without(Spared(nodes, removals, edges), x) == Spared(nodes, removals + [nodes[x].id], edges)
  {
    if edges != [] {
      var init, last := edges[..|edges| - 1], edges[|edges| - 1];
      SparedNext(nodes, removals, init, x);
      WithoutLast(Spared(nodes, removals, init), last, x);
      assert Retires(nodes, last.node, removals + [nodes[x].id]) <==>
        Retires(nodes, last.node, removals) || last.node == x;
      hide Retires, Without;
    }
  }

  lemma RetiresNobody(nodes: seq<NodeData>)
    ensures Retired(nodes, nodes, [])
  {
    forall i | 0 <= i < |nodes| ensures RetiredAt(nodes, nodes[i], [], i) {
      SparedNone(nodes, nodes[i].upstreams);
      SparedNone(nodes, nodes[i].downstreams);
    }
  }

  lemma RetiresOne(nodes0: seq<NodeData>, before: seq<NodeData>, nodes: seq<NodeData>, removals: seq<Id>,
                   x: nat, index: map<Id, nat>)
    requires Retired(nodes0, before, removals) && Removed(before, nodes, x) && Live(before, x) && Indexed(before, index)
    ensures Retired(nodes0, nodes, removals + [before[x].id])
  {
    var id := before[x].id;
    assert RetiredAt(nodes0, before[x], removals, x);
    forall i: nat | i < |nodes0| && i != x ensures nodes0[i].id != id {
      assert RetiredAt(nodes0, before[i], removals, i) && before[i].id != id;
    }
    forall i | 0 <= i < |nodes0| ensures RetiredAt(nodes0, nodes[i], removals + [id], i) {
      RetiresOneAt(nodes0, before, nodes, removals, x, i);
    }
  }

  lemma RetiresOneAt(nodes0: seq<NodeData>, before: seq<NodeData>, nodes: seq<NodeData>, removals: seq<Id>, x: nat,
                     i: nat)
    requires Retired(nodes0, before, removals) && Removed(before, nodes, x) && Live(before, x) && i < |nodes0|
    requires forall j: nat :: j < |nodes0| && j != x ==> nodes0[j].id != nodes0[x].id
    ensures RetiredAt(nodes0, nodes[i], removals + [nodes0[x].id], i)
  {
    assert RetiredAt(nodes0, before[i], removals, i) && RetiredAt(nodes0, before[x], removals, x);
    SparedNext(nodes0, removals, nodes0[i].upstreams, x);
    SparedNext(nodes0, removals, nodes0[i].downstreams, x);
    hide Spared, Without;
    if i != x && before[i].active {
      assert Live(before, i);
    }
  }

  lemma RetiresNone(nodes0: seq<NodeData>, nodes: seq<NodeData>, removals: seq<Id>, x: Id, index: map<Id, nat>)
    requires Retired(nodes0, nodes, removals) && Indexed(nodes, index)
    requires x in index ==> !nodes[index[x]].active
    ensures Retired(nodes0, nodes, removals + [x])
  {
    forall i: nat | i < |nodes0| ensures Retires(nodes0, i, removals) <==> Retires(nodes0, i, removals + [x]) {
      assert RetiredAt(nodes0, nodes[i], removals, i);
      assert nodes[i].id == x ==> index[x] == i;
    }
    forall i | 0 <= i < |nodes0| ensures RetiredAt(nodes0, nodes[i], removals + [x], i) {
      assert RetiredAt(nodes0, nodes[i], removals, i);
      assert Retires(nodes0, i, removals) <==> Retires(nodes0, i, removals + [x]);
      SparedSame(nodes0, removals, removals + [x], nodes0[i].upstreams);
      SparedSame(nodes0, removals, removals + [x], nodes0[i].downstreams);
    }
  }

  /** Some node that is to go does not stop. */
  ghost predicate StopFails(nodes: seq<NodeData>, removals: seq<Id>, stops: Id -> bool) {
    exists i: nat :: Retires(nodes, i, removals) && !stops(nodes[i].id)
  }

  /** Part of the way through the removals, the next one fails the whole if it names a node that is still live
      and does not stop; otherwise it changes nothing. */
  lemma StopsNext(nodes0: seq<NodeData>, nodes: seq<NodeData>, removals: seq<Id>, k: nat, index: map<Id, nat>,
                  stops: Id -> bool)
    requires k < |removals| && Retired(nodes0, nodes, removals[..k]) && Indexed(nodes, index)
    requires !StopFails(nodes0, removals[..k], stops)
    ensures var x := removals[k];
            if x in index && Live(nodes, index[x]) && !stops(x) then StopFails(nodes0, removals, stops)
            else !StopFails(nodes0, removals[..k + 1], stops)
  {
    var x := removals[k];
    assert removals[..k + 1] == removals[..k] + [x];
    if x in index && Live(nodes, index[x]) && !stops(x) {
      assert RetiredAt(nodes0, nodes[index[x]], removals[..k], index[x]);
      assert Retires(nodes0, index[x], removals);
    } else {
      forall i: nat | Retires(nodes0, i, removals[..k + 1]) ensures stops(nodes0[i].id) {
        assert RetiredAt(nodes0, nodes[i], removals[..k], i);
        assert Retires(nodes0, i, removals[..k]) || index[x] == i;
      }
    }
  }

  lemma RemovedKeeps(nodes0: seq<NodeData>, nodes: seq<NodeData>, x: nat)
    requires Removed(nodes0, nodes, x)
    ensures |nodes| == |nodes0|
    ensures forall i :: 0 <= i < |nodes| ==> nodes[i].id == nodes0[i].id && nodes[i].layer == nodes0[i].layer
  {
    forall i: nat | i < |nodes| ensures nodes[i].id == nodes0[i].id && nodes[i].layer == nodes0[i].layer {
      if i != x && nodes0[i].active {
        assert Live(nodes0, i);
      }
    }
  }
}
