/** The data the engine keeps about its nodes, and the vocabulary of its global invariants.

    A node is identified by its address (`Id`); once registered it also has an index, its
    position in the `nodes` vector.  What a node answers from `upstreams()` is given by a
    `Declaration`. */
module GraphModel {

  type Id = nat

  datatype UpStreams = UpStreams(active: seq<Id>, passive: seq<Id>)

  type Declaration = Id -> UpStreams

  /** One declared upstream: active upstreams trigger the node, passive ones are only read. */
  datatype Dep = Dep(id: Id, active: bool)

  datatype Edge = Edge(node: nat, active: bool)

  datatype NodeData = NodeData(
    id: Id, upstreams: seq<Edge>, downstreams: seq<Edge>, layer: nat, active: bool)

  datatype Result<T> = Ok(value: T) | Err(culprit: nat)

  /** The pairs a wiring frame walks through: active upstreams first, then passive. */
  function Declared(decl: Declaration, x: Id): (deps: seq<Dep>)
    ensures |deps| == |decl(x).active| + |decl(x).passive|
  {
    var ups := decl(x);
    seq(|ups.active|, i requires 0 <= i < |ups.active| => Dep(ups.active[i], true)) +
    seq(|ups.passive|, i requires 0 <= i < |ups.passive| => Dep(ups.passive[i], false))
  }

  predicate DependsOn(decl: Declaration, x: Id, y: Id) {
    y in decl(x).active || y in decl(x).passive
  }

  lemma DeclaredAreDependencies(decl: Declaration, x: Id)
    ensures forall k :: 0 <= k < |Declared(decl, x)| ==> DependsOn(decl, x, Declared(decl, x)[k].id)
    ensures forall y :: DependsOn(decl, x, y) ==>
              exists k :: 0 <= k < |Declared(decl, x)| && Declared(decl, x)[k].id == y
  {
    var deps := Declared(decl, x);
    var ups := decl(x);
    forall y | DependsOn(decl, x, y)
      ensures exists k :: 0 <= k < |deps| && deps[k].id == y
    {
      if y in ups.active {
        var i :| 0 <= i < |ups.active| && ups.active[i] == y;
        assert deps[i].id == y;
      } else {
        var i :| 0 <= i < |ups.passive| && ups.passive[i] == y;
        assert deps[|ups.active| + i].id == y;
      }
    }
  }

  // ----- Paths through the declarations, walking from a node to its upstreams -----

  ghost predicate IsPath(decl: Declaration, p: seq<Id>) {
    && |p| > 0
    && forall i {:trigger DependsOn(decl, p[i], p[i + 1])} :: 0 <= i < |p| - 1 ==> DependsOn(decl, p[i], p[i + 1])
  }

  ghost predicate PathBetween(decl: Declaration, p: seq<Id>, x: Id, y: Id) {
    IsPath(decl, p) && p[0] == x && p[|p| - 1] == y
  }

  ghost predicate Reaches(decl: Declaration, x: Id, y: Id) {
    exists p :: PathBetween(decl, p, x, y)
  }

  /** A path from `x` whose last node already occurred on it. */
  ghost predicate Lasso(decl: Declaration, p: seq<Id>, x: Id) {
    && IsPath(decl, p) && p[0] == x
    && exists i :: 0 <= i < |p| - 1 && p[i] == p[|p| - 1]
  }

  ghost predicate CycleReachable(decl: Declaration, x: Id) {
    exists p :: Lasso(decl, p, x)
  }

  function Below(n: nat): (s: set<nat>)
    ensures forall i: nat :: i in s <==> i < n
  {
    if n == 0 then {} else Below(n - 1) + {n - 1}
  }

  // ----- The registry -----

  ghost predicate Indexed(nodes: seq<NodeData>, index: map<Id, nat>) {
    && (forall i :: 0 <= i < |nodes| ==> nodes[i].id in index && index[nodes[i].id] == i)
    && (forall x :: x in index ==> index[x] < |nodes| && nodes[index[x]].id == x)
  }

  lemma IndexedFrame(nodes0: seq<NodeData>, nodes: seq<NodeData>, index: map<Id, nat>)
    requires Indexed(nodes0, index) && |nodes| == |nodes0|
    requires forall i :: 0 <= i < |nodes| ==> nodes[i].id == nodes0[i].id
    ensures Indexed(nodes, index)
  {
  }

  /** Every upstream a registered node declares was registered before it. */
  ghost predicate Topological(decl: Declaration, index: map<Id, nat>) {
    forall x, y {:trigger DependsOn(decl, x, y)} :: x in index && DependsOn(decl, x, y) ==>
      y in index && index[y] < index[x]
  }

  ghost predicate ClosedUnder(decl: Declaration, universe: set<Id>) {
    forall x, y {:trigger DependsOn(decl, x, y)} :: x in universe && DependsOn(decl, x, y) ==> y in universe
  }

  /** The registered edges of a node, for the dependencies it declared. */
  ghost predicate Resolves(edges: seq<Edge>, deps: seq<Dep>, index: map<Id, nat>) {
    && |edges| == |deps|
    && forall k :: 0 <= k < |deps| ==>
         deps[k].id in index && edges[k] == Edge(index[deps[k].id], deps[k].active)
  }

  /** The edges a node gets from what it declares: one for each active upstream, in order, and behind them one for
      each passive upstream. */
  ghost predicate AsDeclared(edges: seq<Edge>, ups: UpStreams, index: map<Id, nat>) {
    && |edges| == |ups.active| + |ups.passive|
    && (forall k :: 0 <= k < |ups.active| ==> ups.active[k] in index && edges[k] == Edge(index[ups.active[k]], true))
    && (forall k :: 0 <= k < |ups.passive| ==>
          ups.passive[k] in index && edges[|ups.active| + k] == Edge(index[ups.passive[k]], false))
  }

  lemma ResolvedAsDeclared(decl: Declaration, x: Id, edges: seq<Edge>, index: map<Id, nat>)
    requires Resolves(edges, Declared(decl, x), index)
    ensures AsDeclared(edges, decl(x), index)
  {
    var ups, deps := decl(x), Declared(decl, x);
    assert forall k :: 0 <= k < |ups.active| ==> deps[k] == Dep(ups.active[k], true);
    forall k | 0 <= k < |ups.passive|
      ensures ups.passive[k] in index && edges[|ups.active| + k] == Edge(index[ups.passive[k]], false)
    {
      assert deps[|ups.active| + k] == Dep(ups.passive[k], false);
    }
  }

  // ----- Layers -----

  ghost predicate EdgesInRange(edges: seq<Edge>, n: nat) {
    forall k :: 0 <= k < |edges| ==> edges[k].node < n
  }

  /** The least layer above all of `edges`: 0 for a source, otherwise one more than the highest. */
  function RequiredLayer(edges: seq<Edge>, nodes: seq<NodeData>): (layer: nat)
    requires EdgesInRange(edges, |nodes|)
    ensures forall k :: 0 <= k < |edges| ==> nodes[edges[k].node].layer < layer
    ensures layer == 0 || exists k :: 0 <= k < |edges| && layer == nodes[edges[k].node].layer + 1
  {
    if edges == [] then 0
    else
      var rest := RequiredLayer(edges[..|edges| - 1], nodes);
      var last := nodes[edges[|edges| - 1].node].layer + 1;
      if last > rest then last else rest
  }

  lemma RequiredLayerFrame(edges: seq<Edge>, nodes: seq<NodeData>, nodes': seq<NodeData>)
    requires EdgesInRange(edges, |nodes|) && |nodes| <= |nodes'|
    requires forall i :: 0 <= i < |nodes| ==> nodes'[i].layer == nodes[i].layer
    ensures RequiredLayer(edges, nodes') == RequiredLayer(edges, nodes)
  {
  }
}
