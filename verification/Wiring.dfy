/** Wiring a subgraph with an explicit work stack: the invariants of the loop and what they yield. */
module Wiring {
  import opened GraphModel

  datatype Frame = Frame(id: Id, deps: seq<Dep>, next: nat, layer: nat, edges: seq<Edge>)

  ghost predicate FrameOk(decl: Declaration, nodes: seq<NodeData>, index: map<Id, nat>, f: Frame) {
    && f.deps == Declared(decl, f.id)
    && f.next <= |f.deps|
    && Resolves(f.edges, f.deps[..f.next], index)
    && EdgesInRange(f.edges, |nodes|)
    && f.layer == RequiredLayer(f.edges, nodes)
  }

  /** `f` is being wired because `g` needs it next. */
  predicate AwaitedBy(f: Frame, g: Frame) {
    g.next < |g.deps| && g.deps[g.next].id == f.id
  }

  function Ids(stack: seq<Frame>): set<Id> {
    if stack == [] then {} else Ids(stack[..|stack| - 1]) + {stack[|stack| - 1].id}
  }

  /** Every frame is in order, none is registered, none occurs twice, and each is the upstream that
      its predecessor is waiting for. */
  ghost predicate StackOk(decl: Declaration, nodes: seq<NodeData>, index: map<Id, nat>, stack: seq<Frame>) {
    stack == [] ||
    var rest, top := stack[..|stack| - 1], stack[|stack| - 1];
    && StackOk(decl, nodes, index, rest)
    && FrameOk(decl, nodes, index, top)
    && top.id !in index && top.id !in Ids(rest)
    && (rest != [] ==> AwaitedBy(top, rest[|rest| - 1]))
  }

  ghost function Remaining(stack: seq<Frame>): nat {
    if stack == [] then 0
    else
      var top := stack[|stack| - 1];
      Remaining(stack[..|stack| - 1]) + (if top.next <= |top.deps| then |top.deps| - top.next else 0) + 1
  }

  function Trail(stack: seq<Frame>): seq<Id> {
    if stack == [] then [] else Trail(stack[..|stack| - 1]) + [stack[|stack| - 1].id]
  }

  lemma {:induction false} TrailIsPath(decl: Declaration, nodes: seq<NodeData>, index: map<Id, nat>, stack: seq<Frame>)
    requires StackOk(decl, nodes, index, stack) && stack != []
    ensures |Trail(stack)| == |stack|
    ensures PathBetween(decl, Trail(stack), stack[0].id, stack[|stack| - 1].id)
  {
    var rest, top := stack[..|stack| - 1], stack[|stack| - 1];
    if rest != [] {
      TrailIsPath(decl, nodes, index, rest);
      DeclaredAreDependencies(decl, rest[|rest| - 1].id);
      PathExtends(decl, Trail(rest), top.id);
    } else {
      assert Trail(stack) == [top.id];
    }
  }

  lemma PathExtends(decl: Declaration, p: seq<Id>, y: Id)
    requires IsPath(decl, p) && DependsOn(decl, p[|p| - 1], y)
    ensures IsPath(decl, p + [y])
  {
    var q := p + [y];
    forall i {:trigger DependsOn(decl, q[i], q[i + 1])} | 0 <= i < |q| - 1
      ensures DependsOn(decl, q[i], q[i + 1])
    {
      if i < |p| - 1 {
        assert DependsOn(decl, p[i], p[i + 1]);
      }
    }
  }

  lemma {:induction false} IdOccursOnTrail(stack: seq<Frame>, x: Id) returns (k: nat)
    requires x in Ids(stack)
    ensures |Trail(stack)| == |stack|
    ensures k < |stack| && Trail(stack)[k] == x
  {
    TrailLength(stack);
    var rest, top := stack[..|stack| - 1], stack[|stack| - 1];
    if top.id == x {
      k := |rest|;
      TrailLength(rest);
    } else {
      k := IdOccursOnTrail(rest, x);
    }
  }

  lemma {:induction false} TrailLength(stack: seq<Frame>)
    ensures |Trail(stack)| == |stack|
  {
    if stack != [] {
      TrailLength(stack[..|stack| - 1]);
    }
  }

  /** An upstream that is still in progress closes a cycle. */
  lemma BackEdgeIsLasso(decl: Declaration, nodes: seq<NodeData>, index: map<Id, nat>, stack: seq<Frame>, up: Id)
    requires StackOk(decl, nodes, index, stack) && stack != []
    requires up in Ids(stack) && DependsOn(decl, stack[|stack| - 1].id, up)
    ensures CycleReachable(decl, stack[0].id)
  {
    TrailIsPath(decl, nodes, index, stack);
    var k := IdOccursOnTrail(stack, up);
    var p := Trail(stack) + [up];
    PathExtends(decl, Trail(stack), up);
    assert p[k] == p[|p| - 1];
    assert Lasso(decl, p, stack[0].id);
  }

  /** Along a path that starts at a registered node, registration indices strictly fall. */
  lemma {:induction false} IndicesFallAlongPath(decl: Declaration, index: map<Id, nat>, p: seq<Id>, i: nat, j: nat)
    requires Topological(decl, index) && IsPath(decl, p) && p[0] in index
    requires i <= j < |p|
    ensures p[i] in index && p[j] in index
    ensures i < j ==> index[p[j]] < index[p[i]]
    decreases j
  {
    if j > 0 {
      IndicesFallAlongPath(decl, index, p, 0, j - 1);
      var k := j - 1;
      assert DependsOn(decl, p[k], p[k + 1]);
      if i < j {
        IndicesFallAlongPath(decl, index, p, i, j - 1);
      }
    }
  }

  lemma RegisteredHasNoCycle(decl: Declaration, index: map<Id, nat>, x: Id)
    requires Topological(decl, index) && x in index
    ensures !CycleReachable(decl, x)
  {
    forall p | Lasso(decl, p, x) ensures false {
      var i :| 0 <= i < |p| - 1 && p[i] == p[|p| - 1];
      IndicesFallAlongPath(decl, index, p, i, |p| - 1);
    }
  }

  /** Registered with the edges it declared, in order, one layer above its highest upstream. */
  ghost predicate Placed(decl: Declaration, nodes: seq<NodeData>, index: map<Id, nat>, i: nat)
    requires i < |nodes|
  {
    && Resolves(nodes[i].upstreams, Declared(decl, nodes[i].id), index)
    && EdgesInRange(nodes[i].upstreams, i)
    && nodes[i].layer == RequiredLayer(nodes[i].upstreams, nodes)
  }

  /** A node exactly as wiring leaves it. */
  ghost predicate Wired(decl: Declaration, nodes: seq<NodeData>, index: map<Id, nat>, i: nat)
    requires i < |nodes|
  {
    Placed(decl, nodes, index, i) && nodes[i].downstreams == [] && nodes[i].active
  }

  /** What the wiring loop maintains, relative to the registry it started from. */
  ghost predicate WiringInv(decl: Declaration, root: Id, nodes0: seq<NodeData>, index0: map<Id, nat>,
                            nodes: seq<NodeData>, index: map<Id, nat>) {
    && Indexed(nodes, index) && Topological(decl, index)
    && nodes0 <= nodes
    && (forall x :: x in index0 ==> x in index)
    && (forall x :: x in index && x !in index0 ==> Reaches(decl, root, x))
    && (forall i :: |nodes0| <= i < |nodes| ==> Wired(decl, nodes, index, i))
  }

  /** The frame after its next upstream, already registered, has been recorded. */
  function Record(top: Frame, nodes: seq<NodeData>, index: map<Id, nat>): Frame
    requires top.next < |top.deps| && top.deps[top.next].id in index
    requires index[top.deps[top.next].id] < |nodes|
  {
    var up := top.deps[top.next];
    var i := index[up.id];
    var above := nodes[i].layer + 1;
    top.(edges := top.edges + [Edge(i, up.active)],
         layer := if above > top.layer then above else top.layer,
         next := top.next + 1)
  }

  lemma RecordFrame(decl: Declaration, nodes: seq<NodeData>, index: map<Id, nat>, top: Frame)
    requires FrameOk(decl, nodes, index, top)
    requires top.next < |top.deps| && top.deps[top.next].id in index
    requires index[top.deps[top.next].id] < |nodes|
    ensures FrameOk(decl, nodes, index, Record(top, nodes, index))
  {
    var top' := Record(top, nodes, index);
    assert top'.edges[..|top'.edges| - 1] == top.edges;
    assert top.deps[..top'.next] == top.deps[..top.next] + [top.deps[top.next]];
  }

  lemma RecordStep(decl: Declaration, nodes: seq<NodeData>, index: map<Id, nat>, stack: seq<Frame>)
    requires StackOk(decl, nodes, index, stack) && stack != []
    requires var top := stack[|stack| - 1];
             top.next < |top.deps| && top.deps[top.next].id in index && index[top.deps[top.next].id] < |nodes|
    ensures var stack' := stack[|stack| - 1 := Record(stack[|stack| - 1], nodes, index)];
            && StackOk(decl, nodes, index, stack')
            && Ids(stack') == Ids(stack) && stack'[0].id == stack[0].id
            && Remaining(stack') < Remaining(stack)
  {
    var top := stack[|stack| - 1];
    var stack' := stack[|stack| - 1 := Record(top, nodes, index)];
    RecordFrame(decl, nodes, index, top);
    SwapTop(decl, nodes, index, stack, Record(top, nodes, index));
    hide StackOk, Ids, FrameOk;
    assert stack'[..|stack'| - 1] == stack[..|stack| - 1];
  }

  /** Another frame for the same node can take the place of the top one. */
  lemma SwapTop(decl: Declaration, nodes: seq<NodeData>, index: map<Id, nat>, stack: seq<Frame>, top: Frame)
    requires StackOk(decl, nodes, index, stack) && stack != [] && top.id == stack[|stack| - 1].id
    requires FrameOk(decl, nodes, index, top)
    ensures var stack' := stack[|stack| - 1 := top]; StackOk(decl, nodes, index, stack') && Ids(stack') == Ids(stack)
  {
    hide FrameOk;
    var stack' := stack[|stack| - 1 := top];
    assert stack'[..|stack'| - 1] == stack[..|stack| - 1];
  }

  lemma FirstFrame(decl: Declaration, nodes: seq<NodeData>, index: map<Id, nat>, x: Id)
    requires x !in index
    ensures var stack := [Frame(x, Declared(decl, x), 0, 0, [])];
            StackOk(decl, nodes, index, stack) && Ids(stack) == {x}
  {
    var stack := [Frame(x, Declared(decl, x), 0, 0, [])];
    assert stack[..|stack| - 1] == [];
    assert FrameOk(decl, nodes, index, stack[0]);
    assert Ids([]) == {};
  }

  lemma DescendStep(decl: Declaration, nodes: seq<NodeData>, index: map<Id, nat>, stack: seq<Frame>, up: Id)
    requires StackOk(decl, nodes, index, stack) && stack != []
    requires var top := stack[|stack| - 1]; top.next < |top.deps| && top.deps[top.next].id == up
    requires up !in index && up !in Ids(stack)
    ensures var stack' := stack + [Frame(up, Declared(decl, up), 0, 0, [])];
            StackOk(decl, nodes, index, stack') && Ids(stack') == Ids(stack) + {up}
  {
    var stack' := stack + [Frame(up, Declared(decl, up), 0, 0, [])];
    assert stack'[..|stack'| - 1] == stack;
  }

  /** Registering a node that is not on the stack leaves the stack in order. */
  lemma {:induction false} StackFrame(decl: Declaration, nodes: seq<NodeData>, index: map<Id, nat>,
                                      stack: seq<Frame>, node: NodeData)
    requires StackOk(decl, nodes, index, stack) && node.id !in Ids(stack) && node.id !in index
    ensures StackOk(decl, nodes + [node], index[node.id := |nodes|], stack)
  {
    hide FrameOk, AwaitedBy;
    if stack != [] {
      StackFrame(decl, nodes, index, stack[..|stack| - 1], node);
      FrameSurvives(decl, nodes, index, stack[|stack| - 1], node);
    }
  }

  lemma FrameSurvives(decl: Declaration, nodes: seq<NodeData>, index: map<Id, nat>, f: Frame, node: NodeData)
    requires FrameOk(decl, nodes, index, f) && node.id !in index
    ensures FrameOk(decl, nodes + [node], index[node.id := |nodes|], f)
  {
    RequiredLayerFrame(f.edges, nodes, nodes + [node]);
  }

  lemma FinishedFrame(decl: Declaration, nodes: seq<NodeData>, index: map<Id, nat>, top: Frame)
    requires FrameOk(decl, nodes, index, top) && top.next == |top.deps|
    ensures EdgesInRange(top.edges, |nodes|) && Resolves(top.edges, Declared(decl, top.id), index)
    ensures top.layer == RequiredLayer(top.edges, nodes)
    ensures forall y :: DependsOn(decl, top.id, y) ==> y in index
  {
    DeclaredAreDependencies(decl, top.id);
    assert top.deps[..top.next] == top.deps;
  }

  lemma StaysWired(decl: Declaration, nodes: seq<NodeData>, index: map<Id, nat>, node: NodeData, i: nat)
    requires i < |nodes| && Wired(decl, nodes, index, i) && node.id !in index
    ensures Wired(decl, nodes + [node], index[node.id := |nodes|], i)
  {
    RequiredLayerFrame(nodes[i].upstreams, nodes, nodes + [node]);
  }

  /** Wired nodes stay wired while the registry grows. */
  lemma WiredGrows(decl: Declaration, nodes: seq<NodeData>, index: map<Id, nat>,
                   nodes': seq<NodeData>, index': map<Id, nat>, i: nat)
    requires i < |nodes| && Wired(decl, nodes, index, i) && nodes <= nodes'
    requires Indexed(nodes, index) && Indexed(nodes', index')
    ensures Wired(decl, nodes', index', i)
  {
    RequiredLayerFrame(nodes[i].upstreams, nodes, nodes');
    forall k | 0 <= k < |Declared(decl, nodes[i].id)|
      ensures var d := Declared(decl, nodes[i].id)[k]; d.id in index' && index'[d.id] == index[d.id]
    {
      var d := Declared(decl, nodes[i].id)[k];
      assert nodes'[index[d.id]].id == d.id;
    }
  }

  lemma BecomesWired(decl: Declaration, nodes: seq<NodeData>, index: map<Id, nat>, top: Frame)
    requires FrameOk(decl, nodes, index, top) && top.next == |top.deps| && top.id !in index
    ensures Wired(decl, nodes + [NodeData(top.id, top.edges, [], top.layer, true)], index[top.id := |nodes|], |nodes|)
  {
    FinishedFrame(decl, nodes, index, top);
    RequiredLayerFrame(top.edges, nodes, nodes + [NodeData(top.id, top.edges, [], top.layer, true)]);
  }

  lemma RegistryGrows(decl: Declaration, nodes: seq<NodeData>, index: map<Id, nat>, node: NodeData)
    requires Indexed(nodes, index) && Topological(decl, index) && node.id !in index
    requires forall y :: DependsOn(decl, node.id, y) ==> y in index
    ensures Indexed(nodes + [node], index[node.id := |nodes|])
    ensures Topological(decl, index[node.id := |nodes|])
  {
  }

  /** Registering a node whose upstreams are all recorded keeps the registry in order. */
  lemma RegisterStep(decl: Declaration, root: Id, nodes0: seq<NodeData>, index0: map<Id, nat>,
                     nodes: seq<NodeData>, index: map<Id, nat>, top: Frame)
    requires WiringInv(decl, root, nodes0, index0, nodes, index)
    requires FrameOk(decl, nodes, index, top) && top.next == |top.deps| && top.id !in index
    requires Reaches(decl, root, top.id)
    ensures WiringInv(decl, root, nodes0, index0,
                      nodes + [NodeData(top.id, top.edges, [], top.layer, true)], index[top.id := |nodes|])
  {
    FinishedFrame(decl, nodes, index, top);
    BecomesWired(decl, nodes, index, top);
    var node := NodeData(top.id, top.edges, [], top.layer, true);
    RegistryGrows(decl, nodes, index, node);
    hide FrameOk, Wired, Reaches, DependsOn, Indexed, Topological, Resolves;
    AllStayWired(decl, nodes, index, node, |nodes0|, nodes + [node], index[top.id := |nodes|]);
  }

  /** The newly registered node joins the ones wired since `from`. */
  lemma AllStayWired(decl: Declaration, nodes: seq<NodeData>, index: map<Id, nat>, node: NodeData, from: nat,
                     nodes': seq<NodeData>, index': map<Id, nat>)
    requires (forall i :: from <= i < |nodes| ==> Wired(decl, nodes, index, i)) && node.id !in index
    requires nodes' == nodes + [node] && index' == index[node.id := |nodes|] && Wired(decl, nodes', index', |nodes|)
    ensures forall i :: from <= i < |nodes'| ==> Wired(decl, nodes', index', i)
  {
    hide *;
    forall i | from <= i < |nodes| ensures Wired(decl, nodes', index', i) {
      StaysWired(decl, nodes, index, node, i);
    }
  }

  /** The least well-founded measure of the wiring loop: nodes not yet met, then work on the stack. */
  ghost function Unmet(universe: set<Id>, index: map<Id, nat>, stack: seq<Frame>): nat {
    |universe - index.Keys - Ids(stack)|
  }

  ghost predicate LoopInv(decl: Declaration, root: Id, universe: set<Id>, nodes0: seq<NodeData>, index0: map<Id, nat>,
                          nodes: seq<NodeData>, index: map<Id, nat>, stack: seq<Frame>) {
    && WiringInv(decl, root, nodes0, index0, nodes, index)
    && StackOk(decl, nodes, index, stack) && Ids(stack) <= universe
    && (if stack == [] then root in index else stack[0].id == root)
  }

  lemma FoundRegistered(decl: Declaration, root: Id, universe: set<Id>, nodes0: seq<NodeData>, index0: map<Id, nat>,
                        nodes: seq<NodeData>, index: map<Id, nat>, stack: seq<Frame>)
    requires LoopInv(decl, root, universe, nodes0, index0, nodes, index, stack) && stack != []
    requires var top := stack[|stack| - 1]; top.next < |top.deps| && top.deps[top.next].id in index
    ensures index[stack[|stack| - 1].deps[stack[|stack| - 1].next].id] < |nodes|
    ensures var stack' := stack[|stack| - 1 := Record(stack[|stack| - 1], nodes, index)];
            && LoopInv(decl, root, universe, nodes0, index0, nodes, index, stack')
            && Ids(stack') == Ids(stack)
            && Remaining(stack') < Remaining(stack)
  {
    RecordStep(decl, nodes, index, stack);
  }

  lemma FoundInProgress(decl: Declaration, root: Id, universe: set<Id>, nodes0: seq<NodeData>, index0: map<Id, nat>,
                        nodes: seq<NodeData>, index: map<Id, nat>, stack: seq<Frame>, up: Id)
    requires LoopInv(decl, root, universe, nodes0, index0, nodes, index, stack) && stack != []
    requires var top := stack[|stack| - 1]; top.next < |top.deps| && top.deps[top.next].id == up
    requires up in Ids(stack)
    ensures CycleReachable(decl, root)
  {
    assert FrameOk(decl, nodes, index, stack[|stack| - 1]);
    DeclaredAreDependencies(decl, stack[|stack| - 1].id);
    BackEdgeIsLasso(decl, nodes, index, stack, up);
  }

  lemma FoundNew(decl: Declaration, root: Id, universe: set<Id>, nodes0: seq<NodeData>, index0: map<Id, nat>,
                 nodes: seq<NodeData>, index: map<Id, nat>, stack: seq<Frame>, up: Id)
    requires LoopInv(decl, root, universe, nodes0, index0, nodes, index, stack) && stack != []
    requires ClosedUnder(decl, universe)
    requires var top := stack[|stack| - 1]; top.next < |top.deps| && top.deps[top.next].id == up
    requires up !in index && up !in Ids(stack)
    ensures var stack' := stack + [Frame(up, Declared(decl, up), 0, 0, [])];
            && LoopInv(decl, root, universe, nodes0, index0, nodes, index, stack')
            && Ids(stack') == Ids(stack) + {up}
            && Unmet(universe, index, stack') < Unmet(universe, index, stack)
  {
    TopIsNeeded(decl, nodes, index, stack, up, universe);
    DescendStep(decl, nodes, index, stack, up);
    UnmetShrinks(universe, index, stack, Frame(up, Declared(decl, up), 0, 0, []));
    hide WiringInv, StackOk, ClosedUnder;
  }

  lemma TopIsNeeded(decl: Declaration, nodes: seq<NodeData>, index: map<Id, nat>, stack: seq<Frame>, up: Id,
                    universe: set<Id>)
    requires StackOk(decl, nodes, index, stack) && Ids(stack) <= universe && ClosedUnder(decl, universe) && stack != []
    requires var top := stack[|stack| - 1]; top.next < |top.deps| && top.deps[top.next].id == up
    ensures up in universe
  {
    var top := stack[|stack| - 1];
    DeclaredAreDependencies(decl, top.id);
    assert FrameOk(decl, nodes, index, top);
    assert DependsOn(decl, top.id, up) && top.id in Ids(stack);
  }

  lemma UnmetShrinks(universe: set<Id>, index: map<Id, nat>, stack: seq<Frame>, frame: Frame)
    requires frame.id in universe && frame.id !in index && frame.id !in Ids(stack)
    requires Ids(stack + [frame]) == Ids(stack) + {frame.id}
    ensures Unmet(universe, index, stack + [frame]) < Unmet(universe, index, stack)
  {
    hide Ids;
    var before := universe - index.Keys - Ids(stack);
    assert universe - index.Keys - Ids(stack + [frame]) == before - {frame.id};
  }

  lemma MovesToRegistry(universe: set<Id>, index: map<Id, nat>, stack: seq<Frame>, n: nat)
    requires stack != []
    ensures Unmet(universe, index[stack[|stack| - 1].id := n], stack[..|stack| - 1]) == Unmet(universe, index, stack)
  {
    var index', rest := index[stack[|stack| - 1].id := n], stack[..|stack| - 1];
    assert universe - index'.Keys - Ids(rest) == universe - index.Keys - Ids(stack);
  }

  lemma Finished(decl: Declaration, root: Id, universe: set<Id>, nodes0: seq<NodeData>, index0: map<Id, nat>,
                 nodes: seq<NodeData>, index: map<Id, nat>, stack: seq<Frame>)
    requires LoopInv(decl, root, universe, nodes0, index0, nodes, index, stack) && stack != []
    requires var top := stack[|stack| - 1]; top.next >= |top.deps|
    ensures var top := stack[|stack| - 1];
            var nodes' := nodes + [NodeData(top.id, top.edges, [], top.layer, true)];
            var index' := index[top.id := |nodes|];
            var stack' := stack[..|stack| - 1];
            && LoopInv(decl, root, universe, nodes0, index0, nodes', index', stack')
            && Ids(stack') == Ids(stack) - {top.id}
            && Unmet(universe, index', stack') == Unmet(universe, index, stack)
            && Remaining(stack') < Remaining(stack)
  {
    var top, stack' := stack[|stack| - 1], stack[..|stack| - 1];
    MovesToRegistry(universe, index, stack, |nodes|);
    assert Remaining(stack') < Remaining(stack);
    FinishedInv(decl, root, universe, nodes0, index0, nodes, index, stack, stack', top);
    assert Ids(stack') == Ids(stack) - {top.id};
    hide *;
  }

  lemma FinishedInv(decl: Declaration, root: Id, universe: set<Id>, nodes0: seq<NodeData>, index0: map<Id, nat>,
                    nodes: seq<NodeData>, index: map<Id, nat>, stack: seq<Frame>, rest: seq<Frame>, top: Frame)
    requires LoopInv(decl, root, universe, nodes0, index0, nodes, index, stack) && stack != []
    requires top == stack[|stack| - 1] && rest == stack[..|stack| - 1] && top.next >= |top.deps|
    ensures LoopInv(decl, root, universe, nodes0, index0,
                    nodes + [NodeData(top.id, top.edges, [], top.layer, true)], index[top.id := |nodes|], rest)
    ensures top.id !in Ids(rest)
  {
    TrailIsPath(decl, nodes, index, stack);
    assert Reaches(decl, root, top.id);
    assert Ids(stack) == Ids(rest) + {top.id};
    hide Reaches, WiringInv, PathBetween;
    RegisterStep(decl, root, nodes0, index0, nodes, index, top);
    hide FrameOk;
    StackFrame(decl, nodes, index, rest, NodeData(top.id, top.edges, [], top.layer, true));
    assert rest != [] ==> rest[0] == stack[0];
  }

  /** What has been added to a registry since `nodes0`/`index0` is wired and needed by one of `roots`. */
  ghost predicate WiredFrom(decl: Declaration, roots: seq<Id>, nodes0: seq<NodeData>, index0: map<Id, nat>,
                            nodes: seq<NodeData>, index: map<Id, nat>) {
    && nodes0 <= nodes
    && (forall x :: x in index0 ==> x in index)
    && (forall x :: x in index && x !in index0 ==> NeededBy(decl, roots, x))
    && (forall i :: |nodes0| <= i < |nodes| ==> Wired(decl, nodes, index, i))
  }

  ghost predicate NeededBy(decl: Declaration, roots: seq<Id>, x: Id) {
    exists y :: y in roots && Reaches(decl, y, x)
  }

  lemma NeededByMore(decl: Declaration, roots: seq<Id>, root: Id, x: Id)
    ensures NeededBy(decl, roots, x) ==> NeededBy(decl, roots + [root], x)
    ensures Reaches(decl, root, x) ==> NeededBy(decl, roots + [root], x)
  {
    if Reaches(decl, root, x) {
      assert root in roots + [root];
    }
    if y :| y in roots && Reaches(decl, y, x) {
      assert y in roots + [root];
    }
  }

  lemma WiredNext(decl: Declaration, roots: seq<Id>, root: Id, nodes0: seq<NodeData>, index0: map<Id, nat>,
                  nodes1: seq<NodeData>, index1: map<Id, nat>, nodes: seq<NodeData>, index: map<Id, nat>)
    requires WiredFrom(decl, roots, nodes0, index0, nodes1, index1)
    requires WiredFrom(decl, [root], nodes1, index1, nodes, index)
    requires Indexed(nodes1, index1) && Indexed(nodes, index)
    ensures WiredFrom(decl, roots + [root], nodes0, index0, nodes, index)
  {
    forall x | x in index && x !in index0 ensures NeededBy(decl, roots + [root], x) {
      NeededByMore(decl, roots, root, x);
    }
    hide NeededBy;
    forall i | |nodes0| <= i < |nodes| ensures Wired(decl, nodes, index, i) {
      if i < |nodes1| {
        assert Wired(decl, nodes1, index1, i);
        WiredGrows(decl, nodes1, index1, nodes, index, i);
      }
    }
  }

  // ----- Layers are longest paths -----

  ghost predicate PathFrom(decl: Declaration, p: seq<Id>, x: Id) {
    IsPath(decl, p) && p[0] == x
  }

  /** The longest chain of upstreams that starts at `x` has exactly `length` edges. */
  ghost predicate LongestPath(decl: Declaration, x: Id, length: nat) {
    && (exists p :: PathFrom(decl, p, x) && |p| == length + 1)
    && (forall p :: PathFrom(decl, p, x) ==> |p| <= length + 1)
  }

  lemma PathTail(decl: Declaration, p: seq<Id>)
    requires IsPath(decl, p) && |p| > 1
    ensures DependsOn(decl, p[0], p[1]) && PathFrom(decl, p[1..], p[1])
  {
    var first := 0;
    assert DependsOn(decl, p[first], p[first + 1]);
    var q := p[1..];
    forall i {:trigger DependsOn(decl, q[i], q[i + 1])} | 0 <= i < |q| - 1
      ensures DependsOn(decl, q[i], q[i + 1])
    {
      var k := i + 1;
      assert DependsOn(decl, p[k], p[k + 1]);
    }
  }

  lemma PathPrepends(decl: Declaration, x: Id, p: seq<Id>)
    requires IsPath(decl, p) && DependsOn(decl, x, p[0])
    ensures PathFrom(decl, [x] + p, x)
  {
    var q := [x] + p;
    forall i {:trigger DependsOn(decl, q[i], q[i + 1])} | 0 <= i < |q| - 1
      ensures DependsOn(decl, q[i], q[i + 1])
    {
      if i > 0 {
        var k := i - 1;
        assert DependsOn(decl, p[k], p[k + 1]);
      }
    }
  }

  lemma EdgeOfDependency(decl: Declaration, nodes: seq<NodeData>, index: map<Id, nat>, i: nat, y: Id)
    requires i < |nodes| && Placed(decl, nodes, index, i) && DependsOn(decl, nodes[i].id, y)
    ensures y in index && index[y] < i && nodes[index[y]].layer < nodes[i].layer
  {
    DeclaredAreDependencies(decl, nodes[i].id);
    var k :| 0 <= k < |Declared(decl, nodes[i].id)| && Declared(decl, nodes[i].id)[k].id == y;
    assert nodes[i].upstreams[k].node == index[y];
  }

  lemma {:induction false} NoPathExceedsLayer(decl: Declaration, nodes: seq<NodeData>, index: map<Id, nat>, i: nat,
                                              p: seq<Id>)
    requires Indexed(nodes, index) && i < |nodes|
    requires forall j :: 0 <= j < |nodes| ==> Placed(decl, nodes, index, j)
    requires PathFrom(decl, p, nodes[i].id)
    ensures |p| <= nodes[i].layer + 1
    decreases i
  {
    if |p| > 1 {
      PathTail(decl, p);
      EdgeOfDependency(decl, nodes, index, i, p[1]);
      NoPathExceedsLayer(decl, nodes, index, index[p[1]], p[1..]);
    }
  }

  lemma {:induction false} SomePathReachesLayer(decl: Declaration, nodes: seq<NodeData>, index: map<Id, nat>, i: nat)
    returns (p: seq<Id>)
    requires Indexed(nodes, index) && i < |nodes|
    requires forall j :: 0 <= j < |nodes| ==> Placed(decl, nodes, index, j)
    ensures PathFrom(decl, p, nodes[i].id) && |p| == nodes[i].layer + 1
    decreases i
  {
    assert Placed(decl, nodes, index, i);
    if nodes[i].layer == 0 {
      p := [nodes[i].id];
    } else {
      var edges := nodes[i].upstreams;
      var k :| 0 <= k < |edges| && nodes[i].layer == nodes[edges[k].node].layer + 1;
      DeclaredAreDependencies(decl, nodes[i].id);
      var j := edges[k].node;
      var q := SomePathReachesLayer(decl, nodes, index, j);
      PathPrepends(decl, nodes[i].id, q);
      p := [nodes[i].id] + q;
    }
  }

  lemma LayersAreLongestPaths(decl: Declaration, nodes: seq<NodeData>, index: map<Id, nat>, i: nat)
    requires Indexed(nodes, index) && i < |nodes|
    requires forall j :: 0 <= j < |nodes| ==> Placed(decl, nodes, index, j)
    ensures LongestPath(decl, nodes[i].id, nodes[i].layer)
  {
    var p := SomePathReachesLayer(decl, nodes, index, i);
    forall q | PathFrom(decl, q, nodes[i].id) ensures |q| <= nodes[i].layer + 1 {
      NoPathExceedsLayer(decl, nodes, index, i, q);
    }
  }
}
