module Engine {
  import opened GraphModel
  import opened Wiring
  import opened Evaluation
  import opened Equations
  import opened Dispatch
  import opened Edits
  import opened Layering
  import opened Removal
  import opened Additions
  import opened Acyclic

  ghost predicate Unticked(before: seq<bool>, after: seq<bool>) {
    |before| <= |after| && forall i :: 0 <= i < |after| ==> after[i] == (i < |before| && before[i])
  }

  lemma UntickedGrows(before: seq<bool>, after: seq<bool>)
    requires Unticked(before, after)
    ensures Unticked(before, after + [false])
  {
  }

  /** While the worklist runs: what was raised has a bucket, and so has the start node once popped. */
  ghost predicate Housed(nodes0: seq<NodeData>, nodes: seq<NodeData>, queue: seq<nat>, start: nat, buckets: nat) {
    && RaisedHoused(nodes0, nodes, buckets)
    && start < |nodes| && (start in queue || nodes[start].layer < buckets)
  }

  lemma HousedStep(nodes0: seq<NodeData>, nodes: seq<NodeData>, queue: seq<nat>, start: nat, buckets: nat,
                   nodes': seq<NodeData>, more: seq<nat>, buckets': nat)
    requires Housed(nodes0, nodes, queue, start, buckets) && queue != [] && queue[0] < |nodes|
    requires |nodes'| == |nodes|
    requires nodes' == nodes || nodes' == Raise(nodes, queue[0], nodes'[queue[0]].layer)
    requires buckets <= buckets' && nodes'[queue[0]].layer < buckets'
    ensures Housed(nodes0, nodes', queue[1..] + more, start, buckets')
  {
    assert forall w :: w in queue ==> w == queue[0] || w in queue[1..] + more;
  }

  lemma FrontUsable(nodes0: seq<NodeData>, nodes: seq<NodeData>, queue: seq<nat>, bound: seq<nat>, start: nat, k: nat)
    requires Progress(nodes0, nodes, queue, bound, start, k) && queue != []
    ensures queue[0] < |nodes| && EdgesInRange(nodes[queue[0]].upstreams, |nodes|)
  {
    PopFront(nodes0, nodes, queue, bound, start, k, queue[0]);
  }

  /** A turn of the worklist, with the buckets grown to hold the layer of the node at its front. */
  lemma {:induction false} TurnTaken(nodes0: seq<NodeData>, nodes: seq<NodeData>, queue: seq<nat>, bound: seq<nat>,
                                     start: nat, k: nat, buckets: nat, nodes': seq<NodeData>, queue': seq<nat>,
                                     buckets': nat)
    requires Progress(nodes0, nodes, queue, bound, start, k) && queue != [] && |bound| == |nodes| == |nodes'|
    requires queue[0] < |nodes| && EdgesInRange(nodes[queue[0]].upstreams, |nodes|)
    requires var v := queue[0];
             var required := RequiredLayer(nodes[v].upstreams, nodes);
             if required > nodes[v].layer
             then nodes' == Raise(nodes, v, required) && queue' == queue[1..] + Targets(nodes[v].downstreams)
             else nodes' == nodes && queue' == queue[1..]
    requires Housed(nodes0, nodes, queue, start, buckets) && buckets <= buckets' && nodes'[queue[0]].layer < buckets'
    ensures Progress(nodes0, nodes', queue', bound, start, k + 1) && Housed(nodes0, nodes', queue', start, buckets')
    ensures Headroom(nodes', bound) < Headroom(nodes, bound) || (nodes' == nodes && |queue'| < |queue|)
  {
    hide Progress, Headroom, Housed, RequiredLayer, Targets;
    var v := queue[0];
    PopFront(nodes0, nodes, queue, bound, start, k, v);
    var raised := if nodes' == nodes then [] else Targets(nodes[v].downstreams);
    RaiseChanges(nodes, v);
    assert queue[1..] + [] == queue[1..];
    HousedStep(nodes0, nodes, queue, start, buckets, nodes', raised, buckets');
  }

  /** What some addition needs is cyclic. */
  ghost predicate AdditionFails(decl: Declaration, additions: seq<Addition>) {
    exists a :: a in additions && CycleReachable(decl, a.node)
  }

  /** What the engine demands of a cycle's edits: nodes that are removed now, or were removed before, do
      not come back as callers, as upstreams to add, or as declared upstreams of new nodes. */
  ghost predicate EditsAllowed(decl: Declaration, nodes: seq<NodeData>, index: map<Id, nat>,
                               removals: seq<Id>, additions: seq<Addition>)
    requires Indexed(nodes, index)
  {
    && (forall x, y {:trigger DependsOn(decl, x, y)} ::
          x !in index && NeededBy(decl, NodesOf(additions), x) && DependsOn(decl, x, y) && y in index ==>
            Survives(nodes, index[y], removals))
    && (forall a :: a in additions ==>
          Survives(nodes, a.caller, removals) && (a.node in index ==> Survives(nodes, index[a.node], removals)))
  }

  /** Removals do not stand in the way of the additions. */
  lemma AfterRemovals(decl: Declaration, nodes0: seq<NodeData>, nodes: seq<NodeData>, index: map<Id, nat>,
                      removals: seq<Id>, additions: seq<Addition>)
    requires Indexed(nodes0, index) && Indexed(nodes, index) && Retired(nodes0, nodes, removals) && LiveEdges(nodes)
    requires EditsAllowed(decl, nodes0, index, removals, additions)
    ensures NoDeadUpstreams(decl, NodesOf(additions), nodes, index) && Requestable(nodes, index, additions)
    ensures NoNewCycle(decl, nodes0, index, removals, additions) ==> NoNewCycle(decl, nodes, index, [], additions)
  {
    if NoNewCycle(decl, nodes0, index, removals, additions) {
      var r := FeedingAfter(decl, nodes, index, [], additions);
      var r0 := FeedingAfter(decl, nodes0, index, removals, additions);
      forall y: nat, x: nat | r(y, x) ensures r0(y, x) {
        if HasEdge(nodes, y, x) {
          SurvivingEdge(nodes0, nodes, removals, y, x);
        }
      }
      FewerEdges(r, r0);
    }
  }

  lemma SurvivingEdge(nodes0: seq<NodeData>, nodes: seq<NodeData>, removals: seq<Id>, y: Id, x: Id)
    requires Retired(nodes0, nodes, removals) && LiveEdges(nodes) && HasEdge(nodes, y, x)
    ensures HasEdge(nodes0, y, x) && x !in removals && y !in removals
  {
    var i: nat, e :| Live(nodes, i) && e in nodes[i].upstreams && e.node < |nodes| && nodes[i].id == x &&
                     nodes[e.node].id == y;
    assert Live(nodes, e.node);
    SparedMember(nodes0, removals, nodes0[i].upstreams, e);
  }

  /** The pairs of caller and upstream that have been wired. */
  ghost predicate WiredPairs(wired: set<(nat, nat)>, additions: seq<Addition>, index: map<Id, nat>) {
    && (forall a :: a in additions ==> a.node in index)
    && (forall c, n :: (c, n) in wired <==> exists a :: a in additions && a.caller == c && index[a.node] == n)
  }

  lemma Shift<T>(done: seq<T>, todo: seq<T>)
    requires todo != []
    ensures done + [todo[0]] + todo[1..] == done + todo
  {
  }

  lemma PairKnown(wired: set<(nat, nat)>, additions: seq<Addition>, index: map<Id, nat>, nodes: seq<NodeData>,
                  a: Addition)
    requires WiredPairs(wired, additions, index) && Indexed(nodes, index) && a.node in index
    ensures (a.caller, index[a.node]) in wired <==> Requested(additions, a.caller, a.node)
    ensures WiredPairs(wired + {(a.caller, index[a.node])}, additions + [a], index)
  {
    var more := additions + [a];
    assert forall b :: b in more <==> b in additions || b == a;
  }

  /** Every flag that exists is clear; nodes beyond `count` have no dirty flag yet. */
  ghost predicate FlagsClear(count: nat, ticked: seq<bool>, dirty: seq<bool>, buckets: seq<seq<nat>>) {
    && |dirty| == count
    && (forall i :: 0 <= i < |ticked| ==> !ticked[i])
    && (forall i :: 0 <= i < |dirty| ==> !dirty[i])
    && (forall l :: 0 <= l < |buckets| ==> buckets[l] == [])
  }

  /** The new subgraphs are wired; the caller edges are still to come. */
  ghost predicate Wirable(decl: Declaration, additions: seq<Addition>, before: seq<NodeData>, index0: map<Id, nat>,
                          nodes: seq<NodeData>, index: map<Id, nat>, buckets: nat, rank: Id -> nat) {
    && Structure(before) && Indexed(before, index0) && LayersHoused(before, buckets)
    && NoDeadUpstreams(decl, NodesOf(additions), before, index0) && Requestable(before, index0, additions)
    && StaysAcyclic(decl, before, index0, additions, rank)
    && WiredFrom(decl, NodesOf(additions), before, index0, nodes, index)
    && (forall a :: a in additions ==> a.node in index)
  }

  lemma BecomesWirable(decl: Declaration, additions: seq<Addition>, before: seq<NodeData>, index0: map<Id, nat>,
                       nodes: seq<NodeData>, index: map<Id, nat>, buckets: nat, universe: set<Id>)
    returns (rank: Id -> nat)
    requires Structure(before) && Indexed(before, index0) && LayersHoused(before, buckets)
    requires NoDeadUpstreams(decl, NodesOf(additions), before, index0) && Requestable(before, index0, additions)
    requires NoNewCycle(decl, before, index0, [], additions)
    requires ClosedUnder(decl, universe) && forall a :: a in additions ==> a.node in universe
    requires WiredFrom(decl, NodesOf(additions), before, index0, nodes, index) && forall a :: a in additions ==>
               a.node in index
    ensures Wirable(decl, additions, before, index0, nodes, index, buckets, rank)
  {
    rank := AcyclicGivesRank(decl, before, index0, additions, universe);
  }

  /** The nodes from `from` on have exactly the edges they declare. */
  ghost predicate AllDeclared(decl: Declaration, nodes: seq<NodeData>, index: map<Id, nat>, from: nat) {
    forall i :: from <= i < |nodes| ==> AsDeclared(nodes[i].upstreams, decl(nodes[i].id), index)
  }

  lemma PlacedAsDeclared(decl: Declaration, nodes: seq<NodeData>, index: map<Id, nat>, from: nat)
    requires forall i :: from <= i < |nodes| ==> Placed(decl, nodes, index, i)
    ensures AllDeclared(decl, nodes, index, from)
  {
    forall i | from <= i < |nodes| ensures AsDeclared(nodes[i].upstreams, decl(nodes[i].id), index) {
      assert Placed(decl, nodes, index, i);
      ResolvedAsDeclared(decl, nodes[i].id, nodes[i].upstreams, index);
    }
  }

  lemma WiredAsDeclared(decl: Declaration, roots: seq<Id>, nodes0: seq<NodeData>, index0: map<Id, nat>,
                        nodes: seq<NodeData>, index: map<Id, nat>)
    requires WiredFrom(decl, roots, nodes0, index0, nodes, index)
    ensures AllDeclared(decl, nodes, index, |nodes0|)
  {
    forall i | |nodes0| <= i < |nodes| ensures Placed(decl, nodes, index, i) {
      assert Wired(decl, nodes, index, i);
    }
    PlacedAsDeclared(decl, nodes, index, |nodes0|);
  }

  lemma WalkStarts(decl: Declaration, root: Id, universe: set<Id>, nodes: seq<NodeData>, index: map<Id, nat>)
    requires Indexed(nodes, index) && Topological(decl, index) && root !in index && root in universe
    ensures var stack := [Frame(root, Declared(decl, root), 0, 0, [])];
            LoopInv(decl, root, universe, nodes, index, nodes, index, stack) && Ids(stack) == {root}
  {
    FirstFrame(decl, nodes, index, root);
  }

  /** At every moment of the walk, what has been registered is wired. */
  lemma WalkHasWired(decl: Declaration, root: Id, universe: set<Id>, nodes0: seq<NodeData>, index0: map<Id, nat>,
                     nodes: seq<NodeData>, index: map<Id, nat>, stack: seq<Frame>)
    requires LoopInv(decl, root, universe, nodes0, index0, nodes, index, stack)
    ensures Indexed(nodes, index) && Topological(decl, index)
    ensures WiredFrom(decl, [root], nodes0, index0, nodes, index) && AllDeclared(decl, nodes, index, |nodes0|)
    ensures stack == [] ==> root in index && !CycleReachable(decl, root)
  {
    WiredAsDeclared(decl, [root], nodes0, index0, nodes, index);
    if stack == [] {
      RegisteredHasNoCycle(decl, index, root);
    }
  }

  lemma AlreadyWired(decl: Declaration, root: Id, nodes: seq<NodeData>, index: map<Id, nat>)
    requires Indexed(nodes, index) && Topological(decl, index) && root in index
    ensures WiredFrom(decl, [root], nodes, index, nodes, index) && AllDeclared(decl, nodes, index, |nodes|)
    ensures !CycleReachable(decl, root)
  {
    RegisteredHasNoCycle(decl, index, root);
  }

  lemma UntickedItself(ticked: seq<bool>)
    ensures Unticked(ticked, ticked)
  {
  }

  datatype Round = Round(removals: seq<Id>, additions: seq<Addition>)

  /** What is removed and added in a round, given the state at its start. */
  type Plan = (nat, seq<NodeData>, map<Id, nat>) -> Round

  /** A round the engine accepts: nothing removed comes back, and unless a new subgraph is itself cyclic,
      which is reported, no cycle is closed. */
  ghost predicate RoundAllowed(decl: Declaration, nodes: seq<NodeData>, index: map<Id, nat>, round: Round,
                               universe: set<Id>)
    requires Indexed(nodes, index)
  {
    && EditsAllowed(decl, nodes, index, round.removals, round.additions)
    && (forall a :: a in round.additions ==> a.node in universe)
    && ((forall a :: a in round.additions ==> !CycleReachable(decl, a.node)) ==>
          NoNewCycle(decl, nodes, index, round.removals, round.additions))
  }

  ghost predicate PlanAllowed(decl: Declaration, plan: Plan, universe: set<Id>) {
    forall k: nat, nodes: seq<NodeData>, index: map<Id, nat> {:trigger plan(k, nodes, index)} ::
      Structure(nodes) && Indexed(nodes, index) && Topological(decl, index) ==>
        RoundAllowed(decl, nodes, index, plan(k, nodes, index), universe)
  }

  class Graph {
    var nodes: seq<NodeData>
    var index: map<Id, nat>
    var ticked: seq<bool>
    var dirty: seq<bool>
    var buckets: seq<seq<nat>>

    /** A wiring error found during construction; `run` reports it before touching the graph. */
    var wiringError: bool

    /** Wire everything the roots need. */
    constructor (decl: Declaration, roots: seq<Id>, ghost universe: set<Id>)
      requires ClosedUnder(decl, universe) && forall x :: x in roots ==> x in universe
      ensures wiringError <==> exists x :: x in roots && CycleReachable(decl, x)
      ensures !wiringError ==> Quiet() && Structure(nodes) && Registry(decl)
      ensures !wiringError ==> forall x :: x in index <==> NeededBy(decl, roots, x)
      ensures !wiringError ==> forall i :: 0 <= i < |nodes| ==> nodes[i].active && Placed(decl, nodes, index, i)
      ensures !wiringError ==> AllDeclared(decl, nodes, index, 0)
      ensures !wiringError ==> forall i :: 0 <= i < |nodes| ==> LongestPath(decl, nodes[i].id, nodes[i].layer)
    {
      nodes, index, ticked, dirty, buckets, wiringError := [], map[], [], [], [], false;
      new;
      Initialise(decl, roots, universe);
    }

    method Initialise(decl: Declaration, roots: seq<Id>, ghost universe: set<Id>)
      requires ClosedUnder(decl, universe) && forall x :: x in roots ==> x in universe
      requires nodes == [] && index == map[] && ticked == [] && dirty == [] && buckets == [] && !wiringError
      modifies this
      ensures wiringError <==> exists x :: x in roots && CycleReachable(decl, x)
      ensures !wiringError ==> Quiet() && Structure(nodes) && Registry(decl)
      ensures !wiringError ==> forall x :: x in index <==> NeededBy(decl, roots, x)
      ensures !wiringError ==> forall i :: 0 <= i < |nodes| ==> nodes[i].active && Placed(decl, nodes, index, i)
      ensures !wiringError ==> AllDeclared(decl, nodes, index, 0)
      ensures !wiringError ==> forall i :: 0 <= i < |nodes| ==> LongestPath(decl, nodes[i].id, nodes[i].layer)
    {
      var wired := WireAll(decl, roots, universe);
      if wired.Err? {
        wiringError := true;
        return;
      }
      ghost var nodes0 := nodes;
      WiredExtends(decl, roots, [], map[], nodes, index);
      forall i | 0 <= i < |nodes| ensures EdgesInRange(nodes[i].upstreams, |nodes|) {
        assert Wired(decl, nodes, index, i);
      }
      LinkDownstreams(0);
      LinkedStructure([], nodes0, nodes);
      LinkedStaysPlaced(decl, nodes0, nodes, index);
      PlacedAsDeclared(decl, nodes, index, 0);
      hide *;
      forall x | NeededBy(decl, roots, x) ensures x in index {
        NeededIsRegistered(decl, roots, index, x);
      }
      forall i | 0 <= i < |nodes| ensures LongestPath(decl, nodes[i].id, nodes[i].layer) {
        LayersAreLongestPaths(decl, nodes, index, i);
      }
      AllocateBuckets();
    }

    /** One clear dirty flag per node, one empty bucket per layer. */
    method AllocateBuckets()
      requires buckets == [] && dirty == [] && |ticked| == |nodes| && forall i :: 0 <= i < |ticked| ==> !ticked[i]
      modifies this`dirty, this`buckets
      ensures Quiet()
    {
      var maxLayer: int := -1;
      for i := 0 to |nodes|
        invariant |dirty| == i && (forall k :: 0 <= k < i ==> !dirty[k]) && buckets == []
        invariant maxLayer >= -1 && forall k :: 0 <= k < i ==> nodes[k].layer <= maxLayer
      {
        if nodes[i].layer > maxLayer {
          maxLayer := nodes[i].layer;
        }
        dirty := dirty + [false];
      }
      for l := 0 to maxLayer + 1
        invariant |buckets| == l && (forall k :: 0 <= k < l ==> buckets[k] == [])
        invariant |dirty| == |nodes| && forall k :: 0 <= k < |dirty| ==> !dirty[k]
      {
        buckets := buckets + [[]];
      }
    }

    ghost predicate Registry(decl: Declaration)
      reads this
    {
      Indexed(nodes, index) && Topological(decl, index) && |ticked| == |nodes|
    }

    method PushNode(node: NodeData)
      modifies this`nodes, this`index, this`ticked
      ensures nodes == old(nodes) + [node]
      ensures index == old(index)[node.id := |old(nodes)|]
      ensures ticked == old(ticked) + [false]
    {
      index := index[node.id := |nodes|];
      ticked := ticked + [false];
      nodes := nodes + [node];
    }

    method InitialiseNode(decl: Declaration, root: Id, ghost universe: set<Id>) returns (r: Result<nat>)
      requires Registry(decl)
      requires root in universe
      requires ClosedUnder(decl, universe)
      modifies this`nodes, this`index, this`ticked
      ensures Registry(decl)
      ensures Unticked(old(ticked), ticked)
      ensures WiredFrom(decl, [root], old(nodes), old(index), nodes, index)
      ensures AllDeclared(decl, nodes, index, |old(nodes)|)
      ensures r.Err? <==> CycleReachable(decl, root)
      ensures r.Ok? ==> root in index && r.value == index[root]
    {
      hide Unticked, ClosedUnder, StackOk, FrameOk, WiringInv, LoopInv, Remaining, Ids, CycleReachable,
           Indexed, Topological, AllDeclared, WiredFrom;
      UntickedItself(ticked);
      if root in index {
        AlreadyWired(decl, root, nodes, index);
        return Ok(index[root]);
      }
      var inProgress := {root};
      var stack := [Frame(root, Declared(decl, root), 0, 0, [])];
      WalkStarts(decl, root, universe, nodes, index);
      while stack != []
        invariant LoopInv(decl, root, universe, old(nodes), old(index), nodes, index, stack)
        invariant inProgress == Ids(stack)
        invariant |ticked| == |nodes| && Unticked(old(ticked), ticked)
        decreases Unmet(universe, index, stack), Remaining(stack)
      {
        var top := stack[|stack| - 1];
        if top.next < |top.deps| {
          var up := top.deps[top.next].id;
          if up in index {
            FoundRegistered(decl, root, universe, old(nodes), old(index), nodes, index, stack);
            stack := stack[|stack| - 1 := Record(top, nodes, index)];
          } else if up in inProgress {
            FoundInProgress(decl, root, universe, old(nodes), old(index), nodes, index, stack, up);
            WalkHasWired(decl, root, universe, old(nodes), old(index), nodes, index, stack);
            return Err(up);
          } else {
            FoundNew(decl, root, universe, old(nodes), old(index), nodes, index, stack, up);
            inProgress := inProgress + {up};
            stack := stack + [Frame(up, Declared(decl, up), 0, 0, [])];
          }
        } else {
          Finished(decl, root, universe, old(nodes), old(index), nodes, index, stack);
          UntickedGrows(old(ticked), ticked);
          stack := stack[..|stack| - 1];
          inProgress := inProgress - {top.id};
          PushNode(NodeData(top.id, top.edges, [], top.layer, true));
        }
      }
      WalkHasWired(decl, root, universe, old(nodes), old(index), nodes, index, stack);
      r := Ok(index[root]);
    }

    /** Wire the subgraphs of several roots, stopping at the first cycle. */
    method WireAll(decl: Declaration, roots: seq<Id>, ghost universe: set<Id>) returns (r: Result<()>)
      requires Registry(decl) && ClosedUnder(decl, universe)
      requires forall x :: x in roots ==> x in universe
      modifies this`nodes, this`index, this`ticked
      ensures Registry(decl) && Unticked(old(ticked), ticked)
      ensures r.Err? <==> exists x :: x in roots && CycleReachable(decl, x)
      ensures r.Ok? ==> WiredFrom(decl, roots, old(nodes), old(index), nodes, index) && forall x :: x in roots ==>
                x in index
    {
      for k := 0 to |roots|
        invariant Registry(decl) && Unticked(old(ticked), ticked)
        invariant WiredFrom(decl, roots[..k], old(nodes), old(index), nodes, index)
        invariant forall x :: x in roots[..k] ==> x in index && !CycleReachable(decl, x)
      {
        assert roots[k] in roots;
        assert roots[..k + 1] == roots[..k] + [roots[k]];
        ghost var nodes0, index0 := nodes, index;
        var wired := InitialiseNode(decl, roots[k], universe);
        if wired.Err? {
          return Err(wired.culprit);
        }
        WiredNext(decl, roots[..k], roots[k], old(nodes), old(index), nodes0, index0, nodes, index);
        hide CycleReachable, ClosedUnder;
      }
      assert roots[..|roots|] == roots;
      r := Ok(());
    }

    /** Append each of the nodes from `from` on to the downstream lists of its upstreams. */
    method LinkDownstreams(from: nat)
      requires from <= |nodes|
      requires forall i :: from <= i < |nodes| ==> EdgesInRange(nodes[i].upstreams, |nodes|)
      modifies this`nodes
      ensures |nodes| == |old(nodes)| && Linked(old(nodes), nodes, from, |nodes|, 0)
    {
      ghost var nodes0 := nodes;
      for i := from to |nodes|
        invariant |nodes0| == |nodes| && Linked(nodes0, nodes, from, i, 0)
      {
        var edges := nodes[i].upstreams;
        for j := 0 to |edges|
          invariant edges == nodes0[i].upstreams && Linked(nodes0, nodes, from, i, j)
        {
          assert EdgesInRange(nodes0[i].upstreams, |nodes0|);
          LinkStep(nodes0, nodes, from, i, j);
          nodes := Link(nodes, edges[j].node, Edge(i, edges[j].active));
        }
        LinkNext(nodes0, nodes, from, i);
      }
    }

    // ----- One engine cycle -----

    ghost predicate Ready()
      reads this
    {
      |ticked| == |nodes| && BucketsOk(nodes, dirty, buckets)
    }

    method MarkDirty(i: nat)
      requires Ready() && i < |nodes|
      modifies this`dirty, this`buckets
      ensures Ready() && dirty == old(dirty)[i := true] && |buckets| == |old(buckets)|
      ensures forall l: nat :: l < |buckets| && l != nodes[i].layer ==> buckets[l] == old(buckets[l])
    {
      if !dirty[i] {
        MarkKeepsBuckets(nodes, dirty, buckets, i);
        var layer := nodes[i].layer;
        buckets := buckets[layer := buckets[layer] + [i]];
        dirty := dirty[i := true];
      }
    }

    /** The marks a node makes itself while it cycles. */
    method MarkEach(marks: seq<nat>, ghost floor: nat)
      requires Ready() && floor < |buckets|
      requires forall m :: m in marks ==> m < |nodes| && floor < nodes[m].layer
      modifies this`dirty, this`buckets
      ensures Ready() && |dirty| == |old(dirty)| && |buckets| == |old(buckets)|
      ensures forall x: nat :: x < |dirty| ==> (dirty[x] <==> old(dirty[x]) || x in marks)
      ensures forall l: nat :: l <= floor ==> buckets[l] == old(buckets[l])
    {
      for i := 0 to |marks|
        invariant Ready() && |dirty| == |old(dirty)| && |buckets| == |old(buckets)|
        invariant forall x: nat :: x < |dirty| ==> (dirty[x] <==> old(dirty[x]) || x in marks[..i])
        invariant forall l: nat :: l <= floor ==> buckets[l] == old(buckets[l])
      {
        assert marks[i] in marks;
        assert marks[..i + 1] == marks[..i] + [marks[i]];
        MarkDirty(marks[i]);
      }
      assert marks[..|marks|] == marks;
    }

    method MarkActiveDownstreams(i: nat)
      requires Ready() && i < |nodes|
      requires forall e :: e in nodes[i].downstreams ==> e.node < |nodes| && nodes[i].layer < nodes[e.node].layer
      modifies this`dirty, this`buckets
      ensures Ready() && |dirty| == |old(dirty)| && |buckets| == |old(buckets)|
      ensures forall x: nat :: x < |dirty| ==> (dirty[x] <==> old(dirty[x]) || Edge(x, true) in nodes[i].downstreams)
      ensures forall l: nat :: l <= nodes[i].layer ==> buckets[l] == old(buckets[l])
    {
      var edges := nodes[i].downstreams;
      for k := 0 to |edges|
        invariant Ready() && |dirty| == |old(dirty)| && |buckets| == |old(buckets)|
        invariant forall x: nat :: x < |dirty| ==> (dirty[x] <==> old(dirty[x]) || Edge(x, true) in edges[..k])
        invariant forall l: nat :: l <= nodes[i].layer ==> buckets[l] == old(buckets[l])
      {
        assert edges[k] in edges;
        assert edges[..k + 1] == edges[..k] + [edges[k]];
        if edges[k].active {
          MarkDirty(edges[k].node);
          assert edges[k] == Edge(edges[k].node, true);
        }
      }
      assert edges[..|edges|] == edges;
    }

    /** Run one live node that is due; the scene says what cycle it belongs to. */
    method CycleNode<S(!new)>(ghost sc: Scene<S>, ghost log: seq<nat>, beh: Behaviour<S>, values: seq<S>, i: nat)
      returns (reply: Reply<S>)
      requires Ready() && nodes == sc.nodes && beh == sc.beh
      requires WellFormed(sc) && Live(nodes, i) && i !in log && Eval(sc, i).ran
      requires Settled(sc, values, ticked, log) && Complete(sc, nodes[i].layer, log)
      modifies this`ticked, this`dirty, this`buckets
      ensures OutcomeOf(values[i], reply) == Eval(sc, i)
      ensures reply.Reply? ==> Ready() && |buckets| == |old(buckets)|
      ensures reply.Reply? ==> ticked == old(ticked)[i := reply.ticked]
      ensures reply.Reply? ==> |dirty| == |old(dirty)| && forall x: nat :: x < |dirty| ==>
                (dirty[x] <==>
                   old(dirty[x]) || x in reply.marks || (reply.ticked && Edge(x, true) in nodes[i].downstreams))
      ensures reply.Reply? ==> forall l: nat :: l <= nodes[i].layer ==> buckets[l] == old(buckets[l])
    {
      UpstreamEdgesInRange(sc, i);
      EngineComputesEval(sc, values, ticked, log, i);
      reply := beh(i, values[i], SeenBy(nodes[i].upstreams, values, ticked));
      if reply.Failed? {
        return;
      }
      forall m | m in reply.marks ensures m < |nodes| && nodes[i].layer < nodes[m].layer {
        MarksFeed(sc, i, m);
        TargetsLieAbove(sc, i, m);
      }
      MarkEach(reply.marks, nodes[i].layer);
      if reply.ticked {
        ticked := ticked[i := true];
        forall e | e in nodes[i].downstreams ensures e.node < |nodes| && nodes[i].layer < nodes[e.node].layer {
          assert e == Edge(e.node, e.active);
          TargetsLieAbove(sc, i, e.node);
        }
        MarkActiveDownstreams(i);
      }
    }

    ghost predicate Starts<S(!new)>(sc: Scene<S>)
      reads this
    {
      && WellFormed(sc) && sc.nodes == nodes && Ready()
      && (forall i :: 0 <= i < |ticked| ==> !ticked[i])
      && (forall i: nat :: i < |dirty| ==> (dirty[i] <==> i in sc.dirty))
    }

    /** One pass over the buckets, layer by layer. */
    method Dispatch<S(!new)>(ghost sc: Scene<S>, beh: Behaviour<S>, init: seq<S>)
      returns (r: Result<seq<S>>, log: seq<nat>, requests: set<(nat, nat)>)
      requires Starts(sc) && beh == sc.beh && init == sc.init
      modifies this`ticked, this`dirty, this`buckets
      ensures r.Ok? ==> Ready() && |r.value| == |nodes| && |buckets| == |old(buckets)|
      ensures r.Ok? ==> forall n: nat :: n < |nodes| ==>
                r.value[n] == Eval(sc, n).state && ticked[n] == Eval(sc, n).ticked && (n in log <==> Eval(sc, n).ran)
      ensures r.Ok? ==> forall q :: q in requests <==> exists n: nat :: n < |nodes| && q in Eval(sc, n).requests
      ensures r.Ok? <==> forall n: nat :: n < |nodes| ==> !Eval(sc, n).failed
      ensures r.Err? ==> r.culprit < |nodes| && Eval(sc, r.culprit).failed
      ensures Distinct(log) && UpstreamsFirst(nodes, log) && forall n :: n in log ==> n < |nodes|
    {
      var values := init;
      log, requests := [], {};
      for layer := 0 to |buckets|
        invariant Ready() && |buckets| == |old(buckets)|
        invariant PassInv(sc, values, ticked, dirty, log, requests, layer) && AllBelow(nodes, log, layer)
      {
        var bucket := buckets[layer];
        assert Distinct(bucket);
        NextBucketUntouched(nodes, dirty, buckets, log, layer);
        for k := 0 to |bucket|
          invariant Ready() && |buckets| == |old(buckets)| && buckets[layer] == bucket
          invariant PassInv(sc, values, ticked, dirty, log, requests, layer)
          invariant BucketDone(nodes, bucket, log, k)
        {
          var i := bucket[k];
          assert i in bucket;
          BucketStep(nodes, bucket, log, k);
          hide BucketDone;
          if nodes[i].active {
            DirtyRuns(sc, dirty, log, i);
            ghost var dirty0, ticked0 := dirty, ticked;
            var reply := CycleNode(sc, log, beh, values, i);
            if reply.Failed? {
              LayeredLogIsUpstreamsFirst(nodes, log, layer);
              return Err(i), log, requests;
            }
            RunStep(sc, values, ticked0, dirty0, dirty, log, requests, i);
            values := values[i := reply.state];
            log := log + [i];
            requests := requests + reply.requests;
          }
        }
        LayerStep(sc, values, ticked, dirty, buckets, log, requests, layer);
      }
      LayeredLogIsUpstreamsFirst(nodes, log, |buckets|);
      r := Ok(values);
    }

    /** Nothing is dirty, nothing has ticked, every bucket is empty. */
    ghost predicate Silent()
      reads this
    {
      AllClear(|nodes|, ticked, dirty, buckets)
    }

    /** The state between two cycles: silent, and every layer has its bucket. */
    ghost predicate Quiet()
      reads this
    {
      Silent() && LayersHoused(nodes, |buckets|)
    }

    method Reset()
      requires Ready()
      modifies this`ticked, this`dirty, this`buckets
      ensures Quiet() && |buckets| == |old(buckets)|
    {
      for i := 0 to |ticked|
        invariant |ticked| == |nodes| && dirty == old(dirty) && buckets == old(buckets)
        invariant forall k :: 0 <= k < i ==> !ticked[k]
      {
        ticked := ticked[i := false];
      }
      for l := 0 to |buckets|
        invariant |buckets| == |old(buckets)| && dirty == old(dirty) && |ticked| == |nodes|
        invariant forall k :: 0 <= k < |ticked| ==> !ticked[k]
        invariant forall k :: 0 <= k < l ==> buckets[k] == []
      {
        buckets := buckets[l := []];
      }
      for i := 0 to |dirty|
        invariant |dirty| == |nodes| && |ticked| == |nodes| && |buckets| == |old(buckets)|
        invariant forall k :: 0 <= k < |ticked| ==> !ticked[k]
        invariant forall k :: 0 <= k < |buckets| ==> buckets[k] == []
        invariant forall k :: 0 <= k < i ==> !dirty[k]
      {
        dirty := dirty[i := false];
      }
    }

    /** A cycle up to the dynamic edits: dispatch, then clear every flag and bucket. */
    method Cycle<S(!new)>(ghost sc: Scene<S>, beh: Behaviour<S>, init: seq<S>)
      returns (r: Result<seq<S>>, log: seq<nat>, requests: set<(nat, nat)>)
      requires Starts(sc) && beh == sc.beh && init == sc.init
      modifies this`ticked, this`dirty, this`buckets
      ensures r.Ok? ==> Quiet() && |r.value| == |nodes| && |buckets| == |old(buckets)|
      ensures r.Ok? ==> forall n: nat :: n < |nodes| ==>
                r.value[n] == Eval(sc, n).state && (n in log <==> Eval(sc, n).ran)
      ensures r.Ok? ==> forall order :: TopologicalOrder(nodes, order) ==>
                forall n: nat :: n < |nodes| ==> r.value[n] == Walk(sc, order)[n].state
      ensures r.Ok? ==> forall q :: q in requests <==> exists n: nat :: n < |nodes| && q in Eval(sc, n).requests
      ensures r.Ok? <==> forall n: nat :: n < |nodes| ==> !Eval(sc, n).failed
      ensures r.Err? ==> r.culprit < |nodes| && Eval(sc, r.culprit).failed
      ensures Distinct(log) && UpstreamsFirst(nodes, log)
      ensures r.Ok? ==> Performs(sc, r.value, log, requests)
      ensures r.Err? ==> Fails(sc, r.culprit)
    {
      r, log, requests := Dispatch(sc, beh, init);
      if r.Ok? {
        Reset();
        forall order | TopologicalOrder(nodes, order)
          ensures forall n: nat :: n < |nodes| ==> r.value[n] == Walk(sc, order)[n].state
        {
          TopologicalEvaluation(sc, order);
        }
        OutcomesPerform(sc, r.value, log, requests);
      } else {
        OutcomeFails(sc, r.culprit);
      }
      hide Eval, Performs, Fails, Walk, TopologicalOrder;
    }

    // ----- Dynamic edits, applied between cycles -----

    /** Restore the layer order after edges into `start` were added.  The graph has no cycle; on one that has,
        the worklist would never run empty. */
    method FixLayers(start: nat)
      requires Silent() && Live(nodes, start)
      requires LiveEdges(nodes) && Transposed(nodes) && !Cyclic(nodes)
      requires forall v: nat :: Live(nodes, v) && v != start ==> Satisfied(nodes, v)
      modifies this`nodes, this`buckets
      ensures Silent() && Structure(nodes) && Least(old(nodes), nodes)
      ensures |old(buckets)| <= |buckets| && nodes[start].layer < |buckets|
      ensures RaisedHoused(old(nodes), nodes, |buckets|)
      ensures WorkOk(Work(old(nodes), [start])) && exists k: nat ::
                Worked(Work(old(nodes), [start]), k) == Work(nodes, [])
    {
      var queue := [start];
      ghost var nodes0, k := nodes, 0;
      ghost var bound := AcyclicHasLayering(nodes);
      ProgressStarts(nodes, bound, start);
      while queue != []
        invariant Silent() && Progress(nodes0, nodes, queue, bound, start, k) && |bound| == |nodes|
        invariant |old(buckets)| <= |buckets| && Housed(nodes0, nodes, queue, start, |buckets|)
        decreases Headroom(nodes, bound), |queue|
      {
        hide Progress, Headroom, Housed, AllClear;
        queue := PopOne(queue, nodes0, bound, start, k);
        k := k + 1;
      }
      ProgressEnds(nodes0, nodes, bound, start, k);
      hide Progress, WorkOk, Worked, Least, LiveEdges, Transposed, Layered;
    }

    /** One turn of the worklist. */
    method PopOne(queue: seq<nat>, ghost nodes0: seq<NodeData>, ghost bound: seq<nat>, ghost start: nat, ghost k: nat)
      returns (queue': seq<nat>)
      requires Silent() && queue != [] && Progress(nodes0, nodes, queue, bound, start, k) && |bound| == |nodes|
      requires Housed(nodes0, nodes, queue, start, |buckets|)
      modifies this`nodes, this`buckets
      ensures Silent() && |nodes| == |old(nodes)| && |old(buckets)| <= |buckets|
      ensures Progress(nodes0, nodes, queue', bound, start, k + 1) && Housed(nodes0, nodes, queue', start, |buckets|)
      ensures Headroom(nodes, bound) < Headroom(old(nodes), bound) || (nodes == old(nodes) && |queue'| < |queue|)
    {
      var v := queue[0];
      FrontUsable(nodes0, nodes, queue, bound, start, k);
      ghost var before, count := nodes, |buckets|;
      hide Progress, Headroom, Housed, RequiredLayer, EdgesInRange, Live, Targets;
      var required := RequiredLayer(nodes[v].upstreams, nodes);
      queue' := queue[1..];
      if required > nodes[v].layer {
        queue' := queue' + Targets(nodes[v].downstreams);
        nodes := Raise(nodes, v, required);
      }
      ExtendBuckets(nodes[v].layer);
      TurnTaken(nodes0, before, queue, bound, start, k, count, nodes, queue', |buckets|);
    }

    method ExtendBuckets(layer: nat)
      requires Silent()
      modifies this`buckets
      ensures Silent() && |old(buckets)| <= |buckets| && layer < |buckets|
    {
      while |buckets| <= layer
        invariant Silent() && |old(buckets)| <= |buckets|
      {
        buckets := buckets + [[]];
      }
    }

    /** Deregister the nodes in `removals`; `stops` says whether a node's stop and teardown succeed. */
    method ProcessPendingRemovals(removals: seq<Id>, stops: Id -> bool) returns (r: Result<()>)
      requires Quiet() && Structure(nodes) && Indexed(nodes, index)
      modifies this`nodes
      ensures r.Ok? ==> Quiet() && Structure(nodes) && Indexed(nodes, index)
      ensures r.Ok? ==> Retired(old(nodes), nodes, removals)
      ensures r.Err? <==> StopFails(old(nodes), removals, stops)
    {
      RetiresNobody(nodes);
      assert removals[..0] == [];
      for k := 0 to |removals|
        invariant Quiet() && Structure(nodes) && Indexed(nodes, index)
        invariant Retired(old(nodes), nodes, removals[..k]) && !StopFails(old(nodes), removals[..k], stops)
      {
        StopsNext(old(nodes), nodes, removals, k, index, stops);
        assert removals[..k + 1] == removals[..k] + [removals[k]];
        if removals[k] in index && nodes[index[removals[k]]].active {
          ghost var before := nodes;
          var x := index[removals[k]];
          var stopped := RemoveNode(x, stops);
          if !stopped {
            return Err(x);
          }
          RetiresOne(old(nodes), before, nodes, removals[..k], x, index);
        } else {
          RetiresNone(old(nodes), nodes, removals[..k], removals[k], index);
        }
        hide Retired, Removed, Structure, StopFails;
      }
      assert removals[..|removals|] == removals;
      r := Ok(());
    }

    method RemoveNode(x: nat, stops: Id -> bool) returns (stopped: bool)
      requires Quiet() && Structure(nodes) && Indexed(nodes, index) && Live(nodes, x)
      modifies this`nodes
      ensures stopped == stops(old(nodes[x].id))
      ensures stopped ==> Removed(old(nodes), nodes, x)
      ensures stopped ==> Quiet() && Structure(nodes) && Indexed(nodes, index)
    {
      hide Structure, Indexed, AllClear, Removed, Unlinked;
      stopped := stops(nodes[x].id);
      ghost var before := nodes;
      UnlinkFromUpstreams(x);
      UnlinkFromDownstreams(x, before);
      if stopped {
        Deactivate(x, before);
        RemovedStructure(before, nodes, x);
        RemovedKeeps(before, nodes, x);
        IndexedFrame(before, nodes, index);
      }
    }

    method Deactivate(x: nat, ghost before: seq<NodeData>)
      requires Structure(before) && Live(before, x)
      requires Unlinked(before, nodes, x, before[x].upstreams, before[x].downstreams)
      modifies this`nodes
      ensures Removed(before, nodes, x)
    {
      UnlinkedIsRemoved(before, nodes, x);
      nodes := nodes[x := nodes[x].(active := false)];
    }

    method UnlinkFromUpstreams(x: nat)
      requires Structure(nodes) && Live(nodes, x)
      modifies this`nodes
      ensures Unlinked(old(nodes), nodes, x, old(nodes[x].upstreams), [])
    {
      ghost var before := nodes;
      var ups := nodes[x].upstreams;
      UnlinkedStart(nodes, x);
      DroppedFromUpstreams(nodes, nodes, ups, x);
      assert ups[..0] == [];
      for k := 0 to |ups|
        invariant (forall e :: e in ups[..k] ==> e.node < |before|) && nodes == DropFromUpstreams(before, ups[..k], x)
      {
        DropNext(before, ups, x, k);
        hide *;
        nodes := DropDownstream(nodes, ups[k].node, x);
      }
      assert ups[..|ups|] == ups;
      hide *;
    }

    method UnlinkFromDownstreams(x: nat, ghost nodes0: seq<NodeData>)
      requires Structure(nodes0) && Live(nodes0, x)
      requires Unlinked(nodes0, nodes, x, nodes0[x].upstreams, [])
      modifies this`nodes
      ensures Unlinked(nodes0, nodes, x, nodes0[x].upstreams, nodes0[x].downstreams)
    {
      ghost var before := nodes;
      UnlinkedSelf(nodes0, nodes, x);
      var downs := nodes[x].downstreams;
      DroppedFromDownstreams(nodes0, nodes, nodes0[x].upstreams, downs, x);
      assert downs[..0] == [];
      for k := 0 to |downs|
        invariant (forall e :: e in downs[..k] ==> e.node < |before|) &&
                  nodes == DropFromDownstreams(before, downs[..k], x)
      {
        DropNext(before, downs, x, k);
        hide *;
        nodes := DropUpstream(nodes, downs[k].node, x);
      }
      assert downs[..|downs|] == downs;
      hide *;
    }

    /** Add the edge a caller asked for, unless it is already there, and restore the layer order. */
    method AddUpstream(caller: nat, n: nat, active: bool, present: bool)
      requires Silent() && Structure(nodes) && Live(nodes, caller) && Live(nodes, n)
      requires present ==> exists e :: e in nodes[caller].upstreams && e.node == n
      requires !Cyclic(WithCaller(nodes, caller, n, active, present))
      modifies this`nodes, this`buckets
      ensures Silent()
      ensures EdgeInPlace(old(nodes), nodes, |old(buckets)|, |buckets|, caller, n,
                          if present then [] else [Edge(n, active)])
    {
      hide Structure, GrownBy, RaisedHoused, Least, AllClear, LayersHoused, Cyclic, Worked, WorkOk, LiveEdges,
           Transposed, Satisfied, WithCaller;
      ghost var nodes0, edges := nodes, if present then [] else [Edge(n, active)];
      LinkCaller(caller, n, active, present);
      ghost var nodes1 := nodes;
      FixLayers(caller);
      CallerSettled(nodes0, nodes1, nodes, caller, n, edges, |buckets|);
    }

    method LinkCaller(caller: nat, n: nat, active: bool, present: bool)
      requires Structure(nodes) && Live(nodes, caller) && Live(nodes, n)
      requires present ==> exists e :: e in nodes[caller].upstreams && e.node == n
      modifies this`nodes
      ensures nodes == WithCaller(old(nodes), caller, n, active, present) && CallerLinked(nodes, caller, n)
      ensures GrownBy(old(nodes), nodes, caller, if present then [] else [Edge(n, active)])
      ensures SameLayers(old(nodes), nodes)
    {
      if present {
        AlreadyLinked(nodes, caller, n);
      } else {
        NewlyLinked(nodes, caller, n, active);
        nodes := AddEdge(nodes, caller, n, active);
      }
      hide CallerLinked, GrownBy, SameLayers, AddEdge, Structure;
    }

    /** Wire the caller edges one by one. */
    method ApplyAdditions(decl: Declaration, additions: seq<Addition>, ghost start: nat, ghost rank: Id -> nat)
      requires Silent() && AddInv(decl, nodes, nodes, index, start, |buckets|, [], additions, rank)
      modifies this`nodes, this`buckets
      ensures Silent() && AddInv(decl, old(nodes), nodes, index, start, |buckets|, additions, [], rank)
    {
      var wired: set<(nat, nat)> := {};
      var done, todo := [], additions;
      while todo != []
        invariant Silent() && AddInv(decl, old(nodes), nodes, index, start, |buckets|, done, todo, rank)
        invariant done + todo == additions && WiredPairs(wired, done, index)
        decreases |todo|
      {
        hide *;
        Shift(done, todo);
        wired := ApplyOne(decl, done, todo, wired, start, rank, old(nodes));
        done, todo := done + [todo[0]], todo[1..];
      }
      assert done + todo == done;
      hide *;
    }

    method ApplyOne(decl: Declaration, done: seq<Addition>, todo: seq<Addition>, wired: set<(nat, nat)>,
                    ghost start: nat, ghost rank: Id -> nat, ghost nodes0: seq<NodeData>)
      returns (wired': set<(nat, nat)>)
      requires todo != [] && Silent() && AddInv(decl, nodes0, nodes, index, start, |buckets|, done, todo, rank)
      requires WiredPairs(wired, done, index)
      modifies this`nodes, this`buckets
      ensures Silent() && AddInv(decl, nodes0, nodes, index, start, |buckets|, done + [todo[0]], todo[1..], rank)
      ensures WiredPairs(wired', done + [todo[0]], index)
    {
      var a := todo[0];
      NextAddition(decl, nodes0, nodes, index, start, |buckets|, done, todo, rank, a);
      PairKnown(wired, done, index, nodes, a);
      hide *;
      var n := index[a.node];
      WireCaller(decl, done, todo, (a.caller, n) in wired, start, rank, nodes0);
      wired' := wired + {(a.caller, n)};
    }

    /** The edge of the next addition, unless it is already `present`. */
    method WireCaller(decl: Declaration, ghost done: seq<Addition>, todo: seq<Addition>, present: bool,
                      ghost start: nat, ghost rank: Id -> nat, ghost nodes0: seq<NodeData>)
      requires todo != [] && Silent() && AddInv(decl, nodes0, nodes, index, start, |buckets|, done, todo, rank)
      requires present == Requested(done, todo[0].caller, todo[0].node)
      modifies this`nodes, this`buckets
      ensures Silent() && AddInv(decl, nodes0, nodes, index, start, |buckets|, done + [todo[0]], todo[1..], rank)
    {
      var a := todo[0];
      NextAddition(decl, nodes0, nodes, index, start, |buckets|, done, todo, rank, a);
      assert index[a.node] < |nodes| && a.caller < |nodes|;
      hide *;
      var n := index[a.node];
      ghost var before, count, edges := nodes, |buckets|, if present then [] else [Edge(n, a.active)];
      CallerEdgeIsAcyclic(nodes, a.caller, n, a.active, present, rank);
      AddUpstream(a.caller, n, a.active, present);
      AddInvNext(decl, nodes0, before, nodes, index, start, count, |buckets|, done, todo, rank, a, edges);
    }

    /** Wire the new subgraphs and the caller edges, and restore the layer order.  The caller edges close no
        cycle, unless a new subgraph is itself cyclic, which is reported. */
    method ProcessPendingAdditions(decl: Declaration, additions: seq<Addition>, ghost universe: set<Id>)
      returns (r: Result<()>)
      requires Quiet() && Structure(nodes) && Registry(decl)
      requires NoDeadUpstreams(decl, NodesOf(additions), nodes, index) && Requestable(nodes, index, additions)
      requires ClosedUnder(decl, universe) && forall a :: a in additions ==> a.node in universe
      requires (forall a :: a in additions ==> !CycleReachable(decl, a.node)) ==>
                 NoNewCycle(decl, nodes, index, [], additions)
      modifies this`nodes, this`index, this`ticked, this`dirty, this`buckets
      ensures r.Err? <==> exists a :: a in additions && CycleReachable(decl, a.node)
      ensures r.Ok? ==> Quiet() && Structure(nodes) && Registry(decl)
      ensures r.Ok? ==>
                (forall a :: a in additions ==> a.node in index) &&
                  Applied(decl, old(nodes), old(index), nodes, index, additions)
    {
      hide Structure, NoDeadUpstreams, NoNewCycle, WiredFrom, Requestable, LayersHoused, CycleReachable, ClosedUnder,
           Applied, Wirable, Indexed, Topological;
      NodesOfMembers(additions);
      var start := |nodes|;
      ghost var before, index0 := nodes, index;
      var wired := WireAll(decl, NodesOf(additions), universe);
      if wired.Err? {
        return Err(wired.culprit);
      }
      ghost var rank := BecomesWirable(decl, additions, before, index0, nodes, index, |buckets|, universe);
      LinkAndSettle(decl, additions, start, before, index0, rank);
      r := Ok(());
    }

    /** Everything new is wired: link it, then add the caller edges. */
    method LinkAndSettle(decl: Declaration, additions: seq<Addition>, start: nat, ghost before: seq<NodeData>,
                         ghost index0: map<Id, nat>, ghost rank: Id -> nat)
      requires Registry(decl) && Wirable(decl, additions, before, index0, nodes, index, |buckets|, rank)
      requires start == |before| <= |nodes| && FlagsClear(|before|, ticked, dirty, buckets)
      modifies this`nodes, this`dirty, this`buckets
      ensures Quiet() && Structure(nodes) && Registry(decl)
      ensures (forall a :: a in additions ==> a.node in index) && Applied(decl, before, index0, nodes, index, additions)
    {
      assert forall a :: a in additions ==> a.caller < |before|;
      ghost var wiredNodes := nodes;
      hide Structure, NoDeadUpstreams, StaysAcyclic, WiredFrom, Requestable, LayersHoused, AddInv, Applied,
           SameButDownstreams, FlagsClear;
      LinkNew(decl, additions, start, before, index0, rank);
      ghost var linked := nodes;
      ApplyAdditions(decl, additions, |before|, rank);
      AddInvEnd(decl, before, index0, wiredNodes, linked, nodes, index, |buckets|, additions, rank);
      hide *;
    }

    /** Give the newly wired nodes their flags and link them into their upstreams. */
    method LinkNew(decl: Declaration, additions: seq<Addition>, start: nat, ghost before: seq<NodeData>,
                   ghost index0: map<Id, nat>, ghost rank: Id -> nat)
      requires Registry(decl) && Wirable(decl, additions, before, index0, nodes, index, |buckets|, rank)
      requires start == |before| <= |nodes| && FlagsClear(|before|, ticked, dirty, buckets)
      modifies this`nodes, this`dirty
      ensures Silent() && SameButDownstreams(old(nodes), nodes)
      ensures AddInv(decl, nodes, nodes, index, |before|, |buckets|, [], additions, rank)
    {
      ghost var wiredNodes := nodes;
      UpstreamsInRange(decl, NodesOf(additions), before, index0, nodes, index);
      hide Structure, NoDeadUpstreams, StaysAcyclic, WiredFrom, Requestable, LayersHoused, Indexed, Topological, AddInv;
      assert WiredFrom(decl, NodesOf(additions), before, index0, nodes, index);
      LinkDownstreams(start);
      AddInvStart(decl, before, index0, wiredNodes, nodes, index, |buckets|, additions, rank);
      ExtendFlags(|before|);
    }

    method ExtendFlags(ghost count: nat)
      requires count <= |nodes| == |ticked| && FlagsClear(count, ticked, dirty, buckets)
      modifies this`dirty
      ensures Silent()
    {
      while |dirty| < |nodes|
        invariant |dirty| <= |nodes| && forall i :: 0 <= i < |dirty| ==> !dirty[i]
      {
        dirty := dirty + [false];
      }
    }

    /** What holds between any two cycles of any run. */
    ghost predicate Sound(decl: Declaration)
      reads this
    {
      Quiet() && Structure(nodes) && Registry(decl)
    }

    /** Mark what the clock found due. */
    method MarkAll(due: seq<nat>)
      requires Ready() && (forall i :: i in due ==> i < |nodes|) && forall i :: 0 <= i < |dirty| ==> !dirty[i]
      modifies this`dirty, this`buckets
      ensures Ready() && |buckets| == |old(buckets)| && forall i: nat :: i < |nodes| ==> (dirty[i] <==> i in due)
    {
      for k := 0 to |due|
        invariant Ready() && |buckets| == |old(buckets)| && forall i: nat :: i < |nodes| ==>
                    (dirty[i] <==> i in due[..k])
      {
        assert due[k] in due && due[..k + 1] == due[..k] + [due[k]];
        MarkDirty(due[k]);
        hide BucketsOk;
      }
      assert due[..|due|] == due;
    }

    /** From one quiet moment to the next: mark what is due, and dispatch. */
    method MarkAndCycle<S(!new)>(decl: Declaration, due: seq<nat>, ghost sc: Scene<S>, beh: Behaviour<S>, init: seq<S>)
      returns (r: Result<seq<S>>, log: seq<nat>, requests: set<(nat, nat)>)
      requires Sound(decl) && WellFormed(sc) && sc.nodes == nodes && beh == sc.beh && init == sc.init
      requires (forall i :: i in due ==> i < |nodes|) && forall i :: i in sc.dirty <==> i in due
      modifies this`ticked, this`dirty, this`buckets
      ensures r.Ok? ==> Sound(decl) && |r.value| == |nodes|
      ensures r.Ok? ==> forall n: nat :: n < |nodes| ==>
                r.value[n] == Eval(sc, n).state && (n in log <==> Eval(sc, n).ran)
      ensures r.Ok? ==> forall q :: q in requests <==> exists n: nat :: n < |nodes| && q in Eval(sc, n).requests
      ensures r.Ok? <==> forall n: nat :: n < |nodes| ==> !Eval(sc, n).failed
      ensures Distinct(log) && UpstreamsFirst(nodes, log)
      ensures r.Ok? ==> Performs(sc, r.value, log, requests)
      ensures r.Err? ==> Fails(sc, r.culprit)
    {
      ClearBuckets(nodes, ticked, dirty, buckets);
      MarkAll(due);
      assert Starts(sc);
      hide WellFormed, Eval, BucketsOk, Structure, Indexed, Topological;
      r, log, requests := Cycle(sc, beh, init);
    }

    /** The edits queued during a cycle, applied at its end: first the removals, then the additions. */
    method ApplyEdits(decl: Declaration, removals: seq<Id>, stops: Id -> bool, additions: seq<Addition>,
                      ghost universe: set<Id>) returns (r: Result<()>, ghost middle: seq<NodeData>)
      requires Sound(decl) && EditsAllowed(decl, nodes, index, removals, additions)
      requires ClosedUnder(decl, universe) && forall a :: a in additions ==> a.node in universe
      requires (forall a :: a in additions ==> !CycleReachable(decl, a.node)) ==>
                 NoNewCycle(decl, nodes, index, removals, additions)
      modifies this`nodes, this`index, this`ticked, this`dirty, this`buckets
      ensures r.Ok? ==> Sound(decl) && Retired(old(nodes), middle, removals)
      ensures r.Ok? ==>
                (forall a :: a in additions ==> a.node in index) &&
                  Applied(decl, middle, old(index), nodes, index, additions)
      ensures r.Err? <==> StopFails(old(nodes), removals, stops) || AdditionFails(decl, additions)
    {
      ghost var before := nodes;
      r := ProcessPendingRemovals(removals, stops);
      middle := nodes;
      if r.Err? {
        return;
      }
      AfterRemovals(decl, before, nodes, index, removals, additions);
      hide Structure, NoNewCycle, NoDeadUpstreams, Requestable, EditsAllowed, Indexed, Topological, AllClear,
           LayersHoused, Retired;
      r := ProcessPendingAdditions(decl, additions, universe);
    }
  }
}
