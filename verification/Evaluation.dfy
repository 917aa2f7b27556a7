/** What one engine cycle means: the outcome of every node, defined from its upstreams alone, and
    the plain evaluation in topological order that it agrees with. */
module Evaluation {
  import opened GraphModel

  /** What a node sees of one upstream: its current value and whether it ticked this cycle. */
  datatype Seen<S> = Seen(value: S, ticked: bool)

  /** What `cycle` does: fail, or replace the node's own state, perhaps tick, and on the way mark
      other nodes dirty and request callbacks `(node, time)`. */
  datatype Reply<S> =
    | Reply(state: S, ticked: bool, marks: seq<nat>, requests: set<(nat, nat)>)
    | Failed

  /** The node at an index, its own state, its upstreams in the order of its edges. */
  type Behaviour<!S> = (nat, S, seq<Seen<S>>) -> Reply<S>

  datatype Outcome<S> = Outcome(
    state: S, ran: bool, ticked: bool, marks: seq<nat>, requests: set<(nat, nat)>, failed: bool)

  ghost predicate Live(nodes: seq<NodeData>, i: nat) {
    i < |nodes| && nodes[i].active
  }

  ghost predicate LiveEdges(nodes: seq<NodeData>) {
    && (forall i: nat, e :: Live(nodes, i) && e in nodes[i].upstreams ==> Live(nodes, e.node))
    && (forall i: nat, e :: Live(nodes, i) && e in nodes[i].downstreams ==> Live(nodes, e.node))
  }

  /** Every edge into a live node comes from a strictly lower layer. */
  ghost predicate Layered(nodes: seq<NodeData>) {
    forall i: nat, e :: Live(nodes, i) && e in nodes[i].upstreams ==>
      e.node < |nodes| && nodes[e.node].layer < nodes[i].layer
  }

  /** Upstream and downstream lists between live nodes mirror each other, with multiplicity. */
  ghost predicate Transposed(nodes: seq<NodeData>) {
    forall u: nat, v: nat, a: bool :: Live(nodes, u) && Live(nodes, v) ==>
      multiset(nodes[v].upstreams)[Edge(u, a)] == multiset(nodes[u].downstreams)[Edge(v, a)]
  }

  lemma Mirrored(nodes: seq<NodeData>, u: nat, v: nat, a: bool)
    requires Transposed(nodes) && Live(nodes, u) && Live(nodes, v)
    ensures Edge(u, a) in nodes[v].upstreams <==> Edge(v, a) in nodes[u].downstreams
  {
    assert Edge(u, a) in multiset(nodes[v].upstreams) <==> Edge(v, a) in multiset(nodes[u].downstreams);
  }

  /** One cycle about to be dispatched: the wired nodes, how they behave, their states, and which of
      them are already marked dirty. */
  datatype Scene<!S> = Scene(nodes: seq<NodeData>, beh: Behaviour<S>, init: seq<S>, dirty: set<nat>)

  ghost predicate WellFormed<S(!new)>(sc: Scene<S>) {
    && LiveEdges(sc.nodes) && Layered(sc.nodes) && Transposed(sc.nodes)
    && |sc.init| == |sc.nodes|
    && MarksDownstream(sc)
  }

  /** A node may mark dirty only nodes that are wired downstream of it (actively or passively). */
  ghost predicate MarksDownstream<S(!new)>(sc: Scene<S>) {
    forall i: nat, s, seen, m :: Live(sc.nodes, i) && sc.beh(i, s, seen).Reply? && m in sc.beh(i, s, seen).marks ==>
      Feeds(sc.nodes, i, m)
  }

  ghost predicate Feeds(nodes: seq<NodeData>, i: nat, m: nat)
    requires i < |nodes|
  {
    Edge(m, true) in nodes[i].downstreams || Edge(m, false) in nodes[i].downstreams
  }

  /** Node `n` is triggered by an upstream: an active one ticked, or any one marked it dirty. */
  ghost predicate Triggered<S(!new)>(sc: Scene<S>, n: nat)
    requires WellFormed(sc) && Live(sc.nodes, n)
    decreases sc.nodes[n].layer, 0
  {
    exists e :: e in sc.nodes[n].upstreams && Triggers(Eval(sc, e.node), e, n)
  }

  predicate Triggers<S>(up: Outcome<S>, e: Edge, n: nat) {
    (e.active && up.ticked) || n in up.marks
  }

  /** The outcome of node `n` in the cycle. */
  ghost function Eval<S(!new)>(sc: Scene<S>, n: nat): (o: Outcome<S>)
    requires WellFormed(sc) && n < |sc.nodes|
    ensures o.ran ==> sc.nodes[n].active
    ensures !o.ran ==> o == Outcome(sc.init[n], false, false, [], {}, false)
    decreases sc.nodes[n].layer, 1
  {
    if sc.nodes[n].active && (n in sc.dirty || Triggered(sc, n)) then
      var ups := sc.nodes[n].upstreams;
      var seen := seq(|ups|, k requires 0 <= k < |ups| =>
        assert ups[k] in ups;
        View(Eval(sc, ups[k].node)));
      OutcomeOf(sc.init[n], sc.beh(n, sc.init[n], seen))
    else
      Outcome(sc.init[n], false, false, [], {}, false)
  }

  function View<S>(o: Outcome<S>): Seen<S> {
    Seen(o.state, o.ticked)
  }

  function OutcomeOf<S>(init: S, reply: Reply<S>): Outcome<S> {
    match reply
    case Reply(state, ticked, marks, requests) => Outcome(state, true, ticked, marks, requests, false)
    case Failed => Outcome(init, true, false, [], {}, true)
  }

  // ----- Evaluation in topological order -----

  /** Every node once, each live node after all its upstreams. */
  ghost predicate TopologicalOrder(nodes: seq<NodeData>, order: seq<nat>) {
    && |order| == |nodes|
    && (forall i :: 0 <= i < |order| ==> order[i] < |nodes|)
    && (forall n: nat :: n < |nodes| ==> n in order)
    && (forall i, j :: 0 <= i < j < |order| ==> order[i] != order[j])
    && (forall i, j, e ::
          && 0 <= i < |order| && 0 <= j < |order| && Live(nodes, order[i])
          && e in nodes[order[i]].upstreams && e.node == order[j]
          ==> j < i)
  }

  /** Plain evaluation: walk the order; run a node if it is marked by then, or an active upstream has
      ticked, and let it see the states and ticks reached so far. */
  ghost function Walk<S(!new)>(sc: Scene<S>, order: seq<nat>): (o: seq<Outcome<S>>)
    requires WellFormed(sc)
    requires forall i :: 0 <= i < |order| ==> order[i] < |sc.nodes|
    ensures |o| == |sc.nodes|
  {
    if order == [] then
      seq(|sc.nodes|, i requires 0 <= i < |sc.nodes| => Outcome(sc.init[i], false, false, [], {}, false))
    else
      var n := order[|order| - 1];
      var o := Walk(sc, order[..|order| - 1]);
      o[n := Visit(sc, o, n)]
  }

  ghost function Visit<S(!new)>(sc: Scene<S>, o: seq<Outcome<S>>, n: nat): Outcome<S>
    requires WellFormed(sc) && |o| == |sc.nodes| && n < |sc.nodes|
  {
    var ups := sc.nodes[n].upstreams;
    if sc.nodes[n].active && (n in sc.dirty || exists e :: e in ups && Triggers(o[e.node], e, n)) then
      OutcomeOf(sc.init[n], sc.beh(n, sc.init[n], seq(|ups|, k requires 0 <= k < |ups| =>
        assert ups[k] in ups;
        View(o[ups[k].node]))))
    else
      Outcome(sc.init[n], false, false, [], {}, false)
  }

  lemma VisitIsEval<S(!new)>(sc: Scene<S>, o: seq<Outcome<S>>, n: nat)
    requires WellFormed(sc) && |o| == |sc.nodes| && n < |sc.nodes|
    requires Live(sc.nodes, n) ==> forall e :: e in sc.nodes[n].upstreams ==> o[e.node] == Eval(sc, e.node)
    ensures Visit(sc, o, n) == Eval(sc, n)
  {
    if sc.nodes[n].active {
      assert Triggered(sc, n) <==> exists e :: e in sc.nodes[n].upstreams && Triggers(o[e.node], e, n);
      SameView(sc, o, n);
    }
  }

  lemma SameView<S(!new)>(sc: Scene<S>, o: seq<Outcome<S>>, n: nat)
    requires WellFormed(sc) && |o| == |sc.nodes| && Live(sc.nodes, n)
    requires forall e :: e in sc.nodes[n].upstreams ==> o[e.node] == Eval(sc, e.node)
    ensures var ups := sc.nodes[n].upstreams;
            seq(|ups|, k requires 0 <= k < |ups| => assert ups[k] in ups; View(o[ups[k].node])) ==
            seq(|ups|, k requires 0 <= k < |ups| => assert ups[k] in ups; View(Eval(sc, ups[k].node)))
  {
    hide Eval, WellFormed, Layered, Transposed, MarksDownstream;
  }

  lemma WalkStep<S(!new)>(sc: Scene<S>, order: seq<nat>, m: nat)
    requires WellFormed(sc) && (forall i :: 0 <= i < |order| ==> order[i] < |sc.nodes|) && m < |order|
    ensures var o := Walk(sc, order[..m]); Walk(sc, order[..m + 1]) == o[order[m] := Visit(sc, o, order[m])]
  {
    assert order[..m + 1][..m] == order[..m];
    hide WellFormed, Visit;
  }

  /** The first `m` nodes of the order have their proper outcome. */
  ghost predicate Agrees<S(!new)>(sc: Scene<S>, o: seq<Outcome<S>>, order: seq<nat>, m: nat)
    requires WellFormed(sc) && TopologicalOrder(sc.nodes, order) && m <= |order|
  {
    |o| == |sc.nodes| && forall i :: 0 <= i < m ==> o[order[i]] == Eval(sc, order[i])
  }

  /** A node is visited once all its upstreams have been evaluated. */
  lemma VisitInOrder<S(!new)>(sc: Scene<S>, order: seq<nat>, m: nat, o: seq<Outcome<S>>)
    requires WellFormed(sc) && TopologicalOrder(sc.nodes, order) && m < |order| && Agrees(sc, o, order, m)
    ensures Agrees(sc, o[order[m] := Visit(sc, o, order[m])], order, m + 1)
  {
    var n := order[m];
    forall e | Live(sc.nodes, n) && e in sc.nodes[n].upstreams ensures o[e.node] == Eval(sc, e.node) {
      var j := UpstreamIsEarlier(sc.nodes, order, m, e);
    }
    VisitIsEval(sc, o, n);
  }

  lemma {:induction false} WalkPrefix<S(!new)>(sc: Scene<S>, order: seq<nat>, m: nat)
    requires WellFormed(sc) && TopologicalOrder(sc.nodes, order) && m <= |order|
    ensures Agrees(sc, Walk(sc, order[..m]), order, m)
  {
    if m > 0 {
      hide *;
      WalkPrefix(sc, order, m - 1);
      WalkStep(sc, order, m - 1);
      VisitInOrder(sc, order, m - 1, Walk(sc, order[..m - 1]));
    }
  }

  lemma UpstreamIsEarlier(nodes: seq<NodeData>, order: seq<nat>, i: nat, e: Edge) returns (j: nat)
    requires TopologicalOrder(nodes, order) && i < |order| && Layered(nodes)
    requires Live(nodes, order[i]) && e in nodes[order[i]].upstreams
    ensures j < i && order[j] == e.node
  {
    assert e.node in order;
    j :| 0 <= j < |order| && order[j] == e.node;
  }

  /** Evaluation in any topological order gives every node the same outcome. */
  lemma TopologicalEvaluation<S(!new)>(sc: Scene<S>, order: seq<nat>)
    requires WellFormed(sc) && TopologicalOrder(sc.nodes, order)
    ensures forall n: nat :: n < |sc.nodes| ==> Walk(sc, order)[n] == Eval(sc, n)
  {
    WalkPrefix(sc, order, |order|);
    assert order[..|order|] == order;
    forall n: nat | n < |sc.nodes| ensures Walk(sc, order)[n] == Eval(sc, n) {
      assert n in order;
      var i :| 0 <= i < |order| && order[i] == n;
    }
  }

  /** In a graph wired at start-up, registration order is a topological order. */
  lemma RegistrationOrderIsTopological(nodes: seq<NodeData>)
    requires forall i :: 0 <= i < |nodes| ==> EdgesInRange(nodes[i].upstreams, i)
    ensures TopologicalOrder(nodes, seq(|nodes|, i => i))
  {
    var order := seq(|nodes|, i => i);
    forall n: nat | n < |nodes| ensures n in order {
      assert order[n] == n;
    }
  }

  // ----- How far a dispatch pass has come -----

  /** What has run so far (`log`) has run with its proper outcome, and nothing else has changed. */
  ghost predicate Settled<S(!new)>(sc: Scene<S>, values: seq<S>, ticked: seq<bool>, log: seq<nat>)
    requires WellFormed(sc)
  {
    && |values| == |ticked| == |sc.nodes|
    && (forall n :: n in log ==> Live(sc.nodes, n) && Eval(sc, n).ran && !Eval(sc, n).failed)
    && (forall n: nat :: n < |sc.nodes| ==>
          if n in log then values[n] == Eval(sc, n).state && ticked[n] == Eval(sc, n).ticked
          else values[n] == sc.init[n] && !ticked[n])
  }

  /** `m` has made `n` dirty by running. */
  ghost predicate Hits<S(!new)>(sc: Scene<S>, m: nat, n: nat)
    requires WellFormed(sc) && Live(sc.nodes, m)
  {
    (Eval(sc, m).ticked && Edge(n, true) in sc.nodes[m].downstreams) || n in Eval(sc, m).marks
  }

  ghost predicate DirtyExact<S(!new)>(sc: Scene<S>, dirty: seq<bool>, log: seq<nat>)
    requires WellFormed(sc) && forall n :: n in log ==> Live(sc.nodes, n)
  {
    && |dirty| == |sc.nodes|
    && forall n: nat :: n < |sc.nodes| ==> (dirty[n] <==> n in sc.dirty || exists m :: m in log && Hits(sc, m, n))
  }

  /** Below layer `layer`, everything that is to run has run. */
  ghost predicate Complete<S(!new)>(sc: Scene<S>, layer: nat, log: seq<nat>)
    requires WellFormed(sc)
  {
    forall n: nat :: n < |sc.nodes| && sc.nodes[n].layer < layer && Eval(sc, n).ran ==> n in log
  }

  /** A node that ran hits exactly the nodes it triggers. */
  lemma HitsAreTriggers<S(!new)>(sc: Scene<S>, m: nat, n: nat)
    requires WellFormed(sc) && Live(sc.nodes, m) && Live(sc.nodes, n)
    ensures Hits(sc, m, n) <==> exists e :: e in sc.nodes[n].upstreams && e.node == m && Triggers(Eval(sc, m), e, n)
  {
    Mirrored(sc.nodes, m, n, true);
    Mirrored(sc.nodes, m, n, false);
    if Hits(sc, m, n) {
      if Eval(sc, m).ticked && Edge(n, true) in sc.nodes[m].downstreams {
        assert Triggers(Eval(sc, m), Edge(m, true), n);
      } else {
        MarksFeed(sc, m, n);
        assert Triggers(Eval(sc, m), Edge(m, true), n) && Triggers(Eval(sc, m), Edge(m, false), n);
      }
    }
    if e :| e in sc.nodes[n].upstreams && e.node == m && Triggers(Eval(sc, m), e, n) {
      assert e == Edge(m, e.active);
    }
  }

  lemma MarksFeed<S(!new)>(sc: Scene<S>, m: nat, n: nat)
    requires WellFormed(sc) && Live(sc.nodes, m) && n in Eval(sc, m).marks
    ensures Feeds(sc.nodes, m, n) && Live(sc.nodes, n)
  {
  }

  lemma DirtyRuns<S(!new)>(sc: Scene<S>, dirty: seq<bool>, log: seq<nat>, n: nat)
    requires WellFormed(sc) && Live(sc.nodes, n)
    requires (forall m :: m in log ==> Live(sc.nodes, m)) && DirtyExact(sc, dirty, log)
    requires dirty[n]
    ensures Eval(sc, n).ran
  {
    if n !in sc.dirty {
      var m :| m in log && Hits(sc, m, n);
      HitTriggers(sc, m, n);
    }
  }

  lemma HitTriggers<S(!new)>(sc: Scene<S>, m: nat, n: nat)
    requires WellFormed(sc) && Live(sc.nodes, m) && Live(sc.nodes, n) && Hits(sc, m, n)
    ensures Eval(sc, n).ran
  {
    HitsAreTriggers(sc, m, n);
    hide Hits, Triggers, WellFormed, Live;
    assert Triggered(sc, n);
  }

  lemma RunsDirty<S(!new)>(sc: Scene<S>, dirty: seq<bool>, log: seq<nat>, n: nat)
    requires WellFormed(sc) && Live(sc.nodes, n)
    requires (forall m :: m in log ==> Live(sc.nodes, m)) && DirtyExact(sc, dirty, log)
    requires Complete(sc, sc.nodes[n].layer, log)
    requires Eval(sc, n).ran
    ensures dirty[n]
  {
    if n !in sc.dirty {
      var e :| e in sc.nodes[n].upstreams && Triggers(Eval(sc, e.node), e, n);
      HitsAreTriggers(sc, e.node, n);
      hide Hits;
      assert e.node in log && Hits(sc, e.node, n);
    }
  }

  /** The upstream values and ticks the engine shows to a node are the ones its outcome is defined by. */
  lemma SeenAgrees<S(!new)>(sc: Scene<S>, values: seq<S>, ticked: seq<bool>, log: seq<nat>, n: nat, k: nat)
    requires WellFormed(sc) && Live(sc.nodes, n) && k < |sc.nodes[n].upstreams|
    requires Settled(sc, values, ticked, log) && Complete(sc, sc.nodes[n].layer, log)
    ensures var u := sc.nodes[n].upstreams[k].node;
            u < |sc.nodes| && Seen(values[u], ticked[u]) == View(Eval(sc, u))
  {
    assert sc.nodes[n].upstreams[k] in sc.nodes[n].upstreams;
  }
}
