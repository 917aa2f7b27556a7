/** Value-level facts behind the dispatch loop: the dirty buckets, the run log, and what running one
    node or finishing one layer does to them. */
module Dispatch {
  import opened GraphModel
  import opened Evaluation

  /** Bucket `l` holds exactly the dirty nodes of layer `l`, each once. */
  ghost predicate BucketsOk(nodes: seq<NodeData>, dirty: seq<bool>, buckets: seq<seq<nat>>) {
    && |dirty| == |nodes|
    && (forall i: nat :: i < |nodes| ==> nodes[i].layer < |buckets|)
    && (forall l: nat, x: nat {:trigger x in buckets[l]} :: l < |buckets| && x in buckets[l] ==>
          x < |nodes| && dirty[x] && nodes[x].layer == l)
    && (forall x: nat :: x < |nodes| && dirty[x] ==> x in buckets[nodes[x].layer])
    && (forall l: nat :: l < |buckets| ==> Distinct(buckets[l]))
  }

  ghost predicate Distinct(s: seq<nat>) {
    forall i, j :: 0 <= i < j < |s| ==> s[i] != s[j]
  }

  /** Nothing is dirty, nothing has ticked, every bucket is empty. */
  ghost predicate AllClear(count: nat, ticked: seq<bool>, dirty: seq<bool>, buckets: seq<seq<nat>>) {
    && |ticked| == |dirty| == count
    && (forall i :: 0 <= i < |ticked| ==> !ticked[i])
    && (forall i :: 0 <= i < |dirty| ==> !dirty[i])
    && (forall l :: 0 <= l < |buckets| ==> buckets[l] == [])
  }

  ghost predicate LayersHoused(nodes: seq<NodeData>, buckets: nat) {
    forall i :: 0 <= i < |nodes| ==> nodes[i].layer < buckets
  }

  /** Between cycles the engine is ready to be marked for the next one. */
  lemma ClearBuckets(nodes: seq<NodeData>, ticked: seq<bool>, dirty: seq<bool>, buckets: seq<seq<nat>>)
    requires AllClear(|nodes|, ticked, dirty, buckets) && LayersHoused(nodes, |buckets|)
    ensures BucketsOk(nodes, dirty, buckets)
  {
  }

  lemma MarkKeepsBuckets(nodes: seq<NodeData>, dirty: seq<bool>, buckets: seq<seq<nat>>, i: nat)
    requires BucketsOk(nodes, dirty, buckets) && i < |nodes| && !dirty[i]
    ensures var l := nodes[i].layer;
            BucketsOk(nodes, dirty[i := true], buckets[l := buckets[l] + [i]])
  {
    var l := nodes[i].layer;
    var old', new' := buckets[l], buckets[l] + [i];
    assert forall x :: x in new' <==> x in old' || x == i;
    assert Distinct(new') by {
      assert i !in old';
    }
  }

  /** The order in which nodes have run: no node twice, layers never falling. */
  ghost predicate LogOk(nodes: seq<NodeData>, log: seq<nat>, layer: nat) {
    && (forall k :: 0 <= k < |log| ==> log[k] < |nodes| && nodes[log[k]].layer <= layer)
    && (forall j, k :: 0 <= j < k < |log| ==> log[j] != log[k] && nodes[log[j]].layer <= nodes[log[k]].layer)
  }

  /** In the log, every upstream of a node that ran at all ran before it. */
  ghost predicate UpstreamsFirst(nodes: seq<NodeData>, log: seq<nat>) {
    forall i, j, e ::
      && 0 <= i < |log| && 0 <= j < |log| && Live(nodes, log[i])
      && e in nodes[log[i]].upstreams && e.node == log[j]
      ==> j < i
  }

  lemma LayeredLogIsUpstreamsFirst(nodes: seq<NodeData>, log: seq<nat>, layer: nat)
    requires Layered(nodes) && LogOk(nodes, log, layer)
    ensures UpstreamsFirst(nodes, log)
  {
  }

  /** What the engine shows a node of its upstreams. */
  function SeenBy<S>(edges: seq<Edge>, values: seq<S>, ticked: seq<bool>): (seen: seq<Seen<S>>)
    requires EdgesInRange(edges, |values|) && |values| == |ticked|
  {
    seq(|edges|, k requires 0 <= k < |edges| => Seen(values[edges[k].node], ticked[edges[k].node]))
  }

  ghost predicate RequestsExact<S(!new)>(sc: Scene<S>, log: seq<nat>, requests: set<(nat, nat)>)
    requires WellFormed(sc) && forall n :: n in log ==> n < |sc.nodes|
  {
    forall q :: q in requests <==> exists n :: n in log && q in Eval(sc, n).requests
  }

  /** Everything the dispatch loop maintains about the cycle while it works on layer `layer`. */
  ghost predicate PassInv<S(!new)>(sc: Scene<S>, values: seq<S>, ticked: seq<bool>, dirty: seq<bool>,
                                   log: seq<nat>, requests: set<(nat, nat)>, layer: nat) {
    && WellFormed(sc)
    && Settled(sc, values, ticked, log)
    && DirtyExact(sc, dirty, log)
    && Complete(sc, layer, log)
    && LogOk(sc.nodes, log, layer)
    && RequestsExact(sc, log, requests)
  }

  lemma UpstreamEdgesInRange<S(!new)>(sc: Scene<S>, n: nat)
    requires WellFormed(sc) && Live(sc.nodes, n)
    ensures EdgesInRange(sc.nodes[n].upstreams, |sc.nodes|)
  {
    forall k | 0 <= k < |sc.nodes[n].upstreams| ensures sc.nodes[n].upstreams[k].node < |sc.nodes| {
      assert sc.nodes[n].upstreams[k] in sc.nodes[n].upstreams;
    }
  }

  /** Running a node that is due computes exactly its outcome. */
  lemma EngineComputesEval<S(!new)>(sc: Scene<S>, values: seq<S>, ticked: seq<bool>, log: seq<nat>, n: nat)
    requires WellFormed(sc) && Live(sc.nodes, n) && n !in log && Eval(sc, n).ran
    requires Settled(sc, values, ticked, log) && Complete(sc, sc.nodes[n].layer, log)
    requires EdgesInRange(sc.nodes[n].upstreams, |values|)
    ensures OutcomeOf(values[n], sc.beh(n, values[n], SeenBy(sc.nodes[n].upstreams, values, ticked))) == Eval(sc, n)
  {
    var ups := sc.nodes[n].upstreams;
    var seen := seq(|ups|, k requires 0 <= k < |ups| => assert ups[k] in ups; View(Eval(sc, ups[k].node)));
    forall k | 0 <= k < |ups| ensures SeenBy(ups, values, ticked)[k] == seen[k] {
      SeenAgrees(sc, values, ticked, log, n, k);
    }
    assert SeenBy(ups, values, ticked) == seen;
  }

  /** The nodes that running `n` marks dirty lie in strictly higher layers. */
  lemma TargetsLieAbove<S(!new)>(sc: Scene<S>, n: nat, m: nat)
    requires WellFormed(sc) && Live(sc.nodes, n) && Feeds(sc.nodes, n, m)
    ensures Live(sc.nodes, m) && sc.nodes[n].layer < sc.nodes[m].layer
  {
    Mirrored(sc.nodes, n, m, true);
    Mirrored(sc.nodes, n, m, false);
  }

  // ----- One node has run -----

  lemma SettledStep<S(!new)>(sc: Scene<S>, values: seq<S>, ticked: seq<bool>, log: seq<nat>, n: nat)
    requires WellFormed(sc) && Settled(sc, values, ticked, log)
    requires Live(sc.nodes, n) && Eval(sc, n).ran && !Eval(sc, n).failed
    ensures Settled(sc, values[n := Eval(sc, n).state], ticked[n := Eval(sc, n).ticked], log + [n])
  {
    hide Eval, WellFormed;
    assert forall x :: x in log + [n] <==> x in log || x == n;
  }

  lemma DirtyStep<S(!new)>(sc: Scene<S>, dirty: seq<bool>, dirty': seq<bool>, log: seq<nat>, n: nat)
    requires WellFormed(sc) && (forall m :: m in log ==> Live(sc.nodes, m)) && Live(sc.nodes, n)
    requires DirtyExact(sc, dirty, log)
    requires |dirty'| == |dirty|
    requires forall x: nat :: x < |dirty| ==> (dirty'[x] <==> dirty[x] || Hits(sc, n, x))
    ensures DirtyExact(sc, dirty', log + [n])
  {
    hide Eval, WellFormed, Hits;
    assert forall x :: x in log + [n] <==> x in log || x == n;
    forall x: nat | x < |sc.nodes|
      ensures dirty'[x] <==> x in sc.dirty || exists m :: m in log + [n] && Hits(sc, m, x)
    {
      if Hits(sc, n, x) {
        assert n in log + [n];
      }
    }
  }

  lemma RequestsStep<S(!new)>(sc: Scene<S>, log: seq<nat>, requests: set<(nat, nat)>, n: nat)
    requires WellFormed(sc) && (forall m :: m in log ==> m < |sc.nodes|) && n < |sc.nodes|
    requires RequestsExact(sc, log, requests)
    ensures RequestsExact(sc, log + [n], requests + Eval(sc, n).requests)
  {
    hide Eval, WellFormed;
    assert forall x :: x in log + [n] <==> x in log || x == n;
  }

  lemma LogStep(nodes: seq<NodeData>, log: seq<nat>, n: nat)
    requires n < |nodes| && LogOk(nodes, log, nodes[n].layer) && n !in log
    ensures LogOk(nodes, log + [n], nodes[n].layer)
  {
  }

  lemma RunStep<S(!new)>(sc: Scene<S>, values: seq<S>, ticked: seq<bool>, dirty: seq<bool>, dirty': seq<bool>,
                         log: seq<nat>, requests: set<(nat, nat)>, n: nat)
    requires Live(sc.nodes, n) && n !in log && PassInv(sc, values, ticked, dirty, log, requests, sc.nodes[n].layer)
    requires Eval(sc, n).ran && !Eval(sc, n).failed
    requires |dirty'| == |dirty|
    requires forall x: nat :: x < |dirty| ==> (dirty'[x] <==> dirty[x] || Hits(sc, n, x))
    ensures PassInv(sc, values[n := Eval(sc, n).state], ticked[n := Eval(sc, n).ticked], dirty', log + [n],
                    requests + Eval(sc, n).requests, sc.nodes[n].layer)
  {
    SettledStep(sc, values, ticked, log, n);
    DirtyStep(sc, dirty, dirty', log, n);
    RequestsStep(sc, log, requests, n);
    LogStep(sc.nodes, log, n);
    hide Eval, WellFormed, Settled, DirtyExact, RequestsExact, LogOk, Hits;
    assert forall x :: x in log ==> x in log + [n];
  }

  // ----- A whole layer has run -----

  /** The first `i` entries of the bucket have been dealt with; the others have not run. */
  ghost predicate BucketDone(nodes: seq<NodeData>, bucket: seq<nat>, log: seq<nat>, i: nat)
    requires i <= |bucket|
  {
    && (forall k :: 0 <= k < i && Live(nodes, bucket[k]) ==> bucket[k] in log)
    && (forall k :: i <= k < |bucket| ==> bucket[k] !in log)
  }

  lemma BucketStep(nodes: seq<NodeData>, bucket: seq<nat>, log: seq<nat>, k: nat)
    requires k < |bucket| && Distinct(bucket) && BucketDone(nodes, bucket, log, k)
    ensures Live(nodes, bucket[k]) ==> BucketDone(nodes, bucket, log + [bucket[k]], k + 1)
    ensures !Live(nodes, bucket[k]) ==> BucketDone(nodes, bucket, log, k + 1)
  {
    var log' := log + [bucket[k]];
    assert forall x :: x in log' <==> x in log || x == bucket[k];
  }

  ghost predicate AllBelow(nodes: seq<NodeData>, log: seq<nat>, layer: nat) {
    forall k :: 0 <= k < |log| ==> log[k] < |nodes| && nodes[log[k]].layer < layer
  }

  lemma LayerStep<S(!new)>(sc: Scene<S>, values: seq<S>, ticked: seq<bool>, dirty: seq<bool>, buckets: seq<seq<nat>>,
                           log: seq<nat>, requests: set<(nat, nat)>, layer: nat)
    requires PassInv(sc, values, ticked, dirty, log, requests, layer)
    requires BucketsOk(sc.nodes, dirty, buckets) && layer < |buckets|
    requires BucketDone(sc.nodes, buckets[layer], log, |buckets[layer]|)
    ensures PassInv(sc, values, ticked, dirty, log, requests, layer + 1)
    ensures AllBelow(sc.nodes, log, layer + 1)
  {
    forall n: nat | n < |sc.nodes| && sc.nodes[n].layer < layer + 1 && Eval(sc, n).ran ensures n in log {
      if sc.nodes[n].layer == layer {
        RunsDirty(sc, dirty, log, n);
        assert n in buckets[layer];
      }
    }
  }

  /** Before the next layer starts, none of its bucket has run. */
  lemma NextBucketUntouched(nodes: seq<NodeData>, dirty: seq<bool>, buckets: seq<seq<nat>>, log: seq<nat>, layer: nat)
    requires BucketsOk(nodes, dirty, buckets) && layer < |buckets|
    requires AllBelow(nodes, log, layer)
    ensures BucketDone(nodes, buckets[layer], log, 0)
  {
    forall k | 0 <= k < |buckets[layer]| ensures buckets[layer][k] !in log {
      assert buckets[layer][k] in buckets[layer];
    }
  }
}
