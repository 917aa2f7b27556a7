/** Nodes inside a run of the whole engine: when they run follows from their edges, and what is proved about
    them over runs of the clock holds for them there. */
module NodesInRuns {
  import opened TimeQueues
  import opened Clocks
  import opened GraphModel
  import opened Evaluation
  import opened Wiring
  import opened Additions
  import opened Removal
  import opened Engine
  import opened EngineRuns
  import Delays
  import Feedbacks
  import HistoricalChannel
  import HistoricalDelivery

  // ----- When a node runs -----

  /** A node without upstreams, such as a receiver or a feedback stream, runs exactly when the clock marks it. */
  lemma {:induction false} RunsWhenWoken<S(!new)>(sc: Scene<S>, x: nat)
    requires WellFormed(sc) && Live(sc.nodes, x) && sc.nodes[x].upstreams == []
    ensures Eval(sc, x).ran <==> x in sc.dirty
  {
  }

  /** A node that no upstream marks runs exactly when the clock marks it or an active upstream ticks. */
  lemma {:induction false} RunsWhenTriggered<S(!new)>(sc: Scene<S>, x: nat)
    requires WellFormed(sc) && Live(sc.nodes, x)
    requires forall e :: e in sc.nodes[x].upstreams ==> x !in Eval(sc, e.node).marks
    ensures Eval(sc, x).ran <==>
              x in sc.dirty || exists e :: e in sc.nodes[x].upstreams && e.active && Eval(sc, e.node).ticked
  {
    forall e | e in sc.nodes[x].upstreams
      ensures Triggers(Eval(sc, e.node), e, x) <==> e.active && Eval(sc, e.node).ticked
    {
    }
    hide Eval, WellFormed;
  }

  /** A node that runs replies to what its upstreams show. */
  lemma {:induction false} RepliesToUpstreams<S(!new)>(sc: Scene<S>, x: nat, seen: seq<Seen<S>>)
    requires WellFormed(sc) && Live(sc.nodes, x) && Eval(sc, x).ran && |seen| == |sc.nodes[x].upstreams|
    requires forall k :: 0 <= k < |seen| ==>
               sc.nodes[x].upstreams[k].node < |sc.nodes| && seen[k] == View(Eval(sc, sc.nodes[x].upstreams[k].node))
    ensures Eval(sc, x) == OutcomeOf(sc.init[x], sc.beh(x, sc.init[x], seen))
  {
    var ups := sc.nodes[x].upstreams;
    assert seen == seq(|ups|, k requires 0 <= k < |ups| => assert ups[k] in ups; View(Eval(sc, ups[k].node)));
  }

  // ----- Edges over a run -----

  /** No round removes one of `spared` or gives `x` another upstream. */
  ghost predicate LeavesAlone<S(!new)>(script: Script<S>, x: nat, spared: set<nat>) {
    forall k: nat, nodes: seq<NodeData>, index: map<Id, nat> {:trigger script.plan(k, nodes, index)} ::
      && (forall i: nat :: i in spared && i < |nodes| ==> nodes[i].id !in script.plan(k, nodes, index).removals)
      && (forall a :: a in script.plan(k, nodes, index).additions ==> a.caller != x)
  }

  ghost predicate HasEdges(nodes: seq<NodeData>, x: nat, edges: seq<Edge>) {
    Live(nodes, x) && nodes[x].upstreams == edges
  }

  lemma {:induction false} SparedAll(nodes: seq<NodeData>, removals: seq<Id>, edges: seq<Edge>)
    requires forall e :: e in edges ==> !Retires(nodes, e.node, removals)
    ensures Spared(nodes, removals, edges) == edges
  {
    if edges != [] {
      var init, last := edges[..|edges| - 1], edges[|edges| - 1];
      assert edges == init + [last];
      assert last in edges && forall e :: e in init ==> e in edges;
      SparedAll(nodes, removals, init);
    }
  }

  /** A round that leaves a node alone leaves it live, with the edges it had. */
  lemma {:induction false} RewiredKeeps(decl: Declaration, nodes: seq<NodeData>, index: map<Id, nat>, round: Round,
                                        nodes': seq<NodeData>, index': map<Id, nat>, x: nat, edges: seq<Edge>)
    requires Rewired(decl, nodes, index, round, nodes', index') && HasEdges(nodes, x, edges)
    requires nodes[x].id !in round.removals && forall a :: a in round.additions ==> a.caller != x
    requires forall e :: e in edges && e.node < |nodes| ==> nodes[e.node].id !in round.removals
    ensures HasEdges(nodes', x, edges)
  {
    var middle :| Retired(nodes, middle, round.removals) &&
    Applied(decl, middle, index, nodes', index', round.additions);
    assert RetiredAt(nodes, middle[x], round.removals, x);
    SparedAll(nodes, round.removals, edges);
    NoEdgesForOthers(round.additions, index', x);
    assert edges + [] == edges;
    hide Spared, CallerEdges;
  }

  /** A story up to its k-th cycle is a story. */
  lemma {:induction false} StoryPrefix<S(!new)>(script: Script<S>, start: Moment<S>, cycles: seq<Cycle<S>>,
                                                end: Moment<S>, k: nat)
    requires Story(script, start, cycles, end) && k < |cycles|
    ensures Story(script, start, cycles[..k], StartOf(cycles[k]))
  {
    hide Staged, Plays, Leads;
    assert k > 0 ==> Leads(script, k - 1, cycles[k - 1], StartOf(cycles[k]));
  }

  /** A node the script leaves alone is there to the end, with the edges it had at the start. */
  lemma {:induction false} EdgesKept<S(!new)>(script: Script<S>, start: Moment<S>, cycles: seq<Cycle<S>>,
                                              end: Moment<S>, x: nat, edges: seq<Edge>, spared: set<nat>)
    requires Story(script, start, cycles, end) && LeavesAlone(script, x, spared) && HasEdges(start.nodes, x, edges)
    requires x in spared && forall e :: e in edges ==> e.node in spared
    ensures HasEdges(end.nodes, x, edges)
    decreases |cycles|
  {
    if cycles != [] {
      var k := |cycles| - 1;
      var c := cycles[k];
      StoryPrefix(script, start, cycles, end, k);
      hide Story;
      EdgesKept(script, start, cycles[..k], StartOf(c), x, edges, spared);
      assert Rewired(script.decl, c.scene.nodes, c.index, RoundOf(script, k, c), end.nodes, end.index) by {
        LastLeads(script, start, cycles, end);
      }
      hide Rewired, HasEdges;
      RewiredKeeps(script.decl, c.scene.nodes, c.index, RoundOf(script, k, c), end.nodes, end.index, x, edges);
    }
  }

  lemma LastLeads<S(!new)>(script: Script<S>, start: Moment<S>, cycles: seq<Cycle<S>>, end: Moment<S>)
    requires Story(script, start, cycles, end) && cycles != []
    ensures Leads(script, |cycles| - 1, cycles[|cycles| - 1], end)
  {
  }

  lemma {:induction false} EdgesKeptAt<S(!new)>(script: Script<S>, start: Moment<S>, cycles: seq<Cycle<S>>,
                                                end: Moment<S>, x: nat, edges: seq<Edge>, spared: set<nat>, k: nat)
    requires Story(script, start, cycles, end) && LeavesAlone(script, x, spared) && HasEdges(start.nodes, x, edges)
    requires x in spared && (forall e :: e in edges ==> e.node in spared) && k < |cycles|
    ensures HasEdges(cycles[k].scene.nodes, x, edges) && Staged(script, k, cycles[k])
  {
    StoryPrefix(script, start, cycles, end, k);
    EdgesKept(script, start, cycles[..k], StartOf(cycles[k]), x, edges, spared);
    hide Leads, Plays, LeavesAlone, HasEdges;
  }

  // ----- A delay in a run -----

  /** How a delay node and the values it passes on are stored among the states of the graph. */
  datatype Storage<!S, V> = Storage(value: S -> V, delay: S -> Delays.DelayState<V>)

  function Requests(x: nat, times: set<nat>): set<(nat, nat)> {
    set t | t in times :: (x, t)
  }

  /** In this cycle node `x` is `delay_with_reset` over upstream `u` and trigger `t`. */
  ghost predicate DelaysIn<S(!new), V(!new)>(c: Cycle<S>, st: Storage<S, V>, x: nat, u: nat, t: nat, delay: nat) {
    && Live(c.scene.nodes, x) && c.scene.nodes[x].upstreams == [Edge(u, true), Edge(t, true)]
    && (WellFormed(c.scene) ==> x !in Eval(c.scene, u).marks && x !in Eval(c.scene, t).marks)
    && forall s: S, up: Seen<S>, trigger: Seen<S> ::
         DelayReply(st, c.scene.beh(x, s, [up, trigger]), x, delay, s, Time(c.step), up, trigger)
  }

  ghost predicate DelayReply<S(!new), V(!new)>(st: Storage<S, V>, reply: Reply<S>, x: nat, delay: nat, s: S, now: nat,
                                               up: Seen<S>, trigger: Seen<S>) {
    var e := Delays.DelayCycle(delay, st.delay(s), now, Delays.Input(st.value(up.value), up.ticked, trigger.ticked));
    reply.Reply? && st.delay(reply.state) == e.state && reply.ticked == e.ticked &&
      reply.requests == Requests(x, e.wakeups)
  }

  ghost function InputIn<S(!new), V(!new)>(c: Cycle<S>, st: Storage<S, V>, u: nat, t: nat): Delays.Input<V>
    requires WellFormed(c.scene) && u < |c.scene.nodes| && t < |c.scene.nodes|
  {
    Delays.Input(st.value(Eval(c.scene, u).state), Eval(c.scene, u).ticked, Eval(c.scene, t).ticked)
  }

  ghost function OutputIn<S(!new), V(!new)>(c: Cycle<S>, st: Storage<S, V>, x: nat): Option<V>
    requires WellFormed(c.scene) && x < |c.scene.nodes|
  {
    if Eval(c.scene, x).ticked then Some(st.delay(Eval(c.scene, x).state).value) else None
  }

  /** One engine cycle is one step of the delay. */
  lemma {:induction false} CycleDelays<S(!new), V(!new)>(c: Cycle<S>, st: Storage<S, V>, x: nat, u: nat, t: nat,
                                                         delay: nat)
    requires Plays(c) && DelaysIn(c, st, x, u, t, delay)
    ensures u < |c.scene.nodes| && t < |c.scene.nodes| && x < |c.scene.nodes| && |c.scene.init| == |c.scene.nodes|
    ensures Delays.DelayStep(c.step, x, delay, InputIn(c, st, u, t), st.delay(c.scene.init[x]),
                             st.delay(Eval(c.scene, x).state), OutputIn(c, st, x))
  {
    var sc := c.scene;
    DelayRuns(c, st, x, u, t, delay);
    ReplyReaches(c, x, Eval(sc, x).requests);
    hide WellFormed, Eval, Delays.DelayCycle, Plays;
    if Eval(sc, x).ran {
      var up, trigger := View(Eval(sc, u)), View(Eval(sc, t));
      assert DelayReply(st, sc.beh(x, sc.init[x], [up, trigger]), x, delay, sc.init[x], Time(c.step), up, trigger);
      RepliesToUpstreams(sc, x, [up, trigger]);
    }
  }

  lemma {:induction false} DelayRuns<S(!new), V(!new)>(c: Cycle<S>, st: Storage<S, V>, x: nat, u: nat, t: nat,
                                                       delay: nat)
    requires Plays(c) && DelaysIn(c, st, x, u, t, delay)
    ensures u < |c.scene.nodes| && t < |c.scene.nodes| && |c.scene.init| == |c.scene.nodes|
    ensures Eval(c.scene, x).ran <==> Delays.Runs(c.step, x, InputIn(c, st, u, t))
  {
    var ups := c.scene.nodes[x].upstreams;
    assert ups[0] == Edge(u, true) && ups[1] == Edge(t, true) && ups[0] in ups && ups[1] in ups;
    forall e | e in ups ensures e == ups[0] || e == ups[1] {
    }
    hide DelayReply;
    RunsWhenTriggered(c.scene, x);
  }

  lemma {:induction false} ReplyReaches<S(!new)>(c: Cycle<S>, x: nat, requests: set<(nat, nat)>)
    requires Plays(c) && x < |c.scene.nodes| && Eval(c.scene, x).requests == requests
    ensures forall t: nat :: (x, t) in requests ==> Callback(x, t) in c.step.requests
  {
    forall t: nat | (x, t) in requests ensures Callback(x, t) in c.step.requests {
      var e := Callback(x, t);
      assert (e.node, e.time) in Eval(c.scene, x).requests;
    }
  }

  // ----- A whole run -----

  ghost predicate Present<S(!new)>(c: Cycle<S>, x: nat) {
    WellFormed(c.scene) && |c.scene.init| == |c.scene.nodes| && x < |c.scene.nodes|
  }

  ghost predicate AllPresent<S(!new)>(cycles: seq<Cycle<S>>, x: nat) {
    forall k :: 0 <= k < |cycles| ==> Present(cycles[k], x)
  }

  ghost function Inputs<S(!new), V(!new)>(cycles: seq<Cycle<S>>, st: Storage<S, V>, u: nat, t: nat)
    : (r: seq<Delays.Input<V>>)
    requires AllPresent(cycles, u) && AllPresent(cycles, t)
    ensures |r| == |cycles| && forall k :: 0 <= k < |r| ==> r[k] == InputIn(cycles[k], st, u, t)
  {
    if cycles == [] then [] else Inputs(cycles[..|cycles| - 1], st, u, t) + [InputIn(cycles[|cycles| - 1], st, u, t)]
  }

  ghost function Outputs<S(!new), V(!new)>(cycles: seq<Cycle<S>>, st: Storage<S, V>, x: nat): (r: seq<Option<V>>)
    requires AllPresent(cycles, x)
    ensures |r| == |cycles| && forall k :: 0 <= k < |r| ==> r[k] == OutputIn(cycles[k], st, x)
  {
    if cycles == [] then [] else Outputs(cycles[..|cycles| - 1], st, x) + [OutputIn(cycles[|cycles| - 1], st, x)]
  }

  /** The states of node `x` before each cycle, and after the last. */
  ghost function States<S(!new), V(!new)>(cycles: seq<Cycle<S>>, st: Storage<S, V>, x: nat)
    : (r: seq<Delays.DelayState<V>>)
    requires cycles != []
    requires AllPresent(cycles, x)
    ensures |r| == |cycles| + 1 && r[0] == st.delay(cycles[0].scene.init[x])
    ensures forall k, j :: 0 <= k < |cycles| && j == k + 1 ==> r[j] == st.delay(Eval(cycles[k].scene, x).state)
  {
    var last := st.delay(Eval(cycles[|cycles| - 1].scene, x).state);
    if |cycles| == 1 then [st.delay(cycles[0].scene.init[x]), last] else States(cycles[..|cycles| - 1], st, x) + [last]
  }

  ghost predicate DelaysThroughout<S(!new), V(!new)>(cycles: seq<Cycle<S>>, st: Storage<S, V>, x: nat, u: nat, t: nat,
                                                     delay: nat) {
    && IsEngineRun(cycles) && cycles != []
    && forall k :: 0 <= k < |cycles| ==> DelaysIn(cycles[k], st, x, u, t, delay)
  }

  lemma {:induction false} NodesAreThere<S(!new), V(!new)>(cycles: seq<Cycle<S>>, st: Storage<S, V>, x: nat, u: nat,
                                                           t: nat, delay: nat)
    requires DelaysThroughout(cycles, st, x, u, t, delay)
    ensures AllPresent(cycles, x) && AllPresent(cycles, u) && AllPresent(cycles, t)
  {
    forall k | 0 <= k < |cycles| ensures Present(cycles[k], x) && Present(cycles[k], u) && Present(cycles[k], t) {
      assert Plays(cycles[k]) && DelaysIn(cycles[k], st, x, u, t, delay);
      CycleDelays(cycles[k], st, x, u, t, delay);
    }
  }

  /** A delay node in a run of the engine takes part in a run of the clock as the delay theorems assume. */
  lemma {:induction false} DelayTakesPart<S(!new), V(!new)>(cycles: seq<Cycle<S>>, st: Storage<S, V>, x: nat, u: nat,
                                                            t: nat, delay: nat)
    requires DelaysThroughout(cycles, st, x, u, t, delay)
    requires x < |cycles[0].scene.init| && st.delay(cycles[0].scene.init[x]).queue == []
    ensures AllPresent(cycles, x) && AllPresent(cycles, u) && AllPresent(cycles, t)
    ensures Delays.DelayRun(StepsOf(cycles), x, delay, Inputs(cycles, st, u, t), States(cycles, st, x),
                            Outputs(cycles, st, x))
  {
    NodesAreThere(cycles, st, x, u, t, delay);
    var steps, inputs, states, outs :=
      StepsOf(cycles), Inputs(cycles, st, u, t), States(cycles, st, x), Outputs(cycles, st, x);
    forall j, k | 0 <= j < |steps| && k == j + 1
      ensures Delays.DelayStep(steps[j], x, delay, inputs[j], states[j], states[k], outs[j])
    {
      assert Plays(cycles[j]) && DelaysIn(cycles[j], st, x, u, t, delay);
      CycleDelays(cycles[j], st, x, u, t, delay);
      StateFlows(cycles, st, x, j);
    }
  }

  lemma {:induction false} StateCarried<S(!new)>(cycles: seq<Cycle<S>>, x: nat, k: nat)
    requires IsEngineRun(cycles) && 0 < k < |cycles| && AllPresent(cycles, x)
    ensures cycles[k].scene.init[x] == Eval(cycles[k - 1].scene, x).state
  {
    var values :| Threaded(cycles, values);
    assert Carries(cycles[k - 1], cycles[k].scene.init);
  }

  lemma {:induction false} StateFlows<S(!new), V(!new)>(cycles: seq<Cycle<S>>, st: Storage<S, V>, x: nat, j: nat)
    requires IsEngineRun(cycles) && j < |cycles|
    requires AllPresent(cycles, x)
    ensures States(cycles, st, x)[j] == st.delay(cycles[j].scene.init[x])
  {
    if j > 0 {
      StateCarried(cycles, x, j);
    }
  }

  /** So in every run of the engine, with a positive delay, the node emits exactly the input that ticked the
      delay ago, strictly after the last reset, and a reset emits the current input. */
  lemma {:induction false} DelayExactInRun<S(!new), V(!new)>(cycles: seq<Cycle<S>>, st: Storage<S, V>, x: nat, u: nat,
                                                             t: nat, delay: nat, j: nat)
    requires DelaysThroughout(cycles, st, x, u, t, delay) && delay > 0 && j < |cycles|
    requires x < |cycles[0].scene.init| && st.delay(cycles[0].scene.init[x]).queue == []
    ensures AllPresent(cycles, x) && AllPresent(cycles, u) && AllPresent(cycles, t)
    ensures Delays.EmitsExactly(StepsOf(cycles), delay, Inputs(cycles, st, u, t), OutputIn(cycles[j], st, x), j)
  {
    DelayTakesPart(cycles, st, x, u, t, delay);
    var steps, inputs, states, outs :=
      StepsOf(cycles), Inputs(cycles, st, u, t), States(cycles, st, x), Outputs(cycles, st, x);
    assert outs[j] == OutputIn(cycles[j], st, x);
    hide Delays.DelayRun, Delays.EmitsExactly;
    Delays.DelayWithResetExact(steps, x, delay, inputs, states, outs, j);
  }

  /** The script casts node `x` as `delay_with_reset`, and nothing else marks it. */
  ghost predicate CastAsDelay<S(!new), V(!new)>(script: Script<S>, st: Storage<S, V>, x: nat, delay: nat) {
    && (forall k: nat, now: nat, nodes: seq<NodeData>, s: S, up: Seen<S>, trigger: Seen<S> ::
          DelayReply(st, script.company(k, now, nodes)(x, s, [up, trigger]), x, delay, s, now, up, trigger))
    && (forall k: nat, now: nat, nodes: seq<NodeData>, i: nat, s: S, seen: seq<Seen<S>> ::
          var reply := script.company(k, now, nodes)(i, s, seen); reply.Reply? ==> x !in reply.marks)
  }

  lemma {:induction false} NobodyMarks<S(!new)>(sc: Scene<S>, n: nat, x: nat)
    requires WellFormed(sc) && n < |sc.nodes|
    requires forall i: nat, s: S, seen: seq<Seen<S>> ::
               var reply := sc.beh(i, s, seen); reply.Reply? ==> x !in reply.marks
    ensures x !in Eval(sc, n).marks
  {
  }

  /** Whatever else the script does, a delay it leaves alone meets the specification in every cycle of every run. */
  lemma {:induction false} DelayInRun<S(!new), V(!new)>(script: Script<S>, start: Moment<S>, cycles: seq<Cycle<S>>,
                                                        end: Moment<S>, st: Storage<S, V>, x: nat, u: nat, t: nat,
                                                        delay: nat, j: nat)
    requires Story(script, start, cycles, end) && start.clock.unstarted && start.clock.time == 0
    requires CastAsDelay(script, st, x, delay) && LeavesAlone(script, x, {x, u, t}) && delay > 0 && j < |cycles|
    requires HasEdges(start.nodes, x, [Edge(u, true), Edge(t, true)])
    requires x < |start.values| && st.delay(start.values[x]).queue == []
    ensures AllPresent(cycles, x) && AllPresent(cycles, u) && AllPresent(cycles, t)
    ensures Delays.EmitsExactly(StepsOf(cycles), delay, Inputs(cycles, st, u, t), OutputIn(cycles[j], st, x), j)
  {
    hide *;
    DelayPlaysPart(script, start, cycles, end, st, x, u, t, delay);
    DelayExactInRun(cycles, st, x, u, t, delay, j);
  }

  lemma {:induction false} DelayPlaysPart<S(!new), V(!new)>(script: Script<S>, start: Moment<S>, cycles: seq<Cycle<S>>,
                                                            end: Moment<S>, st: Storage<S, V>, x: nat, u: nat, t: nat,
                                                            delay: nat)
    requires Story(script, start, cycles, end) && start.clock.unstarted && start.clock.time == 0 && cycles != []
    requires CastAsDelay(script, st, x, delay) && LeavesAlone(script, x, {x, u, t})
    requires HasEdges(start.nodes, x, [Edge(u, true), Edge(t, true)])
    ensures DelaysThroughout(cycles, st, x, u, t, delay) && cycles[0].scene.init == start.values
  {
    StoryIsEngineRun(script, start, cycles, end);
    assert StartOf(cycles[0]) == start;
    hide Story, LeavesAlone, DelaysIn, Staged, CastAsDelay, IsEngineRun, HasEdges;
    forall k | 0 <= k < |cycles| ensures DelaysIn(cycles[k], st, x, u, t, delay) {
      EdgesKeptAt(script, start, cycles, end, x, [Edge(u, true), Edge(t, true)], {x, u, t}, k);
      CastDelays(script, k, cycles[k], st, x, u, t, delay);
    }
  }

  lemma {:induction false} CastDelays<S(!new), V(!new)>(script: Script<S>, k: nat, c: Cycle<S>, st: Storage<S, V>,
                                                        x: nat, u: nat, t: nat, delay: nat)
    requires Staged(script, k, c) && CastAsDelay(script, st, x, delay)
    requires HasEdges(c.scene.nodes, x, [Edge(u, true), Edge(t, true)])
    ensures DelaysIn(c, st, x, u, t, delay)
  {
    var ups := c.scene.nodes[x].upstreams;
    assert ups[0] in ups && ups[1] in ups;
    assert u < |c.scene.nodes| && t < |c.scene.nodes|;
    hide DelayReply, WellFormed, Eval;
    NobodyMarks(c.scene, u, x);
    NobodyMarks(c.scene, t, x);
  }

  // ----- A receiver in a run -----

  /** How an untriggered receiver and the burst it shows are stored among the states of the graph. */
  datatype Inbox<!S, T> = Inbox(rx: S -> HistoricalChannel.Receiver<T>, burst: S -> seq<T>)

  ghost predicate ReceiverReply<S(!new), T(!new)>(st: Inbox<S, T>, ch: HistoricalChannel.Channel<T>, reply: Reply<S>,
                                                  x: nat, s: S, now: nat) {
    match HistoricalChannel.ReceiverCycle(ch, st.rx(s), now, false)
    case Fail(_) => reply.Failed?
    case Done(c) =>
      && reply.Reply? && st.rx(reply.state) == c.state
      && reply.ticked == (c.burst != []) && (reply.ticked ==> st.burst(reply.state) == c.burst)
      && reply.requests == Requests(x, if c.wakeup.Some? then {c.wakeup.value} else {})
  }

  /** In this cycle node `x` is an untriggered receiver on channel `ch`. */
  ghost predicate ReceivesIn<S(!new), T(!new)>(c: Cycle<S>, st: Inbox<S, T>, ch: HistoricalChannel.Channel<T>, x: nat) {
    HasEdges(c.scene.nodes, x, []) && forall s: S :: ReceiverReply(st, ch, c.scene.beh(x, s, []), x, s, Time(c.step))
  }

  /** What has been delivered, one engine cycle later: what the node shows when it ticks is emitted. */
  ghost function Delivered<S(!new), T(!new)>(c: Cycle<S>, st: Inbox<S, T>, x: nat, d: HistoricalDelivery.Delivery<T>)
    : HistoricalDelivery.Delivery<T>
    requires Present(c, x)
  {
    var o := Eval(c.scene, x);
    if !o.ran then d
    else HistoricalDelivery.Delivery(
        st.rx(o.state),
        d.emitted + (if o.ticked then [HistoricalChannel.Group(Time(c.step), st.burst(o.state))] else []),
        o.failed)
  }

  /** One engine cycle is one step of the delivery. */
  lemma {:induction false} CycleDelivers<S(!new), T(!new)>(c: Cycle<S>, st: Inbox<S, T>,
                                                           ch: HistoricalChannel.Channel<T>, x: nat,
                                                           d: HistoricalDelivery.Delivery<T>)
    requires Present(c, x) && c.scene.dirty == c.step.dirty && ReceivesIn(c, st, ch, x)
    requires (forall t: nat :: (x, t) in Eval(c.scene, x).requests ==> Callback(x, t) in c.step.requests)
    requires !d.failed && d.rx == st.rx(c.scene.init[x])
    ensures HistoricalDelivery.DeliveryStep(ch, x, c.step, d, Delivered(c, st, x, d))
    ensures Delivered(c, st, x, d).rx == st.rx(Eval(c.scene, x).state)
    ensures Delivered(c, st, x, d).failed == Eval(c.scene, x).failed
  {
    var sc := c.scene;
    RunsWhenWoken(sc, x);
    if Eval(sc, x).ran {
      var reply := sc.beh(x, sc.init[x], []);
      RepliesToUpstreams(sc, x, []);
      assert ReceiverReply(st, ch, reply, x, sc.init[x], Time(c.step));
      hide WellFormed, Eval, HistoricalChannel.ReceiverCycle;
    }
  }

  /** What has been delivered before each cycle, and after the last. */
  ghost function Deliveries<S(!new), T(!new)>(cycles: seq<Cycle<S>>, st: Inbox<S, T>, x: nat)
    : (r: seq<HistoricalDelivery.Delivery<T>>)
    requires AllPresent(cycles, x)
    ensures |r| == |cycles| + 1
  {
    if cycles == [] then [HistoricalDelivery.Delivery(HistoricalChannel.Receiver(0, 0, false, None, []), [], false)]
    else
      var n := |cycles| - 1;
      var before := Deliveries(cycles[..n], st, x);
      before + [Delivered(cycles[n], st, x, before[n])]
  }

  lemma {:induction false} DeliveriesStep<S(!new), T(!new)>(cycles: seq<Cycle<S>>, st: Inbox<S, T>, x: nat, k: nat)
    requires AllPresent(cycles, x) && k < |cycles|
    ensures Deliveries(cycles, st, x)[0] ==
            HistoricalDelivery.Delivery(HistoricalChannel.Receiver(0, 0, false, None, []), [], false)
    ensures Deliveries(cycles, st, x)[k + 1] == Delivered(cycles[k], st, x, Deliveries(cycles, st, x)[k])
  {
    var n := |cycles| - 1;
    hide Delivered;
    if k < n {
      DeliveriesStep(cycles[..n], st, x, k);
    } else if n > 0 {
      DeliveriesStep(cycles[..n], st, x, 0);
    }
  }

  /** Throughout the run node `x` is a receiver that starts afresh, with a wake-up asked for. */
  ghost predicate ReceivesThroughout<S(!new), T(!new)>(cycles: seq<Cycle<S>>, st: Inbox<S, T>,
                                                       ch: HistoricalChannel.Channel<T>, start: nat, x: nat) {
    && IsEngineRun(cycles) && (forall k :: 0 <= k < |cycles| ==> ReceivesIn(cycles[k], st, ch, x))
    && cycles != [] && Callback(x, start) in cycles[0].step.before.scheduled
    && x < |cycles[0].scene.init|
    && st.rx(cycles[0].scene.init[x]) == HistoricalChannel.Receiver(0, 0, false, None, [])
  }

  lemma ReceiverIsThere<S(!new), T(!new)>(cycles: seq<Cycle<S>>, st: Inbox<S, T>, ch: HistoricalChannel.Channel<T>,
                                          start: nat, x: nat)
    requires ReceivesThroughout(cycles, st, ch, start, x)
    ensures AllPresent(cycles, x)
  {
    forall k | 0 <= k < |cycles| ensures Present(cycles[k], x) {
      assert Plays(cycles[k]) && ReceivesIn(cycles[k], st, ch, x);
    }
  }

  /** The receiver's deliveries follow its state from cycle to cycle. */
  lemma {:induction false} DeliveriesFlow<S(!new), T(!new)>(cycles: seq<Cycle<S>>, st: Inbox<S, T>,
                                                            ch: HistoricalChannel.Channel<T>, start: nat, x: nat,
                                                            k: nat)
    requires ReceivesThroughout(cycles, st, ch, start, x) && k < |cycles| && AllPresent(cycles, x)
    ensures var ds := Deliveries(cycles, st, x);
            && !ds[k].failed && ds[k].rx == st.rx(cycles[k].scene.init[x])
            && !ds[k + 1].failed && ds[k + 1].rx == st.rx(Eval(cycles[k].scene, x).state)
            && HistoricalDelivery.DeliveryStep(ch, x, cycles[k].step, ds[k], ds[k + 1])
  {
    var ds := Deliveries(cycles, st, x);
    DeliveriesStep(cycles, st, x, k);
    assert Plays(cycles[k]) && ReceivesIn(cycles[k], st, ch, x) && Present(cycles[k], x);
    ReplyReaches(cycles[k], x, Eval(cycles[k].scene, x).requests);
    hide ReceivesIn, Delivered, HistoricalDelivery.DeliveryStep, Deliveries, WellFormed, Eval, IsEngineRun;
    if k > 0 {
      DeliveriesFlow(cycles, st, ch, start, x, k - 1);
      StateCarried(cycles, x, k);
    }
    CycleDelivers(cycles[k], st, ch, x, ds[k]);
  }

  /** A receiver node in a run of the engine takes part in a run of the clock as the delivery theorems assume. */
  lemma {:induction false} ReceiverTakesPart<S(!new), T(!new)>(cycles: seq<Cycle<S>>, st: Inbox<S, T>,
                                                               ch: HistoricalChannel.Channel<T>, start: nat, x: nat)
    requires ReceivesThroughout(cycles, st, ch, start, x)
    ensures AllPresent(cycles, x)
    ensures HistoricalDelivery.IsDeliveryRun(ch, start, x, StepsOf(cycles), Deliveries(cycles, st, x))
  {
    ReceiverIsThere(cycles, st, ch, start, x);
    var steps, ds := StepsOf(cycles), Deliveries(cycles, st, x);
    DeliveriesStep(cycles, st, x, 0);
    forall i, j | 0 <= i < |steps| && j == i + 1
      ensures HistoricalDelivery.DeliveryStep(ch, x, steps[i], ds[i], ds[j])
    {
      DeliveriesFlow(cycles, st, ch, start, x, i);
    }
    hide HistoricalDelivery.DeliveryStep, Deliveries, ReceivesIn, Plays;
  }

  /** The script casts node `x` as an untriggered receiver on channel `ch`. */
  ghost predicate CastAsReceiver<S(!new), T(!new)>(script: Script<S>, st: Inbox<S, T>,
                                                   ch: HistoricalChannel.Channel<T>, x: nat) {
    forall k: nat, now: nat, nodes: seq<NodeData>, s: S ::
      ReceiverReply(st, ch, script.company(k, now, nodes)(x, s, []), x, s, now)
  }

  /** The receiver at the start of a run: left alone by the script, without upstreams, nothing read yet, and
      with the wake-up its setup asks for. */
  ghost predicate ReceiverSetUp<S(!new), T(!new)>(script: Script<S>, m: Moment<S>, st: Inbox<S, T>,
                                                  ch: HistoricalChannel.Channel<T>, start: nat, x: nat) {
    && CastAsReceiver(script, st, ch, x) && LeavesAlone(script, x, {x}) && HasEdges(m.nodes, x, [])
    && m.clock.unstarted && m.clock.time == 0 && Callback(x, start) in m.clock.scheduled
    && x < |m.values| && st.rx(m.values[x]) == HistoricalChannel.Receiver(0, 0, false, None, [])
  }

  lemma {:induction false} ReceiverPlaysPart<S(!new), T(!new)>(script: Script<S>, begin: Moment<S>,
                                                               cycles: seq<Cycle<S>>, end: Moment<S>,
                                                               st: Inbox<S, T>, ch: HistoricalChannel.Channel<T>,
                                                               start: nat, x: nat)
    requires Story(script, begin, cycles, end) && ReceiverSetUp(script, begin, st, ch, start, x) && cycles != []
    ensures ReceivesThroughout(cycles, st, ch, start, x)
  {
    StoryIsEngineRun(script, begin, cycles, end);
    forall k | 0 <= k < |cycles| ensures ReceivesIn(cycles[k], st, ch, x) {
      EdgesKeptAt(script, begin, cycles, end, x, [], {x}, k);
      hide Story, LeavesAlone, HasEdges, ReceiverReply;
    }
    assert StartOf(cycles[0]) == begin;
    hide Story, IsEngineRun, ReceivesIn, CastAsReceiver, LeavesAlone;
  }

  /** Whatever else the script does, after every cycle of every run exactly the groups whose time has come have
      been shown to the graph, each at its own time. */
  lemma {:induction false} ReceiverInRun<S(!new), T(!new)>(script: Script<S>, begin: Moment<S>, cycles: seq<Cycle<S>>,
                                                           end: Moment<S>, st: Inbox<S, T>,
                                                           ch: HistoricalChannel.Channel<T>, start: nat, x: nat,
                                                           groups: seq<HistoricalChannel.Group<T>>, k: nat)
    requires Story(script, begin, cycles, end) && ReceiverSetUp(script, begin, st, ch, start, x) && k < |cycles|
    requires HistoricalDelivery.Carries(ch, groups, start)
    ensures AllPresent(cycles, x)
    ensures Deliveries(cycles, st, x)[k + 1].emitted ==
            groups[..HistoricalChannel.DueGroups(groups, Time(cycles[k].step))]
  {
    hide *;
    ReceiverPlaysPart(script, begin, cycles, end, st, ch, start, x);
    ReceiverTakesPart(cycles, st, ch, start, x);
    HistoricalDelivery.EmittedIsWhatIsDue(ch, groups, start, x, StepsOf(cycles), Deliveries(cycles, st, x), k);
  }

  /** And no run is ever halted by the receiver: when a node of the next cycle fails, it is another one. */
  lemma {:induction false} ReceiverNeverFails<S(!new), T(!new)>(script: Script<S>, begin: Moment<S>,
                                                                cycles: seq<Cycle<S>>, end: Moment<S>, next: Cycle<S>,
                                                                st: Inbox<S, T>, ch: HistoricalChannel.Channel<T>,
                                                                start: nat, x: nat,
                                                                groups: seq<HistoricalChannel.Group<T>>)
    requires Story(script, begin, cycles, end) && ReceiverSetUp(script, begin, st, ch, start, x)
    requires HistoricalDelivery.Carries(ch, groups, start)
    requires StartOf(next) == end && Staged(script, |cycles|, next)
    ensures x < |next.scene.nodes| && !Eval(next.scene, x).failed
  {
    EdgesKept(script, begin, cycles, end, x, [], {x});
    assert HasEdges(next.scene.nodes, x, []);
    assert ReceivesIn(next, st, ch, x) by {
      hide Story, LeavesAlone, HasEdges, ReceiverReply;
    }
    var d, n := ReceiverInStep(script, begin, cycles, end, st, ch, start, x, groups);
    StoryClock(script, begin, cycles, end);
    hide Story, ReceivesIn, ReceiverSetUp, Delivered, HistoricalDelivery.DeliveryStep, HistoricalDelivery.Carries;
    NextIsInStep(next, st, ch, start, x, groups, d, n);
  }

  /** Where the delivery stands at the end of a story. */
  lemma {:induction false} ReceiverInStep<S(!new), T(!new)>(script: Script<S>, begin: Moment<S>, cycles: seq<Cycle<S>>,
                                                            end: Moment<S>, st: Inbox<S, T>,
                                                            ch: HistoricalChannel.Channel<T>, start: nat, x: nat,
                                                            groups: seq<HistoricalChannel.Group<T>>)
    returns (d: HistoricalDelivery.Delivery<T>, n: nat)
    requires Story(script, begin, cycles, end) && ReceiverSetUp(script, begin, st, ch, start, x)
    requires HistoricalDelivery.Carries(ch, groups, start)
    ensures HistoricalDelivery.InStep(groups, x, end.clock, d, n) && x < |end.values| && d.rx == st.rx(end.values[x])
  {
    if cycles == [] {
      d, n := HistoricalDelivery.Delivery(HistoricalChannel.Receiver(0, 0, false, None, []), [], false), 0;
      assert Pending(begin.clock, x, start);
      HistoricalDelivery.SetupPutsInStep(groups, start, x, begin.clock);
    } else {
      var k := |cycles| - 1;
      ReceiverPlaysPart(script, begin, cycles, end, st, ch, start, x);
      ReceiverTakesPart(cycles, st, ch, start, x);
      DeliveriesFlow(cycles, st, ch, start, x, k);
      LastLeads(script, begin, cycles, end);
      d := Deliveries(cycles, st, x)[k + 1];
      n := HistoricalDelivery.InStepAfter(ch, groups, start, x, StepsOf(cycles), Deliveries(cycles, st, x), k);
      hide Story, ReceiverSetUp, Deliveries, Rewired, EditsFail, HistoricalDelivery.InStep, HistoricalDelivery.Carries,
           HistoricalDelivery.IsDeliveryRun, ReceivesThroughout, WellFormed, Eval;
    }
  }

  lemma {:induction false} StoryClock<S(!new)>(script: Script<S>, begin: Moment<S>, cycles: seq<Cycle<S>>,
                                               end: Moment<S>)
    requires Story(script, begin, cycles, end) && begin.clock.unstarted && begin.clock.time == 0
    ensures end.clock.unstarted ==> end.clock.time == 0
  {
    if cycles != [] {
      LastLeads(script, begin, cycles, end);
      assert Staged(script, |cycles| - 1, cycles[|cycles| - 1]);
      hide Story, Rewired, EditsFail, Carries, WellFormed;
    }
  }

  lemma {:induction false} NextIsInStep<S(!new), T(!new)>(c: Cycle<S>, st: Inbox<S, T>,
                                                          ch: HistoricalChannel.Channel<T>, start: nat, x: nat,
                                                          groups: seq<HistoricalChannel.Group<T>>,
                                                          d: HistoricalDelivery.Delivery<T>, n: nat)
    requires Present(c, x) && c.scene.dirty == c.step.dirty && ReceivesIn(c, st, ch, x)
    requires Advances(c.step.before, c.step.after, c.step.dirty) &&
             (c.step.before.unstarted ==> c.step.before.time == 0)
    requires HistoricalDelivery.Carries(ch, groups, start)
    requires HistoricalDelivery.InStep(groups, x, c.step.before, d, n) && d.rx == st.rx(c.scene.init[x])
    ensures !Eval(c.scene, x).failed
  {
    var c' := c.(step := c.step.(requests := set q | q in Eval(c.scene, x).requests :: Callback(q.0, q.1)));
    assert ReceivesIn(c', st, ch, x);
    forall t: nat | (x, t) in Eval(c.scene, x).requests ensures Callback(x, t) in c'.step.requests {
      var q := (x, t);
      assert q in Eval(c.scene, x).requests && Callback(q.0, q.1) == Callback(x, t);
    }
    hide Delivered, ReceivesIn, WellFormed, Eval, Advances, HistoricalDelivery.Carries, HistoricalDelivery.DeliveryStep;
    CycleDelivers(c', st, ch, x, d);
    HistoricalDelivery.StaysInStep(ch, groups, start, x, c'.step, d, Delivered(c', st, x, d), n);
  }

  // ----- A feedback stream in a run -----

  /** In this cycle stream `x` drains its queue if it runs, between what is sent before and after it; and whoever
      sends asks for the stream to be woken one tick later. */
  ghost predicate FeedsBackIn<S(!new), V(!new)>(c: Cycle<S>, x: nat, turn: Feedbacks.Turn<V>, q: seq<Entry<V>>,
                                                q': seq<Entry<V>>, out: Option<V>) {
    && Present(c, x) && (q', out) == Feedbacks.TurnOf(Eval(c.scene, x).ran, q, turn, Time(c.step))
    && (Feedbacks.Sent(turn) != [] ==>
          exists n: nat :: n < |c.scene.nodes| && (x, Time(c.step) + 1) in Eval(c.scene, n).requests)
  }

  ghost predicate FeedsBack<S(!new), V(!new)>(cycles: seq<Cycle<S>>, x: nat, turns: seq<Feedbacks.Turn<V>>,
                                              queues: seq<seq<Entry<V>>>, outs: seq<Option<V>>) {
    && |turns| == |outs| == |cycles| && |queues| == |cycles| + 1 && queues[0] == []
    && forall j, k :: 0 <= j < |cycles| && k == j + 1 ==>
         FeedsBackIn(cycles[j], x, turns[j], queues[j], queues[k], outs[j])
  }

  lemma {:induction false} CycleFeedsBack<S(!new), V(!new)>(c: Cycle<S>, x: nat, turn: Feedbacks.Turn<V>,
                                                            q: seq<Entry<V>>, q': seq<Entry<V>>, out: Option<V>)
    requires Plays(c) && HasEdges(c.scene.nodes, x, []) && FeedsBackIn(c, x, turn, q, q', out)
    ensures Feedbacks.FeedbackStep(c.step, x, turn, q, q', out)
  {
    RunsWhenWoken(c.scene, x);
    if Feedbacks.Sent(turn) != [] {
      var n: nat :| n < |c.scene.nodes| && (x, Time(c.step) + 1) in Eval(c.scene, n).requests;
      var e := Callback(x, Time(c.step) + 1);
      assert (e.node, e.time) in Eval(c.scene, n).requests;
    }
  }

  /** Whatever else the script does, a feedback stream it leaves alone shows in every cycle exactly what was sent
      in the cycle before. */
  lemma {:induction false} FeedbackInRun<S(!new), V(!new)>(script: Script<S>, start: Moment<S>, cycles: seq<Cycle<S>>,
                                                           end: Moment<S>, x: nat, turns: seq<Feedbacks.Turn<V>>,
                                                           queues: seq<seq<Entry<V>>>, outs: seq<Option<V>>, j: nat)
    requires Story(script, start, cycles, end) && start.clock.unstarted && start.clock.time == 0
    requires LeavesAlone(script, x, {x}) && HasEdges(start.nodes, x, [])
    requires FeedsBack(cycles, x, turns, queues, outs) && j < |cycles|
    ensures Feedbacks.FeedbackRun(StepsOf(cycles), x, turns, queues, outs)
    ensures outs[j] == Feedbacks.Expected(turns, j)
  {
    var steps := StepsOf(cycles);
    StoryIsEngineRun(script, start, cycles, end);
    forall i, k | 0 <= i < |cycles| && k == i + 1
      ensures Feedbacks.FeedbackStep(steps[i], x, turns[i], queues[i], queues[k], outs[i])
    {
      EdgesKeptAt(script, start, cycles, end, x, [], {x}, i);
      assert Plays(cycles[i]);
      hide Story, LeavesAlone, HasEdges, Plays, FeedsBackIn, Feedbacks.FeedbackStep, IsEngineRun;
      CycleFeedsBack(cycles[i], x, turns[i], queues[i], queues[k], outs[i]);
    }
    hide Story, LeavesAlone, HasEdges, Plays, FeedsBackIn, Feedbacks.FeedbackStep;
    Feedbacks.FeedbackExact(steps, x, turns, queues, outs, j);
  }
}
