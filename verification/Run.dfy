/** Graph and scheduler run together: the clock marks, the graph cycles, the nodes' requests go back to the
    clock, and the edits of the cycle are applied before the next one. */
module EngineRuns {
  import opened TimeQueues
  import opened Clocks
  import opened GraphModel
  import opened Evaluation
  import opened Equations
  import opened Wiring
  import opened Edits
  import opened Dispatch
  import opened Additions
  import opened Removal
  import opened Engine
  import RunLoop

  /** How the nodes behave in the k-th cycle, given the time it runs at and the graph at its start. */
  type Company<!S> = (nat, nat, seq<NodeData>) -> Behaviour<S>

  /** A node marks only nodes downstream of it, and asks for callbacks of registered nodes only. */
  ghost predicate Behaves<S(!new)>(nodes: seq<NodeData>, beh: Behaviour<S>) {
    && (forall i: nat, s, seen, m :: Live(nodes, i) && beh(i, s, seen).Reply? && m in beh(i, s, seen).marks ==>
          Feeds(nodes, i, m))
    && (forall i: nat, s, seen, q :: Live(nodes, i) && beh(i, s, seen).Reply? && q in beh(i, s, seen).requests ==>
          q.0 < |nodes|)
  }

  ghost predicate CompanyBehaves<S(!new)>(company: Company<S>) {
    forall k: nat, t: nat, nodes: seq<NodeData> {:trigger company(k, t, nodes)} :: Structure(nodes) ==>
      Behaves(nodes, company(k, t, nodes))
  }

  /** Every callback and every always-on node is registered. */
  ghost predicate Registered(c: Clock, count: nat) {
    (forall e :: e in c.scheduled ==> e.node < count) && (forall n :: n in c.always ==> n < count)
  }

  /** What a run is given: the declared nodes, how they behave, what is edited after each cycle, which nodes stop
      when removed, the states of nodes added on the way, and the notifications that come in during each cycle. */
  datatype Script<!S> = Script(decl: Declaration, company: Company<S>, plan: Plan, stops: Id -> bool,
                               newborn: nat -> S, notified: nat -> seq<nat>)

  /** The engine between two cycles. */
  datatype Moment<!S> = Moment(nodes: seq<NodeData>, index: map<Id, nat>, values: seq<S>, clock: Clock,
                               ready: seq<nat>)

  /** One engine cycle: what the clock did, and what the graph and its nodes were like. */
  datatype Cycle<!S> = Cycle(step: Step, scene: Scene<S>, index: map<Id, nat>)

  /** Where a cycle starts; none starts with a notification waiting. */
  function StartOf<S>(c: Cycle<S>): Moment<S> {
    Moment(c.scene.nodes, c.index, c.scene.init, c.step.before, [])
  }

  /** The clock starts the k-th cycle, and the nodes are to behave as they do at that time. */
  ghost predicate Staged<S(!new)>(script: Script<S>, k: nat, c: Cycle<S>) {
    && Advances(c.step.before, c.step.after, c.step.dirty) && c.step.newAlways == {}
    && WellFormed(c.scene) && c.scene.dirty == c.step.dirty
    && c.scene.beh == script.company(k, Time(c.step), c.scene.nodes)
  }

  /** The clock marks the scene, every node has its reference outcome without failing, and what the clock gets
      back is exactly what the nodes that ran asked for. */
  ghost predicate Plays<S(!new)>(c: Cycle<S>) {
    && WellFormed(c.scene) && c.scene.dirty == c.step.dirty
    && (forall n: nat :: n < |c.scene.nodes| ==> !Eval(c.scene, n).failed)
    && (forall e :: e in c.step.requests <==>
          exists n: nat :: n < |c.scene.nodes| && (e.node, e.time) in Eval(c.scene, n).requests)
  }

  /** The requests of all the nodes that ran. */
  ghost predicate AskedFor<S(!new)>(sc: Scene<S>, requests: set<(nat, nat)>)
    requires WellFormed(sc)
  {
    forall q :: q in requests <==> exists n: nat :: n < |sc.nodes| && q in Eval(sc, n).requests
  }

  function StepsOf<S>(cycles: seq<Cycle<S>>): (r: seq<Step>)
    ensures |r| == |cycles| && forall k :: 0 <= k < |r| ==> r[k] == cycles[k].step
  {
    if cycles == [] then [] else StepsOf(cycles[..|cycles| - 1]) + [cycles[|cycles| - 1].step]
  }

  /** The states are those the cycle left, with those of nodes added since behind them. */
  ghost predicate Carries<S(!new)>(c: Cycle<S>, values: seq<S>) {
    && WellFormed(c.scene) && |c.scene.nodes| <= |values|
    && forall n: nat :: n < |c.scene.nodes| ==> values[n] == Eval(c.scene, n).state
  }

  ghost predicate Threaded<S(!new)>(cycles: seq<Cycle<S>>, values: seq<S>) {
    && (forall j, k :: 0 <= j < |cycles| - 1 && k == j + 1 ==> Carries(cycles[j], cycles[k].scene.init))
    && (cycles != [] ==> Carries(cycles[|cycles| - 1], values))
  }

  /** A run of the whole engine: a run of the clock, every cycle of which plays, starting from the states the
      cycle before it left. */
  ghost predicate IsEngineRun<S(!new)>(cycles: seq<Cycle<S>>) {
    && IsRun(StepsOf(cycles)) && (forall k :: 0 <= k < |cycles| ==> Plays(cycles[k]))
    && exists values :: Threaded(cycles, values)
  }

  // ----- What a run is -----

  function RoundOf<S>(script: Script<S>, k: nat, c: Cycle<S>): Round {
    script.plan(k, c.scene.nodes, c.index)
  }

  /** A live node the round removes does not stop, or what a node to be added needs is cyclic. */
  ghost predicate EditsFail<S(!new)>(script: Script<S>, k: nat, c: Cycle<S>) {
    || StopFails(c.scene.nodes, RoundOf(script, k, c).removals, script.stops)
    || AdditionFails(script.decl, RoundOf(script, k, c).additions)
  }

  /** The graph once the round is applied: its removals retired, then its additions wired. */
  ghost predicate Rewired(decl: Declaration, nodes: seq<NodeData>, index: map<Id, nat>, round: Round,
                          nodes': seq<NodeData>, index': map<Id, nat>) {
    && (forall a :: a in round.additions ==> a.node in index')
    && exists middle :: Retired(nodes, middle, round.removals)
                        && Applied(decl, middle, index, nodes', index', round.additions)
  }

  /** From the k-th cycle to the moment after it: its edits are applied, every node keeps the state the cycle left
      it, new nodes get theirs, and the clock has the cycle's requests. */
  ghost predicate Leads<S(!new)>(script: Script<S>, k: nat, c: Cycle<S>, m: Moment<S>) {
    && !EditsFail(script, k, c)
    && Rewired(script.decl, c.scene.nodes, c.index, RoundOf(script, k, c), m.nodes, m.index)
    && Carries(c, m.values) && |m.values| == |m.nodes|
    && (forall i :: |c.scene.nodes| <= i < |m.nodes| ==> m.values[i] == script.newborn(i))
    && m.clock == AfterCycle(c.step) && m.ready == script.notified(k)
  }

  /** The script is followed from `start` to `end`: the clock starts each cycle, which plays without a failure,
      and each leads to the next. */
  ghost predicate Story<S(!new)>(script: Script<S>, start: Moment<S>, cycles: seq<Cycle<S>>, end: Moment<S>) {
    && (forall k :: 0 <= k < |cycles| ==> Staged(script, k, cycles[k]) && Plays(cycles[k]))
    && (forall j, k :: 0 <= j < |cycles| - 1 && k == j + 1 ==> Leads(script, j, cycles[j], StartOf(cycles[k])))
    && if cycles == [] then end == start
       else StartOf(cycles[0]) == start && Leads(script, |cycles| - 1, cycles[|cycles| - 1], end)
  }

  /** Why a run is over. */
  datatype Ending = LimitReached | NothingLeft | Notified | NodeFailed | EditFailed

  /** The k-th cycle does not lead on from moment `m`: nothing is scheduled, a notification waits, a node of the
      cycle fails, or an edit after it does. */
  ghost predicate Halts<S(!new)>(script: Script<S>, k: nat, m: Moment<S>, c: Cycle<S>, ending: Ending) {
    match ending
    case LimitReached => false
    case NothingLeft => m.ready == [] && m.clock.scheduled == {} && m.clock.always == {}
    case Notified => m.ready != []
    case NodeFailed =>
      && StartOf(c) == m && Staged(script, k, c)
      && exists n: nat :: n < |c.scene.nodes| && Eval(c.scene, n).failed
    case EditFailed => StartOf(c) == m && Staged(script, k, c) && Plays(c) && EditsFail(script, k, c)
  }

  lemma {:induction false} StoryGrows<S(!new)>(script: Script<S>, start: Moment<S>, cycles: seq<Cycle<S>>,
                                               next: Cycle<S>, end: Moment<S>)
    requires Story(script, start, cycles, StartOf(next)) && Staged(script, |cycles|, next) && Plays(next)
    requires Leads(script, |cycles|, next, end)
    ensures Story(script, start, cycles + [next], end)
  {
    hide Staged, Plays, Leads, StartOf;
  }

  /** A story is a run of the clock whose cycles all play, each from the states the one before it left. */
  lemma {:induction false} StoryIsEngineRun<S(!new)>(script: Script<S>, start: Moment<S>, cycles: seq<Cycle<S>>,
                                                     end: Moment<S>)
    requires Story(script, start, cycles, end) && start.clock.unstarted && start.clock.time == 0
    ensures IsEngineRun(cycles) && RunLoop.Reaches(StepsOf(cycles), start.clock, end.clock)
  {
    var steps := StepsOf(cycles);
    forall k | 0 <= k < |cycles| ensures Advances(steps[k].before, steps[k].after, steps[k].dirty) {
      assert Staged(script, k, cycles[k]);
      hide WellFormed, Advances;
    }
    forall j, k | 0 <= j < |cycles| - 1 && k == j + 1
      ensures Follows(steps[j], steps[k]) && Carries(cycles[j], cycles[k].scene.init)
    {
      assert Leads(script, j, cycles[j], StartOf(cycles[k]));
      hide Carries, EditsFail, Rewired;
    }
    assert Threaded(cycles, end.values) by {
      hide Staged, Plays, Carries;
    }
    hide Plays, Staged, Leads, Threaded, Advances;
  }

  method SetToSeq(s: set<nat>) returns (r: seq<nat>)
    ensures forall x :: x in r <==> x in s
  {
    r := [];
    var rest := s;
    while rest != {}
      invariant forall x :: x in s <==> x in r || x in rest
      decreases rest
    {
      var x :| x in rest;
      r, rest := r + [x], rest - {x};
    }
  }

  method CallbacksFor(s: set<(nat, nat)>) returns (r: seq<Callback>)
    ensures forall c :: c in r <==> (c.node, c.time) in s
  {
    r := [];
    var rest := s;
    while rest != {}
      invariant forall c: Callback :: (c.node, c.time) in s <==> c in r || (c.node, c.time) in rest
      decreases rest
    {
      var q :| q in rest;
      ghost var before := rest;
      r, rest := r + [Callback(q.0, q.1)], rest - {q};
      assert forall c: Callback :: (c.node, c.time) in before <==> c == Callback(q.0, q.1) || (c.node, c.time) in rest;
    }
  }

  lemma CompanyCast<S(!new)>(company: Company<S>, k: nat, t: nat, nodes: seq<NodeData>)
    requires CompanyBehaves(company) && Structure(nodes)
    ensures Behaves(nodes, company(k, t, nodes))
  {
  }

  lemma SceneIsWellFormed<S(!new)>(sc: Scene<S>)
    requires Structure(sc.nodes) && |sc.init| == |sc.nodes| && Behaves(sc.nodes, sc.beh)
    ensures WellFormed(sc)
  {
  }

  lemma RequestsRegistered<S(!new)>(sc: Scene<S>, n: nat, q: (nat, nat))
    requires WellFormed(sc) && Behaves(sc.nodes, sc.beh) && n < |sc.nodes| && q in Eval(sc, n).requests
    ensures q.0 < |sc.nodes|
  {
  }

  lemma DirtyRegistered(c: Clock, c': Clock, dirty: set<nat>, count: nat)
    requires Registered(c, count) && Advances(c, c', dirty)
    ensures (forall n :: n in dirty ==> n < count) && Registered(c', count)
  {
  }

  lemma {:induction false} NextRegistered<S(!new)>(c: Clock, next: Cycle<S>)
    requires Registered(c, |next.scene.nodes|) && Plays(next) && Behaves(next.scene.nodes, next.scene.beh)
    requires next.step.before == c && Advances(next.step.before, next.step.after, next.step.dirty)
    requires next.step.newAlways == {}
    ensures Registered(AfterCycle(next.step), |next.scene.nodes|)
  {
    var count := |next.scene.nodes|;
    DirtyRegistered(c, next.step.after, next.step.dirty, count);
    forall e | e in next.step.requests ensures e.node < count {
      var n: nat :| n < count && (e.node, e.time) in Eval(next.scene, n).requests;
      RequestsRegistered(next.scene, n, (e.node, e.time));
    }
  }

  method Extended<S>(values: seq<S>, count: nat, newborn: nat -> S) returns (values': seq<S>)
    requires |values| <= count
    ensures |values'| == count && values <= values'
    ensures forall i :: |values| <= i < count ==> values'[i] == newborn(i)
  {
    values' := values;
    while |values'| < count
      invariant |values| <= |values'| <= count && values <= values'
      invariant forall i :: |values| <= i < |values'| ==> values'[i] == newborn(i)
      decreases count - |values'|
    {
      values' := values' + [newborn(|values'|)];
    }
  }

  // ----- The engine -----

  ghost function Now<S>(graph: Graph, scheduler: RunLoop.Scheduler, values: seq<S>): Moment<S>
    reads graph, scheduler, scheduler.scheduled
  {
    Moment(graph.nodes, graph.index, values, scheduler.View(), scheduler.ready)
  }

  /** What holds between any two cycles: the graph is sound, every node has a state, and everything scheduled is
      registered. */
  ghost predicate Steady<S>(decl: Declaration, graph: Graph, scheduler: RunLoop.Scheduler, values: seq<S>)
    reads graph, scheduler, scheduler.scheduled
  {
    graph.Sound(decl) && scheduler.Valid() && |values| == |graph.nodes| && Registered(scheduler.View(), |graph.nodes|)
  }

  ghost predicate Outcomes<S(!new)>(sc: Scene<S>, values: seq<S>) {
    WellFormed(sc) && |values| == |sc.nodes| && forall n: nat :: n < |sc.nodes| ==> values[n] == Eval(sc, n).state
  }

  /** A cycle of the whole engine, up to the edits: either it is played as the script says, or it halts. */
  method RunCycle<S(!new)>(script: Script<S>, k: nat, graph: Graph, scheduler: RunLoop.Scheduler, values: seq<S>)
    returns (halt: Option<Ending>, values': seq<S>, ghost cycle: Cycle<S>)
    requires Steady(script.decl, graph, scheduler, values) && CompanyBehaves(script.company)
    modifies graph`ticked, graph`dirty, graph`buckets
    modifies scheduler`time, scheduler`firstCycle, scheduler`ready, scheduler.scheduled
    ensures halt.None? ==>
              && Steady(script.decl, graph, scheduler, values') && StartOf(cycle) == old(Now(graph, scheduler, values))
              && Staged(script, k, cycle) && Plays(cycle) && Outcomes(cycle.scene, values')
              && scheduler.View() == AfterCycle(cycle.step) && scheduler.ready == script.notified(k)
    ensures halt.Some? ==> !halt.value.EditFailed? &&
                           Halts(script, k, old(Now(graph, scheduler, values)), cycle, halt.value)
    ensures halt.Some? && !halt.value.NodeFailed? ==>
              && Steady(script.decl, graph, scheduler, values) && values' == values
              && Now(graph, scheduler, values) == old(Now(graph, scheduler, values))
  {
    values' := values;
    ghost var before := scheduler.View();
    cycle := Cycle(Step(before, before, {}, {}, {}), Scene(graph.nodes, script.company(k, 0, graph.nodes), values, {}),
                   graph.index);
    hide Advances, Registered, Staged, Plays, Outcomes, CompanyBehaves;
    var ok, progressed, dirty := scheduler.ProcessCallbacksHistorical();
    if !ok {
      return Some(Notified), values', cycle;
    }
    if !progressed {
      return Some(NothingLeft), values', cycle;
    }
    halt, values', cycle := PlayCycle(script, k, graph, scheduler, values, dirty, before);
  }

  /** The clock has started the cycle: the graph plays it, and the requests go back to the clock. */
  method PlayCycle<S(!new)>(script: Script<S>, k: nat, graph: Graph, scheduler: RunLoop.Scheduler, values: seq<S>,
                            dirty: set<nat>, ghost before: Clock)
    returns (halt: Option<Ending>, values': seq<S>, ghost cycle: Cycle<S>)
    requires graph.Sound(script.decl) && scheduler.Valid() && |values| == |graph.nodes| && scheduler.ready == []
    requires Registered(before, |graph.nodes|) && Advances(before, scheduler.View(), dirty)
    requires CompanyBehaves(script.company)
    modifies graph`ticked, graph`dirty, graph`buckets, scheduler`ready, scheduler.scheduled
    ensures StartOf(cycle) == Moment(graph.nodes, graph.index, values, before, []) && Staged(script, k, cycle)
    ensures halt.None? ==>
              && Steady(script.decl, graph, scheduler, values') && Plays(cycle) && Outcomes(cycle.scene, values')
              && scheduler.View() == AfterCycle(cycle.step) && scheduler.ready == script.notified(k)
    ensures halt.Some? ==> halt.value.NodeFailed? && Halts(script, k, StartOf(cycle), cycle, NodeFailed)
  {
    hide WellFormed, Behaves, Advances, Eval, Registered, Plays, Structure, Performs, Equations.Fails, CompanyBehaves;
    values' := values;
    var beh := script.company(k, scheduler.time, graph.nodes);
    DirtyRegistered(before, scheduler.View(), dirty, |graph.nodes|);
    var due := SetToSeq(dirty);
    ghost var sc, after := Scene(graph.nodes, beh, values, dirty), scheduler.View();
    CompanyCast(script.company, k, scheduler.time, graph.nodes);
    SceneIsWellFormed(sc);
    cycle := Cycle(Step(before, after, dirty, {}, {}), sc, graph.index);
    var r, log, requests := graph.MarkAndCycle(script.decl, due, sc, beh, values);
    if r.Err? {
      return Some(NodeFailed), values', cycle;
    }
    values' := r.value;
    assert AskedFor(sc, requests) && Outcomes(sc, values');
    hide AskedFor, Outcomes;
    cycle := GiveBack(script, k, scheduler, requests, cycle);
    halt := None;
  }

  /** What the nodes asked for goes to the clock. */
  method GiveBack<S(!new)>(script: Script<S>, k: nat, scheduler: RunLoop.Scheduler, requests: set<(nat, nat)>,
                           ghost cycle: Cycle<S>)
    returns (ghost cycle': Cycle<S>)
    requires scheduler.Valid() && Staged(script, k, cycle) && scheduler.View() == cycle.step.after
    requires Behaves(cycle.scene.nodes, cycle.scene.beh) && Registered(cycle.step.before, |cycle.scene.nodes|)
    requires forall n: nat :: n < |cycle.scene.nodes| ==> !Eval(cycle.scene, n).failed
    requires AskedFor(cycle.scene, requests)
    modifies scheduler`ready, scheduler.scheduled
    ensures scheduler.Valid() && Registered(scheduler.View(), |cycle.scene.nodes|)
    ensures StartOf(cycle') == StartOf(cycle) && cycle'.scene == cycle.scene && Staged(script, k, cycle')
    ensures Plays(cycle') && scheduler.View() == AfterCycle(cycle'.step) && scheduler.ready == script.notified(k)
  {
    var callbacks := CallbacksFor(requests);
    cycle' := cycle.(step := cycle.step.(requests := RunLoop.CallbacksOf(callbacks)));
    PlaysNow(cycle', requests);
    NextRegistered(cycle'.step.before, cycle');
    hide Plays, WellFormed, Eval, Behaves, Advances, AskedFor, Registered;
    scheduler.AddCallbacks(callbacks);
    assert cycle.step.after.always + {} == cycle.step.after.always;
    scheduler.ready := script.notified(k);
  }

  lemma {:induction false} PlaysNow<S(!new)>(c: Cycle<S>, requests: set<(nat, nat)>)
    requires WellFormed(c.scene) && c.scene.dirty == c.step.dirty
    requires forall n: nat :: n < |c.scene.nodes| ==> !Eval(c.scene, n).failed
    requires AskedFor(c.scene, requests)
    requires forall e :: e in c.step.requests <==> (e.node, e.time) in requests
    ensures Plays(c)
  {
    hide WellFormed, Eval;
  }

  /** The edits of one cycle; new nodes get a state. */
  method EditRound<S(!new)>(script: Script<S>, k: nat, graph: Graph, scheduler: RunLoop.Scheduler, values: seq<S>,
                            ghost cycle: Cycle<S>, ghost universe: set<Id>)
    returns (ok: bool, values': seq<S>)
    requires Steady(script.decl, graph, scheduler, values) && ClosedUnder(script.decl, universe)
    requires PlanAllowed(script.decl, script.plan, universe)
    requires graph.nodes == cycle.scene.nodes && graph.index == cycle.index && Outcomes(cycle.scene, values)
    requires scheduler.View() == AfterCycle(cycle.step) && scheduler.ready == script.notified(k)
    modifies graph`nodes, graph`index, graph`ticked, graph`dirty, graph`buckets
    ensures ok <==> !EditsFail(script, k, cycle)
    ensures ok ==> Steady(script.decl, graph, scheduler, values') &&
                   Leads(script, k, cycle, Now(graph, scheduler, values'))
  {
    hide RetiredAt, Plays, Structure, Indexed, Topological, WellFormed, Eval, EditsAllowed, NoNewCycle, ClosedUnder;
    values' := values;
    var round := script.plan(k, graph.nodes, graph.index);
    assert RoundAllowed(script.decl, graph.nodes, graph.index, round, universe);
    ghost var middle;
    var r;
    r, middle := graph.ApplyEdits(script.decl, round.removals, script.stops, round.additions, universe);
    ok := r.Ok?;
    if ok {
      assert Rewired(script.decl, cycle.scene.nodes, cycle.index, round, graph.nodes, graph.index);
      assert |values| <= |graph.nodes|;
      values' := Extended(values, |graph.nodes|, script.newborn);
    }
  }

  /** One turn of the run: a cycle, and the edits it leaves to do. */
  method Turn<S(!new)>(script: Script<S>, k: nat, graph: Graph, scheduler: RunLoop.Scheduler, values: seq<S>,
                       ghost universe: set<Id>)
    returns (halt: Option<Ending>, values': seq<S>, ghost cycle: Cycle<S>)
    requires Steady(script.decl, graph, scheduler, values) && CompanyBehaves(script.company)
    requires ClosedUnder(script.decl, universe) && PlanAllowed(script.decl, script.plan, universe)
    modifies graph`nodes, graph`index, graph`ticked, graph`dirty, graph`buckets
    modifies scheduler`time, scheduler`firstCycle, scheduler`ready, scheduler.scheduled
    ensures halt.None? ==>
              && Steady(script.decl, graph, scheduler, values') && StartOf(cycle) == old(Now(graph, scheduler, values))
              && Staged(script, k, cycle) && Plays(cycle) && Leads(script, k, cycle, Now(graph, scheduler, values'))
    ensures halt.Some? ==> Halts(script, k, old(Now(graph, scheduler, values)), cycle, halt.value)
    ensures halt.Some? && (halt.value.NothingLeft? || halt.value.Notified?) ==>
              && Steady(script.decl, graph, scheduler, values')
              && Now(graph, scheduler, values') == old(Now(graph, scheduler, values))
  {
    hide CompanyBehaves, PlanAllowed, ClosedUnder, Staged, Plays, Outcomes, EditsFail, Registered;
    halt, values', cycle := RunCycle(script, k, graph, scheduler, values);
    if halt.None? {
      var ok;
      ok, values' := EditRound(script, k, graph, scheduler, values', cycle, universe);
      halt := if ok then None else Some(EditFailed);
    }
  }

  /** The run: cycles and edits in turn, until `limit` cycles have run, nothing is left to do, or something
      fails.  The cycles follow the script from the graph and the clock as they are found to the moment `reached`,
      which is the present one unless the cycle after it failed; the way it ended is what happened there. */
  method Run<S(!new)>(script: Script<S>, graph: Graph, scheduler: RunLoop.Scheduler, init: seq<S>, limit: nat,
                      ghost universe: set<Id>)
    returns (ending: Ending, values: seq<S>, ghost cycles: seq<Cycle<S>>, ghost reached: Moment<S>,
             ghost last: Cycle<S>)
    requires Steady(script.decl, graph, scheduler, init) && scheduler.firstCycle && scheduler.time == 0
    requires CompanyBehaves(script.company)
    requires ClosedUnder(script.decl, universe) && PlanAllowed(script.decl, script.plan, universe)
    modifies graph`nodes, graph`index, graph`ticked, graph`dirty, graph`buckets
    modifies scheduler`time, scheduler`firstCycle, scheduler`ready, scheduler.scheduled
    ensures Story(script, old(Now(graph, scheduler, init)), cycles, reached) && IsEngineRun(cycles)
    ensures if ending.LimitReached? then |cycles| == limit
            else |cycles| < limit && Halts(script, |cycles|, reached, last, ending)
    ensures !ending.NodeFailed? && !ending.EditFailed? ==>
              Steady(script.decl, graph, scheduler, values) && reached == Now(graph, scheduler, values)
  {
    values, cycles, ending := init, [], LimitReached;
    ghost var start := Now(graph, scheduler, init);
    reached := start;
    last := Cycle(Step(start.clock, start.clock, {}, {}, {}),
      Scene(start.nodes, script.company(0, 0, start.nodes), init, {}),
                  start.index);
    assert Story(script, start, cycles, reached);
    hide CompanyBehaves, PlanAllowed, ClosedUnder, Staged, Plays, Leads, Halts, Story, Steady, IsEngineRun, StartOf;
    for k := 0 to limit
      invariant Steady(script.decl, graph, scheduler, values) && |cycles| == k
      invariant reached == Now(graph, scheduler, values) && Story(script, start, cycles, reached)
    {
      var halt;
      halt, values, last := Turn(script, k, graph, scheduler, values, universe);
      if halt.Some? {
        ending := halt.value;
        break;
      }
      reached := Now(graph, scheduler, values);
      StoryGrows(script, start, cycles, last, reached);
      cycles := cycles + [last];
    }
    StoryIsEngineRun(script, start, cycles, reached);
  }
}
