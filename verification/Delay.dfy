/** `delay` and `delay_with_reset`: the nodes, and what they emit over a whole historical run. */
module Delays {
  import opened TimeQueues
  import opened Clocks

  datatype DelayState<V> = DelayState(value: V, queue: seq<Entry<V>>, initialized: bool)

  /** What the node finds in a cycle: its upstream's value, whether the upstream ticked, whether the reset
      trigger ticked. */
  datatype Input<V> = Input(current: V, ticked: bool, reset: bool)

  /** The new state, whether the node ticks, and the times it wants to be woken at. */
  datatype Effect<V> = Effect(state: DelayState<V>, ticked: bool, wakeups: set<nat>)

  function Enqueue<V(==,!new)>(delay: nat, st: DelayState<V>, now: nat, v: V): DelayState<V> {
    DelayState(if st.initialized then st.value else v, Pushed(st.queue, Entry(v, now + delay)), true)
  }

  function Drain<V>(st: DelayState<V>, now: nat): (DelayState<V>, bool) {
    var n := DueCount(st.queue, now);
    if n == 0 then (st, false)
    else (st.(value := st.queue[n - 1].value, queue := st.queue[n..]), true)
  }

  function DelayCycle<V(==,!new)>(delay: nat, st: DelayState<V>, now: nat, inp: Input<V>): Effect<V> {
    if inp.reset then Effect(DelayState(inp.current, [], true), true, {})
    else if delay == 0 then Effect(st.(value := inp.current), true, {})
    else
      var st1 := if inp.ticked then Enqueue(delay, st, now, inp.current) else st;
      var (st2, ticked) := Drain(st1, now);
      Effect(st2, ticked, if inp.ticked then {now + delay} else {})
  }

  /** The common part of the two nodes. */
  class DelayStream<V(==,!new)> {
    var value: V
    var initialized: bool
    const queue: TimeQueue<V>
    const delay: nat

    ghost predicate Valid()
      reads this, queue
    {
      queue.Valid()
    }

    ghost function State(): DelayState<V>
      reads this, queue
    {
      DelayState(value, queue.entries, initialized)
    }

    constructor (default: V, delay: nat)
      ensures Valid() && State() == DelayState(default, [], false) && this.delay == delay
      ensures fresh(queue)
    {
      value, initialized, this.delay := default, false, delay;
      queue := new TimeQueue();
    }

    /** `delay`'s cycle is this one with a trigger that never ticks. */
    method Cycle(now: nat, inp: Input<V>) returns (ticked: bool, wakeups: set<nat>)
      requires Valid()
      modifies this, queue
      ensures Valid() && Effect(State(), ticked, wakeups) == DelayCycle(delay, old(State()), now, inp)
    {
      if inp.reset {
        value := inp.current;
        queue.Clear();
        initialized := true;
        return true, {};
      }
      if delay == 0 {
        value := inp.current;
        return true, {};
      }
      wakeups := {};
      if inp.ticked {
        if !initialized {
          value := inp.current;
          initialized := true;
        }
        wakeups := {now + delay};
        queue.Push(inp.current, now + delay);
      }
      ghost var st1 := State();
      assert st1 == if inp.ticked then Enqueue(delay, old(State()), now, inp.current) else old(State());
      ticked := DrainQueue(now);
    }

    method DrainQueue(now: nat) returns (ticked: bool)
      requires Valid()
      modifies this`value, queue
      ensures Valid() && (State(), ticked) == Drain(old(State()), now)
    {
      ghost var all := queue.entries;
      ghost var n := DueCount(all, now);
      ghost var k := 0;
      ticked := false;
      while true
        invariant Valid() && k <= n && queue.entries == all[k..] && (ticked <==> k > 0)
        invariant value == if k == 0 then old(value) else all[k - 1].value
        decreases |queue.entries|
      {
        var v := queue.PopIfPending(now);
        if v.None? {
          break;
        }
        value := v.value;
        ticked := true;
        k := k + 1;
      }
    }
  }

  // ----- Runs -----

  /** Node `x` takes part in a run: it is cycled when the clock wakes it or an upstream ticks, and its
      wake-ups reach the scheduler.  Other nodes, and spurious callbacks for `x`, are unconstrained. */
  ghost predicate DelayRun<V(!new)>(steps: seq<Step>, x: nat, delay: nat, inputs: seq<Input<V>>,
                                    states: seq<DelayState<V>>, outs: seq<Option<V>>) {
    && IsRun(steps)
    && |inputs| == |outs| == |steps| && |states| == |steps| + 1
    && states[0].queue == []
    && forall j, k :: 0 <= j < |steps| && k == j + 1 ==>
         DelayStep(steps[j], x, delay, inputs[j], states[j], states[k], outs[j])
  }

  ghost predicate Runs<V>(s: Step, x: nat, inp: Input<V>) {
    x in s.dirty || inp.ticked || inp.reset
  }

  ghost predicate DelayStep<V(!new)>(s: Step, x: nat, delay: nat, inp: Input<V>,
                                     st: DelayState<V>, st': DelayState<V>, out: Option<V>) {
    if Runs(s, x, inp) then
      var e := DelayCycle(delay, st, Time(s), inp);
      && st' == e.state && out == (if e.ticked then Some(e.state.value) else None)
      && forall t :: t in e.wakeups ==> Callback(x, t) in s.requests
    else st' == st && out == None
  }

  /** Input `i` is on its way to cycle `j`: it ticked, and no reset has come since. */
  ghost predicate Alive<V>(inputs: seq<Input<V>>, i: nat, j: nat) {
    && i < |inputs| && inputs[i].ticked
    && forall k :: i <= k < j && k < |inputs| ==> !inputs[k].reset
  }

  /** The queue before cycle `j` holds exactly the inputs that are alive and not yet due. */
  ghost predicate QueueExact<V(!new)>(steps: seq<Step>, delay: nat, inputs: seq<Input<V>>, queue: seq<Entry<V>>, j: nat)
    requires |inputs| == |steps| && j <= |steps|
  {
    && Rising(queue)
    && (forall e :: e in queue <==> SomeInFlight(steps, delay, inputs, e, j))
  }

  ghost predicate SomeInFlight<V>(steps: seq<Step>, delay: nat, inputs: seq<Input<V>>, e: Entry<V>, j: nat)
    requires |inputs| == |steps| && j <= |steps|
  {
    exists i :: InFlight(steps, delay, inputs, e, i, j)
  }

  /** Strictly ordered in time. */
  ghost predicate Rising<V>(q: seq<Entry<V>>) {
    forall a, b :: 0 <= a < b < |q| ==> q[a].time < q[b].time
  }

  ghost predicate InFlight<V>(steps: seq<Step>, delay: nat, inputs: seq<Input<V>>, e: Entry<V>, i: int, j: nat)
    requires |inputs| == |steps| && j <= |steps|
  {
    && 0 <= i < j && Alive(inputs, i, j)
    && e == Entry(inputs[i].current, Time(steps[i]) + delay)
    && e.time > Time(steps[j - 1])
  }

  /** An input in flight before cycle `j` is not overtaken: cycle `j` runs no later than it is due, and
      wakes the node if it is due then. */
  lemma FlightIsAwaited<V(!new)>(steps: seq<Step>, x: nat, delay: nat, inputs: seq<Input<V>>,
                                 states: seq<DelayState<V>>, outs: seq<Option<V>>, e: Entry<V>, i: nat, j: nat)
    requires DelayRun(steps, x, delay, inputs, states, outs) && delay > 0 && j < |steps|
    requires InFlight(steps, delay, inputs, e, i, j)
    ensures Time(steps[j]) <= e.time
    ensures Time(steps[j]) == e.time ==> x in steps[j].dirty
  {
    assert DelayStep(steps[i], x, delay, inputs[i], states[i], states[i + 1], outs[i]);
    assert Callback(x, e.time) in steps[i].requests;
    if e.time <= Time(steps[j]) {
      CallbackDelivered(steps, i, Callback(x, e.time), j);
      var m :| i < m <= j && Time(steps[m]) == e.time && x in steps[m].dirty;
      if m < j {
        if m < j - 1 {
          TimeIncreases(steps, m, j - 1);
        }
      }
    }
  }

  lemma SkippedCycle<V(!new)>(steps: seq<Step>, x: nat, delay: nat, inputs: seq<Input<V>>,
                              states: seq<DelayState<V>>, outs: seq<Option<V>>, j: nat)
    requires DelayRun(steps, x, delay, inputs, states, outs) && delay > 0 && j < |steps|
    requires QueueExact(steps, delay, inputs, states[j].queue, j) && !Runs(steps[j], x, inputs[j])
    ensures QueueExact(steps, delay, inputs, states[j].queue, j + 1)
  {
    var q := states[j].queue;
    forall e | e in q ensures SomeInFlight(steps, delay, inputs, e, j + 1) {
      var i :| InFlight(steps, delay, inputs, e, i, j);
      FlightIsAwaited(steps, x, delay, inputs, states, outs, e, i, j);
      assert InFlight(steps, delay, inputs, e, i, j + 1);
    }
    forall e | SomeInFlight(steps, delay, inputs, e, j + 1) ensures e in q {
      var i :| InFlight(steps, delay, inputs, e, i, j + 1);
      StillInFlight(steps, delay, inputs, e, i, j);
    }
  }

  /** An earlier input that is in flight after cycle `j` was in flight before it. */
  lemma StillInFlight<V(!new)>(steps: seq<Step>, delay: nat, inputs: seq<Input<V>>, e: Entry<V>, i: nat, j: nat)
    requires IsRun(steps) && |inputs| == |steps| && i < j < |steps| && InFlight(steps, delay, inputs, e, i, j + 1)
    ensures InFlight(steps, delay, inputs, e, i, j)
  {
    TimeIncreases(steps, j - 1, j);
  }

  /** The queue right after the input of cycle `j` has been taken in. */
  function Taken<V(==,!new)>(delay: nat, st: DelayState<V>, now: nat, inp: Input<V>): DelayState<V> {
    if inp.ticked then Enqueue(delay, st, now, inp.current) else st
  }

  lemma TakenQueue<V(!new)>(steps: seq<Step>, delay: nat, inputs: seq<Input<V>>, st: DelayState<V>, j: nat)
    requires IsRun(steps) && |inputs| == |steps| && j < |steps|
    requires QueueExact(steps, delay, inputs, st.queue, j)
    ensures var q := Taken(delay, st, Time(steps[j]), inputs[j]).queue;
            q == st.queue + (if inputs[j].ticked then [Entry(inputs[j].current, Time(steps[j]) + delay)] else [])
    ensures Rising(Taken(delay, st, Time(steps[j]), inputs[j]).queue)
  {
    var e := Entry(inputs[j].current, Time(steps[j]) + delay);
    forall a | 0 <= a < |st.queue| ensures st.queue[a].time < e.time {
      assert st.queue[a] in st.queue;
      var i :| InFlight(steps, delay, inputs, st.queue[a], i, j);
      TimeIncreases(steps, i, j);
    }
    if inputs[j].ticked {
      PushedLast(st.queue, e);
    }
  }

  /** Nothing in the queue is overdue. */
  lemma NothingOverdue<V(!new)>(steps: seq<Step>, x: nat, delay: nat, inputs: seq<Input<V>>,
                                states: seq<DelayState<V>>, outs: seq<Option<V>>, j: nat, q: seq<Entry<V>>)
    requires DelayRun(steps, x, delay, inputs, states, outs) && delay > 0 && j < |steps|
    requires QueueExact(steps, delay, inputs, states[j].queue, j)
    requires q == Taken(delay, states[j], Time(steps[j]), inputs[j]).queue
    ensures Rising(q) && forall e :: e in q ==> e.time >= Time(steps[j])
  {
    TakenQueue(steps, delay, inputs, states[j], j);
    hide Rising, Taken;
    forall e | e in q ensures e.time >= Time(steps[j]) {
      if e in states[j].queue {
        var i :| InFlight(steps, delay, inputs, e, i, j);
        FlightIsAwaited(steps, x, delay, inputs, states, outs, e, i, j);
      }
    }
  }

  /** If nothing is overdue, at most the front is due. */
  lemma DueIsFront<V(!new)>(q: seq<Entry<V>>, now: nat)
    requires Rising(q) && forall e :: e in q ==> e.time >= now
    ensures DueCount(q, now) == if q != [] && q[0].time == now then 1 else 0
    ensures Rising(q[DueCount(q, now)..])
    ensures forall e :: e in q[DueCount(q, now)..] <==> e in q && e.time > now
  {
    assert q != [] ==> q[0] in q;
    if q != [] && q[0].time == now {
      assert q == [q[0]] + q[1..];
      assert DueCount(q[1..], now) == 0;
      LaterThanFront(q, now);
    } else {
      assert q[0..] == q;
      LaterThanNow(q, now);
    }
  }

  lemma LaterThanFront<V(!new)>(q: seq<Entry<V>>, now: nat)
    requires Rising(q) && q != [] && q[0].time == now
    ensures Rising(q[1..]) && forall e :: e in q[1..] <==> e in q && e.time > now
  {
    forall e | e in q && e.time > now ensures e in q[1..] {
      var k :| 0 <= k < |q| && q[k] == e;
      assert q[1..][k - 1] == e;
    }
  }

  lemma LaterThanNow<V(!new)>(q: seq<Entry<V>>, now: nat)
    requires Rising(q) && (q != [] ==> q[0].time > now)
    ensures forall e :: e in q ==> e.time > now
  {
  }

  lemma {:induction false} OrdinaryCycle<V(!new)>(steps: seq<Step>, x: nat, delay: nat, inputs: seq<Input<V>>,
                                                  states: seq<DelayState<V>>, outs: seq<Option<V>>, j: nat,
                                                  q: seq<Entry<V>>)
    requires DelayRun(steps, x, delay, inputs, states, outs) && delay > 0 && j < |steps|
    requires QueueExact(steps, delay, inputs, states[j].queue, j) && !inputs[j].reset
    requires q == Taken(delay, states[j], Time(steps[j]), inputs[j]).queue
    ensures QueueExact(steps, delay, inputs, q[DueCount(q, Time(steps[j]))..], j + 1)
  {
    var now := Time(steps[j]);
    NothingOverdue(steps, x, delay, inputs, states, outs, j, q);
    DueIsFront(q, now);
    TakenQueue(steps, delay, inputs, states[j], j);
    var rest := q[DueCount(q, now)..];
    hide Rising, Taken, DueCount, DelayRun;
    forall e | e in rest ensures SomeInFlight(steps, delay, inputs, e, j + 1) {
      StaysInFlight(steps, delay, inputs, states[j].queue, e, j);
    }
    forall e | SomeInFlight(steps, delay, inputs, e, j + 1) ensures e in rest {
      var i :| InFlight(steps, delay, inputs, e, i, j + 1);
      if i < j {
        WasQueued(steps, delay, inputs, states[j].queue, e, i, j);
      }
      assert e in q;
    }
  }

  lemma WasQueued<V(!new)>(steps: seq<Step>, delay: nat, inputs: seq<Input<V>>, queue: seq<Entry<V>>, e: Entry<V>,
                           i: nat, j: nat)
    requires IsRun(steps) && |inputs| == |steps| && i < j < |steps|
    requires QueueExact(steps, delay, inputs, queue, j) && InFlight(steps, delay, inputs, e, i, j + 1)
    ensures e in queue
  {
    StillInFlight(steps, delay, inputs, e, i, j);
  }

  lemma StaysInFlight<V(!new)>(steps: seq<Step>, delay: nat, inputs: seq<Input<V>>, queue: seq<Entry<V>>, e: Entry<V>,
                               j: nat)
    requires |inputs| == |steps| && j < |steps| && !inputs[j].reset && QueueExact(steps, delay, inputs, queue, j)
    requires e.time > Time(steps[j])
    requires e in queue || (inputs[j].ticked && e == Entry(inputs[j].current, Time(steps[j]) + delay))
    ensures SomeInFlight(steps, delay, inputs, e, j + 1)
  {
    if e in queue {
      var i :| InFlight(steps, delay, inputs, e, i, j);
      assert InFlight(steps, delay, inputs, e, i, j + 1);
    } else {
      assert InFlight(steps, delay, inputs, e, j, j + 1);
    }
  }

  lemma {:induction false} QueueStaysExact<V(!new)>(steps: seq<Step>, x: nat, delay: nat, inputs: seq<Input<V>>,
                                                    states: seq<DelayState<V>>, outs: seq<Option<V>>, j: nat)
    requires DelayRun(steps, x, delay, inputs, states, outs) && delay > 0 && j <= |steps|
    ensures QueueExact(steps, delay, inputs, states[j].queue, j)
  {
    if j > 0 {
      var p := j - 1;
      QueueStaysExact(steps, x, delay, inputs, states, outs, p);
      assert DelayStep(steps[p], x, delay, inputs[p], states[p], states[j], outs[p]);
      if !Runs(steps[p], x, inputs[p]) {
        SkippedCycle(steps, x, delay, inputs, states, outs, p);
      } else if !inputs[p].reset {
        OrdinaryCycle(steps, x, delay, inputs, states, outs, p,
                      Taken(delay, states[p], Time(steps[p]), inputs[p]).queue);
      }
    }
  }

  // ----- What is emitted -----

  /** Input `i` arrives at cycle `j`: it ticked exactly `delay` earlier, strictly after the last reset. */
  ghost predicate Arrives<V>(steps: seq<Step>, delay: nat, inputs: seq<Input<V>>, i: nat, j: nat)
    requires |inputs| == |steps|
  {
    i < j < |steps| && Alive(inputs, i, j) && Time(steps[i]) + delay == Time(steps[j])
  }

  /** What a cycle emits is read off the front of the queue. */
  lemma OutIsFront<V(!new)>(steps: seq<Step>, x: nat, delay: nat, inputs: seq<Input<V>>,
                            states: seq<DelayState<V>>, outs: seq<Option<V>>, j: nat, q: seq<Entry<V>>)
    requires DelayRun(steps, x, delay, inputs, states, outs) && delay > 0 && j < |steps| && !inputs[j].reset
    requires q == Taken(delay, states[j], Time(steps[j]), inputs[j]).queue
    ensures QueueExact(steps, delay, inputs, states[j].queue, j)
    ensures Rising(q) && forall e :: e in q ==> e.time >= Time(steps[j])
    ensures outs[j] ==
            if Runs(steps[j], x, inputs[j]) && q != [] && q[0].time == Time(steps[j]) then Some(q[0].value) else None
  {
    var now := Time(steps[j]);
    QueueStaysExact(steps, x, delay, inputs, states, outs, j);
    NothingOverdue(steps, x, delay, inputs, states, outs, j, q);
    DueIsFront(q, now);
    assert DelayStep(steps[j], x, delay, inputs[j], states[j], states[j + 1], outs[j]);
    hide QueueExact, Rising, DelayRun;
  }

  lemma ArrivalIsFront<V(!new)>(steps: seq<Step>, x: nat, delay: nat, inputs: seq<Input<V>>,
                                states: seq<DelayState<V>>, outs: seq<Option<V>>, i: nat, j: nat)
    requires DelayRun(steps, x, delay, inputs, states, outs) && delay > 0 && j < |steps|
    requires !inputs[j].reset && Arrives(steps, delay, inputs, i, j)
    ensures outs[j] == Some(inputs[i].current)
  {
    var now, e := Time(steps[j]), Entry(inputs[i].current, Time(steps[j]));
    var q := Taken(delay, states[j], now, inputs[j]).queue;
    OutIsFront(steps, x, delay, inputs, states, outs, j, q);
    TimeIncreases(steps, j - 1, j);
    assert InFlight(steps, delay, inputs, e, i, j);
    FlightIsAwaited(steps, x, delay, inputs, states, outs, e, i, j);
    TakenQueue(steps, delay, inputs, states[j], j);
    hide DelayRun, Taken;
    assert SomeInFlight(steps, delay, inputs, e, j) && e in states[j].queue && e in q;
    FrontOf(q, e, now);
  }

  lemma FrontOf<V>(q: seq<Entry<V>>, e: Entry<V>, now: nat)
    requires e in q && e.time == now && (forall f :: f in q ==> f.time >= now)
    requires Rising(q)
    ensures q[0] == e
  {
    var k :| 0 <= k < |q| && q[k] == e;
    assert q[0] in q;
  }

  lemma EmissionHasArrival<V(!new)>(steps: seq<Step>, x: nat, delay: nat, inputs: seq<Input<V>>,
                                    states: seq<DelayState<V>>, outs: seq<Option<V>>, j: nat) returns (i: nat)
    requires DelayRun(steps, x, delay, inputs, states, outs) && delay > 0 && j < |steps|
    requires !inputs[j].reset && outs[j].Some?
    ensures Arrives(steps, delay, inputs, i, j)
  {
    var now := Time(steps[j]);
    var q := Taken(delay, states[j], now, inputs[j]).queue;
    OutIsFront(steps, x, delay, inputs, states, outs, j, q);
    TakenQueue(steps, delay, inputs, states[j], j);
    hide DelayRun, Taken, Rising;
    assert q[0] in q && q[0].time == now;
    assert q[0] in states[j].queue;
    i :| InFlight(steps, delay, inputs, q[0], i, j);
  }

  /** A cycle without reset emits exactly the input that arrives, a cycle with reset emits the current input. */
  ghost predicate EmitsExactly<V>(steps: seq<Step>, delay: nat, inputs: seq<Input<V>>, out: Option<V>, j: nat)
    requires |inputs| == |steps| && j < |steps|
  {
    && (inputs[j].reset ==> out == Some(inputs[j].current))
    && (!inputs[j].reset ==> (out.Some? <==> exists i: nat :: Arrives(steps, delay, inputs, i, j)))
    && (!inputs[j].reset ==> forall i: nat :: Arrives(steps, delay, inputs, i, j) ==> out == Some(inputs[i].current))
  }

  /** With a positive delay, a cycle without reset emits exactly the input that arrives, a cycle with reset
      emits the current input. */
  lemma DelayWithResetExact<V(!new)>(steps: seq<Step>, x: nat, delay: nat, inputs: seq<Input<V>>,
                                     states: seq<DelayState<V>>, outs: seq<Option<V>>, j: nat)
    requires DelayRun(steps, x, delay, inputs, states, outs) && delay > 0 && j < |steps|
    ensures EmitsExactly(steps, delay, inputs, outs[j], j)
  {
    assert DelayStep(steps[j], x, delay, inputs[j], states[j], states[j + 1], outs[j]);
    if !inputs[j].reset {
      forall i: nat | Arrives(steps, delay, inputs, i, j) ensures outs[j] == Some(inputs[i].current) {
        ArrivalIsFront(steps, x, delay, inputs, states, outs, i, j);
      }
      if outs[j].Some? {
        var i := EmissionHasArrival(steps, x, delay, inputs, states, outs, j);
      }
    }
  }

  // ----- The value between two emissions -----

  /** An input has ticked, or something has been emitted, in the first `j` cycles. */
  ghost predicate Begun<V>(inputs: seq<Input<V>>, outs: seq<Option<V>>, j: nat)
    requires j <= |inputs| == |outs|
  {
    exists i :: 0 <= i < j && (inputs[i].ticked || outs[i].Some?)
  }

  /** The value after `j` cycles: an emission replaces it, and so does the first input if nothing has been emitted
      before; otherwise it stays. */
  ghost function ShownAfter<V>(v0: V, inputs: seq<Input<V>>, outs: seq<Option<V>>, j: nat): V
    requires j <= |inputs| == |outs|
  {
    if j == 0 then v0
    else if outs[j - 1].Some? then outs[j - 1].value
    else if inputs[j - 1].ticked && !Begun(inputs, outs, j - 1) then inputs[j - 1].current
    else ShownAfter(v0, inputs, outs, j - 1)
  }

  /** The node's value is the last emission; before any, the first input that ticked; before that, its default. */
  lemma {:induction false} ValueIsLastEmission<V(!new)>(steps: seq<Step>, x: nat, delay: nat, inputs: seq<Input<V>>,
                                                        states: seq<DelayState<V>>, outs: seq<Option<V>>, j: nat)
    requires DelayRun(steps, x, delay, inputs, states, outs) && delay > 0 && j <= |steps| && !states[0].initialized
    ensures states[j].value == ShownAfter(states[0].value, inputs, outs, j)
    ensures states[j].initialized <==> Begun(inputs, outs, j)
    ensures !states[j].initialized ==> states[j].queue == []
  {
    if j > 0 {
      var i := j - 1;
      assert DelayStep(steps[i], x, delay, inputs[i], states[i], states[j], outs[i]);
      ValueIsLastEmission(steps, x, delay, inputs, states, outs, i);
      assert Begun(inputs, outs, j) <==> Begun(inputs, outs, i) || inputs[i].ticked || outs[i].Some?;
    }
  }

  // ----- The plain delay -----

  /** A plain delay: no reset trigger; a zero delay is only ever cycled by its upstream. */
  ghost predicate PlainDelayRun<V(!new)>(steps: seq<Step>, x: nat, delay: nat, inputs: seq<Input<V>>,
                                         states: seq<DelayState<V>>, outs: seq<Option<V>>) {
    && DelayRun(steps, x, delay, inputs, states, outs)
    && (forall j :: 0 <= j < |inputs| ==> !inputs[j].reset)
    && (delay == 0 ==> forall j :: 0 <= j < |steps| && x in steps[j].dirty ==> inputs[j].ticked)
  }

  /** Input `i` ticked exactly `delay` before cycle `j`. */
  ghost predicate Carried<V>(steps: seq<Step>, delay: nat, inputs: seq<Input<V>>, i: nat, j: nat)
    requires |inputs| == |steps|
  {
    i <= j < |steps| && inputs[i].ticked && Time(steps[i]) + delay == Time(steps[j])
  }

  /** The emitted events are the input events, each shifted by `delay`. */
  ghost predicate Shifts<V(!new)>(steps: seq<Step>, delay: nat, inputs: seq<Input<V>>, outs: seq<Option<V>>) {
    && |inputs| == |outs| == |steps|
    && forall j: nat :: j < |steps| ==>
         && (outs[j].Some? <==> exists i: nat :: Carried(steps, delay, inputs, i, j))
         && (forall i: nat :: Carried(steps, delay, inputs, i, j) ==> outs[j] == Some(inputs[i].current))
  }

  lemma DelayIsExactShift<V(!new)>(steps: seq<Step>, x: nat, delay: nat, inputs: seq<Input<V>>,
                                   states: seq<DelayState<V>>, outs: seq<Option<V>>)
    requires PlainDelayRun(steps, x, delay, inputs, states, outs)
    ensures Shifts(steps, delay, inputs, outs)
  {
    forall j: nat | j < |steps|
      ensures outs[j].Some? <==> exists i: nat :: Carried(steps, delay, inputs, i, j)
      ensures forall i: nat :: Carried(steps, delay, inputs, i, j) ==> outs[j] == Some(inputs[i].current)
    {
      if delay == 0 {
        ZeroDelayEchoes(steps, x, inputs, states, outs, j);
        assert inputs[j].ticked ==> Carried(steps, delay, inputs, j, j);
      } else {
        DelayWithResetExact(steps, x, delay, inputs, states, outs, j);
        assert forall i: nat :: Arrives(steps, delay, inputs, i, j) ==> Carried(steps, delay, inputs, i, j);
        assert forall i: nat :: Carried(steps, delay, inputs, i, j) ==> Arrives(steps, delay, inputs, i, j);
      }
    }
  }

  lemma ZeroDelayEchoes<V(!new)>(steps: seq<Step>, x: nat, inputs: seq<Input<V>>,
                                 states: seq<DelayState<V>>, outs: seq<Option<V>>, j: nat)
    requires PlainDelayRun(steps, x, 0, inputs, states, outs) && j < |steps|
    ensures outs[j] == if inputs[j].ticked then Some(inputs[j].current) else None
    ensures forall i: nat :: Carried(steps, 0, inputs, i, j) <==> i == j && inputs[j].ticked
  {
    assert DelayStep(steps[j], x, 0, inputs[j], states[j], states[j + 1], outs[j]);
    forall i: nat | Carried(steps, 0, inputs, i, j) ensures i == j {
      if i < j {
        TimeIncreases(steps, i, j);
      }
    }
  }

  /** No input is lost: once the clock has reached its shifted time, there was a cycle at exactly that time. */
  lemma InputIsCarried<V(!new)>(steps: seq<Step>, x: nat, delay: nat, inputs: seq<Input<V>>,
                                states: seq<DelayState<V>>, outs: seq<Option<V>>, i: nat, j: nat) returns (m: nat)
    requires PlainDelayRun(steps, x, delay, inputs, states, outs)
    requires i <= j < |steps| && inputs[i].ticked && Time(steps[i]) + delay <= Time(steps[j])
    ensures m <= j && Carried(steps, delay, inputs, i, m)
  {
    if delay == 0 {
      m := i;
    } else {
      assert DelayStep(steps[i], x, delay, inputs[i], states[i], states[i + 1], outs[i]);
      CallbackDelivered(steps, i, Callback(x, Time(steps[i]) + delay), j);
      m :| i < m <= j && Time(steps[m]) == Time(steps[i]) + delay;
    }
  }

  /** The output of one node is the input of another. */
  ghost predicate Connected<V>(outs: seq<Option<V>>, inputs: seq<Input<V>>) {
    && |inputs| == |outs|
    && forall j :: 0 <= j < |outs| ==>
         (inputs[j].ticked <==> outs[j].Some?) && (outs[j].Some? ==> inputs[j].current == outs[j].value)
  }

  /** Delay `d` followed by delay `e` emits the same events as one delay of `d + e`. */
  lemma {:induction false} DelaysCompose<V(!new)>(
    steps: seq<Step>, x: nat, y: nat, z: nat, d: nat, e: nat,
    inputs: seq<Input<V>>, states: seq<DelayState<V>>, outs: seq<Option<V>>,
    inputs2: seq<Input<V>>, states2: seq<DelayState<V>>, outs2: seq<Option<V>>,
    states3: seq<DelayState<V>>, outs3: seq<Option<V>>)
    requires PlainDelayRun(steps, x, d, inputs, states, outs)
    requires Connected(outs, inputs2) && PlainDelayRun(steps, y, e, inputs2, states2, outs2)
    requires PlainDelayRun(steps, z, d + e, inputs, states3, outs3)
    ensures outs2 == outs3
  {
    assert |outs| == |inputs| == |outs2| == |outs3| == |steps|;
    hide PlainDelayRun, Shifts, Connected;
    DelayIsExactShift(steps, x, d, inputs, states, outs);
    DelayIsExactShift(steps, y, e, inputs2, states2, outs2);
    DelayIsExactShift(steps, z, d + e, inputs, states3, outs3);
    forall j: nat | j < |steps| ensures outs2[j] == outs3[j] {
      if outs3[j].Some? {
        SingleIsComposed(steps, x, d, e, inputs, states, outs, inputs2, outs2, outs3, j);
      }
      if outs2[j].Some? {
        ComposedHasSource(steps, d, e, inputs, outs, inputs2, outs2, outs3, j);
      }
    }
  }

  lemma {:induction false} SingleIsComposed<V(!new)>(steps: seq<Step>, x: nat, d: nat, e: nat, inputs: seq<Input<V>>,
                                                     states: seq<DelayState<V>>, outs: seq<Option<V>>,
                                                     inputs2: seq<Input<V>>, outs2: seq<Option<V>>,
                                                     outs3: seq<Option<V>>, j: nat)
    requires PlainDelayRun(steps, x, d, inputs, states, outs)
    requires Shifts(steps, d, inputs, outs) && Connected(outs, inputs2) && Shifts(steps, e, inputs2, outs2)
    requires Shifts(steps, d + e, inputs, outs3) && j < |steps| && outs3[j].Some?
    ensures outs2[j] == outs3[j]
  {
    var i := ShiftSource(steps, d + e, inputs, outs3, j);
    hide PlainDelayRun, Shifts, Connected;
    var m := InputIsCarried(steps, x, d, inputs, states, outs, i, j);
    ShiftsChain(steps, d, e, inputs, outs, inputs2, outs2, outs3, i, m, j);
  }

  lemma {:induction false} ComposedHasSource<V(!new)>(steps: seq<Step>, d: nat, e: nat, inputs: seq<Input<V>>,
                                                      outs: seq<Option<V>>, inputs2: seq<Input<V>>,
                                                      outs2: seq<Option<V>>, outs3: seq<Option<V>>, j: nat)
    requires Shifts(steps, d, inputs, outs) && Connected(outs, inputs2) && Shifts(steps, e, inputs2, outs2)
    requires Shifts(steps, d + e, inputs, outs3) && j < |steps| && outs2[j].Some?
    ensures outs2[j] == outs3[j]
  {
    var m := ShiftSource(steps, e, inputs2, outs2, j);
    var i := ShiftSource(steps, d, inputs, outs, m);
    hide Shifts;
    ShiftsChain(steps, d, e, inputs, outs, inputs2, outs2, outs3, i, m, j);
  }

  lemma ShiftsChain<V(!new)>(steps: seq<Step>, d: nat, e: nat, inputs: seq<Input<V>>, outs: seq<Option<V>>,
                             inputs2: seq<Input<V>>, outs2: seq<Option<V>>, outs3: seq<Option<V>>,
                             i: nat, m: nat, j: nat)
    requires Shifts(steps, d, inputs, outs) && Connected(outs, inputs2) && Shifts(steps, e, inputs2, outs2)
    requires Shifts(steps, d + e, inputs, outs3)
    requires Carried(steps, d, inputs, i, m) && m <= j < |steps| && Time(steps[m]) + e == Time(steps[j])
    ensures outs2[j] == outs3[j]
  {
    ShiftAt(steps, d, inputs, outs, i, m);
    assert Carried(steps, e, inputs2, m, j);
    ShiftAt(steps, e, inputs2, outs2, m, j);
    ShiftAt(steps, d + e, inputs, outs3, i, j);
  }

  lemma ShiftAt<V(!new)>(steps: seq<Step>, delay: nat, inputs: seq<Input<V>>, outs: seq<Option<V>>, i: nat, j: nat)
    requires Shifts(steps, delay, inputs, outs) && Carried(steps, delay, inputs, i, j)
    ensures outs[j] == Some(inputs[i].current)
  {
  }

  lemma ShiftSource<V(!new)>(steps: seq<Step>, delay: nat, inputs: seq<Input<V>>, outs: seq<Option<V>>, j: nat)
    returns (i: nat)
    requires Shifts(steps, delay, inputs, outs) && j < |steps| && outs[j].Some?
    ensures Carried(steps, delay, inputs, i, j) && outs[j] == Some(inputs[i].current)
  {
    i :| Carried(steps, delay, inputs, i, j);
  }

  /** With a trigger that never fires, `delay_with_reset` emits what the plain delay emits. */
  lemma NeverResetIsPlain<V(!new)>(steps: seq<Step>, x: nat, y: nat, delay: nat, inputs: seq<Input<V>>,
                                   states: seq<DelayState<V>>, outs: seq<Option<V>>,
                                   states2: seq<DelayState<V>>, outs2: seq<Option<V>>)
    requires PlainDelayRun(steps, x, delay, inputs, states, outs)
    requires DelayRun(steps, y, delay, inputs, states2, outs2) && delay > 0
    ensures outs == outs2
  {
    forall j: nat | j < |steps| ensures outs[j] == outs2[j] {
      DelayWithResetExact(steps, x, delay, inputs, states, outs, j);
      DelayWithResetExact(steps, y, delay, inputs, states2, outs2, j);
    }
  }
}
