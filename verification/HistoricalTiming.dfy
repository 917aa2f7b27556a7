/** Why the producer groups: delivery in historical mode survives every schedule of polls if and only if no
    timestamp is split over two messages. */
module HistoricalTiming {
  import opened TimeQueues
  import opened Clocks
  import opened HistoricalChannel
  import opened HistoricalDelivery

  /** Non-empty bursts in time order, from the start on; times may repeat. */
  ghost predicate InOrder<T>(groups: seq<Group<T>>, start: nat) {
    && (forall i :: 0 <= i < |groups| ==> groups[i].time >= start && groups[i].burst != [])
    && (forall i, j :: 0 <= i < j < |groups| ==> groups[i].time <= groups[j].time)
  }

  /** No two adjacent bursts share a time. */
  ghost predicate NoSplit<T>(groups: seq<Group<T>>) {
    forall i, j :: 0 <= i < |groups| - 1 && j == i + 1 ==> groups[i].time != groups[j].time
  }

  function Messages<T>(groups: seq<Group<T>>): (r: seq<Message<T>>)
    ensures |r| == |groups| + 1 && r[|groups|] == EndOfStream
    ensures forall i :: 0 <= i < |groups| ==> r[i] == HistoricalValue(groups[i])
  {
    if groups == [] then [EndOfStream] else [HistoricalValue(groups[0])] + Messages(groups[1..])
  }

  /** Whatever the polls find and whatever else the engine does, the receiver reports no error. */
  ghost predicate NeverFails<T(!new)>(groups: seq<Group<T>>, start: nat, r: nat) {
    forall available: nat -> bool, steps: seq<Step>, ds: seq<Delivery<T>>, k: nat ::
      IsDeliveryRun(Channel(Messages(groups), available), start, r, steps, ds) && k < |ds| ==> !ds[k].failed
  }

  // ----- Cycles in which the poll finds nothing -----

  /** Group `g`, the `n`-th, has been read and waits. */
  ghost predicate Holds<T>(st: Receiver<T>, n: nat, g: Group<T>) {
    st.pos == n + 1 && !st.finished && st.messageTime == Some(g.time) && st.queue == [g]
  }

  lemma HeldGoesOut<T>(ch: Channel<T>, st: Receiver<T>, n: nat, g: Group<T>)
    requires Holds(st, n, g) && !ch.available(st.polls)
    ensures var c := ReceiverCycle(ch, st, g.time, false);
            c.Done? && c.state.burst == g.burst && c.state.wakeup == Some(g.time) && Blocked(c.state.state, n + 1)
  {
    var polled := st.(polls := st.polls + 1);
    assert Read(ch, st, g.time, false) == Done(polled);
    DeliverOne(polled, g, [], g.time);
  }

  lemma ReadOnTime<T>(ch: Channel<T>, st: Receiver<T>, n: nat, g: Group<T>)
    requires Blocked(st, n) && n < |ch.messages| && ch.messages[n] == HistoricalValue(g) && !ch.available(st.polls)
    ensures var c := ReceiverCycle(ch, st, g.time, false);
            c.Done? && c.state.burst == g.burst && c.state.wakeup == Some(g.time) && Blocked(c.state.state, n + 1)
  {
    var st1 := st.(pos := n + 1, messageTime := Some(g.time), queue := [g]);
    assert st.queue + [g] == [g];
    assert Read(ch, st, g.time, false) == Read(ch, st1, g.time, false);
    HeldGoesOut(ch, st1, n, g);
  }

  lemma ReadEarly<T>(ch: Channel<T>, st: Receiver<T>, n: nat, g: Group<T>, now: nat)
    requires Blocked(st, n) && n < |ch.messages| && ch.messages[n] == HistoricalValue(g) && now < g.time
    ensures var c := ReceiverCycle(ch, st, now, false);
            c.Done? && c.state.burst == [] && c.state.wakeup == Some(g.time) && Holds(c.state.state, n, g)
  {
    var st1 := st.(pos := n + 1, messageTime := Some(g.time), queue := [g]);
    assert st.queue + [g] == [g];
    assert Read(ch, st, now, false) == Read(ch, st1, now, false) == Done(st1);
    assert st1.queue[0..] == st1.queue && st1.queue[..0] == [];
  }

  lemma ReadLate<T>(ch: Channel<T>, st: Receiver<T>, n: nat, g: Group<T>, now: nat)
    requires Blocked(st, n) && n < |ch.messages| && ch.messages[n] == HistoricalValue(g) && g.time < now
    ensures ReceiverCycle(ch, st, now, false) == Fail(TimeBehindGraph)
  {
  }

  /** Wherever two adjacent messages share a time, one poll that does not find the second is enough: the first
      goes out on its own, and every later cycle fails. */
  lemma SplitTimeFails<T>(ch: Channel<T>, st: Receiver<T>, n: nat, g: Group<T>, h: Group<T>, later: nat)
    requires Blocked(st, n) && n + 1 < |ch.messages| && !ch.available(st.polls)
    requires ch.messages[n] == HistoricalValue(g) && ch.messages[n + 1] == HistoricalValue(h)
    requires g.time == h.time < later
    ensures var c := ReceiverCycle(ch, st, g.time, false);
            && c.Done? && c.state.burst == g.burst && c.state.wakeup == Some(g.time)
            && ReceiverCycle(ch, c.state.state, later, false) == Fail(TimeBehindGraph)
  {
    ReadOnTime(ch, st, n, g);
    ReadLate(ch, ReceiverCycle(ch, st, g.time, false).state.state, n + 1, h, later);
  }

  // ----- A run in which nothing but the receiver is scheduled -----

  ghost predicate Alone(c: Clock, r: nat, t: nat) {
    c.scheduled == {Callback(r, t)} && c.always == {}
  }

  function LoneStep(c: Clock, r: nat, t: nat, wakeup: Option<nat>): Step {
    Step(c, Clock(Due(c, t), false, {}, {}), {r}, if wakeup.Some? then {Callback(r, wakeup.value)} else {}, {})
  }

  lemma LoneStepAdvances(c: Clock, r: nat, t: nat, wakeup: Option<nat>)
    requires Alone(c, r, t)
    ensures var s := LoneStep(c, r, t, wakeup);
            && Advances(s.before, s.after, s.dirty) && AfterCycle(s).time == Due(c, t) && !AfterCycle(s).unstarted
            && (wakeup.Some? ==> Alone(AfterCycle(s), r, wakeup.value))
  {
    var s := LoneStep(c, r, t, wakeup);
    assert Callback(r, t) in c.scheduled;
    assert Earliest(c.scheduled, t) && s.after.time == CycleTime(c, t);
  }

  /** The run so far ends at clock `c`. */
  ghost predicate ComesTo<T>(ch: Channel<T>, start: nat, r: nat, steps: seq<Step>, ds: seq<Delivery<T>>, c: Clock) {
    if steps == [] then
      c == Clock(0, true, {Callback(r, start)}, {}) && ds == [Delivery(Receiver(0, 0, false, None, []), [], false)]
    else
      IsDeliveryRun(ch, start, r, steps, ds) && c == AfterCycle(steps[|steps| - 1])
  }

  lemma RunGrows<T>(ch: Channel<T>, start: nat, r: nat, steps: seq<Step>, ds: seq<Delivery<T>>, c: Clock, s: Step,
                    d: Delivery<T>)
    requires ComesTo(ch, start, r, steps, ds, c) && s.before == c && Advances(s.before, s.after, s.dirty)
    requires |ds| == |steps| + 1 && DeliveryStep(ch, r, s, ds[|steps|], d)
    ensures ComesTo(ch, start, r, steps + [s], ds + [d], AfterCycle(s))
  {
    var steps', ds' := steps + [s], ds + [d];
    forall i, j | 0 <= i < |steps'| - 1 && j == i + 1 ensures Follows(steps'[i], steps'[j]) {
      assert j < |steps| ==> Follows(steps[i], steps[j]);
    }
    forall i, j | 0 <= i < |steps'| && j == i + 1 ensures DeliveryStep(ch, r, steps'[i], ds'[i], ds'[j]) {
      assert i < |steps| ==> DeliveryStep(ch, r, steps[i], ds[i], ds[j]);
    }
    hide DeliveryStep, Advances;
  }

  /** One more cycle, at the receiver's own wake-up. */
  lemma NextCycle<T>(ch: Channel<T>, start: nat, r: nat, steps: seq<Step>, ds: seq<Delivery<T>>, c: Clock, t: nat)
    returns (steps': seq<Step>, ds': seq<Delivery<T>>, c': Clock)
    requires ComesTo(ch, start, r, steps, ds, c) && |ds| == |steps| + 1 && Alone(c, r, t) && !ds[|steps|].failed
    ensures ComesTo(ch, start, r, steps', ds', c') && |ds'| == |steps'| + 1 && steps' != []
    ensures c'.time == Due(c, t) && !c'.unstarted
    ensures match ReceiverCycle(ch, ds[|steps|].rx, Due(c, t), false)
            case Fail(_) => ds'[|steps'|].failed
            case Done(cycled) =>
              && !ds'[|steps'|].failed && ds'[|steps'|].rx == cycled.state
              && (cycled.wakeup.Some? ==> Alone(c', r, cycled.wakeup.value))
  {
    var d, now := ds[|steps|], Due(c, t);
    var out := ReceiverCycle(ch, d.rx, now, false);
    var wakeup := if out.Done? then out.state.wakeup else None;
    var s := LoneStep(c, r, t, wakeup);
    var d' := if out.Done? then Delivery(out.state.state, d.emitted + Emission(now, out.state.burst), false)
              else d.(failed := true);
    LoneStepAdvances(c, r, t, wakeup);
    assert DeliveryStep(ch, r, s, d, d');
    RunGrows(ch, start, r, steps, ds, c, s, d');
    steps', ds', c' := steps + [s], ds + [d'], AfterCycle(s);
    hide ComesTo, ReceiverCycle, Alone, AfterCycle;
  }

  /** The run in which no poll finds anything stands at its `n`-th read, due to cycle no later than the message. */
  ghost predicate Stands<T>(ch: Channel<T>, start: nat, r: nat, steps: seq<Step>, ds: seq<Delivery<T>>, c: Clock,
                            t: nat, n: nat) {
    && ComesTo(ch, start, r, steps, ds, c) && |ds| == |steps| + 1 && Alone(c, r, t)
    && !ds[|steps|].failed && Blocked(ds[|steps|].rx, n)
  }

  /** From one read to the next: the message goes out at its own time. */
  lemma NextGroup<T>(ch: Channel<T>, start: nat, r: nat, steps: seq<Step>, ds: seq<Delivery<T>>, c: Clock, t: nat,
                     n: nat, g: Group<T>)
    returns (steps': seq<Step>, ds': seq<Delivery<T>>, c': Clock)
    requires Stands(ch, start, r, steps, ds, c, t, n) && Due(c, t) <= g.time
    requires n < |ch.messages| && ch.messages[n] == HistoricalValue(g) && forall k :: !ch.available(k)
    ensures Stands(ch, start, r, steps', ds', c', g.time, n + 1) && c'.time == g.time && !c'.unstarted
  {
    var now := Due(c, t);
    hide ReceiverCycle, ComesTo, Alone, Blocked, Holds;
    if now == g.time {
      ReadOnTime(ch, ds[|steps|].rx, n, g);
      steps', ds', c' := NextCycle(ch, start, r, steps, ds, c, t);
    } else {
      var steps1, ds1, c1 := NextHeld(ch, start, r, steps, ds, c, t, n, g);
      HeldGoesOut(ch, ds1[|steps1|].rx, n, g);
      steps', ds', c' := NextCycle(ch, start, r, steps1, ds1, c1, g.time);
    }
  }

  /** A cycle before the message's time reads it ahead. */
  lemma NextHeld<T>(ch: Channel<T>, start: nat, r: nat, steps: seq<Step>, ds: seq<Delivery<T>>, c: Clock, t: nat,
                    n: nat, g: Group<T>)
    returns (steps': seq<Step>, ds': seq<Delivery<T>>, c': Clock)
    requires Stands(ch, start, r, steps, ds, c, t, n) && Due(c, t) < g.time
    requires n < |ch.messages| && ch.messages[n] == HistoricalValue(g)
    ensures ComesTo(ch, start, r, steps', ds', c') && |ds'| == |steps'| + 1 && Alone(c', r, g.time)
    ensures !ds'[|steps'|].failed && Holds(ds'[|steps'|].rx, n, g) && Due(c', g.time) == g.time
  {
    hide ReceiverCycle, ComesTo, Alone, Blocked, Holds;
    ReadEarly(ch, ds[|steps|].rx, n, g, Due(c, t));
    steps', ds', c' := NextCycle(ch, start, r, steps, ds, c, t);
  }

  /** A run gets to the `n`-th read, if times have been rising so far. */
  lemma {:induction false} ReachesRead<T>(ch: Channel<T>, groups: seq<Group<T>>, start: nat, r: nat, n: nat)
    returns (steps: seq<Step>, ds: seq<Delivery<T>>, c: Clock)
    requires InOrder(groups, start) && ch.messages == Messages(groups) && (forall k :: !ch.available(k))
    requires 1 <= n <= |groups| && forall i, j :: 0 <= i < n - 1 && j == i + 1 ==> groups[i].time != groups[j].time
    ensures Stands(ch, start, r, steps, ds, c, groups[n - 1].time, n) && c.time == groups[n - 1].time && !c.unstarted
  {
    var steps0: seq<Step>, ds0: seq<Delivery<T>>, c0: Clock, t: nat;
    if n == 1 {
      steps0, ds0 := [], [Delivery(Receiver(0, 0, false, None, []), [], false)];
      c0, t := Clock(0, true, {Callback(r, start)}, {}), start;
    } else {
      steps0, ds0, c0 := ReachesRead(ch, groups, start, r, n - 1);
      t := groups[n - 2].time;
      assert groups[n - 2].time != groups[n - 1].time;
    }
    hide ComesTo;
    steps, ds, c := NextGroup(ch, start, r, steps0, ds0, c0, t, n - 1, groups[n - 1]);
  }

  /** If a timestamp is split, some run fails. */
  lemma SplitHasFailingRun<T>(groups: seq<Group<T>>, start: nat, r: nat)
    returns (available: nat -> bool, steps: seq<Step>, ds: seq<Delivery<T>>)
    requires InOrder(groups, start) && !NoSplit(groups)
    ensures IsDeliveryRun(Channel(Messages(groups), available), start, r, steps, ds) && ds[|steps|].failed
  {
    var n := FirstSplit(groups);
    available := (k: nat) => false;
    var ch := Channel(Messages(groups), available);
    var steps0, ds0, c0 := ReachesRead(ch, groups, start, r, n);
    ReadLate(ch, ds0[|steps0|].rx, n, groups[n], Due(c0, groups[n - 1].time));
    var c;
    steps, ds, c := NextCycle(ch, start, r, steps0, ds0, c0, groups[n - 1].time);
  }

  lemma FirstSplit<T>(groups: seq<Group<T>>) returns (n: nat)
    requires !NoSplit(groups)
    ensures 1 <= n < |groups| && groups[n - 1].time == groups[n].time
    ensures forall i, j :: 0 <= i < n - 1 && j == i + 1 ==> groups[i].time != groups[j].time
  {
    n := 1;
    while groups[n - 1].time != groups[n].time
      invariant 1 <= n < |groups|
      invariant forall i, j :: 0 <= i < n - 1 && j == i + 1 ==> groups[i].time != groups[j].time
      decreases |groups| - n
    {
      n := n + 1;
      if n == |groups| {
        assert NoSplit(groups);
      }
    }
  }

  lemma {:induction false} NoSplitRises<T>(groups: seq<Group<T>>, start: nat, i: nat, j: nat)
    requires InOrder(groups, start) && NoSplit(groups) && i < j < |groups|
    ensures groups[i].time < groups[j].time
  {
    assert groups[j - 1].time != groups[j].time;
    if i < j - 1 {
      NoSplitRises(groups, start, i, j - 1);
    }
  }

  /** For every time-ordered sequence of messages: no schedule of polls and no run of the engine makes the
      receiver fail if and only if no two adjacent messages share a time. */
  lemma NeverFailsIffNoSplit<T(!new)>(groups: seq<Group<T>>, start: nat, r: nat)
    requires InOrder(groups, start)
    ensures NeverFails(groups, start, r) <==> NoSplit(groups)
  {
    if NoSplit(groups) {
      forall i, j | 0 <= i < j < |groups| ensures groups[i].time < groups[j].time {
        NoSplitRises(groups, start, i, j);
      }
      forall available: nat -> bool, steps: seq<Step>, ds: seq<Delivery<T>>, k: nat
        | IsDeliveryRun(Channel(Messages(groups), available), start, r, steps, ds) && k < |ds|
        ensures !ds[k].failed
      {
        var ch := Channel(Messages(groups), available);
        assert Carries(ch, groups, start);
        if k > 0 {
          EmittedIsWhatIsDue(ch, groups, start, r, steps, ds, k - 1);
        }
      }
    } else {
      var available, steps, ds := SplitHasFailingRun(groups, start, r);
    }
  }

  /** The smallest case: 1 and 2 at one time, in two messages, the second not yet there when it is polled for. */
  lemma TwoMessagesCanFail(start: nat)
    ensures !NeverFails([Group(start, [1]), Group(start, [2])], start, 0)
  {
    var groups := [Group(start, [1]), Group(start, [2])];
    assert groups[0].time == groups[1].time;
    NeverFailsIffNoSplit(groups, start, 0);
  }
}
