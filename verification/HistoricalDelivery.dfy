/** Delivery in historical mode does not depend on when messages become available: coupled to the clock, an
    untriggered receiver emits every group at its own time, whatever the polls find. */
module HistoricalDelivery {
  import opened TimeQueues
  import opened Clocks
  import opened HistoricalChannel

  /** The channel carries these groups and then ends. */
  ghost predicate Carries<T>(ch: Channel<T>, groups: seq<Group<T>>, start: nat) {
    && |groups| <= |ch.messages|
    && (forall i :: 0 <= i < |groups| ==> ch.messages[i] == HistoricalValue(groups[i]))
    && (forall i :: |groups| <= i < |ch.messages| ==> ch.messages[i] == EndOfStream)
    && OnePerTime(groups, start)
  }

  /** One non-empty burst per distinct time, in order. */
  ghost predicate OnePerTime<T>(groups: seq<Group<T>>, start: nat) {
    && (forall i :: 0 <= i < |groups| ==> groups[i].time >= start && groups[i].burst != [])
    && (forall i, j :: 0 <= i < j < |groups| ==> groups[i].time < groups[j].time)
  }

  // ----- Where the receiver can be between its cycles, with `n` groups emitted -----

  /** Nothing read ahead; the next read blocks. */
  ghost predicate Blocked<T>(st: Receiver<T>, n: nat) {
    st.pos == n && !st.finished && st.messageTime.None? && st.queue == []
  }

  /** Group `n` has been read and waits for its time. */
  ghost predicate Ahead<T>(st: Receiver<T>, groups: seq<Group<T>>, n: nat) {
    n < |groups| && st.pos == n + 1 && !st.finished && st.messageTime == Some(groups[n].time) && st.queue == [groups[n]]
  }

  ghost predicate Over<T>(st: Receiver<T>, groups: seq<Group<T>>, n: nat) {
    n == |groups| && st.finished && st.queue == []
  }

  /** A cycle at `now` that starts with `n` groups emitted does the right thing: it emits group `n` if that is
      its time and nothing otherwise, and asks to be woken for the next one. */
  ghost predicate Lands<T>(groups: seq<Group<T>>, c: Cycled<T>, now: nat, n: nat) {
    if n < |groups| && groups[n].time == now then
      c.burst == groups[n].burst &&
        (Finishes(groups, c, n + 1) || ReadsAhead(groups, c, n + 1) || Blocks(c, now, n + 1))
    else
      c.burst == [] && (Finishes(groups, c, n) || ReadsAhead(groups, c, n))
  }

  ghost predicate Finishes<T>(groups: seq<Group<T>>, c: Cycled<T>, n: nat) {
    Over(c.state, groups, n) && c.wakeup.None?
  }

  ghost predicate ReadsAhead<T>(groups: seq<Group<T>>, c: Cycled<T>, n: nat) {
    Ahead(c.state, groups, n) && c.wakeup == Some(groups[n].time)
  }

  ghost predicate Blocks<T>(c: Cycled<T>, now: nat, n: nat) {
    Blocked(c.state, n) && c.wakeup == Some(now)
  }

  lemma DeliverOne<T>(st: Receiver<T>, g: Group<T>, rest: seq<Group<T>>, now: nat)
    requires st.queue == [g] + rest && g.time == now && (rest != [] ==> rest[0].time > now)
    ensures DueGroups(st.queue, now) == 1 && st.queue[1..] == rest && Values(st.queue[..1]) == g.burst
  {
    assert st.queue[1..] == rest;
    assert DueGroups(rest, now) == 0;
    assert st.queue[..1] == [g] && [g][1..] == [];
    assert Values([g]) == g.burst + Values([]);
  }

  /** Caught up with group `n` at its own time: a poll decides how much is read ahead, not what is emitted. */
  lemma CaughtUpCycle<T>(ch: Channel<T>, groups: seq<Group<T>>, start: nat, st: Receiver<T>, now: nat, n: nat)
    requires Carries(ch, groups, start) && Ahead(st, groups, n) && groups[n].time == now
    ensures ReceiverCycle(ch, st, now, false).Done? && Lands(groups, ReceiverCycle(ch, st, now, false).state, now, n)
  {
    var polled := st.(polls := st.polls + 1);
    if !ch.available(st.polls) {
      assert Read(ch, st, now, false) == Done(polled);
      DeliverOne(polled, groups[n], [], now);
    } else {
      var m := Next(ch, n + 1);
      if n + 1 < |groups| {
        assert m == HistoricalValue(groups[n + 1]);
        var next := groups[n + 1];
        var st2 := polled.(pos := n + 2, messageTime := Some(next.time), queue := polled.queue + [next]);
        assert Take(polled, m, now) == Done(st2) && Read(ch, st2, now, false) == Done(st2);
        assert st2.queue == [groups[n]] + [groups[n + 1]];
        DeliverOne(st2, groups[n], [groups[n + 1]], now);
      } else {
        assert m == EndOfStream;
        var st2 := polled.(pos := n + 2, finished := true);
        assert Take(polled, m, now) == Done(st2) && Read(ch, st2, now, false) == Done(st2);
        DeliverOne(st2, groups[n], [], now);
      }
    }
  }

  /** Read ahead of the clock: a cycle before the group's time changes nothing. */
  lemma EarlyCycle<T>(ch: Channel<T>, groups: seq<Group<T>>, st: Receiver<T>, now: nat, n: nat)
    requires Ahead(st, groups, n) && groups[n].time > now
    ensures ReceiverCycle(ch, st, now, false).Done? && Lands(groups, ReceiverCycle(ch, st, now, false).state, now, n)
  {
    assert Read(ch, st, now, false) == Done(st);
    assert st.queue[0..] == st.queue && st.queue[..0] == [];
  }

  /** With nothing read ahead the receiver blocks for the next message, which is not in the past. */
  lemma BlockedCycle<T>(ch: Channel<T>, groups: seq<Group<T>>, start: nat, st: Receiver<T>, now: nat, n: nat)
    requires Carries(ch, groups, start) && Blocked(st, n) && n <= |groups|
    requires n < |groups| ==> groups[n].time >= now
    ensures ReceiverCycle(ch, st, now, false).Done? && Lands(groups, ReceiverCycle(ch, st, now, false).state, now, n)
  {
    var m := Next(ch, n);
    if n == |groups| {
      var st1 := st.(pos := n + 1, finished := true);
      assert Take(st, m, now) == Done(st1) && Read(ch, st1, now, false) == Done(st1);
      assert st1.queue[0..] == [] && st1.queue[..0] == [];
    } else {
      var st1 := st.(pos := n + 1, messageTime := Some(groups[n].time), queue := [groups[n]]);
      assert st.queue + [groups[n]] == [groups[n]];
      assert Take(st, m, now) == Done(st1) && Read(ch, st, now, false) == Read(ch, st1, now, false);
      if groups[n].time == now {
        CaughtUpCycle(ch, groups, start, st1, now, n);
      } else {
        EarlyCycle(ch, groups, st1, now, n);
      }
    }
  }

  lemma OverCycle<T>(ch: Channel<T>, groups: seq<Group<T>>, st: Receiver<T>, now: nat, n: nat)
    requires Over(st, groups, n)
    ensures ReceiverCycle(ch, st, now, false).Done? && Lands(groups, ReceiverCycle(ch, st, now, false).state, now, n)
  {
    assert st.queue[0..] == [] && st.queue[..0] == [];
  }

  // ----- Coupled to the clock -----

  /** The receiver, what it has emitted (each burst with its engine time), and whether it reported an error. */
  datatype Delivery<T> = Delivery(rx: Receiver<T>, emitted: seq<Group<T>>, failed: bool)

  /** One engine cycle, seen by receiver node `r`: it runs if the clock marked it, and its wake-up request
      goes to the scheduler. */
  ghost predicate DeliveryStep<T>(ch: Channel<T>, r: nat, s: Step, d: Delivery<T>, d': Delivery<T>) {
    if r !in s.dirty || d.failed then d' == d
    else
      match ReceiverCycle(ch, d.rx, Time(s), false)
      case Fail(_) => d' == d.(failed := true)
      case Done(c) =>
        && d' == Delivery(c.state, d.emitted + Emission(Time(s), c.burst), false)
        && (c.wakeup.Some? ==> Callback(r, c.wakeup.value) in s.requests)
  }

  function Emission<T>(time: nat, burst: seq<T>): seq<Group<T>> {
    if burst == [] then [] else [Group(time, burst)]
  }

  /** Exactly the first `n` groups are out, and the receiver will be woken in time for the next. */
  ghost predicate InStep<T>(groups: seq<Group<T>>, r: nat, c: Clock, d: Delivery<T>, n: nat) {
    && !d.failed && n <= |groups| && d.emitted == groups[..n]
    && (n > 0 ==> !c.unstarted && groups[n - 1].time <= c.time)
    && (Over(d.rx, groups, n) || (Ahead(d.rx, groups, n) && Pending(c, r, groups[n].time)) ||
       Waits(groups, r, c, d.rx, n))
  }

  ghost predicate Waits<T>(groups: seq<Group<T>>, r: nat, c: Clock, st: Receiver<T>, n: nat) {
    Blocked(st, n) && exists t: nat :: Pending(c, r, t) && (n < |groups| ==> t <= groups[n].time)
  }

  /** What is pending lies in the future, so the next group is not late. */
  lemma NextIsNotLate<T>(groups: seq<Group<T>>, r: nat, c: Clock, d: Delivery<T>, n: nat)
    requires InStep(groups, r, c, d, n)
    ensures n < |groups| && !c.unstarted ==> groups[n].time > c.time
  {
  }

  /** The wake-up that is pending is early enough, and is a cycle of the receiver if the clock gets there. */
  lemma WokenInTime<T>(groups: seq<Group<T>>, r: nat, s: Step, d: Delivery<T>, n: nat)
    requires Advances(s.before, s.after, s.dirty) && InStep(groups, r, s.before, d, n)
    ensures n < |groups| ==> Time(s) <= groups[n].time
    ensures r !in s.dirty && n < |groups| ==> Time(s) < groups[n].time
    ensures r !in s.dirty && Ahead(d.rx, groups, n) ==> Pending(AfterCycle(s), r, groups[n].time)
    ensures r !in s.dirty && Blocked(d.rx, n) ==> Waits(groups, r, AfterCycle(s), d.rx, n)
  {
    if Ahead(d.rx, groups, n) {
      PendingStep(s, r, groups[n].time);
    }
    if Blocked(d.rx, n) {
      assert Waits(groups, r, s.before, d.rx, n);
      var t: nat :| Pending(s.before, r, t) && (n < |groups| ==> t <= groups[n].time);
      PendingStep(s, r, t);
    }
  }

  /** A cycle that lands keeps the receiver in step. */
  lemma LandedInStep<T>(groups: seq<Group<T>>, r: nat, s: Step, d: Delivery<T>, c: Cycled<T>, n: nat)
    requires Advances(s.before, s.after, s.dirty)
    requires forall i :: 0 <= i < |groups| ==> groups[i].burst != []
    requires forall i, j :: 0 <= i < j < |groups| ==> groups[i].time < groups[j].time
    requires n <= |groups| && d.emitted == groups[..n] && (n > 0 ==> groups[n - 1].time <= Time(s))
    requires Lands(groups, c, Time(s), n) && (n < |groups| ==> Time(s) <= groups[n].time)
    requires c.wakeup.Some? ==> Callback(r, c.wakeup.value) in s.requests
    ensures exists n': nat ::
              InStep(groups, r, AfterCycle(s), Delivery(c.state, d.emitted + Emission(Time(s), c.burst), false), n')
  {
    var now := Time(s);
    var d' := Delivery(c.state, d.emitted + Emission(now, c.burst), false);
    var n' := if n < |groups| && groups[n].time == now then n + 1 else n;
    assert d'.emitted == groups[..n'];
    if c.wakeup.Some? {
      RequestPending(s, r, c.wakeup.value);
    }
    assert InStep(groups, r, AfterCycle(s), d', n');
  }

  /** Every engine cycle keeps the receiver in step, whatever its polls find. */
  lemma StaysInStep<T>(ch: Channel<T>, groups: seq<Group<T>>, start: nat, r: nat, s: Step, d: Delivery<T>,
                       d': Delivery<T>, n: nat)
    requires Carries(ch, groups, start) && InStep(groups, r, s.before, d, n)
    requires Advances(s.before, s.after, s.dirty) && (s.before.unstarted ==> s.before.time == 0)
    requires DeliveryStep(ch, r, s, d, d')
    ensures exists n': nat :: InStep(groups, r, AfterCycle(s), d', n')
  {
    WokenInTime(groups, r, s, d, n);
    ClockMovesOn(s);
    if r in s.dirty {
      hide ReceiverCycle, Carries;
      if Over(d.rx, groups, n) {
        OverCycle(ch, groups, d.rx, Time(s), n);
      } else if Ahead(d.rx, groups, n) && groups[n].time > Time(s) {
        EarlyCycle(ch, groups, d.rx, Time(s), n);
      } else if Ahead(d.rx, groups, n) {
        CaughtUpCycle(ch, groups, start, d.rx, Time(s), n);
      } else {
        BlockedCycle(ch, groups, start, d.rx, Time(s), n);
      }
      var c := ReceiverCycle(ch, d.rx, Time(s), false).state;
      GroupsOrdered(ch, groups, start);
      LandedInStep(groups, r, s, d, c, n);
    } else {
      assert InStep(groups, r, AfterCycle(s), d', n);
    }
  }

  lemma GroupsOrdered<T>(ch: Channel<T>, groups: seq<Group<T>>, start: nat)
    requires Carries(ch, groups, start)
    ensures forall i :: 0 <= i < |groups| ==> groups[i].burst != []
    ensures forall i, j :: 0 <= i < j < |groups| ==> groups[i].time < groups[j].time
  {
  }

  // ----- Whole runs -----

  /** A run of the engine with the receiver in it; setup has asked for a wake-up at the start. */
  ghost predicate IsDeliveryRun<T>(ch: Channel<T>, start: nat, r: nat, steps: seq<Step>, ds: seq<Delivery<T>>) {
    && IsRun(steps) && |steps| > 0 && |ds| == |steps| + 1
    && Callback(r, start) in steps[0].before.scheduled
    && ds[0] == Delivery(Receiver(0, 0, false, None, []), [], false)
    && (forall i, j :: 0 <= i < |steps| && j == i + 1 ==> DeliveryStep(ch, r, steps[i], ds[i], ds[j]))
  }

  /** A wake-up pending at the start, which setup asks for, is all it takes to begin in step. */
  lemma SetupPutsInStep<T>(groups: seq<Group<T>>, start: nat, r: nat, c: Clock)
    requires OnePerTime(groups, start) && Pending(c, r, start)
    ensures InStep(groups, r, c, Delivery(Receiver(0, 0, false, None, []), [], false), 0)
  {
    assert groups[..0] == [];
  }

  lemma {:induction false} InStepAfter<T>(ch: Channel<T>, groups: seq<Group<T>>, start: nat, r: nat, steps: seq<Step>,
                                          ds: seq<Delivery<T>>, k: nat)
    returns (n: nat)
    requires Carries(ch, groups, start) && IsDeliveryRun(ch, start, r, steps, ds) && k < |steps|
    ensures InStep(groups, r, AfterCycle(steps[k]), ds[k + 1], n)
  {
    var m: nat;
    assert Advances(steps[k].before, steps[k].after, steps[k].dirty) && DeliveryStep(ch, r, steps[k], ds[k], ds[k + 1]);
    if k == 0 {
      m := 0;
      assert Pending(steps[0].before, r, start);
      SetupPutsInStep(groups, start, r, steps[0].before);
    } else {
      hide DeliveryStep, InStep, Carries;
      m := InStepAfter(ch, groups, start, r, steps, ds, k - 1);
      assert Follows(steps[k - 1], steps[k]);
      assert Advances(steps[k - 1].before, steps[k - 1].after, steps[k - 1].dirty);
    }
    StaysInStep(ch, groups, start, r, steps[k], ds[k], ds[k + 1], m);
    n :| InStep(groups, r, AfterCycle(steps[k]), ds[k + 1], n);
  }

  lemma {:induction false} DueGroupsIs<T>(groups: seq<Group<T>>, now: nat, n: nat)
    requires n <= |groups|
    requires forall i :: 0 <= i < n ==> groups[i].time <= now
    requires n < |groups| ==> groups[n].time > now
    ensures DueGroups(groups, now) == n
  {
    if n > 0 {
      DueGroupsIs(groups[1..], now, n - 1);
    }
  }

  /** Delivery is independent of message timing: after every cycle of every run, whatever the polls found,
      no error has been reported and what has been emitted is exactly the groups whose time has come, each
      at its own time; and as long as one is missing, the clock has not run dry. */
  lemma EmittedIsWhatIsDue<T>(ch: Channel<T>, groups: seq<Group<T>>, start: nat, r: nat, steps: seq<Step>,
                              ds: seq<Delivery<T>>, k: nat)
    requires Carries(ch, groups, start) && IsDeliveryRun(ch, start, r, steps, ds) && k < |steps|
    ensures !ds[k + 1].failed
    ensures ds[k + 1].emitted == groups[..DueGroups(groups, Time(steps[k]))]
    ensures AfterCycle(steps[k]).scheduled == {} ==> ds[k + 1].emitted == groups
  {
    var n := InStepAfter(ch, groups, start, r, steps, ds, k);
    var c, d := AfterCycle(steps[k]), ds[k + 1];
    assert Advances(steps[k].before, steps[k].after, steps[k].dirty);
    NextIsNotLate(groups, r, c, d, n);
    GroupsOrdered(ch, groups, start);
    DueGroupsIs(groups, Time(steps[k]), n);
    if c.scheduled == {} {
      assert forall t :: !Pending(c, r, t);
      assert groups[..|groups|] == groups;
    }
  }

  // ----- From the producer's source to the receiver's bursts -----

  /** The stamped values in a run of bursts. */
  function Items<T>(groups: seq<Group<T>>): seq<Item<T>> {
    if groups == [] then [] else Items(groups[..|groups| - 1]) + ItemsOf(groups[|groups| - 1])
  }

  lemma {:induction false} ItemsAppend<T>(a: seq<Group<T>>, b: seq<Group<T>>)
    ensures Items(a + b) == Items(a) + Items(b)
    decreases |b|
  {
    if b == [] {
      assert a + b == a;
    } else {
      var init, last := b[..|b| - 1], b[|b| - 1];
      ItemsAppend(a, init);
      assert (a + b)[..|a + b| - 1] == a + init;
    }
  }

  function Unwrapped<T>(messages: seq<Message<T>>): (r: seq<Group<T>>)
    requires forall i :: 0 <= i < |messages| ==> messages[i].HistoricalValue?
    ensures |r| == |messages| && forall i :: 0 <= i < |r| ==> r[i] == messages[i].group
  {
    if messages == [] then [] else Unwrapped(messages[..|messages| - 1]) + [messages[|messages| - 1].group]
  }

  lemma {:induction false} ItemsUnwrapped<T>(messages: seq<Message<T>>)
    requires forall i :: 0 <= i < |messages| ==> messages[i].HistoricalValue?
    ensures Items(Unwrapped(messages)) == Flatten(messages)
  {
    if messages != [] {
      var init, groups := messages[..|messages| - 1], Unwrapped(messages);
      ItemsUnwrapped(init);
      assert groups[..|groups| - 1] == Unwrapped(init);
    }
  }

  /** Every value of a run of bursts carries the time of one of them. */
  lemma {:induction false} ItemTimes<T>(groups: seq<Group<T>>, x: Item<T>)
    requires x in Items(groups)
    ensures x.Value? && exists g :: g in groups && g.time == x.time
  {
    var init, last := groups[..|groups| - 1], groups[|groups| - 1];
    if x in Items(init) {
      ItemTimes(init, x);
      var g :| g in init && g.time == x.time;
      assert g in groups;
    } else {
      assert x in ItemsOf(last) && last in groups;
    }
  }

  /** End to end: a time-ordered source, grouped by the producer, reaches the graph as exactly those of its
      values whose time has come, in order, one burst per distinct time; nothing is lost, duplicated or late. */
  lemma SourceReachesGraph<T>(source: seq<Item<T>>, ch: Channel<T>, start: nat, r: nat,
                              steps: seq<Step>, ds: seq<Delivery<T>>, k: nat) returns (later: seq<Item<T>>)
    requires TimeOrdered(source, start) && Sends(ch.messages, source)
    requires IsDeliveryRun(ch, start, r, steps, ds) && k < |steps|
    ensures !ds[k + 1].failed && OnePerTime(ds[k + 1].emitted, start)
    ensures Items(ds[k + 1].emitted) + later == source
    ensures forall x :: x in Items(ds[k + 1].emitted) ==> x.Value? && x.time <= Time(steps[k])
    ensures forall x :: x in later ==> x.Value? && x.time > Time(steps[k])
    ensures AfterCycle(steps[k]).scheduled == {} ==> later == []
  {
    var groups := GroupsOf(source, ch, start);
    EmittedIsWhatIsDue(ch, groups, start, r, steps, ds, k);
    assert OnePerTime(groups, start);
    hide *;
    later := DueItems(groups, start, Time(steps[k]));
    if AfterCycle(steps[k]).scheduled == {} {
      assert |later| == 0;
    }
  }

  lemma GroupsOf<T>(source: seq<Item<T>>, ch: Channel<T>, start: nat) returns (groups: seq<Group<T>>)
    requires TimeOrdered(source, start) && Sends(ch.messages, source)
    ensures Carries(ch, groups, start) && Items(groups) == source
  {
    var n :| 0 <= n < |ch.messages| && SendsGroups(ch.messages, n, source);
    var messages := ch.messages[..n];
    OrderedSourceGivesStrictGroups(messages, source, start);
    assert forall i :: 0 <= i < |messages| ==> messages[i].HistoricalValue?;
    groups := Unwrapped(messages);
    ItemsUnwrapped(messages);
    UnwrappedOnePerTime(messages, start);
    CarriesUnwrapped(ch, messages, start);
    hide *;
  }

  lemma {:induction false} CarriesUnwrapped<T>(ch: Channel<T>, messages: seq<Message<T>>, start: nat)
    requires (forall i :: 0 <= i < |messages| ==> messages[i].HistoricalValue?) &&
             OnePerTime(Unwrapped(messages), start)
    requires |messages| <= |ch.messages| && messages == ch.messages[..|messages|]
    requires forall i :: |messages| <= i < |ch.messages| ==> ch.messages[i] == EndOfStream
    ensures Carries(ch, Unwrapped(messages), start)
  {
    hide Unwrapped, OnePerTime;
    var groups := Unwrapped(messages);
    forall i | 0 <= i < |groups| ensures ch.messages[i] == HistoricalValue(groups[i]) {
      assert ch.messages[i] == messages[i];
    }
  }

  lemma UnwrappedOnePerTime<T>(messages: seq<Message<T>>, start: nat)
    requires Canonical(messages) && StrictGroups(messages, start)
    ensures OnePerTime(Unwrapped(messages), start)
  {
    hide Unwrapped;
    var groups := Unwrapped(messages);
    forall i | 0 <= i < |groups| ensures groups[i].time >= start && groups[i].burst != [] {
      assert messages[i].HistoricalValue?;
    }
    hide Canonical;
  }

  /** The groups that are due hold exactly the values that are due. */
  lemma DueItems<T>(groups: seq<Group<T>>, start: nat, now: nat) returns (later: seq<Item<T>>)
    requires OnePerTime(groups, start)
    ensures OnePerTime(groups[..DueGroups(groups, now)], start)
    ensures Items(groups[..DueGroups(groups, now)]) + later == Items(groups)
    ensures forall x :: x in Items(groups[..DueGroups(groups, now)]) ==> x.Value? && x.time <= now
    ensures forall x :: x in later ==> x.Value? && x.time > now
  {
    DueSplits(groups, now);
    var n := DueGroups(groups, now);
    var due, rest := groups[..n], groups[n..];
    later := Items(rest);
    assert due + rest == groups && OnePerTime(due, start);
    TimesBy(due, now);
    TimesAfter(rest, now);
    hide *;
    ItemsAppend(due, rest);
  }

  lemma TimesBy<T>(groups: seq<Group<T>>, now: nat)
    requires forall g :: g in groups ==> g.time <= now
    ensures forall x :: x in Items(groups) ==> x.Value? && x.time <= now
  {
    forall x | x in Items(groups) ensures x.Value? && x.time <= now {
      ItemTimes(groups, x);
    }
  }

  lemma TimesAfter<T>(groups: seq<Group<T>>, now: nat)
    requires forall g :: g in groups ==> g.time > now
    ensures forall x :: x in Items(groups) ==> x.Value? && x.time > now
  {
    forall x | x in Items(groups) ensures x.Value? && x.time > now {
      ItemTimes(groups, x);
    }
  }

  lemma {:induction false} DueSplits<T>(groups: seq<Group<T>>, now: nat)
    requires forall i, j :: 0 <= i < j < |groups| ==> groups[i].time < groups[j].time
    ensures forall i :: 0 <= i < DueGroups(groups, now) ==> groups[i].time <= now
    ensures forall i :: DueGroups(groups, now) <= i < |groups| ==> groups[i].time > now
  {
    if groups != [] && groups[0].time <= now {
      var rest := groups[1..];
      DueSplits(rest, now);
      forall i | 0 <= i < |groups| ensures i < DueGroups(groups, now) <==> groups[i].time <= now {
        if i > 0 {
          assert groups[i] == rest[i - 1];
        }
      }
    }
  }
}
