/** The historical clock: how the next cycle's time is chosen, which nodes it makes due, and what this
    means for a callback over a whole run. */
module Clocks {

  /** A callback: the node to wake, and when. */
  datatype Callback = Callback(node: nat, time: nat)

  /** `unstarted` until the first cycle has started. */
  datatype Clock = Clock(time: nat, unstarted: bool, scheduled: set<Callback>, always: set<nat>)

  ghost predicate Earliest(callbacks: set<Callback>, t: nat) {
    && (exists c :: c in callbacks && c.time == t)
    && (forall c :: c in callbacks ==> t <= c.time)
  }

  lemma {:induction false} EarliestExists(callbacks: set<Callback>) returns (t: nat)
    requires callbacks != {}
    ensures Earliest(callbacks, t)
    decreases callbacks
  {
    var c :| c in callbacks;
    var rest := callbacks - {c};
    if rest == {} {
      t := c.time;
      assert callbacks == {c};
    } else {
      var u := EarliestExists(rest);
      var d :| d in rest && d.time == u;
      t := if c.time < u then c.time else u;
      assert c in callbacks && d in callbacks;
      assert forall e :: e in callbacks ==> e == c || e in rest;
    }
  }

  /** The time the next cycle runs at; `next` is the earliest scheduled time, if there is one. */
  function CycleTime(c: Clock, next: nat): nat {
    if c.scheduled == {} then (if c.unstarted then c.time else c.time + 1)
    else if c.unstarted then next
    else if next > c.time + 1 then next else c.time + 1
  }

  /** Starting a cycle: the clock moves from `c` to `c'` and marks the nodes of `dirty`. */
  ghost predicate Advances(c: Clock, c': Clock, dirty: set<nat>) {
    && (c.scheduled != {} || c.always != {})
    && (exists next: nat :: (c.scheduled != {} ==> Earliest(c.scheduled, next)) && c'.time == CycleTime(c, next))
    && !c'.unstarted && c'.always == c.always
    && (forall e :: e in c'.scheduled <==> e in c.scheduled && e.time > c'.time)
    && (forall n :: n in dirty <==> n in c.always || exists e :: e in c.scheduled && e.node == n && e.time <= c'.time)
  }

  /** The next cycle runs at the earliest scheduled time, but at least one tick after the present one, which is no
      limit on the first cycle; with nothing scheduled it runs one tick later, and the first one now. */
  lemma NextCycleTime(c: Clock, c': Clock, dirty: set<nat>)
    requires Advances(c, c', dirty)
    ensures c.scheduled == {} ==> c'.time == if c.unstarted then c.time else c.time + 1
    ensures forall t: nat :: Earliest(c.scheduled, t) ==>
              c'.time == if c.unstarted then t else if t > c.time + 1 then t else c.time + 1
    ensures c.scheduled != {} ==> exists t: nat :: Earliest(c.scheduled, t)
  {
    if c.scheduled != {} {
      var t := EarliestExists(c.scheduled);
    }
  }

  /** When a scheduled callback will be delivered, seen from clock `c`. */
  function Due(c: Clock, t: nat): nat {
    if c.unstarted || t > c.time + 1 then t else c.time + 1
  }

  /** A cycle never runs past a pending callback, wakes exactly those whose time has come, and leaves the
      others due when they were. */
  lemma AdvanceMeetsDue(c: Clock, c': Clock, dirty: set<nat>, e: Callback)
    requires Advances(c, c', dirty) && e in c.scheduled
    ensures c'.time <= Due(c, e.time)
    ensures e in c'.scheduled <==> c'.time < Due(c, e.time)
    ensures e in c'.scheduled ==> Due(c', e.time) == Due(c, e.time)
    ensures e !in c'.scheduled ==> e.node in dirty && c'.time == Due(c, e.time)
  {
  }

  // ----- Runs -----

  /** One cycle: the clock before and after it starts, the nodes it marks, and what the nodes request
      while it runs. */
  datatype Step = Step(before: Clock, after: Clock, dirty: set<nat>, requests: set<Callback>, newAlways: set<nat>)

  function Time(s: Step): nat {
    s.after.time
  }

  /** The clock once the cycle is over. */
  function AfterCycle(s: Step): Clock {
    s.after.(scheduled := s.after.scheduled + s.requests, always := s.after.always + s.newAlways)
  }

  ghost predicate Follows(s: Step, s': Step) {
    s'.before == AfterCycle(s)
  }

  /** A callback for `n` is scheduled that is due at `t`. */
  ghost predicate Pending(c: Clock, n: nat, t: nat) {
    exists e :: e in c.scheduled && e.node == n && Due(c, e.time) == t
  }

  /** A cycle runs no later than a pending callback is due; it wakes the node if it is due then, and
      leaves it pending if it is due later. */
  lemma PendingStep(s: Step, n: nat, t: nat)
    requires Advances(s.before, s.after, s.dirty) && Pending(s.before, n, t)
    ensures Time(s) <= t
    ensures Time(s) == t ==> n in s.dirty
    ensures Time(s) < t ==> Pending(AfterCycle(s), n, t)
  {
    var e :| e in s.before.scheduled && e.node == n && Due(s.before, e.time) == t;
    AdvanceMeetsDue(s.before, s.after, s.dirty, e);
    assert Time(s) < t ==> e in AfterCycle(s).scheduled && Due(AfterCycle(s), e.time) == t;
  }

  /** What a node requests during a cycle is pending after it. */
  lemma RequestPending(s: Step, n: nat, t: nat)
    requires Advances(s.before, s.after, s.dirty) && Callback(n, t) in s.requests
    ensures Pending(AfterCycle(s), n, DueAfter(s, t))
  {
    assert Callback(n, t) in AfterCycle(s).scheduled;
  }

  lemma ClockMovesOn(s: Step)
    requires Advances(s.before, s.after, s.dirty) && (s.before.unstarted ==> s.before.time == 0)
    ensures if s.before.unstarted then s.before.time <= Time(s) else s.before.time < Time(s)
    ensures AfterCycle(s).time == Time(s) && !AfterCycle(s).unstarted
  {
  }

  ghost predicate IsRun(steps: seq<Step>) {
    && (|steps| > 0 ==> steps[0].before.unstarted && steps[0].before.time == 0)
    && (forall i :: 0 <= i < |steps| ==> Advances(steps[i].before, steps[i].after, steps[i].dirty))
    && (forall i, j :: 0 <= i < |steps| - 1 && j == i + 1 ==> Follows(steps[i], steps[j]))
  }

  lemma {:induction false} TimeIncreases(steps: seq<Step>, i: nat, j: nat)
    requires IsRun(steps) && i < j < |steps|
    ensures Time(steps[i]) < Time(steps[j])
    decreases j
  {
    assert Follows(steps[j - 1], steps[j]);
    assert Advances(steps[j - 1].before, steps[j - 1].after, steps[j - 1].dirty);
    assert Advances(steps[j].before, steps[j].after, steps[j].dirty);
    if i < j - 1 {
      TimeIncreases(steps, i, j - 1);
    }
  }

  /** A callback pending before cycle `i` is pending or delivered at any later cycle, at its due time. */
  lemma {:induction false} PendingUntilDue(steps: seq<Step>, e: Callback, i: nat, j: nat)
    requires IsRun(steps) && i <= j < |steps| && e in steps[i].before.scheduled
    ensures Due(steps[i].before, e.time) <= Time(steps[j]) ==>
              exists m :: i <= m <= j && Time(steps[m]) == Due(steps[i].before, e.time) && e.node in steps[m].dirty
    ensures Due(steps[i].before, e.time) > Time(steps[j]) ==>
              e in steps[j].after.scheduled && Due(steps[j].after, e.time) == Due(steps[i].before, e.time)
    decreases j
  {
    var d := Due(steps[i].before, e.time);
    if i < j {
      PendingUntilDue(steps, e, i, j - 1);
      assert Follows(steps[j - 1], steps[j]);
      if d > Time(steps[j - 1]) {
        AdvanceMeetsDue(steps[j].before, steps[j].after, steps[j].dirty, e);
      }
    } else {
      AdvanceMeetsDue(steps[j].before, steps[j].after, steps[j].dirty, e);
    }
  }

  /** When a callback requested during cycle `i` for time `t` is due. */
  function DueAfter(s: Step, t: nat): nat {
    if t > Time(s) then t else Time(s) + 1
  }

  /** A requested callback is delivered at exactly its due time, in any run that gets that far. */
  lemma CallbackDelivered(steps: seq<Step>, i: nat, e: Callback, j: nat)
    requires IsRun(steps) && i < j < |steps| && e in steps[i].requests
    requires DueAfter(steps[i], e.time) <= Time(steps[j])
    ensures exists m :: i < m <= j && Time(steps[m]) == DueAfter(steps[i], e.time) && e.node in steps[m].dirty
  {
    assert Follows(steps[i], steps[i + 1]) && Advances(steps[i].before, steps[i].after, steps[i].dirty);
    PendingUntilDue(steps, e, i + 1, j);
  }

  /** A callback requested for the present or the past comes in the very next cycle, one tick later. */
  lemma OverdueComesNext(steps: seq<Step>, i: nat, e: Callback)
    requires IsRun(steps) && i + 1 < |steps| && e in steps[i].requests && e.time <= Time(steps[i])
    ensures Time(steps[i + 1]) == Time(steps[i]) + 1 && e.node in steps[i + 1].dirty
  {
    assert Follows(steps[i], steps[i + 1]);
    assert Advances(steps[i].before, steps[i].after, steps[i].dirty);
    AdvanceMeetsDue(steps[i + 1].before, steps[i + 1].after, steps[i + 1].dirty, e);
    TimeIncreases(steps, i, i + 1);
  }

  /** `n` has a callback, requested before or during an earlier cycle, that is due exactly now. */
  ghost predicate DueNow(steps: seq<Step>, n: nat, m: nat)
    requires m < |steps|
  {
    || (exists e :: e in steps[0].before.scheduled && e.node == n && e.time == Time(steps[m]))
    || (exists i, e ::
         0 <= i < m && e in steps[i].requests && e.node == n && DueAfter(steps[i], e.time) == Time(steps[m]))
  }

  /** Every pending callback has a request behind it with the same due time. */
  lemma {:induction false} PendingHasOrigin(steps: seq<Step>, e: Callback, m: nat)
    requires IsRun(steps) && m < |steps| && e in steps[m].before.scheduled
    ensures || (e in steps[0].before.scheduled && Due(steps[m].before, e.time) == e.time)
            || (exists i ::
                 0 <= i < m && e in steps[i].requests && DueAfter(steps[i], e.time) == Due(steps[m].before, e.time))
    decreases m
  {
    if m > 0 {
      assert Follows(steps[m - 1], steps[m]);
      assert Advances(steps[m - 1].before, steps[m - 1].after, steps[m - 1].dirty);
      if e in steps[m - 1].after.scheduled {
        AdvanceMeetsDue(steps[m - 1].before, steps[m - 1].after, steps[m - 1].dirty, e);
        PendingHasOrigin(steps, e, m - 1);
      }
    }
  }

  /** The clock marks a node exactly when it runs always or one of its callbacks is due now. */
  lemma MarkedExactly(steps: seq<Step>, n: nat, m: nat)
    requires IsRun(steps) && m < |steps|
    ensures n in steps[m].dirty <==> n in steps[m].before.always || DueNow(steps, n, m)
  {
    var s := steps[m];
    if n in s.dirty && n !in s.before.always {
      var e :| e in s.before.scheduled && e.node == n && e.time <= s.after.time;
      AdvanceMeetsDue(s.before, s.after, s.dirty, e);
      PendingHasOrigin(steps, e, m);
    }
    if DueNow(steps, n, m) {
      DueNowIsMarked(steps, n, m);
    }
  }

  lemma DueNowIsMarked(steps: seq<Step>, n: nat, m: nat)
    requires IsRun(steps) && m < |steps| && DueNow(steps, n, m)
    ensures n in steps[m].dirty
  {
    assert steps[0].before.unstarted;
    hide IsRun;
    if e :| e in steps[0].before.scheduled && e.node == n && e.time == Time(steps[m]) {
      PendingUntilDue(steps, e, 0, m);
      var k :| 0 <= k <= m && Time(steps[k]) == e.time && e.node in steps[k].dirty;
      SameTimeSameCycle(steps, k, m);
    } else {
      var i, e :| 0 <= i < m && e in steps[i].requests && e.node == n && DueAfter(steps[i], e.time) == Time(steps[m]);
      CallbackDelivered(steps, i, e, m);
      var k :| i < k <= m && Time(steps[k]) == Time(steps[m]) && e.node in steps[k].dirty;
      SameTimeSameCycle(steps, k, m);
    }
  }

  lemma SameTimeSameCycle(steps: seq<Step>, k: nat, m: nat)
    requires IsRun(steps) && k <= m < |steps| && Time(steps[k]) == Time(steps[m])
    ensures k == m
  {
    if k < m {
      TimeIncreases(steps, k, m);
    }
  }

  /** A node that asks to run always is marked in every cycle from then on. */
  lemma {:induction false} AlwaysIsMarked(steps: seq<Step>, i: nat, n: nat, j: nat)
    requires IsRun(steps) && i < j < |steps| && n in steps[i].newAlways
    ensures n in steps[j].dirty && n in steps[j].before.always
    decreases j
  {
    assert Follows(steps[j - 1], steps[j]) && Advances(steps[j].before, steps[j].after, steps[j].dirty);
    if i < j - 1 {
      AlwaysIsMarked(steps, i, n, j - 1);
      assert Advances(steps[j - 1].before, steps[j - 1].after, steps[j - 1].dirty);
    }
  }
}
