/** The run loop in historical mode: callbacks drive the clock, bounds end the run. */
module RunLoop {
  import opened TimeQueues
  import opened Clocks

  const U32_MAX: nat := 0xFFFF_FFFF
  const NANO_TIME_MAX: nat := 0xFFFF_FFFF_FFFF_FFFF

  datatype RunFor = Duration(nanos: nat) | Cycles(count: nat) | Forever

  /** What comes in during one cycle: callbacks the nodes ask for, nodes that want to run in every cycle, and
      notifications from other threads. */
  datatype Asked = Asked(callbacks: seq<Callback>, always: seq<nat>, notified: seq<nat>)

  function EndTime(runFor: RunFor, start: nat): nat {
    if runFor.Duration? then start + runFor.nanos else NANO_TIME_MAX
  }

  function EndCycle(runFor: RunFor): nat {
    if runFor.Cycles? then runFor.count else U32_MAX
  }

  function CallbackOf(e: Entry<nat>): Callback {
    Callback(e.value, e.time)
  }

  function CallbacksOf(s: seq<Callback>): (r: set<Callback>)
    ensures forall c :: c in r <==> c in s
  {
    if s == [] then {} else {s[0]} + CallbacksOf(s[1..])
  }

  lemma CallbacksGrow(s: seq<Callback>, i: nat)
    requires i < |s|
    ensures CallbacksOf(s[..i + 1]) == CallbacksOf(s[..i]) + {s[i]}
  {
    assert s[..i + 1] == s[..i] + [s[i]];
  }

  lemma SetGrows(s: seq<nat>, i: nat)
    requires i < |s|
    ensures SetOf(s[..i + 1]) == SetOf(s[..i]) + {s[i]}
  {
    assert s[..i + 1] == s[..i] + [s[i]];
  }

  function SetOf(s: seq<nat>): (r: set<nat>)
    ensures forall x :: x in r <==> x in s
  {
    if s == [] then {} else {s[0]} + SetOf(s[1..])
  }

  function CallbackSet(q: seq<Entry<nat>>): (r: set<Callback>)
    ensures forall c :: c in r <==> Entry(c.node, c.time) in q
  {
    if q == [] then {} else
      assert q[0] == Entry(q[0].value, q[0].time);
      {CallbackOf(q[0])} + CallbackSet(q[1..])
  }

  class Scheduler {
    var time: nat
    var firstCycle: bool
    var isLastCycle: bool
    var always: seq<nat>
    /** Notifications from real-time sources; in a historical run any of them is an error. */
    var ready: seq<nat>
    const scheduled: TimeQueue<nat>

    ghost predicate Valid()
      reads this, scheduled
    {
      scheduled.Valid()
    }

    /** The clock this scheduler implements. */
    ghost function View(): Clock
      reads this, scheduled
    {
      Clock(time, firstCycle, CallbackSet(scheduled.entries), SetOf(always))
    }

    constructor ()
      ensures Valid() && View() == Clock(0, true, {}, {}) && !isLastCycle && ready == [] && fresh(scheduled)
    {
      time, firstCycle, isLastCycle, always, ready := 0, true, false, [], [];
      scheduled := new TimeQueue();
    }

    method AddCallback(c: Callback)
      requires Valid()
      modifies scheduled
      ensures Valid() && View() == old(View()).(scheduled := old(View()).scheduled + {c})
    {
      scheduled.Push(c.node, c.time);
      assert CallbackSet(scheduled.entries) == old(CallbackSet(scheduled.entries)) + {c};
    }

    /** Registering a node to run in every cycle is idempotent. */
    method AlwaysCallback(n: nat)
      requires Valid()
      modifies this`always
      ensures Valid() && View() == old(View()).(always := old(View()).always + {n})
      ensures n in old(always) ==> always == old(always)
    {
      if n !in always {
        always := always + [n];
      }
      assert SetOf(always) == old(SetOf(always)) + {n};
    }

    /** Pop every callback that has come due. */
    method DrainDue() returns (progressed: bool, due: set<nat>)
      requires Valid()
      modifies scheduled
      ensures Valid()
      ensures forall e :: e in scheduled.entries <==> e in old(scheduled.entries) && e.time > time
      ensures forall n :: n in due <==> exists e :: e in old(scheduled.entries) && e.value == n && e.time <= time
      ensures progressed <==> exists e :: e in old(scheduled.entries) && e.time <= time
    {
      progressed, due := false, {};
      ghost var all := scheduled.entries;
      ghost var k := 0;
      while true
        invariant Valid() && k <= |all| && scheduled.entries == all[k..]
        invariant forall i :: 0 <= i < k ==> all[i].time <= time
        invariant forall n :: n in due <==> exists i :: 0 <= i < k && all[i].value == n
        invariant progressed <==> k > 0
        decreases |scheduled.entries|
      {
        var v := scheduled.PopIfPending(time);
        if v.None? {
          break;
        }
        due := due + {v.value};
        progressed := true;
        k := k + 1;
      }
      DrainedExactly(all, k, time);
      assert k > 0 ==> all[0] in all;
      assert forall i :: 0 <= i < k ==> all[i] in all;
    }

    /** Mark whatever runs always or has come due. */
    method ProcessScheduledCallbacks() returns (progressed: bool, dirty: set<nat>)
      requires Valid()
      modifies scheduled
      ensures Valid()
      ensures forall e :: e in scheduled.entries <==> e in old(scheduled.entries) && e.time > time
      ensures forall n :: n in dirty <==>
                n in always || exists e :: e in old(scheduled.entries) && e.value == n && e.time <= time
      ensures progressed <==> always != [] || exists e :: e in old(scheduled.entries) && e.time <= time
    {
      dirty := {};
      for i := 0 to |always|
        invariant scheduled.entries == old(scheduled.entries) && Valid()
        invariant forall n :: n in dirty <==> n in always[..i]
      {
        dirty := dirty + {always[i]};
        assert always[..i + 1] == always[..i] + [always[i]];
      }
      assert always[..|always|] == always;
      var due;
      progressed, due := DrainDue();
      dirty := dirty + due;
      progressed := progressed || always != [];
    }

    method AddCallbacks(callbacks: seq<Callback>)
      requires Valid()
      modifies scheduled
      ensures Valid() && View() == old(View()).(scheduled := old(View()).scheduled + CallbacksOf(callbacks))
    {
      ghost var before := View().scheduled;
      assert CallbacksOf(callbacks[..0]) == {};
      for i := 0 to |callbacks|
        invariant Valid() && View().scheduled == before + CallbacksOf(callbacks[..i])
      {
        CallbacksGrow(callbacks, i);
        hide *;
        AddCallback(callbacks[i]);
        assert before + CallbacksOf(callbacks[..i]) + {callbacks[i]} == before + CallbacksOf(callbacks[..i + 1]);
      }
      assert callbacks[..|callbacks|] == callbacks;
      hide CallbacksOf, CallbackSet;
    }

    method AddAlways(always': seq<nat>)
      requires Valid()
      modifies this`always
      ensures Valid() && View() == old(View()).(always := old(View()).always + SetOf(always'))
    {
      ghost var before := View().always;
      assert SetOf(always'[..0]) == {};
      for i := 0 to |always'|
        invariant Valid() && View().always == before + SetOf(always'[..i])
      {
        SetGrows(always', i);
        hide *;
        AlwaysCallback(always'[i]);
        assert before + SetOf(always'[..i]) + {always'[i]} == before + SetOf(always'[..i + 1]);
      }
      assert always'[..|always'|] == always';
      hide SetOf, CallbackSet;
    }

    /** Start a cycle and let the nodes ask for what they want while it runs. */
    method OneCycle(asked: Asked) returns (ok: bool, progressed: bool, ghost step: Step)
      requires Valid() && (firstCycle ==> time == 0)
      modifies this`time, this`firstCycle, this`always, this`ready, scheduled
      ensures Valid() && (ok <==> old(ready) == []) && (firstCycle ==> time == 0)
      ensures ok && progressed ==>
                && step.before == old(View()) && Advances(step.before, step.after, step.dirty)
                && Serves(step, asked) && AfterCycle(step) == View() && ready == asked.notified
                && step.before.time == old(time) <= time
      ensures !(ok && progressed) ==> View() == old(View()) && ready == old(ready)
      ensures ok && !progressed ==> View().scheduled == {} && View().always == {}
    {
      ghost var before := View();
      var dirty;
      ok, progressed, dirty := ProcessCallbacksHistorical();
      step := Step(before, View(), dirty, CallbacksOf(asked.callbacks), SetOf(asked.always));
      if ok && progressed {
        AdvanceMovesOn(before, View(), dirty);
        hide Advances;
        TakeIn(asked);
      }
    }

    /** What comes in during a cycle. */
    method TakeIn(asked: Asked)
      requires Valid()
      modifies this`always, this`ready, scheduled
      ensures Valid() && ready == old(ready) + asked.notified
      ensures View() == old(View()).(scheduled := old(View()).scheduled + CallbacksOf(asked.callbacks),
                                     always := old(View()).always + SetOf(asked.always))
    {
      AddCallbacks(asked.callbacks);
      AddAlways(asked.always);
      ready := ready + asked.notified;
    }

    /** A cycle of the run, flagged if it is to be the last. */
    method FlaggedCycle(endTime: nat, endCycle: nat, asked: nat -> Asked, flags: seq<bool>, ghost trace: seq<Step>,
                        ghost first: Clock, ghost waiting: seq<nat>)
      returns (ok: bool, progressed: bool, flags': seq<bool>, ghost trace': seq<Step>)
      requires Valid() && !isLastCycle && (firstCycle ==> time == 0)
      requires Recorded(trace, flags, first, View(), endTime, endCycle, asked) && !LastFlag(flags)
      requires |trace| == |flags| < endCycle && Unnotified(waiting, |trace|, asked, ready)
      modifies this, scheduled
      ensures Valid() && (firstCycle ==> time == 0) && (ok <==> old(ready) == [])
      ensures ok && progressed ==>
                && Recorded(trace', flags', first, View(), endTime, endCycle, asked) &&
                   |trace'| == |flags'| == |trace| + 1
                && isLastCycle == LastFlag(flags') && (isLastCycle ==> |trace'| >= endCycle || time >= endTime)
      ensures Unnotified(waiting, |trace'|, asked, ready)
      ensures !(ok && progressed) ==> View() == old(View()) && ready == old(ready) && trace' == trace && flags' == flags
      ensures ok && !progressed ==> View().scheduled == {} && View().always == {}
    {
      trace', flags' := trace, flags;
      ghost var before := View();
      isLastCycle := |flags| + 1 >= endCycle || time >= endTime;
      assert View() == before && Valid();
      hide *;
      ghost var step;
      ok, progressed, step := OneCycle(asked(|flags|));
      if ok && progressed {
        RecordedStep(trace, flags, first, before, endTime, endCycle, asked, step, isLastCycle);
        UnnotifiedStep(waiting, |trace|, asked, []);
        trace', flags' := trace + [step], flags + [isLastCycle];
      }
    }

    /** Run until a bound is reached or nothing is left to do.  `asked(k)` is what comes in during the k-th
        cycle; `dry` says the run ended early. */
    method RunNodes(runFor: RunFor, start: nat, asked: nat -> Asked)
      returns (ok: bool, dry: bool, ghost trace: seq<Step>, flags: seq<bool>)
      requires Valid() && !isLastCycle && firstCycle && time == 0
      modifies this, scheduled
      ensures Valid() && Recorded(trace, flags, old(View()), View(), EndTime(runFor, start), EndCycle(runFor), asked)
      ensures Unnotified(old(ready), |trace|, asked, ready)
      ensures !ok ==> ready != [] && |trace| < EndCycle(runFor) && !LastFlag(flags)
      ensures dry ==> ok && ready == [] && View().scheduled == {} && View().always == {}
      ensures dry ==> |trace| < EndCycle(runFor) && !LastFlag(flags)
      ensures ok && !dry ==> |trace| == EndCycle(runFor) || LastFlag(flags)
      ensures if ok && !dry then EndsAtBound(runFor, start, trace, flags)
              else ShortOfBound(runFor, start, trace, flags)
    {
      var endTime, endCycle := EndTime(runFor, start), EndCycle(runFor);
      trace, flags, dry, ok := [], [], false, true;
      ghost var first := View();
      assert Recorded(trace, flags, first, View(), endTime, endCycle, asked) && !LastFlag(flags);
      hide *;
      while true
        invariant Valid() && |trace| == |flags| <= endCycle && ok && !dry && (firstCycle ==> time == 0)
        invariant Recorded(trace, flags, first, View(), endTime, endCycle, asked) && isLastCycle == LastFlag(flags)
        invariant isLastCycle ==> |trace| >= endCycle || time >= endTime
        invariant Unnotified(old(ready), |trace|, asked, ready)
        decreases endCycle - |flags|
      {
        var cyclesDone := |flags| >= endCycle;
        var timeDone := time >= endTime;
        if cyclesDone || (isLastCycle && timeDone) {
          break;
        }
        var progressed;
        ok, progressed, flags, trace := FlaggedCycle(endTime, endCycle, asked, flags, trace, first, old(ready));
        if !ok {
          break;
        }
        if !progressed {
          dry := true;
          break;
        }
      }
      RunEnds(runFor, start, trace, flags, first, View(), asked, ok && !dry);
    }

    /** Move the clock and mark what is due.  `Ok(false)`: there is nothing left to run. */
    method ProcessCallbacksHistorical() returns (ok: bool, progressed: bool, dirty: set<nat>)
      requires Valid()
      modifies this`time, this`firstCycle, scheduled
      ensures Valid() && (ok <==> ready == [])
      ensures ok && progressed ==> Advances(old(View()), View(), dirty)
      ensures !(ok && progressed) ==> View() == old(View())
      ensures ok && !progressed ==> View().scheduled == {} && View().always == {}
    {
      if ready != [] {
        return false, false, {};
      }
      ghost var before := View();
      var next := scheduled.NextTime();
      if next.Some? || always != [] {
        NextIsEarliest(scheduled.entries, next);
        var t := if next.Some? then next.value else time + 1;
        if firstCycle {
          firstCycle := false;
          time := if next.Some? then t else time;
        } else {
          time := if t > time + 1 then t else time + 1;
        }
        assert time == CycleTime(before, t);
      }
      ok := true;
      ghost var all := scheduled.entries;
      progressed, dirty := ProcessScheduledCallbacks();
      if progressed {
        DrainedView(all, scheduled.entries, always, time, dirty);
      }
    }
  }

  // ----- The run -----

  /** The run so far: a run of the clock from `first` to the present clock. */
  ghost predicate Reaches(trace: seq<Step>, first: Clock, c: Clock) {
    && IsRun(trace) && first.unstarted && first.time == 0
    && if trace == [] then c == first else trace[0].before == first && AfterCycle(trace[|trace| - 1]) == c
  }

  /** What the nodes ask for is what reaches the scheduler. */
  ghost predicate Serves(s: Step, asked: Asked) {
    (forall c :: c in s.requests <==> c in asked.callbacks) && (forall n :: n in s.newAlways <==> n in asked.always)
  }

  ghost predicate Served(trace: seq<Step>, asked: nat -> Asked) {
    forall k :: 0 <= k < |trace| ==> Serves(trace[k], asked(k))
  }

  /** `n` cycles have run, none of them with a notification waiting at its start; `ready` is what waits now. */
  ghost predicate Unnotified(ready0: seq<nat>, n: nat, asked: nat -> Asked, ready: seq<nat>) {
    && (n > 0 ==> ready0 == []) && (forall k :: 0 <= k < n - 1 ==> asked(k).notified == [])
    && ready == if n == 0 then ready0 else asked(n - 1).notified
  }

  lemma UnnotifiedStep(ready0: seq<nat>, n: nat, asked: nat -> Asked, ready: seq<nat>)
    requires Unnotified(ready0, n, asked, ready) && ready == []
    ensures Unnotified(ready0, n + 1, asked, asked(n).notified)
  {
  }

  /** The flag of the last cycle so far. */
  function LastFlag(flags: seq<bool>): bool {
    flags != [] && flags[|flags| - 1]
  }

  ghost predicate Recorded(trace: seq<Step>, flags: seq<bool>, first: Clock, c: Clock, endTime: nat, endCycle: nat,
                           asked: nat -> Asked) {
    Reaches(trace, first, c) && Flagged(trace, flags, endTime, endCycle) && Served(trace, asked)
  }

  lemma RecordedStep(trace: seq<Step>, flags: seq<bool>, first: Clock, c: Clock, endTime: nat, endCycle: nat,
                     asked: nat -> Asked, s: Step, flag: bool)
    requires Recorded(trace, flags, first, c, endTime, endCycle, asked) && |trace| < endCycle && !LastFlag(flags)
    requires s.before == c && Advances(s.before, s.after, s.dirty) && Serves(s, asked(|trace|))
    requires flag <==> |trace| + 1 == endCycle || c.time >= endTime
    ensures Recorded(trace + [s], flags + [flag], first, AfterCycle(s), endTime, endCycle, asked)
    ensures LastFlag(flags + [flag]) == flag
  {
    RunExtends(trace, first, c, s);
    ServedStep(trace, asked, s);
    FlagStep(trace, flags, endTime, endCycle, s, flag);
  }

  lemma ServedStep(trace: seq<Step>, asked: nat -> Asked, s: Step)
    requires Served(trace, asked) && Serves(s, asked(|trace|))
    ensures Served(trace + [s], asked)
  {
  }

  lemma RunExtends(trace: seq<Step>, first: Clock, c: Clock, s: Step)
    requires Reaches(trace, first, c) && s.before == c && Advances(s.before, s.after, s.dirty)
    ensures Reaches(trace + [s], first, AfterCycle(s))
  {
  }

  lemma AdvanceMovesOn(c: Clock, c': Clock, dirty: set<nat>)
    requires Advances(c, c', dirty) && (c.unstarted ==> c.time == 0)
    ensures c.time <= c'.time
  {
  }

  /** Only the last cycle of the trace is flagged, if any; it is flagged exactly when the cycle bound is
      one cycle away or the clock had already reached the end when it started. */
  ghost predicate Flagged(trace: seq<Step>, flags: seq<bool>, endTime: nat, endCycle: nat) {
    && |flags| == |trace| <= endCycle
    && forall k :: 0 <= k < |trace| ==>
         && (flags[k] <==> k + 1 == endCycle || trace[k].before.time >= endTime)
         && (flags[k] ==> k == |trace| - 1)
  }

  /** A run for `n` cycles that is not cut short executes exactly `n`, and only the last one is flagged. */
  lemma CyclesRunExactly(trace: seq<Step>, flags: seq<bool>, n: nat)
    requires Flagged(trace, flags, NANO_TIME_MAX, n)
    requires |trace| == n || (flags != [] && flags[|flags| - 1])
    requires forall k :: 0 <= k < |trace| ==> trace[k].before.time < NANO_TIME_MAX
    ensures |trace| == n && forall k :: 0 <= k < n ==> (flags[k] <==> k == n - 1)
  {
    assert |trace| > 0 ==> trace[|trace| - 1].before.time < NANO_TIME_MAX;
  }

  /** A run for a duration that is not cut short executes exactly one cycle after the clock has reached
      the end, and only that one is flagged. */
  lemma DurationRunsOneMore(trace: seq<Step>, flags: seq<bool>, first: Clock, c: Clock, end: nat)
    requires Reaches(trace, first, c) && Flagged(trace, flags, end, U32_MAX) && |trace| < U32_MAX
    requires flags != [] && flags[|flags| - 1]
    ensures var n := |trace|;
            && (forall k :: 0 <= k < n ==> (flags[k] <==> k == n - 1))
            && (forall k :: 0 <= k < n - 2 ==> Time(trace[k]) < end)
            && (if n >= 2 then Time(trace[n - 2]) >= end else end == 0)
  {
    var n := |trace|;
    assert trace[n - 1].before.time >= end;
    forall k | 0 <= k < n - 1 ensures Time(trace[k]) == trace[k + 1].before.time {
      assert Follows(trace[k], trace[k + 1]);
    }
    forall k | 0 <= k < n - 2 ensures Time(trace[k]) < end {
      assert !flags[k + 1] && Time(trace[k]) == trace[k + 1].before.time;
    }
  }

  /** A run that has come to its bound: `Cycles(n)` has executed exactly `n` cycles, and only the n-th was flagged as
      the last; `Duration(d)` has executed exactly one more cycle, flagged as the last, once the clock had reached
      `start + d`.  The widths of cycle counter and clock are the outer bounds. */
  ghost predicate EndsAtBound(runFor: RunFor, start: nat, trace: seq<Step>, flags: seq<bool>) {
    var n := |trace|;
    && |flags| == n
    && match runFor
       case Cycles(count) =>
         (forall k :: 0 <= k < n ==> trace[k].before.time < NANO_TIME_MAX) ==>
           n == count && forall k :: 0 <= k < n ==> (flags[k] <==> k == n - 1)
       case Duration(nanos) =>
         n < U32_MAX ==>
           && n > 0 && (forall k :: 0 <= k < n ==> (flags[k] <==> k == n - 1))
           && (forall k :: 0 <= k < n - 2 ==> Time(trace[k]) < start + nanos)
           && (if n >= 2 then Time(trace[n - 2]) >= start + nanos else start + nanos == 0)
       case Forever => n == U32_MAX || (n > 0 && trace[n - 1].before.time >= NANO_TIME_MAX)
  }

  /** A run that has not come to its bound: no cycle was flagged. */
  ghost predicate ShortOfBound(runFor: RunFor, start: nat, trace: seq<Step>, flags: seq<bool>) {
    && |flags| == |trace| && (forall k :: 0 <= k < |flags| ==> !flags[k])
    && match runFor
       case Cycles(count) => |trace| < count
       case Duration(nanos) => forall k :: 0 <= k < |trace| ==> trace[k].before.time < start + nanos
       case Forever => true
  }

  lemma BoundReached(runFor: RunFor, start: nat, trace: seq<Step>, flags: seq<bool>, first: Clock, c: Clock)
    requires Reaches(trace, first, c) && Flagged(trace, flags, EndTime(runFor, start), EndCycle(runFor))
    requires |trace| == EndCycle(runFor) || LastFlag(flags)
    ensures EndsAtBound(runFor, start, trace, flags)
  {
    match runFor {
      case Cycles(count) =>
        if forall k :: 0 <= k < |trace| ==> trace[k].before.time < NANO_TIME_MAX {
          CyclesRunExactly(trace, flags, count);
        }
      case Duration(nanos) =>
        if |trace| < U32_MAX {
          DurationRunsOneMore(trace, flags, first, c, start + nanos);
        }
      case Forever =>
    }
  }

  lemma RunEnds(runFor: RunFor, start: nat, trace: seq<Step>, flags: seq<bool>, first: Clock, c: Clock,
                asked: nat -> Asked, reached: bool)
    requires Recorded(trace, flags, first, c, EndTime(runFor, start), EndCycle(runFor), asked)
    requires reached <==> |trace| == EndCycle(runFor) || LastFlag(flags)
    ensures if reached then EndsAtBound(runFor, start, trace, flags) else ShortOfBound(runFor, start, trace, flags)
  {
    if reached {
      BoundReached(runFor, start, trace, flags, first, c);
    } else {
      BoundAhead(runFor, start, trace, flags);
    }
    hide EndsAtBound, ShortOfBound, Reaches;
  }

  lemma BoundAhead(runFor: RunFor, start: nat, trace: seq<Step>, flags: seq<bool>)
    requires Flagged(trace, flags, EndTime(runFor, start), EndCycle(runFor))
    requires |trace| < EndCycle(runFor) && !LastFlag(flags)
    ensures ShortOfBound(runFor, start, trace, flags)
  {
  }

  lemma {:induction false} TimeKeepsPace(trace: seq<Step>, k: nat)
    requires IsRun(trace) && k < |trace|
    ensures Time(trace[k]) >= k
  {
    if k > 0 {
      TimeKeepsPace(trace, k - 1);
      TimeIncreases(trace, k - 1, k);
    }
  }

  /** The distance from the clock to the end bounds the run: it cannot take more than `end + 2` cycles. */
  lemma DurationEnds(trace: seq<Step>, flags: seq<bool>, first: Clock, c: Clock, end: nat, endCycle: nat)
    requires Reaches(trace, first, c) && Flagged(trace, flags, end, endCycle)
    ensures |trace| <= end + 2
  {
    if |trace| >= end + 2 {
      TimeKeepsPace(trace, end);
      assert Follows(trace[end], trace[end + 1]);
      assert flags[end + 1];
    }
  }

  lemma FlagStep(trace: seq<Step>, flags: seq<bool>, endTime: nat, endCycle: nat, s: Step, flag: bool)
    requires Flagged(trace, flags, endTime, endCycle) && |trace| < endCycle
    requires flags != [] ==> !flags[|flags| - 1]
    requires flag <==> |trace| + 1 == endCycle || s.before.time >= endTime
    ensures Flagged(trace + [s], flags + [flag], endTime, endCycle)
  {
  }

  lemma NextIsEarliest(q: seq<Entry<nat>>, next: Option<nat>)
    requires next.Some? ==> (exists x :: x in q && x.time == next.value) && forall x :: x in q ==> next.value <= x.time
    ensures next.Some? ==> Earliest(CallbackSet(q), next.value) && CallbackSet(q) != {}
  {
    if next.Some? {
      var x :| x in q && x.time == next.value;
      assert CallbackOf(x) in CallbackSet(q);
    }
  }

  lemma DrainedView(all: seq<Entry<nat>>, rest: seq<Entry<nat>>, always: seq<nat>, now: nat, dirty: set<nat>)
    requires forall e :: e in rest <==> e in all && e.time > now
    requires forall n :: n in dirty <==> n in always || exists e :: e in all && e.value == n && e.time <= now
    ensures forall c :: c in CallbackSet(rest) <==> c in CallbackSet(all) && c.time > now
    ensures forall n :: n in dirty <==>
              n in SetOf(always) || exists c :: c in CallbackSet(all) && c.node == n && c.time <= now
  {
    forall n | n in dirty && n !in always
      ensures exists c :: c in CallbackSet(all) && c.node == n && c.time <= now
    {
      var e :| e in all && e.value == n && e.time <= now;
      assert CallbackOf(e) in CallbackSet(all);
    }
  }

  lemma DrainedExactly(q: seq<Entry<nat>>, k: nat, now: nat)
    requires Ordered(q) && k <= |q|
    requires (forall i :: 0 <= i < k ==> q[i].time <= now) && (k < |q| ==> q[k].time > now)
    ensures forall e :: e in q[k..] <==> e in q && e.time > now
    ensures forall e :: e in q && e.time <= now ==> exists i :: 0 <= i < k && q[i] == e
  {
    forall e | e in q && e.time > now ensures e in q[k..] {
      var i :| 0 <= i < |q| && q[i] == e;
      assert q[k..][i - k] == e;
    }
  }
}
