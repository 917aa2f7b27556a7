/** Feedback channels: a sink that pushes values for the next tick and the stream that emits them. */
module Feedbacks {
  import opened TimeQueues
  import opened Clocks

  /** The two ends of a channel share the queue and the stream's node id. */
  class Feedback<V(==,!new)> {
    var value: V
    var nodeId: Option<nat>
    const queue: TimeQueue<V>

    ghost predicate Valid()
      reads this, queue
    {
      queue.Valid()
    }

    constructor (default: V)
      ensures Valid() && queue.entries == [] && nodeId.None? && value == default && fresh(queue)
    {
      value, nodeId := default, None;
      queue := new TimeQueue();
    }

    /** Setup of the stream makes its node id known to the sinks. */
    method Setup(node: nat)
      modifies this`nodeId
      ensures nodeId == Some(node)
    {
      nodeId := Some(node);
    }

    /** A sink sends: the value is queued one tick ahead, and the stream is to be woken then. */
    method Send(v: V, now: nat) returns (wakeup: Callback)
      requires Valid() && nodeId.Some?
      modifies queue
      ensures Valid() && queue.entries == Pushed(old(queue.entries), Entry(v, now + 1))
      ensures wakeup == Callback(nodeId.value, now + 1)
    {
      queue.Push(v, now + 1);
      wakeup := Callback(nodeId.value, now + 1);
    }

    /** The stream drains what is due and keeps the last value. */
    method Cycle(now: nat) returns (ticked: bool)
      requires Valid()
      modifies this`value, queue
      ensures Valid() && queue.entries == old(queue.entries)[DueCount(old(queue.entries), now)..]
      ensures ticked <==> DueCount(old(queue.entries), now) > 0
      ensures value == if ticked then old(queue.entries)[DueCount(old(queue.entries), now) - 1].value else old(value)
    {
      ghost var all := queue.entries;
      LastDueIs(value, all, now);
      ticked := false;
      hide DueCount, Ordered;
      while true
        invariant Valid() && LastDue(value, queue.entries, now) == LastDue(old(value), all, now)
        invariant ticked || queue.entries == all
        invariant ticked ==> all != [] && all[0].time <= now
        decreases |queue.entries|
      {
        var v := queue.PopIfPending(now);
        if v.None? {
          break;
        }
        value := v.value;
        ticked := true;
      }
    }
  }

  /** What is left once everything due is popped, and the value popped last. */
  function LastDue<V>(v: V, q: seq<Entry<V>>, now: nat): (V, seq<Entry<V>>) {
    if q == [] || q[0].time > now then (v, q) else LastDue(q[0].value, q[1..], now)
  }

  lemma {:induction false} LastDueIs<V>(v: V, q: seq<Entry<V>>, now: nat)
    ensures var n := DueCount(q, now);
            LastDue(v, q, now) == (if n == 0 then v else q[n - 1].value, q[n..])
    ensures DueCount(q, now) > 0 <==> q != [] && q[0].time <= now
    decreases |q|
  {
    if q != [] && q[0].time <= now {
      LastDueIs(q[0].value, q[1..], now);
    }
  }

  // ----- What survives of the values sent in one cycle -----

  /** The values without repetitions, in the order of their first occurrence. */
  function FirstOccurrences<V(==)>(s: seq<V>): (r: seq<V>)
    ensures s != [] ==> |r| > 0
  {
    if s == [] then []
    else
      var init, last := s[..|s| - 1], s[|s| - 1];
      if last in init then FirstOccurrences(init) else FirstOccurrences(init) + [last]
  }

  lemma {:induction false} FirstOccurrencesMembers<V>(s: seq<V>, x: V)
    ensures x in FirstOccurrences(s) <==> x in s
  {
    if s != [] {
      var init, last := s[..|s| - 1], s[|s| - 1];
      assert s == init + [last];
      FirstOccurrencesMembers(init, x);
    }
  }

  /** The value the stream shows after draining what one cycle sent. */
  function Shown<V(==)>(s: seq<V>): V
    requires s != []
  {
    var kept := FirstOccurrences(s);
    kept[|kept| - 1]
  }

  /** Where `x` is first sent. */
  function FirstIndex<V(==)>(s: seq<V>, x: V): (i: nat)
    requires x in s
    ensures i < |s| && s[i] == x && forall k :: 0 <= k < i ==> s[k] != x
  {
    var init := s[..|s| - 1];
    assert s == init + [s[|s| - 1]];
    if x in init then FirstIndex(init, x)
    else
      assert forall k :: 0 <= k < |init| ==> s[k] == init[k];
      |init|
  }

  /** The stream shows the value whose first sending came last, which need not be the one sent last. */
  lemma {:induction false} ShownIsNewest<V(!new)>(s: seq<V>, x: V)
    requires x in s
    ensures Shown(s) == x <==> forall y :: y in s ==> FirstIndex(s, y) <= FirstIndex(s, x)
  {
    var init, last := s[..|s| - 1], s[|s| - 1];
    assert s == init + [last];
    if last in init {
      assert forall y :: y in s <==> y in init;
      ShownIsNewest(init, x);
    } else if x != last {
      assert x in init && last in s;
      assert FirstIndex(s, x) < |init| == FirstIndex(s, last);
    }
  }

  lemma ShownIsThere<V(!new)>(s: seq<V>)
    requires s != []
    ensures Shown(s) in s
  {
    FirstOccurrencesMembers(s, Shown(s));
  }

  /** Sending 1, 2, 1 within one cycle shows 2. */
  lemma RepeatIsSuppressed()
    ensures Shown([1, 2, 1]) == 2
  {
    assert [1, 2, 1][..2] == [1, 2] && [1, 2][..1] == [1] && [1][..0] == [];
  }

  // ----- Runs -----

  function PushAll<V(==,!new)>(q: seq<Entry<V>>, s: seq<V>, time: nat): seq<Entry<V>> {
    if s == [] then q else Pushed(PushAll(q, s[..|s| - 1], time), Entry(s[|s| - 1], time))
  }

  /** What the stream does in a cycle, between the sends that come before it and those after it. */
  datatype Turn<V> = Turn(before: seq<V>, after: seq<V>)

  function Drained<V>(q: seq<Entry<V>>, now: nat): (seq<Entry<V>>, Option<V>) {
    var n := DueCount(q, now);
    (q[n..], if n == 0 then None else Some(q[n - 1].value))
  }

  function TurnOf<V(==,!new)>(woken: bool, q: seq<Entry<V>>, turn: Turn<V>, now: nat): (seq<Entry<V>>, Option<V>) {
    var q1 := PushAll(q, turn.before, now + 1);
    var (q2, out) := if woken then Drained(q1, now) else (q1, None);
    (PushAll(q2, turn.after, now + 1), out)
  }

  ghost predicate FeedbackStep<V(!new)>(s: Step, x: nat, turn: Turn<V>, q: seq<Entry<V>>, q': seq<Entry<V>>,
                                        out: Option<V>) {
    && (q', out) == TurnOf(x in s.dirty, q, turn, Time(s))
    && (Sent(turn) != [] ==> Callback(x, Time(s) + 1) in s.requests)
  }

  /** Stream `x` and its sinks take part in a run. */
  ghost predicate FeedbackRun<V(!new)>(steps: seq<Step>, x: nat, turns: seq<Turn<V>>, queues: seq<seq<Entry<V>>>,
                                       outs: seq<Option<V>>) {
    && IsRun(steps)
    && |turns| == |outs| == |steps| && |queues| == |steps| + 1
    && queues[0] == []
    && forall j, k :: 0 <= j < |steps| && k == j + 1 ==>
         FeedbackStep(steps[j], x, turns[j], queues[j], queues[k], outs[j])
  }

  function Sent<V>(t: Turn<V>): seq<V> {
    t.before + t.after
  }

  function Stamped<V>(s: seq<V>, time: nat): (q: seq<Entry<V>>)
    ensures |q| == |s| && forall i :: 0 <= i < |s| ==> q[i] == Entry(s[i], time)
  {
    if s == [] then [] else Stamped(s[..|s| - 1], time) + [Entry(s[|s| - 1], time)]
  }

  /** What a turn leaves in the queue for the tick at `time`. */
  function Kept<V(==)>(turn: Turn<V>, time: nat): seq<Entry<V>> {
    Stamped(FirstOccurrences(Sent(turn)), time)
  }

  lemma KeptFacts<V(!new)>(turn: Turn<V>, time: nat)
    ensures forall i :: 0 <= i < |Kept(turn, time)| ==> Kept(turn, time)[i].time == time
    ensures Kept(turn, time) == [] <==> Sent(turn) == []
    ensures Sent(turn) != [] ==> Kept(turn, time)[|Kept(turn, time)| - 1].value == Shown(Sent(turn))
  {
  }

  /** What the stream emits in cycle `j`. */
  function Expected<V(==)>(turns: seq<Turn<V>>, j: nat): Option<V>
    requires j < |turns|
  {
    if j == 0 || Sent(turns[j - 1]) == [] then None else Some(Shown(Sent(turns[j - 1])))
  }

  /** What is queued before cycle `j`. */
  function Queued<V(==)>(steps: seq<Step>, turns: seq<Turn<V>>, j: nat): seq<Entry<V>>
    requires |turns| == |steps| && j <= |steps|
  {
    if j == 0 then [] else Kept(turns[j - 1], Time(steps[j - 1]) + 1)
  }

  /** Behind older entries, the queue keeps the first occurrences of what is sent, in order. */
  lemma {:induction false} PushAllKeeps<V(!new)>(older: seq<Entry<V>>, s: seq<V>, time: nat)
    requires forall i :: 0 <= i < |older| ==> older[i].time < time
    ensures PushAll(older, s, time) == older + Stamped(FirstOccurrences(s), time)
  {
    if s != [] {
      var init, last := s[..|s| - 1], s[|s| - 1];
      PushAllKeeps(older, init, time);
      FirstOccurrencesMembers(init, last);
      PushKeeps(older, FirstOccurrences(init), last, time);
    }
  }

  lemma PushKeeps<V(!new)>(older: seq<Entry<V>>, kept: seq<V>, last: V, time: nat)
    requires forall i :: 0 <= i < |older| ==> older[i].time < time
    ensures Pushed(older + Stamped(kept, time), Entry(last, time)) ==
              older + Stamped(if last in kept then kept else kept + [last], time)
  {
    var stamped, e := Stamped(kept, time), Entry(last, time);
    var q := older + stamped;
    if last in kept {
      var k :| 0 <= k < |kept| && kept[k] == last;
      assert stamped[k] == e && q[|older| + k] == e;
    } else {
      NotQueued(older, kept, last, time);
      StampedLast(kept, last, time);
      hide Stamped;
      assert older + (stamped + [e]) == q + [e];
    }
  }

  lemma StampedLast<V(!new)>(kept: seq<V>, last: V, time: nat)
    ensures Stamped(kept + [last], time) == Stamped(kept, time) + [Entry(last, time)]
  {
    assert (kept + [last])[..|kept|] == kept;
  }

  /** A new value goes to the end. */
  lemma NotQueued<V(!new)>(older: seq<Entry<V>>, kept: seq<V>, last: V, time: nat)
    requires (forall i :: 0 <= i < |older| ==> older[i].time < time) && last !in kept
    ensures var q := older + Stamped(kept, time); Pushed(q, Entry(last, time)) == q + [Entry(last, time)]
  {
    var q, e := older + Stamped(kept, time), Entry(last, time);
    forall i | 0 <= i < |q| ensures q[i] != e && q[i].time <= time {
      if i >= |older| {
        assert kept[i - |older|] in kept;
      }
    }
  }

  lemma PushAllConcat<V(!new)>(q: seq<Entry<V>>, a: seq<V>, b: seq<V>, time: nat)
    ensures PushAll(PushAll(q, a, time), b, time) == PushAll(q, a + b, time)
    decreases |b|
  {
    if b == [] {
      assert a + b == a;
    } else {
      PushAllConcat(q, a, b[..|b| - 1], time);
      assert (a + b)[..|a + b| - 1] == a + b[..|b| - 1];
    }
  }

  /** Before cycle `j`, the queue holds exactly what the cycle before sent, stamped one tick later. */
  lemma {:induction false} QueueIsLastSent<V(!new)>(steps: seq<Step>, x: nat, turns: seq<Turn<V>>,
                                                    queues: seq<seq<Entry<V>>>, outs: seq<Option<V>>, j: nat)
    requires FeedbackRun(steps, x, turns, queues, outs) && j <= |steps|
    ensures queues[j] == Queued(steps, turns, j)
  {
    assert Queued(steps, turns, j) == if j == 0 then [] else Kept(turns[j - 1], Time(steps[j - 1]) + 1);
    assert queues[0] == [];
    hide *;
    if j > 0 {
      QueueIsLastSent(steps, x, turns, queues, outs, j - 1);
      FeedbackTurn(steps, x, turns, queues, outs, j - 1);
    }
  }

  /** If anything was sent, the next cycle comes one tick later and wakes the stream. */
  lemma SendWakesNext<V(!new)>(steps: seq<Step>, x: nat, turns: seq<Turn<V>>,
                               queues: seq<seq<Entry<V>>>, outs: seq<Option<V>>, j: nat)
    requires FeedbackRun(steps, x, turns, queues, outs) && 0 < j < |steps| && Sent(turns[j - 1]) != []
    ensures Time(steps[j]) == Time(steps[j - 1]) + 1 && x in steps[j].dirty
  {
    var p := j - 1;
    var c := Callback(x, Time(steps[p]) + 1);
    assert FeedbackStep(steps[p], x, turns[p], queues[p], queues[j], outs[p]);
    TimeIncreases(steps, p, j);
    CallbackDelivered(steps, p, c, j);
  }

  lemma FeedbackTurn<V(!new)>(steps: seq<Step>, x: nat, turns: seq<Turn<V>>,
                              queues: seq<seq<Entry<V>>>, outs: seq<Option<V>>, j: nat)
    requires FeedbackRun(steps, x, turns, queues, outs) && j < |steps| && queues[j] == Queued(steps, turns, j)
    ensures queues[j + 1] == Kept(turns[j], Time(steps[j]) + 1) && outs[j] == Expected(turns, j)
  {
    assert FeedbackStep(steps[j], x, turns[j], queues[j], queues[j + 1], outs[j]);
    hide FeedbackRun, Kept, TurnOf, Shown;
    if j > 0 {
      KeptFacts(turns[j - 1], Time(steps[j - 1]) + 1);
      NextTurn(steps, x, turns, queues, outs, j);
    }
    TurnExact(x in steps[j].dirty, queues[j], turns[j], Time(steps[j]));
  }

  lemma NextTurn<V(!new)>(steps: seq<Step>, x: nat, turns: seq<Turn<V>>,
                                queues: seq<seq<Entry<V>>>, outs: seq<Option<V>>, j: nat)
    requires FeedbackRun(steps, x, turns, queues, outs) && 0 < j < |steps|
    ensures Time(steps[j - 1]) + 1 <= Time(steps[j])
    ensures Sent(turns[j - 1]) != [] ==> x in steps[j].dirty
  {
    TimeIncreases(steps, j - 1, j);
    if Sent(turns[j - 1]) != [] {
      SendWakesNext(steps, x, turns, queues, outs, j);
    }
  }

  /** If everything queued is due and the stream is woken for it, a turn drains it all and leaves what is
      sent meanwhile. */
  lemma TurnExact<V(!new)>(woken: bool, q: seq<Entry<V>>, turn: Turn<V>, now: nat)
    requires (forall i :: 0 <= i < |q| ==> q[i].time <= now) && (q != [] ==> woken)
    ensures TurnOf(woken, q, turn, now) ==
              (Kept(turn, now + 1), if q == [] then None else Some(q[|q| - 1].value))
  {
    var kept := Stamped(FirstOccurrences(turn.before), now + 1);
    DrainsBefore(woken, q, turn, now);
    AfterDrain(turn, now + 1);
    hide PushAll, Stamped, FirstOccurrences, DueCount, Kept;
    assert q == [] ==> q + kept == kept;
  }

  lemma AfterDrain<V(!new)>(turn: Turn<V>, time: nat)
    ensures PushAll(Stamped(FirstOccurrences(turn.before), time), turn.after, time) == Kept(turn, time)
  {
    PushAllConcat([], turn.before, turn.after, time);
    PushAllOnNothing(turn.before, time);
    PushAllOnNothing(Sent(turn), time);
    hide PushAll, Stamped, FirstOccurrences;
  }

  lemma PushAllOnNothing<V(!new)>(s: seq<V>, time: nat)
    ensures PushAll([], s, time) == Stamped(FirstOccurrences(s), time)
  {
    PushAllKeeps([], s, time);
    hide *;
    assert [] + Stamped(FirstOccurrences(s), time) == Stamped(FirstOccurrences(s), time);
  }

  /** What a sink sent before the stream's own turn stays in the queue; what was there goes. */
  lemma DrainsBefore<V(!new)>(woken: bool, q: seq<Entry<V>>, turn: Turn<V>, now: nat)
    requires (forall i :: 0 <= i < |q| ==> q[i].time <= now) && (q != [] ==> woken)
    ensures var kept := Stamped(FirstOccurrences(turn.before), now + 1);
            PushAll(q, turn.before, now + 1) == q + kept && DueCount(q + kept, now) == |q| && (q + kept)[|q|..] == kept
  {
    var kept := Stamped(FirstOccurrences(turn.before), now + 1);
    PushAllKeeps(q, turn.before, now + 1);
    DueFirst(q, kept, now);
  }

  lemma {:induction false} DueFirst<V(!new)>(due: seq<Entry<V>>, later: seq<Entry<V>>, now: nat)
    requires (forall i :: 0 <= i < |due| ==> due[i].time <= now) &&
             (forall i :: 0 <= i < |later| ==> later[i].time > now)
    ensures DueCount(due + later, now) == |due| && (due + later)[|due|..] == later
  {
    if due != [] {
      DueFirst(due[1..], later, now);
      assert (due + later)[1..] == due[1..] + later;
    } else {
      assert due + later == later;
    }
  }

  /** A cycle shows exactly what the cycle before it sent: the stream emits if and only if something was
      sent, one tick later, and the value is the one whose first sending came last. */
  lemma FeedbackExact<V(!new)>(steps: seq<Step>, x: nat, turns: seq<Turn<V>>,
                               queues: seq<seq<Entry<V>>>, outs: seq<Option<V>>, j: nat)
    requires FeedbackRun(steps, x, turns, queues, outs) && j < |steps|
    ensures outs[j] == Expected(turns, j)
    ensures outs[j].Some? ==> Time(steps[j]) == Time(steps[j - 1]) + 1
    ensures outs[j].Some? <==> j > 0 && (turns[j - 1].before != [] || turns[j - 1].after != [])
    ensures outs[j].Some? ==>
              var sent, v := turns[j - 1].before + turns[j - 1].after, outs[j].value;
              v in sent && forall y :: y in sent ==> FirstIndex(sent, y) <= FirstIndex(sent, v)
  {
    if j > 0 && Sent(turns[j - 1]) != [] {
      ShownIsThere(Sent(turns[j - 1]));
      ShownIsNewest(Sent(turns[j - 1]), Shown(Sent(turns[j - 1])));
    }
    QueueIsLastSent(steps, x, turns, queues, outs, j);
    FeedbackTurn(steps, x, turns, queues, outs, j);
    if j > 0 && Sent(turns[j - 1]) != [] {
      SendWakesNext(steps, x, turns, queues, outs, j);
    }
  }
}
