/** Historical mode of the channel between a producer and the graph: the producer's grouping of values by
    time, and the receiver that mixes blocking and non-blocking reads. */
module HistoricalChannel {
  import opened TimeQueues
  import opened Clocks
  import RunLoop

  datatype Message<T> =
    | CheckPoint(time: nat)
    | EndOfStream
    | HistoricalValue(group: Group<T>)
    | RealtimeValue(value: T)
    | Error(code: nat)

  /** A burst of values that share one timestamp. */
  datatype Group<T> = Group(time: nat, burst: seq<T>)

  // ----- The producer: grouping -----

  /** What the producer's stream yields: a stamped value, or an error. */
  datatype Item<T> = Value(time: nat, value: T) | Failure(code: nat)

  function ItemsOf<T>(g: Group<T>): (r: seq<Item<T>>)
    ensures |r| == |g.burst| && forall i :: 0 <= i < |r| ==> r[i] == Value(g.time, g.burst[i])
    decreases |g.burst|
  {
    if g.burst == [] then []
    else ItemsOf(Group(g.time, g.burst[..|g.burst| - 1])) + [Value(g.time, g.burst[|g.burst| - 1])]
  }

  function Unpack<T>(m: Message<T>): seq<Item<T>> {
    match m
    case HistoricalValue(g) => ItemsOf(g)
    case Error(code) => [Failure(code)]
    case _ => []
  }

  /** What a consumer of the messages gets back. */
  function Flatten<T>(messages: seq<Message<T>>): seq<Item<T>> {
    if messages == [] then [] else Flatten(messages[..|messages| - 1]) + Unpack(messages[|messages| - 1])
  }

  /** Only values and errors, no empty burst, and no timestamp split over adjacent messages. */
  ghost predicate Canonical<T>(messages: seq<Message<T>>) {
    && (forall i :: 0 <= i < |messages| ==> messages[i].HistoricalValue? || messages[i].Error?)
    && (forall i :: 0 <= i < |messages| && messages[i].HistoricalValue? ==> messages[i].group.burst != [])
    && (forall i, j :: 0 <= i < |messages| - 1 && j == i + 1 ==> !SameTime(messages[i], messages[j]))
  }

  predicate SameTime<T>(m: Message<T>, m': Message<T>) {
    m.HistoricalValue? && m'.HistoricalValue? && m.group.time == m'.group.time
  }

  datatype RunMode = RealTime | HistoricalFrom(start: nat)

  /** The producer's stream.  In historical mode consecutive values of one time become one message; in real
      time every value is a message of its own.  The stream ends with `EndOfStream`. */
  method ToMessageStream<T>(source: seq<Item<T>>, mode: RunMode) returns (messages: seq<Message<T>>)
    ensures |messages| > 0 && messages[|messages| - 1] == EndOfStream
    ensures mode.HistoricalFrom? ==>
              Canonical(messages[..|messages| - 1]) && Flatten(messages[..|messages| - 1]) == source
    ensures mode.RealTime? ==> messages[..|messages| - 1] == Singly(source)
  {
    messages := [];
    var pending: Option<Group<T>> := None;
    assert GroupAll(source[..0], mode) == Grouped(messages, pending);
    hide GroupAll, Canonical, Flatten, Singly, Grouping;
    for i := 0 to |source|
      invariant Grouped(messages, pending) == GroupAll(source[..i], mode)
    {
      GroupNext(source, i, mode);
      match source[i] {
        case Value(time, value) =>
          if mode.RealTime? {
            messages := messages + [RealtimeValue(value)];
          } else if pending.Some? && pending.value.time == time {
            pending := Some(Group(time, pending.value.burst + [value]));
          } else {
            messages := messages + Flushed(pending);
            pending := Some(Group(time, [value]));
          }
        case Failure(code) =>
          messages := messages + Flushed(pending) + [Error(code)];
          pending := None;
      }
    }
    assert source[..|source|] == source;
    StreamEnds(messages, pending, source, mode);
    messages := messages + Flushed(pending);
    messages := messages + [EndOfStream];
    hide *;
  }

  lemma GroupNext<T>(source: seq<Item<T>>, i: nat, mode: RunMode)
    requires i < |source|
    ensures GroupAll(source[..i + 1], mode) == Absorb(GroupAll(source[..i], mode), source[i], mode)
  {
    assert source[..i + 1][..i] == source[..i];
    hide Absorb;
  }

  /** What the stream has yielded once the source is exhausted. */
  lemma StreamEnds<T>(messages: seq<Message<T>>, pending: Option<Group<T>>, source: seq<Item<T>>, mode: RunMode)
    requires Grouped(messages, pending) == GroupAll(source, mode)
    ensures var out := messages + Flushed(pending) + [EndOfStream];
            && |out| > 0 && out[|out| - 1] == EndOfStream
            && (mode.HistoricalFrom? ==> Canonical(out[..|out| - 1]) && Flatten(out[..|out| - 1]) == source)
            && (mode.RealTime? ==> out[..|out| - 1] == Singly(source))
  {
    StreamEnd(messages, pending);
    hide GroupAll, Canonical, Flatten, Singly, Grouping, Flushed;
    if mode.HistoricalFrom? {
      GroupedRight(source, mode.start);
      GroupingEnd(messages, pending, source);
    } else {
      NeverGrouped(source);
    }
  }

  lemma StreamEnd<T>(messages: seq<Message<T>>, pending: Option<Group<T>>)
    ensures var out := messages + Flushed(pending) + [EndOfStream];
            out[|out| - 1] == EndOfStream && (pending.None? ==> out[..|out| - 1] == messages)
  {
  }

  /** Each item as a message of its own. */
  function Singly<T>(items: seq<Item<T>>): (r: seq<Message<T>>)
    ensures |r| == |items|
    ensures forall i :: 0 <= i < |r| ==>
              r[i] == if items[i].Value? then RealtimeValue(items[i].value) else Error(items[i].code)
  {
    if items == [] then []
    else
      var init, last := items[..|items| - 1], items[|items| - 1];
      Singly(init) + [if last.Value? then RealtimeValue(last.value) else Error(last.code)]
  }

  /** The messages yielded so far, and the group still open. */
  datatype Grouped<T> = Grouped(messages: seq<Message<T>>, pending: Option<Group<T>>)

  /** Taking in one item: it joins the open group, or closes it. */
  function Absorb<T>(g: Grouped<T>, item: Item<T>, mode: RunMode): Grouped<T> {
    match item
    case Value(time, value) =>
      if mode.RealTime? then Grouped(g.messages + [RealtimeValue(value)], g.pending)
      else if g.pending.Some? && g.pending.value.time == time
      then Grouped(g.messages, Some(Group(time, g.pending.value.burst + [value])))
      else Grouped(g.messages + Flushed(g.pending), Some(Group(time, [value])))
    case Failure(code) => Grouped(g.messages + Flushed(g.pending) + [Error(code)], None)
  }

  function GroupAll<T>(items: seq<Item<T>>, mode: RunMode): Grouped<T> {
    if items == [] then Grouped([], None) else Absorb(GroupAll(items[..|items| - 1], mode), items[|items| - 1], mode)
  }

  lemma {:induction false} NeverGrouped<T>(items: seq<Item<T>>)
    ensures GroupAll(items, RealTime) == Grouped(Singly(items), None)
  {
    if items != [] {
      var init := items[..|items| - 1];
      NeverGrouped(init);
      assert Singly(init) + Flushed<T>(None) == Singly(init);
    }
  }

  lemma {:induction false} GroupedRight<T>(items: seq<Item<T>>, start: nat)
    ensures var g := GroupAll(items, HistoricalFrom(start)); Grouping(g.messages, g.pending, items)
  {
    if items != [] {
      var init, last := items[..|items| - 1], items[|items| - 1];
      GroupedRight(init, start);
      assert items == init + [last];
      hide Grouping, Absorb;
      AbsorbRight(GroupAll(init, HistoricalFrom(start)), init, last, start);
    }
  }

  lemma AbsorbRight<T>(g: Grouped<T>, items: seq<Item<T>>, item: Item<T>, start: nat)
    requires Grouping(g.messages, g.pending, items)
    ensures var g' := Absorb(g, item, HistoricalFrom(start)); Grouping(g'.messages, g'.pending, items + [item])
  {
    hide Grouping;
    GroupingStep(g.messages, g.pending, items, item);
  }

  lemma GroupingEnd<T>(messages: seq<Message<T>>, pending: Option<Group<T>>, items: seq<Item<T>>)
    requires Grouping(messages, pending, items)
    ensures var out := messages + Flushed(pending) + [EndOfStream];
            Canonical(out[..|out| - 1]) && Flatten(out[..|out| - 1]) == items
  {
    var out := messages + Flushed(pending) + [EndOfStream];
    assert out[..|out| - 1] == messages + Flushed(pending);
  }

  /** The messages so far, with the pending group flushed, stand for the items so far; without a pending
      group the last message is not a value. */
  ghost predicate Grouping<T>(messages: seq<Message<T>>, pending: Option<Group<T>>, items: seq<Item<T>>) {
    && Canonical(messages + Flushed(pending))
    && Flatten(messages + Flushed(pending)) == items
    && (pending.None? && messages != [] ==> messages[|messages| - 1].Error?)
  }

  lemma GroupingStep<T>(messages: seq<Message<T>>, pending: Option<Group<T>>, items: seq<Item<T>>, item: Item<T>)
    requires Grouping(messages, pending, items)
    ensures match item
            case Value(time, value) =>
              if pending.Some? && pending.value.time == time
              then Grouping(messages, Some(Group(time, pending.value.burst + [value])), items + [item])
              else Grouping(messages + Flushed(pending), Some(Group(time, [value])), items + [item])
            case Failure(code) => Grouping(messages + Flushed(pending) + [Error(code)], None, items + [item])
  {
    match item {
      case Value(time, value) =>
        if pending.Some? && pending.value.time == time {
          GrowGroup(messages, pending.value, value);
        } else {
          assert pending.None? ==> messages + Flushed(pending) == messages;
          AddGroup(messages + Flushed(pending), time, value);
        }
      case Failure(code) =>
        AddError(messages + Flushed(pending), code);
        var out := messages + Flushed(pending) + [Error(code)];
        assert out + Flushed<T>(None) == out;
    }
    hide Canonical, Flatten;
  }

  function Flushed<T>(pending: Option<Group<T>>): seq<Message<T>> {
    if pending.Some? then [HistoricalValue(pending.value)] else []
  }

  lemma FlattenLast<T>(messages: seq<Message<T>>, m: Message<T>)
    ensures Flatten(messages + [m]) == Flatten(messages) + Unpack(m)
  {
    assert (messages + [m])[..|messages|] == messages;
  }

  /** The parts of `Canonical` that a new last message must meet. */
  ghost predicate CanFollow<T>(messages: seq<Message<T>>, m: Message<T>) {
    && (m.HistoricalValue? || m.Error?) && (m.HistoricalValue? ==> m.group.burst != [])
    && (messages != [] ==> !SameTime(messages[|messages| - 1], m))
  }

  lemma CanonicalLast<T>(messages: seq<Message<T>>, m: Message<T>)
    ensures Canonical(messages + [m]) <==> Canonical(messages) && CanFollow(messages, m)
  {
    var all := messages + [m];
    assert all[|messages|] == m && forall i :: 0 <= i < |messages| ==> all[i] == messages[i];
    if Canonical(all) {
      CanonicalInit(messages, m);
    }
    if Canonical(messages) && CanFollow(messages, m) {
      forall i, j | 0 <= i < |all| - 1 && j == i + 1 ensures !SameTime(all[i], all[j]) {
        assert j < |messages| ==> !SameTime(messages[i], messages[j]);
      }
    }
  }

  lemma CanonicalInit<T>(messages: seq<Message<T>>, m: Message<T>)
    requires Canonical(messages + [m])
    ensures Canonical(messages) && CanFollow(messages, m)
  {
    var all := messages + [m];
    assert all[|messages|] == m;
    forall i, j | 0 <= i < |messages| - 1 && j == i + 1 ensures !SameTime(messages[i], messages[j]) {
      assert !SameTime(all[i], all[j]);
    }
    forall i | 0 <= i < |messages|
      ensures (messages[i].HistoricalValue? || messages[i].Error?) &&
              (messages[i].HistoricalValue? ==> messages[i].group.burst != [])
    {
      assert all[i] == messages[i];
    }
    if messages != [] {
      assert !SameTime(all[|messages| - 1], all[|messages|]);
    }
  }

  lemma GrowGroup<T>(messages: seq<Message<T>>, g: Group<T>, value: T)
    requires Canonical(messages + [HistoricalValue(g)])
    ensures var g' := Group(g.time, g.burst + [value]);
            && Canonical(messages + [HistoricalValue(g')])
            && Flatten(messages + [HistoricalValue(g')]) ==
               Flatten(messages + [HistoricalValue(g)]) + [Value(g.time, value)]
  {
    var g' := Group(g.time, g.burst + [value]);
    CanonicalLast(messages, HistoricalValue(g));
    CanonicalLast(messages, HistoricalValue(g'));
    FlattenLast(messages, HistoricalValue(g));
    FlattenLast(messages, HistoricalValue(g'));
    ItemsGrow(g, value);
    hide Canonical, Flatten, ItemsOf;
  }

  lemma ItemsGrow<T>(g: Group<T>, value: T)
    ensures ItemsOf(Group(g.time, g.burst + [value])) == ItemsOf(g) + [Value(g.time, value)]
  {
  }

  lemma AddGroup<T>(messages: seq<Message<T>>, time: nat, value: T)
    requires Canonical(messages)
    requires messages != [] ==> !SameTime(messages[|messages| - 1], HistoricalValue(Group(time, [value])))
    ensures Canonical(messages + [HistoricalValue(Group(time, [value]))])
    ensures Flatten(messages + [HistoricalValue(Group(time, [value]))]) == Flatten(messages) + [Value(time, value)]
  {
    CanonicalLast(messages, HistoricalValue(Group(time, [value])));
    FlattenLast(messages, HistoricalValue(Group(time, [value])));
    assert ItemsOf(Group(time, [value])) == [Value(time, value)];
    hide Canonical, Flatten, ItemsOf;
  }

  lemma AddError<T>(messages: seq<Message<T>>, code: nat)
    requires Canonical(messages)
    ensures Canonical(messages + [Error(code)]) &&
            Flatten(messages + [Error(code)]) == Flatten(messages) + [Failure(code)]
  {
    CanonicalLast(messages, Error(code));
    FlattenLast(messages, Error(code));
    hide Canonical, Flatten;
  }

  ghost predicate TimeOrdered<T>(source: seq<Item<T>>, start: nat) {
    && (forall i :: 0 <= i < |source| ==> source[i].Value? && source[i].time >= start)
    && (forall i, j :: 0 <= i < j < |source| ==> source[i].time <= source[j].time)
  }

  /** The groups of a time-ordered source: one per distinct time, strictly increasing. */
  ghost predicate StrictGroups<T>(messages: seq<Message<T>>, start: nat) {
    && (forall i :: 0 <= i < |messages| ==> messages[i].HistoricalValue? && messages[i].group.time >= start)
    && (forall i, j :: 0 <= i < j < |messages| ==> messages[i].group.time < messages[j].group.time)
  }

  lemma {:induction false} OrderedSourceGivesStrictGroups<T>(messages: seq<Message<T>>, source: seq<Item<T>>,
                                                             start: nat)
    requires Canonical(messages) && Flatten(messages) == source && TimeOrdered(source, start)
    ensures StrictGroups(messages, start)
    ensures messages != [] ==> source != [] && source[|source| - 1].time == messages[|messages| - 1].group.time
    decreases |messages|
  {
    if messages != [] {
      var init, last := messages[..|messages| - 1], messages[|messages| - 1];
      var head := Flatten(init);
      assert init != [] ==> !SameTime(messages[|init| - 1], messages[|init|]);
      LastBurst(head, last, source, start);
      hide Flatten, Unpack, TimeOrdered;
      assert Canonical(init);
      OrderedSourceGivesStrictGroups(init, head, start);
      StrictExtends(init, last, start);
      assert messages == init + [last];
    }
  }

  lemma LastBurst<T>(head: seq<Item<T>>, last: Message<T>, source: seq<Item<T>>, start: nat)
    requires source == head + Unpack(last) && TimeOrdered(source, start)
    requires (last.HistoricalValue? && last.group.burst != []) || last.Error?
    ensures TimeOrdered(head, start) && last.HistoricalValue? && last.group.time >= start
    ensures source != [] && source[|source| - 1].Value? && source[|source| - 1].time == last.group.time
    ensures head != [] ==> head[|head| - 1].Value? && head[|head| - 1].time <= last.group.time
  {
    var tail := Unpack(last);
    assert forall i :: 0 <= i < |head| ==> head[i] == source[i];
    assert source[|head|] == tail[0] && source[|source| - 1] == tail[|tail| - 1];
  }

  lemma StrictExtends<T>(init: seq<Message<T>>, last: Message<T>, start: nat)
    requires StrictGroups(init, start) && last.HistoricalValue? && last.group.time >= start
    requires init != [] ==> init[|init| - 1].group.time < last.group.time
    ensures StrictGroups(init + [last], start)
  {
  }

  // ----- The producer: cutting the stream off at the end of the run -----

  /** The latest time the first `n` messages mention, the start before any does; `wall` is the clock when each
      message passes. */
  function LastTime<T>(messages: seq<Message<T>>, n: nat, start: nat, wall: nat -> nat): nat
    requires n <= |messages|
  {
    if n == 0 then start
    else
      match messages[n - 1]
      case RealtimeValue(_) => wall(n - 1)
      case HistoricalValue(g) => g.time
      case CheckPoint(t) => t
      case _ => LastTime(messages, n - 1, start, wall)
  }

  /** An unsigned 64-bit subtraction. */
  function Elapsed(time: nat, start: nat): nat {
    (time - start) % 0x1_0000_0000_0000_0000
  }

  predicate RunIsDone(runFor: RunLoop.RunFor, cycle: nat, elapsed: nat) {
    match runFor
    case Cycles(count) => cycle > count
    case Duration(nanos) => elapsed > nanos
    case Forever => false
  }

  /** Message `i` is the last one to go through. */
  predicate CutsOff<T>(messages: seq<Message<T>>, i: nat, start: nat, wall: nat -> nat, runFor: RunLoop.RunFor)
    requires i < |messages|
  {
    messages[i].EndOfStream? || RunIsDone(runFor, i, Elapsed(LastTime(messages, i + 1, start, wall), start))
  }

  /** `out` is the prefix up to and including the first message that is cut off behind. */
  ghost predicate CutShort<T>(messages: seq<Message<T>>, out: seq<Message<T>>, start: nat, wall: nat -> nat,
                              runFor: RunLoop.RunFor) {
    && |out| <= |messages| && out == messages[..|out|]
    && (forall i :: 0 <= i < |out| - 1 ==> !CutsOff(messages, i, start, wall, runFor))
    && (|out| < |messages| ==> |out| > 0 && CutsOff(messages, |out| - 1, start, wall, runFor))
  }

  /** For a run of `count` cycles, two more messages than that go through, if there are as many. */
  lemma CutByCycles<T>(messages: seq<Message<T>>, out: seq<Message<T>>, start: nat, wall: nat -> nat, count: nat)
    requires CutShort(messages, out, start, wall, RunLoop.Cycles(count))
    requires forall i :: 0 <= i < |messages| ==> !messages[i].EndOfStream?
    ensures |out| == if |messages| < count + 2 then |messages| else count + 2
  {
    assert count + 1 < |messages| ==> CutsOff(messages, count + 1, start, wall, RunLoop.Cycles(count));
  }

  /** The time each message passes at: its own stamp, the wall clock for a real-time value, and otherwise that of
      the message before it. */
  ghost predicate PassAt<T>(messages: seq<Message<T>>, start: nat, wall: nat -> nat, times: seq<nat>) {
    && |times| == |messages|
    && (forall i :: 0 <= i < |messages| ==>
          match messages[i]
          case RealtimeValue(_) => times[i] == wall(i)
          case HistoricalValue(g) => times[i] == g.time
          case CheckPoint(t) => times[i] == t
          case _ => i == 0 ==> times[0] == start)
    && forall i, j :: 0 <= i < j < |messages| && j == i + 1 && (messages[j].EndOfStream? || messages[j].Error?) ==>
         times[j] == times[i]
  }

  /** For a run of `nanos`, the messages that pass within that time of the start go through, and the first one
      behind it.  A time before the start is a long way behind it, because the subtraction wraps around. */
  lemma CutByDuration<T>(messages: seq<Message<T>>, out: seq<Message<T>>, start: nat, wall: nat -> nat, nanos: nat,
                         times: seq<nat>)
    requires CutShort(messages, out, start, wall, RunLoop.Duration(nanos)) && PassAt(messages, start, wall, times)
    requires start < 0x1_0000_0000_0000_0000 && forall i :: 0 <= i < |times| ==> times[i] < 0x1_0000_0000_0000_0000
    requires forall i :: 0 <= i < |messages| ==> !messages[i].EndOfStream?
    ensures forall i :: 0 <= i < |out| - 1 ==> !PastEnd(times[i], start, nanos)
    ensures |out| < |messages| ==> |out| > 0 && PastEnd(times[|out| - 1], start, nanos)
  {
    forall i | 0 <= i < |out|
      ensures CutsOff(messages, i, start, wall, RunLoop.Duration(nanos)) <==> PastEnd(times[i], start, nanos)
    {
      LastTimeIs(messages, start, wall, times, i);
      ElapsedIs(times[i], start);
    }
  }

  predicate PastEnd(time: nat, start: nat, nanos: nat) {
    if time >= start then time - start > nanos else 0x1_0000_0000_0000_0000 - (start - time) > nanos
  }

  lemma {:induction false} LastTimeIs<T>(messages: seq<Message<T>>, start: nat, wall: nat -> nat, times: seq<nat>,
                                         i: nat)
    requires PassAt(messages, start, wall, times) && i < |messages|
    ensures LastTime(messages, i + 1, start, wall) == times[i]
  {
    if i > 0 {
      LastTimeIs(messages, start, wall, times, i - 1);
      assert messages[i].EndOfStream? || messages[i].Error? ==> times[i] == times[i - 1];
    }
  }

  lemma ElapsedIs(time: nat, start: nat)
    requires time < 0x1_0000_0000_0000_0000 && start < 0x1_0000_0000_0000_0000
    ensures Elapsed(time, start) == if time >= start then time - start else 0x1_0000_0000_0000_0000 - (start - time)
  {
  }

  /** The longest prefix that the run can use: everything up to and including the first message that ends
      the stream or lies past the end of the run. */
  method Limit<T>(messages: seq<Message<T>>, start: nat, wall: nat -> nat, runFor: RunLoop.RunFor)
    returns (out: seq<Message<T>>)
    ensures CutShort(messages, out, start, wall, runFor)
    ensures runFor.Forever? && (forall i :: 0 <= i < |messages| - 1 ==> !messages[i].EndOfStream?) ==> out == messages
  {
    out := [];
    var time, cycle, finished := start, 0, false;
    while |out| < |messages|
      invariant cycle == |out| <= |messages| && out == messages[..|out|] && !finished
      invariant time == LastTime(messages, |out|, start, wall)
      invariant forall i :: 0 <= i < |out| ==> !CutsOff(messages, i, start, wall, runFor)
      decreases |messages| - |out|
    {
      var message := messages[|out|];
      match message {
        case RealtimeValue(_) => time := wall(|out|);
        case HistoricalValue(g) => time := g.time;
        case CheckPoint(t) => time := t;
        case EndOfStream => finished := true;
        case Error(_) =>
      }
      assert time == LastTime(messages, |out| + 1, start, wall);
      var elapsed := Elapsed(time, start);
      out := out + [message];
      if RunIsDone(runFor, cycle, elapsed) || finished {
        break;
      }
      cycle := cycle + 1;
    }
  }

  /** What a producer sends: its source, grouped, the end of the stream, and whatever closing adds to it. */
  ghost predicate Sends<T>(messages: seq<Message<T>>, source: seq<Item<T>>) {
    exists n :: 0 <= n < |messages| && SendsGroups(messages, n, source)
  }

  ghost predicate SendsGroups<T>(messages: seq<Message<T>>, n: nat, source: seq<Item<T>>)
    requires n <= |messages|
  {
    && Canonical(messages[..n]) && Flatten(messages[..n]) == source
    && forall i :: n <= i < |messages| ==> messages[i] == EndOfStream
  }

  /** The producer's task in an unbounded historical run: the limited stream, and the end marker of `close`. */
  method Produce<T>(source: seq<Item<T>>, start: nat, wall: nat -> nat) returns (sent: seq<Message<T>>)
    ensures Sends(sent, source)
  {
    var messages := ToMessageStream(source, HistoricalFrom(start));
    ghost var n := |messages| - 1;
    ghost var grouped := messages[..n];
    assert forall i :: 0 <= i < n ==> messages[i] == grouped[i] && !grouped[i].EndOfStream?;
    var limited := Limit(messages, start, wall, RunLoop.Forever);
    sent := limited + [EndOfStream];
    assert sent[..n] == grouped;
    assert SendsGroups(sent, n, source);
  }

  // ----- The receiver -----

  /** The receiving end of a channel: the messages in the order they will arrive, and whether the k-th
      non-blocking read finds one.  Once the sender is gone, every read yields `EndOfStream`. */
  datatype Channel<!T> = Channel(messages: seq<Message<T>>, available: nat -> bool)

  function Next<T>(ch: Channel<T>, pos: nat): Message<T> {
    if pos < |ch.messages| then ch.messages[pos] else EndOfStream
  }

  datatype Receiver<T> = Receiver(pos: nat, polls: nat, finished: bool, messageTime: Option<nat>, queue: seq<Group<T>>)

  datatype Failed = NotHistorical | TimeBehindGraph | Reported(code: nat)

  datatype Outcome<T> = Done(state: T) | Fail(error: Failed)

  /** Taking in one message at engine time `now`. */
  function Take<T>(st: Receiver<T>, m: Message<T>, now: nat): Outcome<Receiver<T>> {
    match m
    case RealtimeValue(_) => Fail(NotHistorical)
    case HistoricalValue(g) =>
      if g.time < now then Fail(TimeBehindGraph)
      else Done(st.(pos := st.pos + 1, messageTime := Some(g.time), queue := st.queue + [g]))
    case EndOfStream => Done(st.(pos := st.pos + 1, finished := true))
    case CheckPoint(t) => Done(st.(pos := st.pos + 1, messageTime := Some(t)))
    case Error(code) => Fail(Reported(code))
  }

  /** The receiver has read past the current time, or is driven by its trigger and has caught up. */
  predicate Stops<T>(st: Receiver<T>, now: nat, triggered: bool) {
    || st.finished
    || (st.messageTime.Some? && (st.messageTime.value > now || (st.messageTime.value == now && triggered)))
  }

  predicate CaughtUp<T>(st: Receiver<T>, now: nat) {
    st.messageTime == Some(now)
  }

  /** Read on: block while behind, poll once caught up. */
  function Read<T>(ch: Channel<T>, st: Receiver<T>, now: nat, triggered: bool): Outcome<Receiver<T>>
    decreases if st.finished then 0 else 1, if st.pos < |ch.messages| then |ch.messages| - st.pos else 0
  {
    if Stops(st, now, triggered) then Done(st)
    else if CaughtUp(st, now) && !ch.available(st.polls) then Done(st.(polls := st.polls + 1))
    else
      var st1 := if CaughtUp(st, now) then st.(polls := st.polls + 1) else st;
      match Take(st1, Next(ch, st.pos), now)
      case Fail(e) => Fail(e)
      case Done(st2) => Read(ch, st2, now, triggered)
  }

  /** Taking a message in moves on in the channel, or ends the stream. */
  lemma TakeMovesOn<T>(ch: Channel<T>, st: Receiver<T>, now: nat)
    ensures var r := Take(st, Next(ch, st.pos), now);
            r.Done? ==>
              r.state.pos == st.pos + 1 && r.state.polls == st.polls && (st.pos < |ch.messages| || r.state.finished)
  {
  }

  function DueGroups<T>(queue: seq<Group<T>>, now: nat): (n: nat)
    ensures n <= |queue| && (forall i :: 0 <= i < n ==> queue[i].time <= now)
    ensures n < |queue| ==> queue[n].time > now
  {
    if queue == [] || queue[0].time > now then 0 else 1 + DueGroups(queue[1..], now)
  }

  function Values<T>(groups: seq<Group<T>>): seq<T> {
    if groups == [] then [] else groups[0].burst + Values(groups[1..])
  }

  /** The values of groups, burst by burst, in order. */
  lemma {:induction false} ValuesInOrder<T>(a: seq<Group<T>>, g: Group<T>)
    ensures Values<T>([]) == [] && Values(a + [g]) == Values(a) + g.burst
  {
    if a == [] {
      assert a + [g] == [g] && [g][1..] == [];
    } else {
      ValuesInOrder(a[1..], g);
      assert (a + [g])[1..] == a[1..] + [g];
    }
  }

  /** One cycle: the state it leaves, the burst it emits (empty: no tick), the wake-up it requests. */
  datatype Cycled<T> = Cycled(state: Receiver<T>, burst: seq<T>, wakeup: Option<nat>)

  function Deliver<T>(st: Receiver<T>, now: nat, triggered: bool): Cycled<T> {
    var n := DueGroups(st.queue, now);
    var rest := st.queue[n..];
    var burst := Values(st.queue[..n]);
    if rest != [] then Cycled(st.(queue := rest), burst, Some(rest[0].time))
    else Cycled(st.(queue := [], messageTime := None), burst, if !st.finished && !triggered then Some(now) else None)
  }

  function ReceiverCycle<T>(ch: Channel<T>, st: Receiver<T>, now: nat, triggered: bool): Outcome<Cycled<T>> {
    match Read(ch, st, now, triggered)
    case Fail(e) => Fail(e)
    case Done(st1) => Done(Deliver(st1, now, triggered))
  }

  lemma DrainStep<T>(queue: seq<Group<T>>, now: nat)
    requires queue != [] && queue[0].time <= now
    ensures Values(queue[..DueGroups(queue, now)]) == queue[0].burst + Values(queue[1..][..DueGroups(queue[1..], now)])
    ensures queue[DueGroups(queue, now)..] == queue[1..][DueGroups(queue[1..], now)..]
  {
    var due := queue[..DueGroups(queue, now)];
    assert due[1..] == queue[1..][..DueGroups(queue[1..], now)];
  }

  /** What a receiver that has read nothing ahead does with the next message, by kind and time. */
  lemma NextMessageDecides<T>(ch: Channel<T>, st: Receiver<T>, now: nat, triggered: bool)
    requires !st.finished && st.messageTime.None? && st.queue == []
    ensures var m := if st.pos < |ch.messages| then ch.messages[st.pos] else EndOfStream;
            var r := ReceiverCycle(ch, st, now, triggered);
            match m
            case RealtimeValue(_) => r == Fail(NotHistorical)
            case Error(code) => r == Fail(Reported(code))
            case EndOfStream => r == Done(Cycled(st.(pos := st.pos + 1, finished := true), [], None))
            case HistoricalValue(g) =>
              && (g.time < now ==> r == Fail(TimeBehindGraph))
              && (g.time == now && triggered ==> r == Done(Cycled(st.(pos := st.pos + 1), g.burst, None)))
              && (g.time > now ==> r == Done(Cycled(st.(pos := st.pos + 1, messageTime := Some(g.time), queue := [g]),
                                                    [], Some(g.time))))
            case CheckPoint(t) =>
              && (t > now || (t == now && triggered) ==>
                    r == Done(Cycled(st.(pos := st.pos + 1), [], if triggered then None else Some(now))))
              && (t < now ==> r == ReceiverCycle(ch, st.(pos := st.pos + 1, messageTime := Some(t)), now, triggered))
  {
    var m := Next(ch, st.pos);
    assert st.queue[..0] == [] && st.queue[0..] == [];
    match m {
      case EndOfStream =>
        var st1 := st.(pos := st.pos + 1, finished := true);
        assert Take(st, m, now) == Done(st1) && Read(ch, st, now, triggered) == Read(ch, st1, now, triggered);
      case HistoricalValue(g) =>
        var st1 := st.(pos := st.pos + 1, messageTime := Some(g.time), queue := [g]);
        assert st.queue + [g] == [g] && [g][..0] == [] && [g][0..] == [g] && [g][..1] == [g] && [g][1..] == [];
        assert g.time >= now ==> Read(ch, st, now, triggered) == Read(ch, st1, now, triggered);
        assert Values([g]) == g.burst + Values([]) && g.burst + [] == g.burst;
        assert DueGroups([g], now) == if g.time > now then 0 else 1;
      case CheckPoint(t) =>
        var st1 := st.(pos := st.pos + 1, messageTime := Some(t));
        assert Take(st, m, now) == Done(st1) && Read(ch, st, now, triggered) == Read(ch, st1, now, triggered);
      case _ =>
    }
  }

  /** The node itself. */
  class ChannelReceiverStream<T> {
    const channel: Channel<T>
    const triggered: bool
    var pos: nat
    var polls: nat
    var finished: bool
    var messageTime: Option<nat>
    var queue: seq<Group<T>>
    var value: seq<T>

    ghost function State(): Receiver<T>
      reads this
    {
      Receiver(pos, polls, finished, messageTime, queue)
    }

    constructor (channel: Channel<T>, triggered: bool)
      ensures State() == Receiver(0, 0, false, None, []) && value == []
      ensures this.channel == channel && this.triggered == triggered
    {
      this.channel, this.triggered := channel, triggered;
      pos, polls, finished, messageTime, queue, value := 0, 0, false, None, [], [];
    }

    /** Setup in historical mode: an untriggered receiver will be woken at the start; a triggered one leaves
        the schedule alone. */
    method Setup(node: nat, start: nat, scheduler: RunLoop.Scheduler)
      requires scheduler.Valid()
      modifies scheduler.scheduled
      ensures scheduler.Valid()
      ensures scheduler.View() == old(scheduler.View()).(
                scheduled := old(scheduler.View()).scheduled + (if triggered then {} else {Callback(node, start)}))
      ensures !triggered ==> Pending(scheduler.View(), node, Due(scheduler.View(), start))
    {
      if !triggered {
        scheduler.AddCallback(Callback(node, start));
        assert Callback(node, start) in scheduler.View().scheduled;
      }
    }

    method ReadLoop(now: nat) returns (failure: Option<Failed>)
      modifies this`pos, this`polls, this`finished, this`messageTime, this`queue
      ensures match Read(channel, old(State()), now, triggered)
              case Done(st) => failure.None? && State() == st
              case Fail(e) => failure == Some(e)
    {
      while !finished
        invariant Read(channel, old(State()), now, triggered) == Read(channel, State(), now, triggered)
        decreases if finished then 0 else 1, if pos < |channel.messages| then |channel.messages| - pos else 0
      {
        var nonBlocking := false;
        if messageTime.Some? {
          if messageTime.value > now {
            break;
          } else if messageTime.value == now {
            if triggered {
              break;
            }
            nonBlocking := true;
          }
        }
        if nonBlocking {
          var found := channel.available(polls);
          if !found {
            polls := polls + 1;
            return None;
          }
          polls := polls + 1;
        }
        ghost var before := State();
        TakeMovesOn(channel, before, now);
        failure := Accept(Next(channel, pos), now);
        if failure.Some? {
          return;
        }
      }
      failure := None;
    }

    /** Take in one message. */
    method Accept(m: Message<T>, now: nat) returns (failure: Option<Failed>)
      modifies this`pos, this`finished, this`messageTime, this`queue
      ensures match Take(old(State()), m, now)
              case Done(st) => failure.None? && State() == st
              case Fail(e) => failure == Some(e)
    {
      match m {
        case RealtimeValue(_) => return Some(NotHistorical);
        case HistoricalValue(g) =>
          if g.time < now {
            return Some(TimeBehindGraph);
          }
          messageTime := Some(g.time);
          queue := queue + [g];
        case EndOfStream => finished := true;
        case CheckPoint(t) => messageTime := Some(t);
        case Error(code) => return Some(Reported(code));
      }
      pos := pos + 1;
      failure := None;
    }

    method DrainQueue(now: nat) returns (values: seq<T>)
      modifies this`queue
      ensures queue == old(queue)[DueGroups(old(queue), now)..]
      ensures values == Values(old(queue)[..DueGroups(old(queue), now)])
    {
      ghost var all := queue;
      values := [];
      while queue != [] && queue[0].time <= now
        invariant values + Values(queue[..DueGroups(queue, now)]) == Values(all[..DueGroups(all, now)])
        invariant queue[DueGroups(queue, now)..] == all[DueGroups(all, now)..]
        decreases |queue|
      {
        DrainStep(queue, now);
        values := values + queue[0].burst;
        queue := queue[1..];
      }
      assert queue[..0] == [] && queue[0..] == queue;
    }

    method Cycle(now: nat) returns (failure: Option<Failed>, ticked: bool, wakeup: Option<nat>)
      modifies this
      ensures match ReceiverCycle(channel, old(State()), now, triggered)
              case Fail(e) => failure == Some(e)
              case Done(c) =>
                && failure.None? && State() == c.state && wakeup == c.wakeup
                && (ticked <==> c.burst != []) && value == if ticked then c.burst else old(value)
    {
      ticked, wakeup := false, None;
      hide Read, DueGroups, Values;
      failure := ReadLoop(now);
      if failure.Some? {
        return;
      }
      ghost var st := State();
      var values := DrainQueue(now);
      assert queue == st.queue[DueGroups(st.queue, now)..] && values == Values(st.queue[..DueGroups(st.queue, now)]);
      if queue != [] {
        wakeup := Some(queue[0].time);
      } else {
        if !finished && !triggered {
          wakeup := Some(now);
        }
        messageTime := None;
      }
      if values != [] {
        value := values;
        ticked := true;
      }
    }
  }
}
