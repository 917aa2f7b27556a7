/** Real-time mode of the channel: a sender that pushes and then notifies races with an engine that collects
    notifications and then runs a cycle.  Sender and engine steps interleave freely. */
module RealtimeChannel {
  import opened TimeQueues
  import opened HistoricalChannel

  /** Where the receiver is in the present cycle. */
  datatype Phase = Idle | Draining | Drained

  /** `sent` is everything ever pushed, of which `read` messages have been received and `told` messages have
      had their notification sent.  `ready` is the queue of notifications, `dirty` the marked nodes. */
  datatype State<T> = State(
    sent: seq<Message<T>>, told: nat, closed: bool,
    ready: seq<nat>, dirty: set<nat>, cycling: bool,
    read: nat, phase: Phase, finished: bool, failed: bool,
    burst: seq<T>, emitted: seq<seq<T>>)

  datatype Event<T> =
    // the sender
    | Push(m: Message<T>)
    | Notify
    | Close
    // other notifications, scheduled callbacks and upstreams
    | NotifyOther(n: nat)
    | Mark(n: nat)
    // the engine
    | TakeReady
    | StartCycle
    | StartReceiver
    | Receive
    | FinishReceiver
    | EndCycle

  function Initial<T>(): State<T> {
    State([], 0, false, [], {}, false, 0, Idle, false, false, [], [])
  }

  /** An error ends the run.  The sender pushes nothing but end markers after an end marker, and drops its
      end only after its last notification.  Nodes are marked while notifications are collected or, by
      an upstream, before their own turn in the cycle. */
  predicate Enabled<T>(r: nat, s: State<T>, e: Event<T>) {
    && !s.failed
    && match e
       case Push(m) => !s.closed && (Ended(s.sent) ==> m.EndOfStream?)
       case Notify => s.told < |s.sent|
       case Close => s.told == |s.sent|
       case NotifyOther(_) => true
       case Mark(n) => n == r ==> s.phase == Idle
       case TakeReady => !s.cycling && s.ready != []
       case StartCycle => !s.cycling && s.dirty != {}
       case StartReceiver => s.cycling && r in s.dirty && s.phase == Idle
       case Receive => s.phase == Draining && !s.finished && (s.read < |s.sent| || s.closed)
       case FinishReceiver => s.phase == Draining && (s.finished || (s.read == |s.sent| && !s.closed))
       case EndCycle => s.cycling && (r in s.dirty ==> s.phase == Drained)
  }

  predicate Ended<T>(messages: seq<Message<T>>) {
    messages != [] && messages[|messages| - 1].EndOfStream?
  }

  function Apply<T>(r: nat, s: State<T>, e: Event<T>): State<T>
    requires Enabled(r, s, e)
  {
    match e
    case Push(m) => s.(sent := s.sent + [m])
    case Notify => s.(told := s.told + 1, ready := s.ready + [r])
    case Close => s.(closed := true)
    case NotifyOther(n) => s.(ready := s.ready + [n])
    case Mark(n) => s.(dirty := s.dirty + {n})
    case TakeReady => s.(dirty := s.dirty + {s.ready[0]}, ready := s.ready[1..])
    case StartCycle => s.(cycling := true)
    case StartReceiver => s.(phase := Draining, burst := [])
    case Receive => Received(s)
    case FinishReceiver =>
      s.(phase := Drained, burst := [], emitted := if s.burst == [] then s.emitted else s.emitted + [s.burst])
    case EndCycle => s.(cycling := false, dirty := {}, phase := Idle)
  }

  /** One `try_recv` that finds something; a closed and empty channel yields the end marker. */
  function Received<T>(s: State<T>): State<T> {
    if s.read >= |s.sent| then s.(finished := true)
    else
      var m := s.sent[s.read];
      var s1 := s.(read := s.read + 1);
      match m
      case Error(_) => s1.(failed := true)
      case EndOfStream => s1.(finished := true)
      case _ => s1.(burst := s.burst + Payload(m))
  }

  function Payload<T>(m: Message<T>): seq<T> {
    match m
    case RealtimeValue(v) => [v]
    case HistoricalValue(g) => g.burst
    case _ => []
  }

  function Payloads<T>(messages: seq<Message<T>>): seq<T> {
    if messages == [] then [] else Payloads(messages[..|messages| - 1]) + Payload(messages[|messages| - 1])
  }

  function Concat<T>(bursts: seq<seq<T>>): seq<T> {
    if bursts == [] then [] else Concat(bursts[..|bursts| - 1]) + bursts[|bursts| - 1]
  }

  /** The bursts, one after the other. */
  lemma ConcatInOrder<T>(bursts: seq<seq<T>>, burst: seq<T>)
    ensures Concat<T>([]) == [] && Concat(bursts + [burst]) == Concat(bursts) + burst
  {
    assert (bursts + [burst])[..|bursts|] == bursts;
  }

  // ----- The invariant -----

  predicate Unread<T>(s: State<T>, i: nat) {
    s.read <= i < |s.sent|
  }

  /** If a message is unread, its notification is still to be sent, or one is in the ready queue, or the
      receiver is marked and has yet to finish draining. */
  ghost predicate NoLostWakeUp<T>(r: nat, s: State<T>) {
    forall i: nat :: Unread(s, i) && !s.finished ==>
      i >= s.told || r in s.ready || (r in s.dirty && s.phase != Drained)
  }

  /** What has come out, and the burst being collected, is exactly what has been read, in order. */
  ghost predicate Conserved<T>(s: State<T>) {
    && s.read <= |s.sent|
    && Concat(s.emitted) + s.burst == Payloads(s.sent[..s.read])
    && (forall i :: 0 <= i < |s.emitted| ==> s.emitted[i] != [])
  }

  /** Nothing but end markers follows an end marker, so a finished receiver has left no value behind. */
  ghost predicate EndsOnce<T>(s: State<T>) {
    && (forall i, j :: 0 <= i < j < |s.sent| && s.sent[i].EndOfStream? ==> s.sent[j].EndOfStream?)
    && (s.finished ==> forall i :: s.read <= i < |s.sent| ==> s.sent[i].EndOfStream?)
    && (s.finished ==> s.closed || Ended(s.sent))
  }

  ghost predicate Protocol<T>(r: nat, s: State<T>) {
    Phased(r, s) && NoLostWakeUp(r, s) && Conserved(s) && EndsOnce(s)
  }

  ghost predicate Phased<T>(r: nat, s: State<T>) {
    && s.told <= |s.sent| && (s.closed ==> s.told == |s.sent|)
    && (s.phase != Idle ==> s.cycling && r in s.dirty)
    && (s.phase != Draining ==> s.burst == [])
  }

  lemma PhasesKept<T>(r: nat, s: State<T>, e: Event<T>)
    requires Phased(r, s) && Enabled(r, s, e)
    ensures Phased(r, Apply(r, s, e))
  {
    hide Payload;
  }

  lemma WakeUpKept<T>(r: nat, s: State<T>, e: Event<T>)
    requires Protocol(r, s) && Enabled(r, s, e)
    ensures NoLostWakeUp(r, Apply(r, s, e))
  {
    var s' := Apply(r, s, e);
    hide Conserved, EndsOnce, Payload;
    assert forall i: nat :: Unread(s', i) && i < s.told ==> Unread(s, i);
    if e.TakeReady? {
      assert forall n :: n in s.ready ==> n == s.ready[0] || n in s.ready[1..];
    }
  }

  lemma PayloadsNext<T>(messages: seq<Message<T>>, n: nat)
    requires n < |messages|
    ensures Payloads(messages[..n + 1]) == Payloads(messages[..n]) + Payload(messages[n])
  {
    assert messages[..n + 1][..n] == messages[..n];
  }

  lemma {:induction false} ReadingConserves<T>(s: State<T>)
    requires Conserved(s)
    ensures Conserved(Received(s))
  {
    hide Payload, Payloads, Concat;
    if s.read < |s.sent| {
      var m := s.sent[s.read];
      PayloadsNext(s.sent, s.read);
      MarkersCarryNothing(m);
      GrowBurst(Concat(s.emitted), s.burst, Payload(m));
    }
  }

  lemma MarkersCarryNothing<T>(m: Message<T>)
    ensures m.EndOfStream? || m.Error? ==> Payload(m) == []
  {
  }

  lemma GrowBurst<T>(done: seq<T>, burst: seq<T>, payload: seq<T>)
    ensures done + burst + payload == done + (burst + payload) &&
            (payload == [] ==> done + burst + payload == done + burst)
  {
  }

  lemma EmittingConserves<T>(s: State<T>)
    requires Conserved(s) && s.burst != []
    ensures Conserved(s.(burst := [], emitted := s.emitted + [s.burst]))
  {
    assert (s.emitted + [s.burst])[..|s.emitted|] == s.emitted;
  }

  lemma ConservationKept<T>(r: nat, s: State<T>, e: Event<T>)
    requires Protocol(r, s) && Enabled(r, s, e)
    ensures Conserved(Apply(r, s, e))
  {
    match e {
      case Receive => ReadingConserves(s);
      case FinishReceiver =>
        if s.burst != [] {
          EmittingConserves(s);
        }
      case Push(m) => assert (s.sent + [m])[..s.read] == s.sent[..s.read];
      case _ =>
    }
    hide Payloads, Concat, Received;
  }

  lemma EndKept<T>(r: nat, s: State<T>, e: Event<T>)
    requires Protocol(r, s) && Enabled(r, s, e)
    ensures EndsOnce(Apply(r, s, e))
  {
    hide NoLostWakeUp, Conserved, Payload;
  }

  /** Every step of sender, engine and receiver keeps the protocol. */
  lemma ProtocolKept<T>(r: nat, s: State<T>, e: Event<T>)
    requires Protocol(r, s) && Enabled(r, s, e)
    ensures Protocol(r, Apply(r, s, e))
  {
    PhasesKept(r, s, e);
    WakeUpKept(r, s, e);
    ConservationKept(r, s, e);
    EndKept(r, s, e);
    hide Phased, NoLostWakeUp, Conserved, EndsOnce, Enabled, Apply;
  }

  // ----- Every interleaving -----

  /** The steps are enabled one after the other. */
  predicate IsInterleaving<T>(r: nat, events: seq<Event<T>>)
    decreases |events|, 0
  {
    events == [] ||
      (IsInterleaving(r, events[..|events| - 1]) && Enabled(r, After(r, events[..|events| - 1]), events[|events| - 1]))
  }

  function After<T>(r: nat, events: seq<Event<T>>): State<T>
    requires IsInterleaving(r, events)
    decreases |events|, 1
  {
    if events == [] then Initial() else Apply(r, After(r, events[..|events| - 1]), events[|events| - 1])
  }

  lemma {:induction false} ProtocolHolds<T>(r: nat, events: seq<Event<T>>)
    requires IsInterleaving(r, events)
    ensures Protocol(r, After(r, events))
  {
    if events != [] {
      ProtocolHolds(r, events[..|events| - 1]);
      ProtocolKept(r, After(r, events[..|events| - 1]), events[|events| - 1]);
    }
  }

  lemma {:induction false} PayloadsPrefix<T>(messages: seq<Message<T>>, n: nat)
    requires n <= |messages|
    ensures Payloads(messages[..n]) <= Payloads(messages)
    decreases |messages|
  {
    if n < |messages| {
      var init := messages[..|messages| - 1];
      PayloadsPrefix(init, n);
      assert messages[..n] == init[..n];
    } else {
      assert messages[..n] == messages;
    }
  }

  /** Over every interleaving, the bursts emitted concatenate to a prefix of the values sent. */
  lemma EmittedIsPrefix<T>(r: nat, events: seq<Event<T>>)
    requires IsInterleaving(r, events)
    ensures Concat(After(r, events).emitted) <= Payloads(After(r, events).sent)
  {
    ProtocolHolds(r, events);
    var s := After(r, events);
    PayloadsPrefix(s.sent, s.read);
    assert Concat(s.emitted) <= Concat(s.emitted) + s.burst;
  }

  lemma {:induction false} EndMarkersCarryNothing<T>(messages: seq<Message<T>>, n: nat)
    requires n <= |messages| && forall i :: n <= i < |messages| ==> messages[i].EndOfStream?
    ensures Payloads(messages[..n]) == Payloads(messages)
    decreases |messages|
  {
    if n < |messages| {
      var init := messages[..|messages| - 1];
      EndMarkersCarryNothing(init, n);
      assert messages[..n] == init[..n];
    } else {
      assert messages[..n] == messages;
    }
  }

  /** What the sender pushes over the steps. */
  function Pushes<T>(events: seq<Event<T>>): seq<Message<T>> {
    if events == [] then []
    else
      var n := |events| - 1;
      Pushes(events[..n]) + if events[n].Push? then [events[n].m] else []
  }

  lemma {:induction false} SentIsPushed<T>(r: nat, events: seq<Event<T>>)
    requires IsInterleaving(r, events)
    ensures After(r, events).sent == Pushes(events)
  {
    if events != [] {
      SentIsPushed(r, events[..|events| - 1]);
      hide Payload, Enabled;
    }
  }

  // ----- What messages carry -----

  /** Each message has its place among the payloads: a real-time value is there by itself, a group with its whole
      burst in order, and other messages carry nothing. */
  lemma {:induction false} CarriedAt<T>(messages: seq<Message<T>>, k: nat)
    requires k < |messages|
    ensures var at, all := |Payloads(messages[..k])|, Payloads(messages);
            var next := |Payloads(messages[..k + 1])|;
            at <= next <= |all| &&
              match messages[k]
              case RealtimeValue(v) => next == at + 1 && all[at] == v
              case HistoricalValue(g) => next == at + |g.burst| && all[at..next] == g.burst
              case _ => next == at
  {
    PayloadsNext(messages, k);
    PayloadsPrefix(messages, k + 1);
    var at, all := Payloads(messages[..k]), Payloads(messages);
    assert all[..|at| + |Payload(messages[k])|] == at + Payload(messages[k]);
  }

  /** `vs` one by one, and then nothing but end markers. */
  ghost predicate CarriesValues<T>(messages: seq<Message<T>>, vs: seq<T>) {
    && |vs| <= |messages|
    && (forall k :: 0 <= k < |vs| ==> messages[k] == RealtimeValue(vs[k]))
    && (forall k :: |vs| <= k < |messages| ==> messages[k].EndOfStream?)
  }

  lemma {:induction false} ValuesCarried<T>(messages: seq<Message<T>>, vs: seq<T>)
    requires CarriesValues(messages, vs)
    ensures Payloads(messages) == vs
    decreases |messages|
  {
    if messages != [] {
      var n := |messages| - 1;
      if |vs| == |messages| {
        ValuesCarried(messages[..n], vs[..n]);
        assert vs == vs[..n] + [vs[n]];
      } else {
        ValuesCarried(messages[..n], vs);
      }
    }
  }

  /** A sender that pushes `vs` one by one: at any time, what has been emitted is a prefix of `vs`. */
  lemma ValuesArriveInOrder<T>(r: nat, events: seq<Event<T>>, vs: seq<T>)
    requires IsInterleaving(r, events) && CarriesValues(Pushes(events), vs)
    ensures Concat(After(r, events).emitted) <= vs
  {
    SentIsPushed(r, events);
    EmittedIsPrefix(r, events);
    ValuesCarried(After(r, events).sent, vs);
  }

  /** And when it has told of everything and the engine would block, all of `vs` has been emitted, each value once
      and in order. */
  lemma ValuesArrive<T>(r: nat, events: seq<Event<T>>, vs: seq<T>)
    requires IsInterleaving(r, events) && CarriesValues(Pushes(events), vs)
    ensures var s := After(r, events);
            s.told == |s.sent| && r !in s.ready && !s.cycling && r !in s.dirty && !s.failed ==> Concat(s.emitted) == vs
  {
    SentIsPushed(r, events);
    NothingStranded(r, events);
    ValuesCarried(After(r, events).sent, vs);
  }

  /** When the sender has told of everything and the engine would block, with nothing ready and nothing
      marked, every value sent has been emitted, exactly once and in order. */
  lemma NothingStranded<T>(r: nat, events: seq<Event<T>>)
    requires IsInterleaving(r, events)
    ensures var s := After(r, events);
            s.told == |s.sent| && r !in s.ready && !s.cycling && r !in s.dirty && !s.failed ==>
              Concat(s.emitted) == Payloads(s.sent)
  {
    ProtocolHolds(r, events);
    var s := After(r, events);
    if s.told == |s.sent| && r !in s.ready && !s.cycling && r !in s.dirty && !s.failed {
      assert Concat(s.emitted) + [] == Concat(s.emitted);
      if s.finished {
        EndMarkersCarryNothing(s.sent, s.read);
      } else {
        assert !Unread(s, s.read);
        assert s.sent[..s.read] == s.sent;
      }
    }
  }

  /** A wake-up that is owed can be taken: an unread message whose notification was sent always leaves the
      engine a step that brings the receiver closer to it. */
  lemma {:induction false} WakeUpCanBeTaken<T>(r: nat, events: seq<Event<T>>)
    requires IsInterleaving(r, events)
    ensures CanMove(r, After(r, events))
  {
    ProtocolHolds(r, events);
    hide IsInterleaving, After, Conserved, EndsOnce, CanMove;
    OwedIsTaken(r, After(r, events));
  }

  /** If a notified message is unread, some step of the engine leads towards it. */
  ghost predicate CanMove<T>(r: nat, s: State<T>) {
    s.read < s.told && !s.finished && !s.failed ==>
      || (s.phase == Draining && Enabled(r, s, Receive))
      || (s.cycling && r in s.dirty && Enabled(r, s, StartReceiver))
      || (!s.cycling && r in s.dirty && Enabled(r, s, StartCycle))
      || (!s.cycling && r in s.ready && Enabled(r, s, TakeReady))
      || (s.cycling && r in s.ready && Enabled(r, s, EndCycle))
  }

  lemma {:induction false} OwedIsTaken<T>(r: nat, s: State<T>)
    requires Phased(r, s) && NoLostWakeUp(r, s)
    ensures CanMove(r, s)
  {
    if s.read < s.told && !s.finished && !s.failed {
      assert Unread(s, s.read);
      hide NoLostWakeUp;
      assert r in s.ready || (r in s.dirty && s.phase != Drained);
    }
  }

  // ----- The receiving node -----

  predicate IsLast<T>(m: Message<T>) {
    m.EndOfStream? || m.Error?
  }

  /** How many of the arrivals are taken: no more than the first end marker or error. */
  function Useful<T>(arrivals: seq<Message<T>>): (n: nat)
    ensures n <= |arrivals|
    ensures forall i :: 0 <= i < n - 1 ==> !IsLast(arrivals[i])
    ensures n < |arrivals| ==> n > 0 && IsLast(arrivals[n - 1])
  {
    if arrivals == [] then 0
    else if IsLast(arrivals[0]) then 1
    else 1 + Useful(arrivals[1..])
  }

  lemma {:induction false} PayloadsAppend<T>(a: seq<Message<T>>, b: seq<Message<T>>)
    ensures Payloads(a + b) == Payloads(a) + Payloads(b)
    decreases |b|
  {
    hide Payload;
    if b == [] {
      assert a + b == a;
    } else {
      var init := b[..|b| - 1];
      PayloadsAppend(a, init);
      AppendInit(a, b);
      assert Payloads(a + b) == Payloads(a + init) + Payload(b[|b| - 1]);
    }
  }

  /** What the polls yield on top of `values`, and the message that stopped them, if one did. */
  datatype Yield<T> = Yield(values: seq<T>, last: Option<Message<T>>)

  function Drain<T>(values: seq<T>, arrivals: seq<Message<T>>): Yield<T>
    decreases |arrivals|
  {
    if arrivals == [] then Yield(values, None)
    else if IsLast(arrivals[0]) then Yield(values, Some(arrivals[0]))
    else Drain(values + Payload(arrivals[0]), arrivals[1..])
  }

  /** A drain takes exactly the payloads up to the first end marker or error. */
  lemma {:induction false} DrainIsPayloads<T>(values: seq<T>, arrivals: seq<Message<T>>)
    ensures var n, y := Useful(arrivals), Drain(values, arrivals);
            && y.values == values + Payloads(arrivals[..n])
            && y.last == if n > 0 && IsLast(arrivals[n - 1]) then Some(arrivals[n - 1]) else None
    decreases |arrivals|
  {
    if arrivals != [] {
      var head, tail := arrivals[0], arrivals[1..];
      PayloadsOne(head);
      if IsLast(head) {
        assert arrivals[..1] == [head];
      } else {
        var m := Useful(tail);
        DrainIsPayloads(values + Payload(head), tail);
        FirstPayload(arrivals, m);
        GrowBurst(values, Payload(head), Payloads(tail[..m]));
      }
      hide Payload, Payloads, IsLast;
    }
  }

  /** Real-time values are drained one by one. */
  lemma ValuesDrained<T>(arrivals: seq<Message<T>>)
    requires forall k :: 0 <= k < |arrivals| ==> arrivals[k].RealtimeValue?
    ensures var y := Drain([], arrivals);
            y.last.None? && |y.values| == |arrivals| &&
              forall k :: 0 <= k < |arrivals| ==> y.values[k] == arrivals[k].value
  {
    var vs := seq(|arrivals|, k requires 0 <= k < |arrivals| => arrivals[k].value);
    DrainIsPayloads([], arrivals);
    ValuesCarried(arrivals, vs);
    assert arrivals[..|arrivals|] == arrivals;
    assert [] + Payloads(arrivals) == Payloads(arrivals);
  }

  /** A drain goes up to the first end marker or error, and reports it. */
  lemma {:induction false} DrainStopsAt<T>(values: seq<T>, arrivals: seq<Message<T>>, k: nat)
    requires k < |arrivals| && (arrivals[k].EndOfStream? || arrivals[k].Error?)
    requires forall i :: 0 <= i < k ==> !arrivals[i].EndOfStream? && !arrivals[i].Error?
    ensures Drain(values, arrivals) == Yield(values + Payloads(arrivals[..k]), Some(arrivals[k]))
  {
    FirstLast(arrivals, k);
    PayloadsOne(arrivals[k]);
    hide Payload, Payloads, Drain, IsLast, Useful;
    DrainIsPayloads(values, arrivals);
    PayloadsNext(arrivals, k);
    assert Payloads(arrivals[..k]) + [] == Payloads(arrivals[..k]);
  }

  lemma FirstLast<T>(arrivals: seq<Message<T>>, k: nat)
    requires k < |arrivals| && (arrivals[k].EndOfStream? || arrivals[k].Error?)
    requires forall i :: 0 <= i < k ==> !arrivals[i].EndOfStream? && !arrivals[i].Error?
    ensures Useful(arrivals) == k + 1 && IsLast(arrivals[k])
  {
    var n := Useful(arrivals);
    assert IsLast(arrivals[k]) && forall i :: 0 <= i < k ==> !IsLast(arrivals[i]);
  }

  lemma FirstPayload<T>(arrivals: seq<Message<T>>, m: nat)
    requires m < |arrivals|
    ensures Payloads(arrivals[..m + 1]) == Payload(arrivals[0]) + Payloads(arrivals[1..][..m])
  {
    PayloadsOne(arrivals[0]);
    PayloadsAppend([arrivals[0]], arrivals[1..][..m]);
    HeadAndTail(arrivals, m);
    hide *;
  }

  lemma HeadAndTail<T>(s: seq<T>, m: nat)
    requires m < |s|
    ensures s[..m + 1] == [s[0]] + s[1..][..m]
  {
  }

  lemma AppendInit<T>(a: seq<T>, b: seq<T>)
    requires b != []
    ensures (a + b)[..|a + b| - 1] == a + b[..|b| - 1] && (a + b)[|a + b| - 1] == b[|b| - 1]
  {
  }

  lemma PayloadsOne<T>(m: Message<T>)
    ensures Payloads([m]) == Payload(m) && (IsLast(m) ==> Payload(m) == [])
  {
    assert [m][..0] == [];
  }

  // ----- The node's drain, inside the state machine -----

  /** Between `s1`, where the receiver started, and `s2` it has read on, past no end marker or error. */
  ghost predicate Reading<T>(s1: State<T>, s2: State<T>) {
    && s2.phase == Draining && s2.emitted == s1.emitted && s1.sent <= s2.sent && s1.read <= s2.read <= |s2.sent|
    && forall i :: s1.read <= i < s2.read && IsLast(s2.sent[i]) ==> i == s2.read - 1 && (s2.finished || s2.failed)
  }

  lemma ReadingGoesOn<T>(r: nat, s1: State<T>, s2: State<T>, e: Event<T>)
    requires Reading(s1, s2) && Phased(r, s2) && Enabled(r, s2, e) && !e.FinishReceiver?
    ensures Reading(s1, Apply(r, s2, e))
  {
    hide Payload;
  }

  lemma {:induction false} ReadingSince<T>(r: nat, before: seq<Event<T>>, during: seq<Event<T>>)
    requires IsInterleaving(r, before + [StartReceiver] + during) && forall e :: e in during ==> !e.FinishReceiver?
    ensures IsInterleaving(r, before + [StartReceiver])
    ensures Reading(After(r, before + [StartReceiver]), After(r, before + [StartReceiver] + during))
    decreases |during|
  {
    var start := before + [StartReceiver];
    if during == [] {
      assert start + during == start && start[..|start| - 1] == before;
      ProtocolHolds(r, start);
    } else {
      var init, last := during[..|during| - 1], during[|during| - 1];
      AppendInit(start, during);
      assert last in during && forall e :: e in init ==> e in during;
      ReadingSince(r, before, init);
      ProtocolHolds(r, start + init);
      ReadingGoesOn(r, After(r, start), After(r, start + init), last);
    }
    hide Reading, Protocol;
  }

  /** While it drains, the receiver in the state machine has collected exactly what the node's own loop
      collects from the messages it has read. */
  lemma BurstIsDrain<T>(r: nat, before: seq<Event<T>>, during: seq<Event<T>>)
    requires IsInterleaving(r, before + [StartReceiver] + during) && forall e :: e in during ==> !e.FinishReceiver?
    ensures IsInterleaving(r, before + [StartReceiver])
    ensures var s1, s2 := After(r, before + [StartReceiver]), After(r, before + [StartReceiver] + during);
            s1.read <= s2.read <= |s2.sent| && s2.burst == Drain([], s2.sent[s1.read..s2.read]).values
  {
    ReadingSince(r, before, during);
    ProtocolHolds(r, before + [StartReceiver]);
    ProtocolHolds(r, before + [StartReceiver] + during);
    var start := before + [StartReceiver];
    assert start[..|start| - 1] == before;
    var s1, s2 := After(r, start), After(r, start + during);
    assert s1.burst == [];
    hide IsInterleaving, After;
    CollectedSince(s1, s2);
  }

  lemma CollectedSince<T>(s1: State<T>, s2: State<T>)
    requires Reading(s1, s2) && Conserved(s1) && Conserved(s2) && s1.burst == []
    ensures s2.burst == Drain([], s2.sent[s1.read..s2.read]).values
  {
    var arrivals := s2.sent[s1.read..s2.read];
    AllUseful(s1, s2);
    ReadSince(s1, s2);
    DrainIsPayloads([], arrivals);
    hide *;
    assert arrivals[..|arrivals|] == arrivals && [] + Payloads(arrivals) == Payloads(arrivals);
  }

  lemma ReadSince<T>(s1: State<T>, s2: State<T>)
    requires Reading(s1, s2) && Conserved(s1) && Conserved(s2) && s1.burst == []
    ensures s2.burst == Payloads(s2.sent[s1.read..s2.read])
  {
    var arrivals, done := s2.sent[s1.read..s2.read], Concat(s1.emitted);
    assert done + [] == Payloads(s1.sent[..s1.read]) && done + s2.burst == Payloads(s2.sent[..s2.read]);
    SplitAt(s1.sent, s2.sent, s1.read, s2.read);
    hide *;
    PayloadsAppend(s1.sent[..s1.read], arrivals);
    assert done + [] == done;
    SameTail(done, s2.burst, Payloads(arrivals));
  }

  lemma SplitAt<T>(a: seq<T>, b: seq<T>, m: nat, n: nat)
    requires a <= b && m <= |a| && m <= n <= |b|
    ensures b[..n] == a[..m] + b[m..n]
  {
  }

  lemma SameTail<T>(done: seq<T>, a: seq<T>, b: seq<T>)
    requires done + a == done + b
    ensures a == b
  {
    assert a == (done + a)[|done|..] && b == (done + b)[|done|..];
  }

  lemma AllUseful<T>(s1: State<T>, s2: State<T>)
    requires Reading(s1, s2)
    ensures Useful(s2.sent[s1.read..s2.read]) == s2.read - s1.read
  {
    var arrivals := s2.sent[s1.read..s2.read];
    forall i | 0 <= i < |arrivals| - 1 ensures !IsLast(arrivals[i]) {
      assert arrivals[i] == s2.sent[s1.read + i];
    }
  }

  /** `arrivals` is what the node's successive polls find before one finds nothing. */
  class RealtimeReceiver<T> {
    var finished: bool
    var value: seq<T>

    constructor ()
      ensures !finished && value == []
    {
      finished, value := false, [];
    }

    method Poll(arrivals: seq<Message<T>>) returns (failure: Option<nat>, values: seq<T>)
      requires !finished
      modifies this`finished
      ensures var y := Drain([], arrivals);
              && values == y.values
              && (finished <==> y.last == Some(EndOfStream))
              && failure == if y.last.Some? && y.last.value.Error? then Some(y.last.value.code) else None
    {
      var left := arrivals;
      values, failure := [], None;
      while !finished && left != []
        invariant failure.None?
        invariant if finished then Drain([], arrivals) == Yield(values, Some(EndOfStream))
                  else Drain(values, left) == Drain([], arrivals)
        decreases |left|
      {
        match left[0] {
          case RealtimeValue(v) => values := values + [v];
          case HistoricalValue(g) => values := values + g.burst;
          case EndOfStream => finished := true;
          case CheckPoint(_) => assert values + [] == values;
          case Error(code) =>
            failure := Some(code);
            return;
        }
        left := left[1..];
      }
    }

    method Cycle(arrivals: seq<Message<T>>) returns (failure: Option<nat>, ticked: bool)
      modifies this
      ensures old(finished) ==> failure.None? && !ticked && finished && value == old(value)
      ensures !old(finished) ==>
                var y := Drain([], arrivals);
                && failure == (if y.last.Some? && y.last.value.Error? then Some(y.last.value.code) else None)
                && (finished <==> y.last == Some(EndOfStream))
                && (ticked <==> failure.None? && y.values != [])
                && value == if ticked then y.values else old(value)
      ensures !old(finished) && arrivals != [] && (forall k :: 0 <= k < |arrivals| ==> arrivals[k].RealtimeValue?) ==>
                ticked && |value| == |arrivals| && forall k :: 0 <= k < |arrivals| ==> value[k] == arrivals[k].value
    {
      ghost var before := finished;
      var values := [];
      failure, ticked := None, false;
      if !finished {
        failure, values := Poll(arrivals);
      }
      if failure.None? && values != [] {
        value, ticked := values, true;
      }
      if !before && forall k :: 0 <= k < |arrivals| ==> arrivals[k].RealtimeValue? {
        ValuesDrained(arrivals);
      }
    }
  }
}
