/** The nodes that emit weighted moments: over everything seen so far, or over a sliding window that adds the
    newest contribution and removes the ones that leave. */
module RollingMoments {
  import opened Moments

  datatype Weighting = ByCount | ByTime

  datatype Window = LastSamples(n: nat) | LastNanos(nanos: nat) | Unbounded

  datatype Moment = Mean | Variance

  datatype Sample = Sample(value: real, time: nat)

  /** In time order, and none later than `last`. */
  ghost predicate Timed(h: seq<Sample>, last: nat) {
    && (forall i, j :: 0 <= i < j < |h| ==> h[i].time <= h[j].time)
    && (forall i :: 0 <= i < |h| ==> h[i].time <= last)
  }

  lemma TimedPush(h: seq<Sample>, last: nat, s: Sample)
    requires Timed(h, last) && last <= s.time
    ensures Timed(h + [s], s.time)
  {
  }

  lemma SuffixPush(h: seq<Sample>, k: nat, s: Sample)
    requires k <= |h|
    ensures h[k..] + [s] == (h + [s])[k..]
  {
  }

  lemma SuffixPop(h: seq<Sample>, k: nat)
    requires k < |h|
    ensures h[k..][0] == h[k] && h[k..][1..] == h[k + 1..]
  {
  }

  lemma SuffixLast(h: seq<Sample>, k: nat, last: nat)
    requires Timed(h, last) && k < |h|
    ensures var b := h[k..]; b[|b| - 1].time <= last
  {
  }

  // ----- What the samples contribute -----

  function Gap(b: seq<Sample>, i: nat): real
    requires i + 1 < |b|
  {
    (b[i + 1].time - b[i].time) as real
  }

  /** By count, every sample has weight one; by time, its weight is the gap to its successor, so that the
      newest sample contributes nothing yet. */
  function Contributions(weighting: Weighting, b: seq<Sample>): (cs: seq<Contribution>)
    ensures |cs| == if weighting.ByTime? && b != [] then |b| - 1 else |b|
  {
    if weighting.ByCount? then seq(|b|, i requires 0 <= i < |b| => Contribution(b[i].value, 1.0))
    else if b == [] then []
    else seq(|b| - 1, i requires 0 <= i < |b| - 1 => Contribution(b[i].value, Gap(b, i)))
  }

  /** What a new sample `s` commits. */
  function Committed(weighting: Weighting, b: seq<Sample>, s: Sample): (cs: seq<Contribution>)
    ensures |cs| <= 1
  {
    if weighting.ByCount? then [Contribution(s.value, 1.0)]
    else if b == [] then []
    else [Contribution(b[|b| - 1].value, (s.time - b[|b| - 1].time) as real)]
  }

  lemma ContributionsPush(weighting: Weighting, b: seq<Sample>, s: Sample)
    ensures Contributions(weighting, b + [s]) == Contributions(weighting, b) + Committed(weighting, b, s)
  {
  }

  lemma ContributionsPop(weighting: Weighting, b: seq<Sample>)
    requires b != []
    ensures var cs := Contributions(weighting, b); Contributions(weighting, b[1..]) == if cs == [] then [] else cs[1..]
  {
    var cs, cs' := Contributions(weighting, b), Contributions(weighting, b[1..]);
    forall i | 0 <= i < |cs'| ensures cs'[i] == cs[i + 1] {
    }
  }

  // ----- The textbook value -----

  function TextbookMean(cs: seq<Contribution>): real
    requires TotalsOf(cs).w > 0.0
  {
    TotalsOf(cs).s / TotalsOf(cs).w
  }

  /** The moment, recomputed from scratch: sample variance for unit weights, population variance for time
      weights, and the current sample as the mean of nothing. */
  function Textbook(moment: Moment, weighting: Weighting, cs: seq<Contribution>, current: real): real {
    var t := TotalsOf(cs);
    match moment
    case Mean => if t.w <= 0.0 then current else TextbookMean(cs)
    case Variance =>
      if t.w <= 0.0 || (weighting.ByCount? && t.n < 2) then 0.0
      else SquaredDeviations(cs, TextbookMean(cs)) / (if weighting.ByCount? then t.n as real - 1.0 else t.w)
  }

  // ----- The accumulator -----

  function Grown(a: Accumulator, weighting: Weighting, b: seq<Sample>, s: Sample): Accumulator
    requires a.wSum >= 0.0
  {
    match weighting
    case ByCount => Pushed(a, s.value, 1.0)
    case ByTime => if b == [] then a else Pushed(a, b[|b| - 1].value, (s.time - b[|b| - 1].time) as real)
  }

  function Shrunk(a: Accumulator, weighting: Weighting, oldest: Sample, b: seq<Sample>): Accumulator {
    match weighting
    case ByCount => Removed(a, oldest.value, 1.0)
    case ByTime => if b == [] then a else Removed(a, oldest.value, (b[0].time - oldest.time) as real)
  }

  class WeightedMoments {
    var wSum: real
    var count: nat
    var mean: real
    var m2: real

    ghost function View(): Accumulator
      reads this
    {
      Accumulator(wSum, count, mean, m2)
    }

    constructor ()
      ensures View() == EMPTY
    {
      wSum, count, mean, m2 := 0.0, 0, 0.0, 0.0;
    }

    method Push(x: real, weight: real)
      requires wSum >= 0.0
      modifies this
      ensures View() == Pushed(old(View()), x, weight)
    {
      if weight <= 0.0 {
        return;
      }
      hide MeanWith, Spread;
      wSum := wSum + weight;
      count := count + 1;
      var meanOld := mean;
      mean := MeanWith(meanOld, x, weight, wSum);
      m2 := m2 + Spread(x, weight, meanOld, mean);
    }

    method Remove(x: real, weight: real)
      modifies this
      ensures View() == Removed(old(View()), x, weight)
    {
      if weight <= 0.0 {
        return;
      }
      var wNew := wSum - weight;
      if count <= 1 || wNew <= 0.0 {
        wSum, count, mean, m2 := 0.0, 0, 0.0, 0.0;
        return;
      }
      hide MeanWithout, Spread;
      count := count - 1;
      var meanOld := MeanWithout(mean, x, weight, wSum, wNew);
      m2 := m2 - Spread(x, weight, meanOld, mean);
      if m2 < 0.0 {
        m2 := 0.0;
      }
      mean := meanOld;
      wSum := wNew;
    }

    /** Commit the contribution that sample `s`, arriving after `b`, creates. */
    method Commit(weighting: Weighting, b: seq<Sample>, s: Sample)
      requires wSum >= 0.0
      modifies this
      ensures View() == Grown(old(View()), weighting, b, s)
    {
      match weighting {
        case ByCount => Push(s.value, 1.0);
        case ByTime =>
          if b != [] {
            var prev := b[|b| - 1];
            Push(prev.value, (s.time - prev.time) as real);
          }
      }
    }

    /** Remove the contribution that `oldest` made, now that `b` is what is left. */
    method Revert(weighting: Weighting, oldest: Sample, b: seq<Sample>)
      modifies this
      ensures View() == Shrunk(old(View()), weighting, oldest, b)
    {
      match weighting {
        case ByCount => Remove(oldest.value, 1.0);
        case ByTime =>
          if b != [] {
            Remove(oldest.value, (b[0].time - oldest.time) as real);
          }
      }
    }

    method VarianceOf(weighting: Weighting) returns (v: real)
      ensures v == if weighting.ByCount? then (if count < 2 then 0.0 else m2 / (count as real - 1.0))
                   else if wSum <= 0.0 then 0.0 else m2 / wSum
    {
      match weighting {
        case ByCount =>
          if count < 2 {
            return 0.0;
          }
          v := m2 / (count as real - 1.0);
        case ByTime =>
          if wSum <= 0.0 {
            return 0.0;
          }
          v := m2 / wSum;
      }
    }

    /** The moment asked for agrees with the textbook on whatever has been accumulated. */
    method Output(moment: Moment, weighting: Weighting, current: real, ghost cs: seq<Contribution>) returns (v: real)
      requires Represents(View(), cs)
      ensures v == Textbook(moment, weighting, cs, current)
    {
      OutputIsTextbook(View(), moment, weighting, cs, current);
      hide Represents, Textbook;
      match moment {
        case Mean => v := if wSum <= 0.0 then current else mean;
        case Variance => v := VarianceOf(weighting);
      }
    }
  }

  lemma OutputIsTextbook(a: Accumulator, moment: Moment, weighting: Weighting, cs: seq<Contribution>, current: real)
    requires Represents(a, cs)
    ensures moment == Mean ==> Textbook(moment, weighting, cs, current) == if a.wSum <= 0.0 then current else a.mean
    ensures moment == Variance && weighting == ByCount ==>
              Textbook(moment, weighting, cs, current) == if a.count < 2 then 0.0 else a.m2 / (a.count as real - 1.0)
    ensures moment == Variance && weighting == ByTime ==>
              Textbook(moment, weighting, cs, current) == if a.wSum <= 0.0 then 0.0 else a.m2 / a.wSum
  {
    RepresentsTextbook(a, cs);
    WeightIsPositive(cs);
    hide TotalsOf, SquaredDeviations;
  }

  // ----- Windows -----

  /** The front of the buffer has left the window. */
  predicate ShouldEvict(window: Window, b: seq<Sample>, now: nat) {
    match window
    case LastSamples(n) => |b| > n
    case LastNanos(nanos) => b != [] && now - b[0].time > nanos
    case Unbounded => false
  }

  /** The window over history `h` starts at `k`: the last `n` samples, or those no older than `nanos`. */
  ghost predicate StartsAt(h: seq<Sample>, window: Window, now: nat, k: nat) {
    && k <= |h|
    && match window
       case LastSamples(n) => k == if |h| > n then |h| - n else 0
       case LastNanos(nanos) =>
         && (forall i :: 0 <= i < k ==> now - h[i].time > nanos)
         && (forall i :: k <= i < |h| ==> now - h[i].time <= nanos)
       case Unbounded => k == 0
  }

  /** Nothing before `k` belongs to the window. */
  ghost predicate StartsFrom(h: seq<Sample>, window: Window, now: nat, k: nat) {
    && k <= |h|
    && match window
       case LastSamples(n) => k == 0 || |h| - k >= n
       case LastNanos(nanos) => forall i :: 0 <= i < k ==> now - h[i].time > nanos
       case Unbounded => k == 0
  }

  lemma WindowMovesOn(h: seq<Sample>, window: Window, before: nat, k: nat, s: Sample)
    requires StartsAt(h, window, before, k) && before <= s.time
    ensures StartsFrom(h + [s], window, s.time, k)
  {
  }

  lemma EvictStep(h: seq<Sample>, window: Window, now: nat, k: nat)
    requires StartsFrom(h, window, now, k) && Timed(h, now)
    ensures ShouldEvict(window, h[k..], now) ==> k < |h| && StartsFrom(h, window, now, k + 1)
    ensures !ShouldEvict(window, h[k..], now) ==> StartsAt(h, window, now, k)
  {
  }

  // ----- The nodes -----

  class RollingMomentStream {
    const moment: Moment
    const weighting: Weighting
    const window: Window
    const moments: WeightedMoments
    var buffer: seq<Sample>
    var value: real
    /** Everything seen so far, and where the window starts in it. */
    ghost var history: seq<Sample>
    ghost var start: nat
    ghost var last: nat

    /** The buffer is a suffix of what has been seen, and the accumulator is the buffer's. */
    ghost predicate Tracks()
      reads this, moments
    {
      && Timed(history, last) && start <= |history| && buffer == history[start..]
      && Represents(moments.View(), Contributions(weighting, buffer))
    }

    ghost predicate Valid()
      reads this, moments
    {
      Tracks() && StartsAt(history, window, last, start)
    }

    /** A window of no samples is clamped to one. */
    constructor (moment: Moment, weighting: Weighting, window: Window)
      ensures Valid() && history == [] && last == 0 && fresh(moments)
      ensures this.moment == moment && this.weighting == weighting
      ensures this.window == if window == LastSamples(0) then LastSamples(1) else window
    {
      this.moment, this.weighting := moment, weighting;
      this.window := if window == LastSamples(0) then LastSamples(1) else window;
      moments := new WeightedMoments();
      buffer, value, history, start, last := [], 0.0, [], 0, 0;
      new;
      assert TotalsOf([]) == Totals(0.0, 0.0, 0.0, 0);
    }

    method Commit(sample: real, now: nat)
      requires Tracks() && last <= now
      modifies moments, this`buffer, this`history, this`last
      ensures Tracks() && history == old(history) + [Sample(sample, now)] && last == now
    {
      var s := Sample(sample, now);
      if buffer != [] {
        SuffixLast(history, start, last);
      }
      CommitRepresents(moments.View(), weighting, buffer, s);
      TimedPush(history, last, s);
      SuffixPush(history, start, s);
      hide Represents, Contributions, Grown, Timed;
      moments.Commit(weighting, buffer, s);
      buffer := buffer + [s];
      history, last := history + [s], now;
    }

    method EvictFront(now: nat)
      requires Tracks() && buffer != []
      modifies moments, this`buffer, this`start
      ensures Tracks() && start == old(start) + 1
    {
      EvictRepresents(moments.View(), weighting, buffer);
      SuffixPop(history, start);
      hide Represents, Contributions, Shrunk, Timed;
      var oldest := buffer[0];
      buffer := buffer[1..];
      moments.Revert(weighting, oldest, buffer);
      start := start + 1;
    }

    method Evict(now: nat)
      requires Tracks() && last == now && StartsFrom(history, window, now, start)
      modifies moments, this`buffer, this`start
      ensures Tracks() && StartsAt(history, window, now, start)
    {
      hide Represents, Contributions, Timed, StartsFrom, StartsAt, ShouldEvict;
      while ShouldEvict(window, buffer, now)
        invariant Tracks() && StartsFrom(history, window, now, start)
        decreases |history| - start
      {
        EvictStep(history, window, now, start);
        EvictFront(now);
      }
      EvictStep(history, window, now, start);
    }

    /** After every tick the value is the textbook moment over exactly the samples in the window. */
    method Cycle(sample: real, now: nat)
      requires Valid() && last <= now
      modifies this`buffer, this`value, this`history, this`start, this`last, moments
      ensures Valid() && history == old(history) + [Sample(sample, now)] && last == now
      ensures value == Textbook(moment, weighting, Contributions(weighting, history[start..]), sample)
    {
      hide Represents, Contributions, Timed, StartsFrom, StartsAt, Textbook;
      WindowMovesOn(history, window, last, start, Sample(sample, now));
      Commit(sample, now);
      Evict(now);
      value := moments.Output(moment, weighting, sample, Contributions(weighting, buffer));
    }
  }

  lemma CommitRepresents(a: Accumulator, weighting: Weighting, b: seq<Sample>, s: Sample)
    requires Represents(a, Contributions(weighting, b)) && (b != [] ==> b[|b| - 1].time <= s.time)
    ensures a.wSum >= 0.0 && Represents(Grown(a, weighting, b, s), Contributions(weighting, b + [s]))
  {
    var cs, committed := Contributions(weighting, b), Committed(weighting, b, s);
    ContributionsPush(weighting, b, s);
    WeightIsPositive(cs);
    if committed == [] {
      assert cs + committed == cs;
    } else {
      PushRepresents(a, cs, committed[0]);
      assert committed == [committed[0]];
    }
  }

  lemma EvictRepresents(a: Accumulator, weighting: Weighting, b: seq<Sample>)
    requires Represents(a, Contributions(weighting, b)) && b != []
    ensures Represents(Shrunk(a, weighting, b[0], b[1..]), Contributions(weighting, b[1..]))
  {
    ContributionsPop(weighting, b);
    if Contributions(weighting, b) != [] {
      RemoveRepresents(a, Contributions(weighting, b));
    }
  }

  /** Over everything seen so far. */
  class MomentStream {
    const moment: Moment
    const weighting: Weighting
    const moments: WeightedMoments
    var lastTime: nat
    var started: bool
    var prevValue: real
    var value: real
    ghost var history: seq<Sample>

    ghost predicate Valid()
      reads this, moments
    {
      Represents(moments.View(), Contributions(weighting, history)) && (weighting.ByTime? ==> Remembers())
    }

    /** The previous sample is remembered until its successor gives it its weight. */
    ghost predicate Remembers()
      reads this
    {
      && (started <==> history != [])
      && (started ==> history[|history| - 1] == Sample(prevValue, lastTime))
    }

    constructor (moment: Moment, weighting: Weighting)
      ensures Valid() && history == [] && fresh(moments) && this.moment == moment && this.weighting == weighting
    {
      this.moment, this.weighting := moment, weighting;
      moments := new WeightedMoments();
      lastTime, started, prevValue, value, history := 0, false, 0.0, 0.0, [];
      new;
      assert TotalsOf([]) == Totals(0.0, 0.0, 0.0, 0);
    }

    method Cycle(sample: real, now: nat)
      requires Valid() && (history != [] ==> history[|history| - 1].time <= now)
      modifies this`lastTime, this`started, this`prevValue, this`value, this`history, moments
      ensures Valid() && history == old(history) + [Sample(sample, now)]
      ensures value == Textbook(moment, weighting, Contributions(weighting, history), sample)
    {
      ghost var s := Sample(sample, now);
      CommitRepresents(moments.View(), weighting, history, s);
      Step(sample, now);
      hide *;
      value := moments.Output(moment, weighting, sample, Contributions(weighting, history));
    }

    method Step(sample: real, now: nat)
      requires moments.wSum >= 0.0 && (weighting.ByTime? ==> Remembers())
      modifies this`lastTime, this`started, this`prevValue, this`history, moments
      ensures history == old(history) + [Sample(sample, now)] && (weighting.ByTime? ==> Remembers())
      ensures moments.View() == Grown(old(moments.View()), weighting, old(history), Sample(sample, now))
    {
      match weighting {
        case ByCount => moments.Push(sample, 1.0);
        case ByTime =>
          if started {
            moments.Push(prevValue, now as real - lastTime as real);
          }
          prevValue, lastTime, started := sample, now, true;
      }
      history := history + [Sample(sample, now)];
    }
  }

  // ----- Rolling sum -----

  function Sum(s: seq<real>): real {
    if s == [] then 0.0 else Sum(s[..|s| - 1]) + s[|s| - 1]
  }

  lemma {:induction false} SumFirst(s: seq<real>)
    requires s != []
    ensures Sum(s) == s[0] + Sum(s[1..])
    decreases |s|
  {
    var n := |s| - 1;
    if n == 0 {
      assert s[1..] == [] && s[..0] == [];
    } else {
      SumFirst(s[..n]);
      assert s[..n][1..] == s[1..][..n - 1];
    }
  }

  lemma SumLast(s: seq<real>, x: real)
    ensures Sum(s + [x]) == Sum(s) + x
  {
    assert (s + [x])[..|s|] == s;
  }

  class RollingSumStream {
    const window: nat
    var buffer: seq<real>
    var sum: real
    var value: real
    ghost var history: seq<real>

    /** The last `min(window, n)` samples. */
    ghost predicate Valid()
      reads this
    {
      && window >= 1 && sum == Sum(buffer)
      && buffer == if |history| > window then history[|history| - window..] else history
    }

    constructor (window: nat)
      ensures Valid() && history == [] && this.window == if window == 0 then 1 else window
    {
      this.window := if window == 0 then 1 else window;
      buffer, sum, value, history := [], 0.0, 0.0, [];
    }

    method Cycle(sample: real)
      requires Valid()
      modifies this
      ensures Valid() && history == old(history) + [sample] && value == Sum(buffer)
    {
      SumLast(buffer, sample);
      buffer := buffer + [sample];
      sum := sum + sample;
      history := history + [sample];
      if |buffer| > window {
        SumFirst(buffer);
        hide Sum;
        var oldest := buffer[0];
        buffer := buffer[1..];
        sum := sum - oldest;
      }
      value := sum;
    }
  }
}
