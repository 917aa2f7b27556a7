/** Splitting a run's time range into query slices aligned to a period and to midnight, and the filter that
    keeps each row in exactly one slice. */
module TimeSlices {
  import opened TimeQueues

  const DAY: int := 86_400_000_000_000
  /** From 1970-01-01 to 2000-01-01: a whole number of days. */
  const EPOCH_OFFSET: int := 946_684_800_000_000_000
  const I64_MAX: int := 0x7FFF_FFFF_FFFF_FFFF
  const U64_MAX: int := 0xFFFF_FFFF_FFFF_FFFF

  /** A day in nanoseconds, and the 10957 days from 1970 to 2000, seven of them leap days. */
  lemma EpochIsWholeDays()
    ensures DAY == 24 * 60 * 60 * 1_000_000_000 && EPOCH_OFFSET == (30 * 365 + 7) * DAY
  {
  }

  predicate InI64(x: int) {
    -I64_MAX - 1 <= x <= I64_MAX
  }

  function ToKdb(t: nat): int
    requires t <= I64_MAX
  {
    t - EPOCH_OFFSET
  }

  /** A 64-bit addition and a cast to unsigned: what wraps around in the one is undone by the other. */
  function FromKdb(k: int): nat {
    (k + EPOCH_OFFSET) % (U64_MAX + 1)
  }

  lemma FromKdbExact(k: int)
    requires 0 <= k + EPOCH_OFFSET <= U64_MAX
    ensures FromKdb(k) == k + EPOCH_OFFSET
  {
  }

  /** `[t0, t1)`, the day (counted from 2000) and the number of periods since its midnight. */
  datatype Slice = Slice(t0: nat, t1: nat, day: int, iteration: nat)

  function Midnight(day: int): int {
    day * DAY + EPOCH_OFFSET
  }

  function DayOf(t: int): int {
    (t - EPOCH_OFFSET) / DAY
  }

  /** Starts on a multiple of the period after midnight, ends one period later or at the next midnight,
      whichever comes first; no step of its computation leaves 64 bits. */
  ghost predicate WellCut(s: Slice, period: int) {
    && s.t0 == Midnight(s.day) + s.iteration * period
    && s.t1 == Earlier(s.t0 + period, Midnight(s.day + 1))
    && s.t0 < s.t1
    && InI64(s.day * DAY) && InI64((s.day + 1) * DAY) && InI64(s.t0 - EPOCH_OFFSET + period)
    && -0x8000_0000 <= s.day <= 0x7FFF_FFFF
  }

  function Earlier(a: int, b: int): int {
    if a < b then a else b
  }

  /** The slices follow each other without gap from `from` to `to`. */
  ghost predicate Chain(s: seq<Slice>, from: int, to: int) {
    if s == [] then from == to
    else
      var last := s[|s| - 1];
      Chain(s[..|s| - 1], from, last.t0) && last.t1 == to
  }

  /** The period boundary at or before `start`. */
  function Boundary(start: nat, period: int): int
    requires period > 0
  {
    var midnight := Midnight(DayOf(start));
    midnight + (start - midnight) / period * period
  }

  lemma BoundaryIsBefore(start: nat, period: int)
    requires period > 0
    ensures 0 <= Midnight(DayOf(start)) <= Boundary(start, period) <= start < Boundary(start, period) + period
    ensures start < Midnight(DayOf(start) + 1)
  {
  }

  ghost predicate AllCut(s: seq<Slice>, period: int, end: nat) {
    forall i :: 0 <= i < |s| ==> WellCut(s[i], period) && s[i].t0 < end
  }

  /** The slices of a run over `[start, end)`. */
  ghost predicate Sliced(s: seq<Slice>, start: nat, end: nat, period: int)
    requires period > 0
  {
    && AllCut(s, period, end)
    && (exists to :: Chain(s, Boundary(start, period), to) && (start < end ==> end <= to))
  }

  /** The last day's midnight plus the period must fit in 64 bits; for a period under a day it always does. */
  predicate PeriodInRange(end: nat, period: int) {
    0 < period && DayOf(end - 1) * DAY + period <= I64_MAX
  }

  lemma ShortPeriodsAreInRange(end: nat, period: int)
    requires end <= I64_MAX && 0 < period <= DAY
    ensures PeriodInRange(end, period)
  {
  }

  lemma IterationAdvances(k: nat, period: int)
    ensures (k + 1) * period == k * period + period
  {
  }

  /** A slice cut at iteration `k` of a day. */
  lemma CutIsWell(day: int, k: nat, end: nat, period: int)
    requires end <= I64_MAX && PeriodInRange(end, period) && DayOf(0) <= day <= DayOf(end - 1)
    requires k * period < DAY
    ensures 0 <= Midnight(day) && Midnight(day + 1) <= U64_MAX
    ensures var t0 :=
            Midnight(day) + k * period; WellCut(Slice(t0, Earlier(t0 + period, Midnight(day + 1)), day, k), period)
  {
    if k > 0 {
      assert period <= k * period;
    }
    assert day * DAY <= DayOf(end - 1) * DAY <= end - 1 - EPOCH_OFFSET;
  }

  /** The end lies in the last day, and after every day before it. */
  lemma EndOfDay(day: int, end: nat)
    requires day <= DayOf(end - 1)
    ensures if day == DayOf(end - 1) then Midnight(day) < end <= Midnight(day + 1) else Midnight(day + 1) < end
  {
  }

  lemma AllCutExtend(s: seq<Slice>, slice: Slice, period: int, end: nat)
    requires AllCut(s, period, end) && WellCut(slice, period) && slice.t0 < end
    ensures AllCut(s + [slice], period, end)
  {
  }

  lemma ChainExtend(s: seq<Slice>, from: int, to: int, slice: Slice)
    requires Chain(s, from, to) && slice.t0 == to
    ensures Chain(s + [slice], from, slice.t1)
  {
    assert (s + [slice])[..|s|] == s;
  }

  /** The slices of one day, from iteration `k` on. */
  method SliceDay(day: int, k: nat, isLast: bool, end: nat, period: int) returns (s: seq<Slice>, ghost to: int)
    requires end <= I64_MAX && PeriodInRange(end, period) && DayOf(0) <= day <= DayOf(end - 1)
    requires k * period < DAY && isLast == (day == DayOf(end - 1))
    ensures AllCut(s, period, end)
    ensures Chain(s, Midnight(day) + k * period, to) && (if isLast then end <= to else to == Midnight(day + 1))
  {
    var endKdb := ToKdb(end);
    var midnight := day * DAY;
    var nextMidnight := midnight + DAY;
    var iteration := k;
    s, to := [], Midnight(day) + k * period;
    EndOfDay(day, end);
    while true
      invariant iteration * period < DAY && to == Midnight(day) + iteration * period && iteration >= 0
      invariant Chain(s, Midnight(day) + k * period, to)
      invariant AllCut(s, period, end)
      decreases DAY - iteration * period
    {
      CutIsWell(day, iteration, end, period);
      IterationAdvances(iteration, period);
      hide WellCut, PeriodInRange, Chain, DayOf, AllCut;
      var t0 := midnight + iteration * period;
      if isLast && t0 >= endKdb {
        break;
      }
      var natural := t0 + period;
      var t1 := if natural < nextMidnight then natural else nextMidnight;
      FromKdbExact(t0);
      FromKdbExact(t1);
      hide FromKdb;
      var slice := Slice(FromKdb(t0), FromKdb(t1), day, iteration);
      ChainExtend(s, Midnight(day) + k * period, to, slice);
      AllCutExtend(s, slice, period, end);
      s, to := s + [slice], slice.t1;
      if natural >= nextMidnight {
        break;
      }
      iteration := iteration + 1;
    }
  }

  lemma {:induction false} ChainJoin(a: seq<Slice>, b: seq<Slice>, from: int, mid: int, to: int)
    requires Chain(a, from, mid) && Chain(b, mid, to)
    ensures Chain(a + b, from, to)
    decreases |b|
  {
    if b == [] {
      assert a + b == a;
    } else {
      var n := |b| - 1;
      ChainJoin(a, b[..n], from, mid, b[n].t0);
      assert (a + b)[..|a + b| - 1] == a + b[..n];
    }
  }

  method ComputeTimeSlices(start: nat, end: nat, period: int) returns (s: seq<Slice>)
    requires start <= I64_MAX && end <= I64_MAX && PeriodInRange(end, period)
    ensures Sliced(s, start, end, period)
  {
    var startKdb, endKdb := ToKdb(start), ToKdb(end);
    var startDay, endDay := startKdb / DAY, (endKdb - 1) / DAY;
    BoundaryIsBefore(start, period);
    s := [];
    var day := startDay;
    ghost var at := Boundary(start, period);
    while day <= endDay
      invariant startDay <= day && Chain(s, Boundary(start, period), at)
      invariant AllCut(s, period, end)
      invariant at == if day == startDay then Boundary(start, period) else if day <= endDay then Midnight(day) else at
      invariant day > endDay && startDay <= endDay ==> end <= at
      decreases endDay - day
    {
      var midnight := day * DAY;
      var iteration := if day == startDay then (startKdb - midnight) / period else 0;
      assert at == Midnight(day) + iteration * period;
      hide WellCut, Chain;
      var slices;
      ghost var to;
      slices, to := SliceDay(day, iteration, day == endDay, end, period);
      ChainJoin(s, slices, Boundary(start, period), at, to);
      s, at := s + slices, to;
      day := day + 1;
    }
    assert startDay > endDay ==> start >= end;
  }

  // ----- What the slices mean -----

  ghost predicate AllForward(s: seq<Slice>) {
    forall i :: 0 <= i < |s| ==> s[i].t0 < s[i].t1
  }

  lemma {:induction false} ChainBounds(s: seq<Slice>, from: int, to: int)
    requires Chain(s, from, to) && AllForward(s)
    ensures from <= to && forall i :: 0 <= i < |s| ==> from <= s[i].t0 && s[i].t1 <= to
    ensures s != [] ==> s[0].t0 == from && s[|s| - 1].t1 == to
    decreases |s|
  {
    if s != [] {
      ChainBounds(s[..|s| - 1], from, s[|s| - 1].t0);
    }
  }

  lemma {:induction false} ChainApart(s: seq<Slice>, from: int, to: int, i: nat, j: nat)
    requires Chain(s, from, to) && AllForward(s) && i < j < |s|
    ensures s[i].t1 <= s[j].t0
    decreases |s|
  {
    var init, last := s[..|s| - 1], s[|s| - 1];
    if j < |init| {
      ChainApart(init, from, last.t0, i, j);
    } else {
      ChainBounds(init, from, last.t0);
    }
  }

  /** Adjacent slices meet. */
  lemma {:induction false} ChainMeets(s: seq<Slice>, from: int, to: int, i: nat)
    requires Chain(s, from, to) && i + 1 < |s|
    ensures s[i].t1 == s[i + 1].t0
    decreases |s|
  {
    var init := s[..|s| - 1];
    if i + 1 < |init| {
      ChainMeets(init, from, s[|s| - 1].t0, i);
    }
  }

  lemma {:induction false} ChainCovers(s: seq<Slice>, from: int, to: int, x: int) returns (i: nat)
    requires Chain(s, from, to) && from <= x < to
    ensures i < |s| && s[i].t0 <= x < s[i].t1
    decreases |s|
  {
    var last := s[|s| - 1];
    if x < last.t0 {
      i := ChainCovers(s[..|s| - 1], from, last.t0, x);
    } else {
      i := |s| - 1;
    }
  }

  /** No slice straddles midnight: both ends of it lie within its own day. */
  lemma WithinOneDay(s: Slice, period: int)
    requires WellCut(s, period) && period > 0
    ensures DayOf(s.t0) == DayOf(s.t1 - 1) == s.day
  {
    ProductsOrdered(0, s.iteration, period);
    DayIs(s.t0, s.day);
    DayIs(s.t1 - 1, s.day);
    hide DayOf;
  }

  lemma DayIs(t: int, day: int)
    requires Midnight(day) <= t < Midnight(day + 1)
    ensures DayOf(t) == day
  {
  }

  /** Contiguous, starting with the slice that contains the start, ending at or after the end. */
  lemma SlicesAreContiguous(s: seq<Slice>, start: nat, end: nat, period: int)
    requires period > 0 && Sliced(s, start, end, period) && start < end
    ensures s != [] && s[0].t0 <= start < s[0].t1
    ensures s[|s| - 1].t0 < end <= s[|s| - 1].t1
    ensures forall i :: 0 <= i < |s| - 1 ==> s[i].t1 == s[i + 1].t0
  {
    var from := Boundary(start, period);
    var to :| Chain(s, from, to) && (start < end ==> end <= to);
    BoundaryIsBefore(start, period);
    assert AllForward(s);
    ChainBounds(s, from, to);
    forall i | 0 <= i < |s| - 1 ensures s[i].t1 == s[i + 1].t0 {
      ChainMeets(s, from, to, i);
    }
    FirstContains(s[0], start, period);
  }

  lemma FirstContains(s: Slice, start: nat, period: int)
    requires period > 0 && WellCut(s, period) && s.t0 == Boundary(start, period)
    ensures start < s.t1
  {
    BoundaryIsBefore(start, period);
    WithinOneDay(s, period);
    SameDay(start, s.t0);
    hide Boundary, DayOf, Midnight;
  }

  lemma SameDay(a: int, b: int)
    requires Midnight(DayOf(a)) <= b <= a
    ensures DayOf(b) == DayOf(a)
  {
  }

  // ----- Windows and filters -----

  datatype TimeWindow = TimeWindow(lo: nat, hi: nat)

  function Clamp(t0: nat, t1: nat, start: nat, end: nat): TimeWindow {
    TimeWindow(if t0 > start then t0 else start, if t1 < end then t1 else end)
  }

  predicate Contains(w: TimeWindow, t: nat) {
    w.lo <= t < w.hi
  }

  /** Slice `i`'s clamped window keeps instant `x`. */
  ghost predicate Keeps(s: seq<Slice>, i: nat, start: nat, end: nat, x: nat) {
    i < |s| && Contains(Clamp(s[i].t0, s[i].t1, start, end), x)
  }

  /** The clamped windows partition the run: every instant of it is kept by exactly one slice, and every
      other instant by none. */
  lemma SlicesPartitionTheRun(s: seq<Slice>, start: nat, end: nat, period: int, x: nat)
    requires period > 0 && Sliced(s, start, end, period)
    ensures start <= x < end ==> exists i: nat :: Keeps(s, i, start, end, x)
    ensures !(start <= x < end) ==> forall i: nat :: !Keeps(s, i, start, end, x)
    ensures forall i: nat, j: nat :: Keeps(s, i, start, end, x) && Keeps(s, j, start, end, x) ==> i == j
  {
    var from := Boundary(start, period);
    var to :| Chain(s, from, to) && (start < end ==> end <= to);
    BoundaryIsBefore(start, period);
    assert AllForward(s);
    ChainBounds(s, from, to);
    if start <= x < end {
      var i := ChainCovers(s, from, to, x);
      assert Keeps(s, i, start, end, x);
    }
    forall i: nat, j: nat | Keeps(s, i, start, end, x) && Keeps(s, j, start, end, x) ensures i == j {
      if i < j {
        ChainApart(s, from, to, i, j);
      }
      if j < i {
        ChainApart(s, from, to, j, i);
      }
    }
  }

  class WindowFilter {
    const window: TimeWindow
    var dropped: nat

    constructor (window: TimeWindow)
      ensures this.window == window && dropped == 0
    {
      this.window, dropped := window, 0;
    }

    method Keep(time: nat) returns (keep: bool)
      modifies this
      ensures keep == Contains(window, time) && dropped == old(dropped) + if keep then 0 else 1
    {
      keep := Contains(window, time);
      if !keep {
        dropped := dropped + 1;
      }
    }

    /** Filter a batch of rows: the rows inside the window go through in order, the others are counted. */
    method FilterRows<T>(rows: seq<(nat, T)>) returns (kept: seq<(nat, T)>)
      modifies this
      ensures kept == Inside(rows, window) && dropped + |kept| == old(dropped) + |rows|
    {
      kept := [];
      for i := 0 to |rows|
        invariant kept == Inside(rows[..i], window) && dropped + |kept| == old(dropped) + i
      {
        assert rows[..i + 1][..i] == rows[..i];
        var keep := Keep(rows[i].0);
        if keep {
          kept := kept + [rows[i]];
        }
      }
      assert rows[..|rows|] == rows;
    }
  }

  function Inside<T>(rows: seq<(nat, T)>, w: TimeWindow): seq<(nat, T)> {
    if rows == [] then []
    else
      var n := |rows| - 1;
      Inside(rows[..n], w) + if Contains(w, rows[n].0) then [rows[n]] else []
  }

  // ----- Validation -----

  datatype SliceError = ZeroPeriod | ZeroStart | RunsForever | RunsForCycles

  datatype Validated = Slices(slices: seq<Slice>) | Invalid(error: SliceError)

  /** `end` is absent for a run bounded by cycles, and the greatest time for an unbounded one. */
  method ComputeValidatedTimeSlices(start: nat, end: Option<nat>, period: int) returns (r: Validated)
    requires start <= I64_MAX && period >= 0
    requires end.Some? && end.value != U64_MAX ==>
               end.value <= I64_MAX && (period > 0 ==> PeriodInRange(end.value, period))
    ensures r.Slices? <==> period > 0 && start > 0 && end.Some? && end.value != U64_MAX
    ensures r.Slices? ==> Sliced(r.slices, start, end.value, period)
    ensures r == Invalid(ZeroPeriod) <==> period == 0
    ensures r == Invalid(ZeroStart) <==> period > 0 && start == 0
    ensures r == Invalid(RunsForCycles) <==> period > 0 && start > 0 && end.None?
    ensures r == Invalid(RunsForever) <==> period > 0 && start > 0 && end == Some(U64_MAX)
  {
    if period == 0 {
      return Invalid(ZeroPeriod);
    }
    if start == 0 {
      return Invalid(ZeroStart);
    }
    if end.None? {
      return Invalid(RunsForCycles);
    }
    if end.value == U64_MAX {
      return Invalid(RunsForever);
    }
    var slices := ComputeTimeSlices(start, end.value, period);
    r := Slices(slices);
  }

  // ----- Where a signed 64-bit timestamp stops being enough -----

  /** The last midnight before signed 64-bit nanoseconds run out. */
  const LAST_MIDNIGHT: int := 9_223_286_400_000_000_000

  /** The end falls on the last day, and the slice that holds it would end past the range. */
  predicate LastSliceOverflows(end: nat, period: int)
    requires period > 0
  {
    end > LAST_MIDNIGHT && LAST_MIDNIGHT + ((end - 1 - LAST_MIDNIGHT) / period + 1) * period > I64_MAX
  }

  lemma OnlyLastCanOverflow(s: seq<Slice>, start: nat, end: nat, period: int, i: nat)
    requires period > 0 && Sliced(s, start, end, period) && start < end <= I64_MAX && i < |s|
    ensures i < |s| - 1 ==> s[i].t1 <= I64_MAX
    ensures s[|s| - 1].t1 > I64_MAX <==> LastSliceOverflows(end, period)
  {
    SlicesAreContiguous(s, start, end, period);
    var last := s[|s| - 1];
    assert WellCut(last, period);
    LastEnds(last, end, period);
    if i < |s| - 1 {
      assert s[i].t1 == s[i + 1].t0 && s[i + 1].t0 < end;
    }
  }

  lemma LastEnds(s: Slice, end: nat, period: int)
    requires period > 0 && WellCut(s, period) && s.t0 < end <= s.t1 && end <= I64_MAX
    ensures s.t1 > I64_MAX <==> LastSliceOverflows(end, period)
  {
    WithinOneDay(s, period);
    assert Midnight(106_751 - 10_957) == LAST_MIDNIGHT && Midnight(106_752 - 10_957) > I64_MAX;
    if end > LAST_MIDNIGHT {
      assert Midnight(s.day) == LAST_MIDNIGHT;
      IterationAdvances(s.iteration, period);
      IterationOf(end - 1 - LAST_MIDNIGHT, s.iteration, period);
    }
  }

  lemma IterationOf(x: int, k: nat, period: int)
    requires period > 0 && k * period <= x < k * period + period
    ensures x / period == k
  {
    var q := x / period;
    assert q * period <= x < q * period + period;
    if q < k {
      ProductsOrdered(q + 1, k, period);
    }
    if k < q {
      ProductsOrdered(k + 1, q, period);
    }
  }

  lemma ProductsOrdered(a: int, b: int, p: int)
    requires a <= b && p > 0
    ensures a * p <= b * p
  {
  }

  /** Every end point converts back to a timestamp inside signed 64 bits if and only if the last slice does
      not overflow: for any run that ends before the last representable midnight, always. */
  lemma ConversionsStayInRange(s: seq<Slice>, start: nat, end: nat, period: int)
    requires period > 0 && Sliced(s, start, end, period) && start < end <= I64_MAX
    ensures (forall i :: 0 <= i < |s| ==> s[i].t1 <= I64_MAX) <==> !LastSliceOverflows(end, period)
  {
    SlicesAreContiguous(s, start, end, period);
    forall i | 0 <= i < |s| ensures i < |s| - 1 ==> s[i].t1 <= I64_MAX {
      OnlyLastCanOverflow(s, start, end, period, i);
    }
    OnlyLastCanOverflow(s, start, end, period, |s| - 1);
  }

  /** The last day does overflow, for example, for an hourly run up to the end of the range. */
  lemma LastDayOverflows()
    ensures LastSliceOverflows(I64_MAX, 3_600_000_000_000)
  {
  }
}
