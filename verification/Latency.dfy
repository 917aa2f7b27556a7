/** Per-stage latency statistics with a log2 histogram, and how far its quantile estimates can be off. */
module Latency {

  const U64_MAX: nat := 0xFFFF_FFFF_FFFF_FFFF
  const BUCKETS: nat := 64

  function Pow2(b: nat): (p: nat)
    ensures p > 0
  {
    if b == 0 then 1 else 2 * Pow2(b - 1)
  }

  lemma {:induction false} Pow2Grows(a: nat, b: nat)
    requires a <= b
    ensures Pow2(a) <= Pow2(b) && (a < b ==> 2 * Pow2(a) <= Pow2(b))
    decreases b
  {
    if a < b {
      Pow2Grows(a, b - 1);
    }
  }

  lemma Pow2At64()
    ensures Pow2(63) == 0x8000_0000_0000_0000 && Pow2(64) == U64_MAX + 1
  {
    assert Pow2(16) == 0x1_0000 by {
      Pow2Plus8(0);
      Pow2Plus8(8);
    }
    Pow2Plus8(16);
    Pow2Plus8(24);
    Pow2Plus8(32);
    Pow2Plus8(40);
    Pow2Plus8(48);
    Pow2Plus8(56);
    assert Pow2(64) == 2 * Pow2(63);
  }

  lemma Pow2Plus8(b: nat)
    ensures Pow2(b + 8) == 256 * Pow2(b)
  {
    assert Pow2(b + 4) == 16 * Pow2(b) by {
      assert Pow2(b + 2) == 4 * Pow2(b);
    }
    assert Pow2(b + 8) == 16 * Pow2(b + 4) by {
      assert Pow2(b + 6) == 4 * Pow2(b + 4);
    }
  }

  /** The position of the highest set bit. */
  function Log2(n: nat): (b: nat)
    requires n > 0
    ensures Pow2(b) <= n < Pow2(b + 1)
  {
    if n == 1 then 0 else 1 + Log2(n / 2)
  }

  /** The bucket of a delta: the exponent of `delta + 1`, at most the last bucket. */
  function Bucket(delta: nat): (b: nat)
    ensures b < BUCKETS
  {
    var b := Log2(delta + 1);
    if b < BUCKETS then b else BUCKETS - 1
  }

  lemma BucketBounds(d: nat)
    requires d < U64_MAX
    ensures Pow2(Bucket(d)) <= d + 1 < Pow2(Bucket(d) + 1)
  {
    Pow2At64();
    if Log2(d + 1) >= 64 {
      Pow2Grows(64, Log2(d + 1));
    }
  }

  lemma BucketMonotone(c: nat, d: nat)
    requires c <= d < U64_MAX
    ensures Bucket(c) <= Bucket(d)
  {
    BucketBounds(c);
    BucketBounds(d);
    if Bucket(c) > Bucket(d) {
      Pow2Grows(Bucket(d) + 1, Bucket(c));
    }
  }

  // ----- Counting -----

  /** How many deltas are below, or at most, `v`. */
  function Below(ds: seq<nat>, v: nat): nat {
    if ds == [] then 0 else Below(ds[..|ds| - 1], v) + if ds[|ds| - 1] < v then 1 else 0
  }

  function AtMost(ds: seq<nat>, v: nat): nat {
    if ds == [] then 0 else AtMost(ds[..|ds| - 1], v) + if ds[|ds| - 1] <= v then 1 else 0
  }

  function InBucket(ds: seq<nat>, b: int): nat {
    if ds == [] then 0 else InBucket(ds[..|ds| - 1], b) + if Bucket(ds[|ds| - 1]) == b then 1 else 0
  }

  /** How many deltas lie in the buckets below `b`. */
  function UpTo(ds: seq<nat>, b: int): nat {
    if ds == [] then 0 else UpTo(ds[..|ds| - 1], b) + if Bucket(ds[|ds| - 1]) < b then 1 else 0
  }

  /** `d` is the `k`-th smallest delta. */
  ghost predicate IsKthSmallest(ds: seq<nat>, k: nat, d: nat) {
    Below(ds, d) < k <= AtMost(ds, d)
  }

  lemma {:induction false} UpToNext(ds: seq<nat>, b: nat)
    ensures UpTo(ds, b + 1) == UpTo(ds, b) + InBucket(ds, b) && UpTo(ds, 0) == 0 && UpTo(ds, BUCKETS) == |ds|
  {
    if ds != [] {
      UpToNext(ds[..|ds| - 1], b);
    }
  }

  ghost predicate InRange(ds: seq<nat>) {
    forall i :: 0 <= i < |ds| ==> ds[i] < U64_MAX
  }

  /** Everything up to `d` is in its bucket or a lower one; everything in lower buckets is below `d`. */
  lemma {:induction false} BucketsAndOrder(ds: seq<nat>, d: nat)
    requires InRange(ds) && d < U64_MAX
    ensures AtMost(ds, d) <= UpTo(ds, Bucket(d) + 1) && UpTo(ds, Bucket(d)) <= Below(ds, d)
  {
    if ds != [] {
      var last := ds[|ds| - 1];
      BucketsAndOrder(ds[..|ds| - 1], d);
      if last <= d {
        BucketMonotone(last, d);
      }
      if d <= last {
        BucketMonotone(d, last);
      }
    }
  }

  lemma {:induction false} UpToMonotone(ds: seq<nat>, a: int, b: int)
    requires a <= b
    ensures UpTo(ds, a) <= UpTo(ds, b)
  {
    if ds != [] {
      UpToMonotone(ds[..|ds| - 1], a, b);
    }
  }

  /** The first bucket whose cumulative count reaches `k` is the bucket of the `k`-th smallest delta. */
  lemma CrossingBucket(ds: seq<nat>, k: nat, d: nat, i: nat)
    requires InRange(ds) && d < U64_MAX && IsKthSmallest(ds, k, d)
    requires UpTo(ds, i) < k <= UpTo(ds, i + 1)
    ensures Bucket(d) == i
  {
    BucketsAndOrder(ds, d);
    if Bucket(d) < i {
      UpToMonotone(ds, Bucket(d) + 1, i);
    }
    if Bucket(d) > i {
      UpToMonotone(ds, i + 1, Bucket(d));
    }
  }

  lemma {:induction false} KthSmallestExists(ds: seq<nat>, k: nat) returns (d: nat)
    requires 1 <= k <= |ds|
    ensures d in ds && IsKthSmallest(ds, k, d)
  {
    var hi := Greatest(ds);
    AllAtMost(ds, hi);
    d := DownFrom(ds, k, hi);
    if Below(ds, d) < AtMost(ds, d) {
      OccursWhereCountJumps(ds, d);
    }
  }

  function Greatest(ds: seq<nat>): nat {
    if ds == [] then 0 else
      var g := Greatest(ds[..|ds| - 1]);
      if ds[|ds| - 1] > g then ds[|ds| - 1] else g
  }

  lemma {:induction false} AllAtMost(ds: seq<nat>, v: nat)
    requires v >= Greatest(ds)
    ensures AtMost(ds, v) == |ds|
  {
    if ds != [] {
      AllAtMost(ds[..|ds| - 1], v);
    }
  }

  lemma {:induction false} DownFrom(ds: seq<nat>, k: nat, v: nat) returns (d: nat)
    requires 1 <= k <= AtMost(ds, v)
    ensures IsKthSmallest(ds, k, d)
    decreases v
  {
    if Below(ds, v) < k {
      d := v;
    } else {
      BelowIsAtMost(ds, v);
      d := DownFrom(ds, k, v - 1);
    }
  }

  lemma {:induction false} BelowIsAtMost(ds: seq<nat>, v: nat)
    ensures v > 0 ==> Below(ds, v) == AtMost(ds, v - 1)
    ensures v == 0 ==> Below(ds, v) == 0
  {
    if ds != [] {
      BelowIsAtMost(ds[..|ds| - 1], v);
    }
  }

  lemma {:induction false} OccursWhereCountJumps(ds: seq<nat>, d: nat)
    requires Below(ds, d) < AtMost(ds, d)
    ensures d in ds
  {
    if ds[|ds| - 1] != d {
      OccursWhereCountJumps(ds[..|ds| - 1], d);
    }
  }

  // ----- The statistics of one stage -----

  /** In order, the k-th smallest delta is the one at position `k - 1`. */
  lemma {:induction false} KthOfSorted(ds: seq<nat>, k: nat, d: nat)
    requires (forall i, j :: 0 <= i < j < |ds| ==> ds[i] <= ds[j]) && 1 <= k <= |ds| && d in ds
    ensures IsKthSmallest(ds, k, d) <==> d == ds[k - 1]
  {
    CountsOfSorted(ds, d, k - 1);
  }

  /** How position `p` and the counts around `v` are related in a sorted sequence. */
  lemma {:induction false} CountsOfSorted(ds: seq<nat>, v: nat, p: nat)
    requires (forall i, j :: 0 <= i < j < |ds| ==> ds[i] <= ds[j]) && p < |ds|
    ensures Below(ds, v) <= p <==> ds[p] >= v
    ensures p < AtMost(ds, v) <==> ds[p] <= v
  {
    var n := |ds| - 1;
    if p < n {
      CountsOfSorted(ds[..n], v, p);
    } else {
      CountsWithin(ds[..n], v);
    }
  }

  lemma {:induction false} CountsWithin(ds: seq<nat>, v: nat)
    ensures Below(ds, v) <= |ds| && AtMost(ds, v) <= |ds|
    ensures (forall i :: 0 <= i < |ds| ==> ds[i] < v) ==> Below(ds, v) == |ds|
    ensures (forall i :: 0 <= i < |ds| ==> ds[i] <= v) ==> AtMost(ds, v) == |ds|
  {
    if ds != [] {
      CountsWithin(ds[..|ds| - 1], v);
    }
  }

  datatype Stats = Stats(count: nat, sumNs: nat, minNs: nat, maxNs: nat, histogram: seq<nat>)

  function Saturated(x: nat): nat {
    if x > U64_MAX then U64_MAX else x
  }

  function Recorded(s: Stats, delta: nat): Stats
    requires |s.histogram| == BUCKETS
  {
    var b := Bucket(delta);
    Stats(s.count + 1, Saturated(s.sumNs + delta), if delta < s.minNs then delta else s.minNs,
          if delta > s.maxNs then delta else s.maxNs, s.histogram[b := s.histogram[b] + 1])
  }

  function Sum(ds: seq<nat>): nat {
    if ds == [] then 0 else Sum(ds[..|ds| - 1]) + ds[|ds| - 1]
  }

  /** `s` is what recording `ds` leaves: how many, their (saturated) sum, their extremes, and how many are in
      each bucket. */
  ghost predicate Summarises(s: Stats, ds: seq<nat>) {
    && InRange(ds) && s.count == |ds| && s.sumNs == (if Sum(ds) > U64_MAX then U64_MAX else Sum(ds))
    && (ds == [] ==> s.minNs == U64_MAX && s.maxNs == 0)
    && (ds != [] ==> s.minNs in ds && s.maxNs in ds)
    && (forall d :: d in ds ==> s.minNs <= d <= s.maxNs)
    && |s.histogram| == BUCKETS && (forall b :: 0 <= b < BUCKETS ==> s.histogram[b] == InBucket(ds, b))
  }

  /** What the sum is: it starts at nothing, and each delta adds itself. */
  lemma SumAdds(ds: seq<nat>, d: nat)
    ensures Sum([]) == 0 && Sum(ds + [d]) == Sum(ds) + d
  {
    assert (ds + [d])[..|ds|] == ds;
  }

  lemma RecordedSummarises(s: Stats, ds: seq<nat>, delta: nat)
    requires Summarises(s, ds) && delta < U64_MAX
    ensures Summarises(Recorded(s, delta), ds + [delta])
  {
    var ds' := ds + [delta];
    assert ds'[..|ds|] == ds;
    hide Log2;
  }

  function TotalCount(histogram: seq<nat>): nat {
    if histogram == [] then 0 else TotalCount(histogram[..|histogram| - 1]) + histogram[|histogram| - 1]
  }

  lemma {:induction false} PartialCounts(s: Stats, ds: seq<nat>, b: nat)
    requires Summarises(s, ds) && b <= BUCKETS
    ensures TotalCount(s.histogram[..b]) == UpTo(ds, b)
  {
    if b == 0 {
      UpToNext(ds, 0);
    } else {
      PartialCounts(s, ds, b - 1);
      UpToNext(ds, b - 1);
      assert s.histogram[..b][..b - 1] == s.histogram[..b - 1];
    }
  }

  /** The histogram's counts add up to the number of samples. */
  lemma HistogramAddsUp(s: Stats, ds: seq<nat>)
    requires Summarises(s, ds)
    ensures TotalCount(s.histogram) == s.count
  {
    PartialCounts(s, ds, BUCKETS);
    UpToNext(ds, 0);
    assert s.histogram[..BUCKETS] == s.histogram;
  }

  /** The bound of bucket `i` that the estimate returns. */
  function Estimate(i: nat): nat {
    Pow2(if i + 1 < 63 then i + 1 else 63)
  }

  /** The estimate is never more than twice too large, and is above the delta exactly below `2^63 - 1`. */
  lemma EstimateBounds(d: nat)
    requires d < U64_MAX
    ensures Estimate(Bucket(d)) <= 2 * (d + 1)
    ensures d + 1 < Estimate(Bucket(d)) <==> d < 0x7FFF_FFFF_FFFF_FFFF
  {
    BucketBounds(d);
    Pow2At64();
    if Bucket(d) < 63 {
      Pow2Grows(Bucket(d) + 1, 63);
    }
  }

  class StageStats {
    var count: nat
    var sumNs: nat
    var minNs: nat
    var maxNs: nat
    const histogram: array<nat>

    ghost function View(): Stats
      reads this, histogram
    {
      Stats(count, sumNs, minNs, maxNs, histogram[..])
    }

    constructor ()
      ensures fresh(histogram) && Summarises(View(), [])
    {
      count, sumNs, minNs, maxNs := 0, 0, U64_MAX, 0;
      histogram := new nat[BUCKETS](_ => 0);
    }

    method Record(delta: nat)
      requires histogram.Length == BUCKETS
      modifies this, histogram
      ensures View() == Recorded(old(View()), delta)
    {
      count := count + 1;
      sumNs := Saturated(sumNs + delta);
      if delta < minNs {
        minNs := delta;
      }
      if delta > maxNs {
        maxNs := delta;
      }
      var bucket := Bucket(delta);
      histogram[bucket] := histogram[bucket] + 1;
    }

    method MeanNs(ghost ds: seq<nat>) returns (mean: nat)
      requires Summarises(View(), ds)
      ensures ds == [] ==> mean == 0
      ensures ds != [] ==> mean == (if Sum(ds) > U64_MAX then U64_MAX else Sum(ds)) / |ds|
    {
      if count == 0 {
        return 0;
      }
      mean := sumNs / count;
      hide Sum, InBucket;
    }

    /** The estimate for a rank: within a factor of two of the delta of that rank. */
    method QuantileAtRank(target: nat, ghost ds: seq<nat>) returns (r: nat)
      requires Summarises(View(), ds)
      ensures ds == [] ==> r == 0
      ensures ds != [] && target == 0 ==> r == 2
      ensures 1 <= target <= |ds| ==> forall d :: d in ds && IsKthSmallest(ds, target, d) ==> r == Estimate(Bucket(d))
      ensures ds != [] && target > |ds| ==> r == maxNs
    {
      if count == 0 {
        return 0;
      }
      var cum, i := 0, 0;
      UpToNext(ds, 0);
      while i < BUCKETS
        invariant i <= BUCKETS && cum == UpTo(ds, i)
        invariant i > 0 ==> cum < target
      {
        UpToNext(ds, i);
        cum := cum + histogram[i];
        if cum >= target {
          UpToMonotone(ds, i + 1, BUCKETS);
          assert Pow2(1) == 2;
          forall d | 1 <= target <= |ds| && d in ds && IsKthSmallest(ds, target, d) ensures Bucket(d) == i {
            CrossingBucket(ds, target, d, i);
          }
          return Estimate(i);
        }
        i := i + 1;
      }
      return maxNs;
    }

    /** The estimate for a quantile, in exact arithmetic: that of the delta of rank `ceil(count * q)`, the
        first bucket's bound below the range of quantiles and the greatest delta above it. */
    method QuantileNs(q: real, ghost ds: seq<nat>) returns (r: nat)
      requires Summarises(View(), ds)
      ensures ds == [] ==> r == 0
      ensures ds != [] && q <= 0.0 ==> r == 2
      ensures ds != [] && q > 1.0 ==> r == maxNs
      ensures ds != [] && 0.0 < q <= 1.0 ==>
                exists d, k: nat :: d in ds && IsRank(|ds|, q, k) && IsKthSmallest(ds, k, d) && r == Estimate(Bucket(d))
    {
      r := QuantileAtRank(Rank(count, q), ds);
      if count > 0 {
        RankInRange(count, q);
        if 0.0 < q <= 1.0 {
          ghost var d := KthSmallestExists(ds, Rank(count, q));
          assert IsRank(|ds|, q, Rank(count, q)) && r == Estimate(Bucket(d));
          hide IsRank, Rank;
        }
      }
    }
  }

  /** `ceil(count * q)`, cut off at zero. */
  function Rank(count: nat, q: real): nat {
    var x := count as real * q;
    if x <= 0.0 then 0 else if x.Floor as real == x then x.Floor else x.Floor + 1
  }

  /** `k` is the least rank at or above the fraction `q` of all. */
  ghost predicate IsRank(count: nat, q: real, k: nat) {
    k as real - 1.0 < count as real * q <= k as real
  }

  lemma RankInRange(count: nat, q: real)
    requires count > 0
    ensures q <= 0.0 ==> Rank(count, q) == 0
    ensures 0.0 < q <= 1.0 ==> 1 <= Rank(count, q) <= count
    ensures q > 1.0 ==> Rank(count, q) > count
    ensures q > 0.0 ==> IsRank(count, q, Rank(count, q))
  {
    var n := count as real;
    var x := n * q;
    Scaled(n, q, 0.0);
    Scaled(n, q, 1.0);
    assert x.Floor as real <= x < x.Floor as real + 1.0;
  }

  lemma Scaled(n: real, a: real, b: real)
    requires n > 0.0
    ensures (a <= b <==> n * a <= n * b) && (a == b <==> n * a == n * b)
  {
    assert n * a - n * b == n * (a - b);
  }

  // ----- Observations -----

  /** Stage `i` gets a delta: both stamps are set and in order. */
  predicate HasDelta(stamps: seq<nat>, i: nat)
    requires 1 <= i < |stamps|
  {
    stamps[i - 1] != 0 && stamps[i] != 0 && stamps[i] >= stamps[i - 1]
  }

  /** What an observation leaves of stage `i`. */
  function Observed(stage: Stats, stamps: seq<nat>, i: nat): Stats
    requires |stage.histogram| == BUCKETS && i < |stamps|
  {
    if i > 0 && HasDelta(stamps, i) then Recorded(stage, stamps[i] - stamps[i - 1]) else stage
  }

  ghost predicate WellFormed(stages: seq<Stats>) {
    forall i :: 0 <= i < |stages| ==> |stages[i].histogram| == BUCKETS
  }

  class LatencyStats {
    var stages: seq<Stats>

    /** Each stage whose stamp and predecessor are set records its delta; the others are left alone. */
    method Observe(stamps: seq<nat>)
      requires |stamps| == |stages| && WellFormed(stages)
      modifies this
      ensures |stages| == |stamps| && forall i :: 0 <= i < |stages| ==> stages[i] == Observed(old(stages)[i], stamps, i)
      ensures forall i :: 0 <= i < |stages| ==>
                stages[i] == if i > 0 && stamps[i - 1] != 0 && stamps[i] != 0 && stamps[i] >= stamps[i - 1]
                             then Recorded(old(stages)[i], stamps[i] - stamps[i - 1]) else old(stages)[i]
    {
      var i := 1;
      while i < |stamps|
        invariant 1 <= i && |stages| == |stamps|
        invariant forall j :: 0 <= j < i && j < |stages| ==> stages[j] == Observed(old(stages)[j], stamps, j)
        invariant forall j :: i <= j < |stages| ==> stages[j] == old(stages)[j]
      {
        var prev, cur := stamps[i - 1], stamps[i];
        assert Observed(stages[i], stamps, i) ==
               if prev == 0 || cur == 0 || cur < prev then stages[i] else Recorded(stages[i], cur - prev);
        hide Observed, Recorded;
        if !(prev == 0 || cur == 0 || cur < prev) {
          stages := stages[i := Recorded(stages[i], cur - prev)];
        }
        i := i + 1;
      }
    }
  }

  /** So every stage goes on summarising exactly the deltas it was given. */
  lemma ObservedSummarises(stage: Stats, ds: seq<nat>, stamps: seq<nat>, i: nat)
    requires Summarises(stage, ds) && i < |stamps| && stamps[i] <= U64_MAX
    ensures Summarises(Observed(stage, stamps, i),
                       if i > 0 && stamps[i - 1] != 0 && stamps[i] != 0 && stamps[i] >= stamps[i - 1]
                       then ds + [stamps[i] - stamps[i - 1]] else ds)
  {
    if i > 0 && HasDelta(stamps, i) {
      RecordedSummarises(stage, ds, stamps[i] - stamps[i - 1]);
    }
  }
}
