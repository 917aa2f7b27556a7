/** The weighted median over a window: where the cumulative weight of the sorted samples crosses half the
    total, shown to be a median of the samples in exact arithmetic. */
module Median {
  import opened Moments
  import opened RollingMoments

  // ----- Weight on one side of a value -----

  datatype Side = Below | AtMost | AtLeast | Above

  predicate On(side: Side, x: real, v: real) {
    match side
    case Below => x < v
    case AtMost => x <= v
    case AtLeast => x >= v
    case Above => x > v
  }

  function Share(p: Contribution, side: Side, v: real): real {
    if On(side, p.x, v) then p.w else 0.0
  }

  /** The total weight of the samples on that side of `v`. */
  function Weight(ps: seq<Contribution>, side: Side, v: real): real {
    if ps == [] then 0.0 else Weight(ps[..|ps| - 1], side, v) + Share(ps[|ps| - 1], side, v)
  }

  function Total(ps: seq<Contribution>): real {
    if ps == [] then 0.0 else Total(ps[..|ps| - 1]) + ps[|ps| - 1].w
  }

  // ----- What a median is -----

  /** The least value with at least half of the weight at or below it. */
  ghost predicate IsLower(ps: seq<Contribution>, v: real) {
    Weight(ps, AtMost, v) >= Total(ps) / 2.0 && Weight(ps, Below, v) < Total(ps) / 2.0
  }

  /** The greatest value with at least half of the weight at or above it. */
  ghost predicate IsUpper(ps: seq<Contribution>, v: real) {
    Weight(ps, AtLeast, v) >= Total(ps) / 2.0 && Weight(ps, Above, v) < Total(ps) / 2.0
  }

  /** The midpoint between the two, which differ only when the weight splits exactly in half. */
  ghost predicate IsMedian(ps: seq<Contribution>, r: real) {
    exists lower: real, upper: real :: IsLower(ps, lower) && IsUpper(ps, upper) && r == (lower + upper) / 2.0
  }

  lemma {:induction false} SidesOrdered(ps: seq<Contribution>, u: real, v: real)
    requires NonNegative(ps) && u < v
    ensures Weight(ps, AtMost, u) <= Weight(ps, Below, v) && Weight(ps, AtLeast, v) <= Weight(ps, Above, u)
    ensures Weight(ps, Above, u) + Weight(ps, AtMost, u) == Total(ps) &&
            Weight(ps, AtLeast, v) + Weight(ps, Below, v) == Total(ps)
  {
    if ps != [] {
      SidesOrdered(ps[..|ps| - 1], u, v);
    }
  }

  lemma LowerUnique(ps: seq<Contribution>, u: real, v: real)
    requires NonNegative(ps) && IsLower(ps, u) && IsLower(ps, v)
    ensures u == v
  {
    if u < v {
      SidesOrdered(ps, u, v);
    }
    if v < u {
      SidesOrdered(ps, v, u);
    }
  }

  lemma UpperUnique(ps: seq<Contribution>, u: real, v: real)
    requires NonNegative(ps) && IsUpper(ps, u) && IsUpper(ps, v)
    ensures u == v
  {
    if u < v {
      SidesOrdered(ps, u, v);
    }
    if v < u {
      SidesOrdered(ps, v, u);
    }
  }

  lemma MedianUnique(ps: seq<Contribution>, r: real, r': real)
    requires NonNegative(ps) && IsMedian(ps, r) && IsMedian(ps, r')
    ensures r == r'
  {
    var lower: real, upper: real :| IsLower(ps, lower) && IsUpper(ps, upper) && r == (lower + upper) / 2.0;
    var lower': real, upper': real :| IsLower(ps, lower') && IsUpper(ps, upper') && r' == (lower' + upper') / 2.0;
    LowerUnique(ps, lower, lower');
    UpperUnique(ps, upper, upper');
  }

  lemma {:induction false} Monotone(ps: seq<Contribution>, u: real, v: real)
    requires NonNegative(ps) && u <= v
    ensures Weight(ps, Below, u) <= Weight(ps, Below, v) && Weight(ps, Above, v) <= Weight(ps, Above, u)
    ensures Weight(ps, Above, u) + Weight(ps, AtMost, u) == Total(ps) &&
            Weight(ps, AtLeast, v) + Weight(ps, Below, v) == Total(ps)
  {
    if ps != [] {
      Monotone(ps[..|ps| - 1], u, v);
    }
  }

  /** A median in the usual sense: at most half of the weight is below it, and at most half above it. */
  lemma MedianSplitsInHalf(ps: seq<Contribution>, r: real)
    requires NonNegative(ps) && IsMedian(ps, r)
    ensures Weight(ps, Below, r) <= Total(ps) / 2.0 && Weight(ps, Above, r) <= Total(ps) / 2.0
  {
    var lower: real, upper: real :| IsLower(ps, lower) && IsUpper(ps, upper) && r == (lower + upper) / 2.0;
    if upper < lower {
      SidesOrdered(ps, upper, lower);
      assert false;
    }
    Monotone(ps, r, upper);
    Monotone(ps, lower, r);
    Monotone(ps, lower, lower);
  }

  /** The weights below and above `v`, and the total, as sums over the samples. */
  lemma {:induction false} SidesAreSums(ps: seq<Contribution>, v: real, below: seq<real>, above: seq<real>,
                                        all: seq<real>)
    requires |below| == |above| == |all| == |ps|
    requires forall i :: 0 <= i < |ps| ==>
               && below[i] == (if ps[i].x < v then ps[i].w else 0.0)
               && above[i] == (if ps[i].x > v then ps[i].w else 0.0) && all[i] == ps[i].w
    ensures Weight(ps, Below, v) == Sum(below) && Weight(ps, Above, v) == Sum(above) && Total(ps) == Sum(all)
  {
    if ps != [] {
      var n := |ps| - 1;
      SidesAreSums(ps[..n], v, below[..n], above[..n], all[..n]);
    }
  }

  // ----- It does not matter how ties are ordered -----

  lemma {:induction false} WeightWithout(ps: seq<Contribution>, k: nat, side: Side, v: real)
    requires k < |ps|
    ensures Weight(ps, side, v) == Weight(ps[..k] + ps[k + 1..], side, v) + Share(ps[k], side, v)
    ensures Total(ps) == Total(ps[..k] + ps[k + 1..]) + ps[k].w
    decreases |ps|
  {
    var n := |ps| - 1;
    var without := ps[..k] + ps[k + 1..];
    if k == n {
      assert without == ps[..n];
    } else {
      WeightWithout(ps[..n], k, side, v);
      assert without[..n - 1] == ps[..n][..k] + ps[..n][k + 1..] && without[n - 1] == ps[n];
    }
    hide Share;
  }

  /** A permutation, with the last element of `a` taken out of both. */
  lemma {:induction false} PermutationWithout(a: seq<Contribution>, b: seq<Contribution>) returns (k: nat)
    requires multiset(a) == multiset(b) && a != []
    ensures k < |b| && b[k] == a[|a| - 1] && multiset(a[..|a| - 1]) == multiset(b[..k] + b[k + 1..])
  {
    var n := |a| - 1;
    assert a == a[..n] + [a[n]];
    assert a[n] in multiset(b);
    k :| 0 <= k < |b| && b[k] == a[n];
    assert b == b[..k] + [b[k]] + b[k + 1..];
    assert multiset(b) == multiset(b[..k]) + multiset{b[k]} + multiset(b[k + 1..]);
    assert multiset(a[..n]) == multiset(a) - multiset{a[n]};
    assert multiset(b[..k]) + multiset(b[k + 1..]) == multiset(b) - multiset{b[k]};
    assert multiset(b[..k] + b[k + 1..]) == multiset(b[..k]) + multiset(b[k + 1..]);
  }

  lemma {:induction false} WeightOfPermutation(a: seq<Contribution>, b: seq<Contribution>, side: Side, v: real)
    requires multiset(a) == multiset(b)
    ensures Weight(a, side, v) == Weight(b, side, v) && Total(a) == Total(b)
    decreases |a|
  {
    if a != [] {
      var k := PermutationWithout(a, b);
      WeightOfPermutation(a[..|a| - 1], b[..k] + b[k + 1..], side, v);
      WeightWithout(b, k, side, v);
      hide Share;
    }
  }

  lemma MedianOfPermutation(a: seq<Contribution>, b: seq<Contribution>, r: real)
    requires multiset(a) == multiset(b) && IsMedian(a, r)
    ensures IsMedian(b, r)
  {
    var lower: real, upper: real :| IsLower(a, lower) && IsUpper(a, upper) && r == (lower + upper) / 2.0;
    WeightOfPermutation(a, b, AtMost, lower);
    WeightOfPermutation(a, b, Below, lower);
    WeightOfPermutation(a, b, AtLeast, upper);
    WeightOfPermutation(a, b, Above, upper);
    assert IsLower(b, lower) && IsUpper(b, upper);
  }

  // ----- Sorting -----

  ghost predicate Sorted(ps: seq<Contribution>) {
    forall i, j :: 0 <= i < j < |ps| ==> ps[i].x <= ps[j].x
  }

  /** Behind every sample that is not greater. */
  function InsertByValue(ps: seq<Contribution>, p: Contribution): (r: seq<Contribution>)
    ensures multiset(r) == multiset(ps + [p])
  {
    if ps == [] || ps[|ps| - 1].x <= p.x then ps + [p]
    else
      var n := |ps| - 1;
      assert ps == ps[..n] + [ps[n]];
      InsertByValue(ps[..n], p) + [ps[n]]
  }

  function SortByValue(ps: seq<Contribution>): (r: seq<Contribution>)
    ensures multiset(r) == multiset(ps)
  {
    if ps == [] then []
    else
      var n := |ps| - 1;
      assert ps == ps[..n] + [ps[n]];
      InsertByValue(SortByValue(ps[..n]), ps[n])
  }

  ghost predicate NoneAbove(ps: seq<Contribution>, v: real) {
    forall i :: 0 <= i < |ps| ==> ps[i].x <= v
  }

  lemma SortedLast(ps: seq<Contribution>, p: Contribution)
    requires Sorted(ps) && NoneAbove(ps, p.x)
    ensures Sorted(ps + [p])
  {
  }

  lemma {:induction false} InsertNoneAbove(ps: seq<Contribution>, p: Contribution, v: real)
    requires NoneAbove(ps, v) && p.x <= v
    ensures NoneAbove(InsertByValue(ps, p), v)
  {
    if ps != [] && ps[|ps| - 1].x > p.x {
      InsertNoneAbove(ps[..|ps| - 1], p, v);
    }
  }

  lemma {:induction false} InsertSorted(ps: seq<Contribution>, p: Contribution)
    requires Sorted(ps)
    ensures Sorted(InsertByValue(ps, p))
  {
    if ps == [] || ps[|ps| - 1].x <= p.x {
      SortedLast(ps, p);
    } else {
      var n := |ps| - 1;
      InsertSorted(ps[..n], p);
      InsertNoneAbove(ps[..n], p, ps[n].x);
      SortedLast(InsertByValue(ps[..n], p), ps[n]);
    }
    hide Sorted, NoneAbove;
  }

  lemma {:induction false} SortSorts(ps: seq<Contribution>)
    ensures Sorted(SortByValue(ps))
  {
    if ps != [] {
      SortSorts(ps[..|ps| - 1]);
      InsertSorted(SortByValue(ps[..|ps| - 1]), ps[|ps| - 1]);
    }
  }

  // ----- Crossing half of the weight -----

  lemma {:induction false} WeightAppend(a: seq<Contribution>, b: seq<Contribution>, side: Side, v: real)
    ensures Weight(a + b, side, v) == Weight(a, side, v) + Weight(b, side, v) && Total(a + b) == Total(a) + Total(b)
    decreases |b|
  {
    if b == [] {
      assert a + b == a;
    } else {
      var n := |b| - 1;
      WeightAppend(a, b[..n], side, v);
      assert (a + b)[..|a + b| - 1] == a + b[..n];
    }
    hide Share;
  }

  /** None, some or all of the weight is on one side. */
  lemma {:induction false} WeightBounds(ps: seq<Contribution>, side: Side, v: real)
    requires NonNegative(ps)
    ensures 0.0 <= Weight(ps, side, v) <= Total(ps)
    ensures (forall i :: 0 <= i < |ps| ==> !On(side, ps[i].x, v)) ==> Weight(ps, side, v) == 0.0
    ensures (forall i :: 0 <= i < |ps| ==> On(side, ps[i].x, v)) ==> Weight(ps, side, v) == Total(ps)
  {
    if ps != [] {
      WeightBounds(ps[..|ps| - 1], side, v);
    }
  }

  lemma SideBounds(ps: seq<Contribution>, i: nat, side: Side, v: real)
    requires NonNegative(ps) && i <= |ps|
    ensures (forall k :: i <= k < |ps| ==> !On(side, ps[k].x, v)) ==> Weight(ps, side, v) <= Total(ps[..i])
    ensures (forall k :: 0 <= k < i ==> On(side, ps[k].x, v)) ==> Weight(ps, side, v) >= Total(ps[..i])
    ensures (forall k :: 0 <= k < i ==> !On(side, ps[k].x, v)) ==> Weight(ps, side, v) <= Total(ps) - Total(ps[..i])
    ensures (forall k :: i <= k < |ps| ==> On(side, ps[k].x, v)) ==> Weight(ps, side, v) >= Total(ps) - Total(ps[..i])
  {
    var a, b := ps[..i], ps[i..];
    WeightAppend(a, b, side, v);
    assert a + b == ps;
    WeightBounds(a, side, v);
    WeightBounds(b, side, v);
    hide Weight, Total, On;
  }

  lemma TotalNext(ps: seq<Contribution>, i: nat)
    requires i < |ps|
    ensures Total(ps[..i + 1]) == Total(ps[..i]) + ps[i].w
  {
    assert ps[..i + 1][..i] == ps[..i];
  }

  /** Where the cumulative weight first reaches half, the lower median is. */
  lemma CrossingIsLower(ps: seq<Contribution>, i: nat)
    requires Sorted(ps) && NonNegative(ps) && i < |ps|
    requires Total(ps[..i]) < Total(ps) / 2.0 <= Total(ps[..i + 1])
    ensures IsLower(ps, ps[i].x)
  {
    hide Weight, Total;
    assert forall k :: 0 <= k < i + 1 ==> On(AtMost, ps[k].x, ps[i].x);
    assert forall k :: i <= k < |ps| ==> !On(Below, ps[k].x, ps[i].x);
    hide On, Sorted;
    SideBounds(ps, i + 1, AtMost, ps[i].x);
    SideBounds(ps, i, Below, ps[i].x);
  }

  /** Where it first exceeds half, the upper median is. */
  lemma CrossingIsUpper(ps: seq<Contribution>, i: nat)
    requires Sorted(ps) && NonNegative(ps) && i < |ps|
    requires Total(ps[..i]) <= Total(ps) / 2.0 < Total(ps[..i + 1])
    ensures IsUpper(ps, ps[i].x)
  {
    hide Weight, Total;
    assert forall k :: i <= k < |ps| ==> On(AtLeast, ps[k].x, ps[i].x);
    assert forall k :: 0 <= k < i + 1 ==> !On(Above, ps[k].x, ps[i].x);
    hide On, Sorted;
    SideBounds(ps, i, AtLeast, ps[i].x);
    SideBounds(ps, i + 1, Above, ps[i].x);
  }

  ghost predicate Positive(ps: seq<Contribution>) {
    forall i :: 0 <= i < |ps| ==> ps[i].w > 0.0
  }

  /** The crossing loop.  The total is positive, so the loop ends before it runs out of samples. */
  method MedianOfSorted(ps: seq<Contribution>) returns (r: real)
    requires ps != [] && Sorted(ps) && Positive(ps)
    ensures IsMedian(ps, r)
  {
    var sum := SumOfWeights(ps);
    var half := sum / 2.0;
    PositiveTotal(ps);
    var i, cumulative := 0, 0.0;
    while true
      invariant i < |ps| && cumulative == Total(ps[..i]) < half
      decreases |ps| - i
    {
      TotalNext(ps, i);
      cumulative := cumulative + ps[i].w;
      if cumulative >= half {
        CrossingIsLower(ps, i);
      }
      if cumulative > half {
        CrossingIsUpper(ps, i);
        r := ps[i].x;
        assert r == (ps[i].x + ps[i].x) / 2.0;
        return;
      }
      assert ps[..|ps|] == ps;
      if cumulative == half {
        TotalNext(ps, i + 1);
        CrossingIsUpper(ps, i + 1);
        return (ps[i].x + ps[i + 1].x) / 2.0;
      }
      i := i + 1;
    }
  }

  method SumOfWeights(ps: seq<Contribution>) returns (sum: real)
    ensures sum == Total(ps)
  {
    sum := 0.0;
    for i := 0 to |ps|
      invariant sum == Total(ps[..i])
    {
      TotalNext(ps, i);
      sum := sum + ps[i].w;
    }
    assert ps[..|ps|] == ps;
  }

  lemma {:induction false} PositiveTotal(ps: seq<Contribution>)
    requires Positive(ps)
    ensures Total(ps) >= 0.0 && (ps != [] ==> Total(ps) > 0.0)
  {
    if ps != [] {
      PositiveTotal(ps[..|ps| - 1]);
    }
  }

  // ----- Unit weights -----

  lemma {:induction false} UnitTotal(ps: seq<Contribution>)
    requires forall i :: 0 <= i < |ps| ==> ps[i].w == 1.0
    ensures Total(ps) == |ps| as real
  {
    if ps != [] {
      UnitTotal(ps[..|ps| - 1]);
    }
  }

  /** With unit weights: the middle sample, or the average of the two middle ones. */
  lemma UnitWeightsGiveOrdinaryMedian(ps: seq<Contribution>, r: real)
    requires ps != [] && Sorted(ps) && (forall i :: 0 <= i < |ps| ==> ps[i].w == 1.0) && IsMedian(ps, r)
    ensures var n := |ps|; r == if n % 2 == 1 then ps[n / 2].x else (ps[n / 2 - 1].x + ps[n / 2].x) / 2.0
  {
    var n := |ps|;
    var lo, hi := (n - 1) / 2, n / 2;
    UnitTotal(ps);
    UnitTotal(ps[..lo]);
    UnitTotal(ps[..lo + 1]);
    UnitTotal(ps[..hi]);
    UnitTotal(ps[..hi + 1]);
    CrossingIsLower(ps, lo);
    CrossingIsUpper(ps, hi);
    assert IsMedian(ps, (ps[lo].x + ps[hi].x) / 2.0);
    MedianUnique(ps, r, (ps[lo].x + ps[hi].x) / 2.0);
  }

  // ----- The node -----

  ghost predicate AreWeighted(weighting: Weighting, b: seq<Sample>, now: nat, ps: seq<Contribution>) {
    && |ps| == |b|
    && (forall i :: 0 <= i < |b| ==> ps[i].x == b[i].value)
    && (weighting.ByCount? ==> forall i :: 0 <= i < |b| ==> ps[i].w == 1.0)
    && (weighting.ByTime? ==>
          && (forall i, j :: 0 <= i < |b| - 1 && j == i + 1 ==> ps[i].w == (b[j].time - b[i].time) as real)
          && (b != [] ==> ps[|b| - 1].w == (now - b[|b| - 1].time) as real))
  }

  /** The retained samples with their weights: one each, or the time until the next sample (until now for the
      newest). */
  function Weighted(weighting: Weighting, b: seq<Sample>, now: nat): (ps: seq<Contribution>)
    ensures |ps| == |b|
  {
    seq(|b|, i requires 0 <= i < |b| =>
      Contribution(b[i].value,
                   if weighting.ByCount? then 1.0
                   else ((if i + 1 < |b| then b[i + 1].time else now) - b[i].time) as real))
  }

  lemma WeightedAre(weighting: Weighting, b: seq<Sample>, now: nat)
    ensures AreWeighted(weighting, b, now, Weighted(weighting, b, now))
  {
    var ps := Weighted(weighting, b, now);
    forall i, j | weighting.ByTime? && 0 <= i < |b| - 1 && j == i + 1
      ensures ps[i].w == (b[j].time - b[i].time) as real
    {
      assert i + 1 < |b|;
    }
    assert b != [] && weighting.ByTime? ==> ps[|b| - 1].w == (now - b[|b| - 1].time) as real;
  }

  function DropZero(ps: seq<Contribution>): (r: seq<Contribution>)
    ensures Positive(r)
  {
    if ps == [] then []
    else
      var n := |ps| - 1;
      DropZero(ps[..n]) + if ps[n].w > 0.0 then [ps[n]] else []
  }

  lemma WeightLast(ps: seq<Contribution>, p: Contribution, side: Side, v: real)
    ensures Weight(ps + [p], side, v) == Weight(ps, side, v) + Share(p, side, v) && Total(ps + [p]) == Total(ps) + p.w
  {
    assert (ps + [p])[..|ps|] == ps;
  }

  lemma DropZeroStep(ps: seq<Contribution>, side: Side, v: real)
    requires ps != [] && ps[|ps| - 1].w >= 0.0
    ensures var n := |ps| - 1;
            && Weight(DropZero(ps), side, v) == Weight(DropZero(ps[..n]), side, v) + Share(ps[n], side, v)
            && Total(DropZero(ps)) == Total(DropZero(ps[..n])) + ps[n].w
  {
    var n := |ps| - 1;
    var kept, p := DropZero(ps[..n]), ps[n];
    WeightLast(kept, p, side, v);
    assert p.w == 0.0 ==> Share(p, side, v) == 0.0;
    assert DropZero(ps) == if p.w > 0.0 then kept + [p] else kept;
    hide *;
  }

  lemma {:induction false} DropZeroKeepsWeight(ps: seq<Contribution>, side: Side, v: real)
    requires NonNegative(ps)
    ensures Weight(DropZero(ps), side, v) == Weight(ps, side, v) && Total(DropZero(ps)) == Total(ps)
  {
    if ps != [] {
      DropZeroStep(ps, side, v);
      hide Share, DropZero;
      DropZeroKeepsWeight(ps[..|ps| - 1], side, v);
    }
  }

  lemma DropZeroKeepsMedian(ps: seq<Contribution>, r: real)
    requires NonNegative(ps) && IsMedian(DropZero(ps), r)
    ensures IsMedian(ps, r)
  {
    var kept := DropZero(ps);
    var lower: real, upper: real :| IsLower(kept, lower) && IsUpper(kept, upper) && r == (lower + upper) / 2.0;
    DropZeroKeepsWeight(ps, AtMost, lower);
    DropZeroKeepsWeight(ps, Below, lower);
    DropZeroKeepsWeight(ps, AtLeast, upper);
    DropZeroKeepsWeight(ps, Above, upper);
    assert IsLower(ps, lower) && IsUpper(ps, upper);
  }

  /** The median of the weighted samples, or the latest sample if none has any weight. */
  method WeightedMedian(weighting: Weighting, b: seq<Sample>, now: nat) returns (r: real)
    requires b != [] && Timed(b, now)
    ensures exists ps :: && AreWeighted(weighting, b, now, ps)
                         && if Total(ps) > 0.0 then IsMedian(ps, r) else r == b[|b| - 1].value
  {
    var ps := Weighted(weighting, b, now);
    WeightedAre(weighting, b, now);
    assert NonNegative(ps);
    var pairs := DropZero(ps);
    DropZeroKeepsWeight(ps, Below, 0.0);
    PositiveTotal(pairs);
    if pairs == [] {
      return b[|b| - 1].value;
    }
    var sorted := SortByValue(pairs);
    SortSorts(pairs);
    SortKeepsPositive(pairs);
    r := MedianOfSorted(sorted);
    MedianOfPermutation(sorted, pairs, r);
    DropZeroKeepsMedian(ps, r);
  }

  lemma SortKeepsPositive(ps: seq<Contribution>)
    requires Positive(ps) && ps != []
    ensures Positive(SortByValue(ps)) && SortByValue(ps) != []
  {
    var r := SortByValue(ps);
    forall i | 0 <= i < |r| ensures r[i].w > 0.0 {
      assert r[i] in multiset(ps);
    }
    assert ps[0] in multiset(r);
  }

  /** Recompute over the window on every tick. */
  class WindowStream {
    const weighting: Weighting
    const window: Window
    var buffer: seq<Sample>
    var value: real
    ghost var history: seq<Sample>
    ghost var start: nat
    ghost var last: nat

    ghost predicate Valid()
      reads this
    {
      && Timed(history, last) && start <= |history| && buffer == history[start..]
      && StartsAt(history, window, last, start) && window != LastSamples(0)
    }

    constructor (weighting: Weighting, window: Window)
      ensures Valid() && history == [] && last == 0 && this.weighting == weighting
      ensures this.window == if window == LastSamples(0) then LastSamples(1) else window
    {
      this.weighting := weighting;
      this.window := if window == LastSamples(0) then LastSamples(1) else window;
      buffer, value, history, start, last := [], 0.0, [], 0, 0;
    }

    method Evict(now: nat)
      requires Timed(history, now) && start <= |history| && buffer == history[start..] &&
               StartsFrom(history, window, now, start)
      modifies this`buffer, this`start
      ensures start <= |history| && buffer == history[start..] && StartsAt(history, window, now, start)
    {
      while ShouldEvict(window, buffer, now)
        invariant start <= |history| && buffer == history[start..] && StartsFrom(history, window, now, start)
        decreases |history| - start
      {
        EvictStep(history, window, now, start);
        hide StartsFrom;
        SuffixPop(history, start);
        buffer, start := buffer[1..], start + 1;
      }
      EvictStep(history, window, now, start);
    }

    method Cycle(sample: real, now: nat)
      requires Valid() && last <= now
      modifies this
      ensures Valid() && history == old(history) + [Sample(sample, now)] && last == now && start < |history|
      ensures exists ps :: && AreWeighted(weighting, history[start..], now, ps)
                           && if Total(ps) > 0.0 then IsMedian(ps, value) else value == sample
    {
      var s := Sample(sample, now);
      WindowMovesOn(history, window, last, start, s);
      TimedPush(history, last, s);
      SuffixPush(history, start, s);
      hide StartsFrom, Timed, IsMedian, Weighted, Total, AreWeighted;
      buffer := buffer + [s];
      history, last := history + [s], now;
      Evict(now);
      NewestStays(history, window, now, start);
      value := WeightedMedian(weighting, buffer, now);
    }
  }

  lemma NewestStays(h: seq<Sample>, window: Window, now: nat, k: nat)
    requires h != [] && h[|h| - 1].time == now && window != LastSamples(0) && StartsAt(h, window, now, k) &&
             Timed(h, now)
    ensures k < |h| && h[k..][|h| - k - 1] == h[|h| - 1] && Timed(h[k..], now)
  {
  }
}
