/** Weighted mean and variance, maintained incrementally in exact arithmetic: adding and removing one
    contribution at a time agrees with recomputing over the contributions that remain. */
module Moments {

  /** West's accumulator. */
  datatype Accumulator = Accumulator(wSum: real, count: nat, mean: real, m2: real)

  const EMPTY: Accumulator := Accumulator(0.0, 0, 0.0, 0.0)

  /** The mean once `x` has joined with weight `w`, for a new total weight. */
  function MeanWith(mean: real, x: real, w: real, wSum: real): real
    requires wSum > 0.0
  {
    mean + (w / wSum) * (x - mean)
  }

  /** The mean before `x` joined with weight `w`, for the total weights with and without it. */
  function MeanWithout(mean: real, x: real, w: real, wSum: real, wNew: real): real
    requires wNew > 0.0
  {
    (wSum * mean - w * x) / wNew
  }

  /** What `x` adds to `m2` as the mean moves from one value to the other. */
  function Spread(x: real, w: real, before: real, after: real): real {
    w * (x - before) * (x - after)
  }

  function Pushed(a: Accumulator, x: real, w: real): Accumulator
    requires a.wSum >= 0.0
  {
    if w <= 0.0 then a
    else
      var wSum := a.wSum + w;
      var mean := MeanWith(a.mean, x, w, wSum);
      Accumulator(wSum, a.count + 1, mean, a.m2 + Spread(x, w, a.mean, mean))
  }

  function Removed(a: Accumulator, x: real, w: real): Accumulator {
    if w <= 0.0 then a
    else
      var wNew := a.wSum - w;
      if a.count <= 1 || wNew <= 0.0 then EMPTY
      else
        var meanOld := MeanWithout(a.mean, x, w, a.wSum, wNew);
        Accumulator(wNew, a.count - 1, meanOld, Clamped(RawM2(a, x, w)))
  }

  /** `m2` after a removal, before it is clamped. */
  function RawM2(a: Accumulator, x: real, w: real): real
    requires a.wSum - w > 0.0
  {
    a.m2 - Spread(x, w, MeanWithout(a.mean, x, w, a.wSum, a.wSum - w), a.mean)
  }

  function Clamped(x: real): real {
    if x < 0.0 then 0.0 else x
  }

  // ----- The textbook definitions -----

  /** A value and the weight it carries. */
  datatype Contribution = Contribution(x: real, w: real)

  /** Total weight, weighted sum, weighted sum of squares, and number of contributions of positive weight. */
  datatype Totals = Totals(w: real, s: real, q: real, n: nat)

  function Plus(t: Totals, c: Contribution): Totals {
    Totals(t.w + c.w, t.s + c.w * c.x, t.q + c.w * c.x * c.x, if c.w > 0.0 then t.n + 1 else t.n)
  }

  function TotalsOf(cs: seq<Contribution>): Totals {
    if cs == [] then Totals(0.0, 0.0, 0.0, 0) else Plus(TotalsOf(cs[..|cs| - 1]), cs[|cs| - 1])
  }

  function Deviation(c: Contribution, m: real): real {
    c.w * ((c.x - m) * (c.x - m))
  }

  /** The weighted sum of squared deviations from `m`. */
  function SquaredDeviations(cs: seq<Contribution>, m: real): real {
    if cs == [] then 0.0 else SquaredDeviations(cs[..|cs| - 1], m) + Deviation(cs[|cs| - 1], m)
  }

  ghost predicate NonNegative(cs: seq<Contribution>) {
    forall i :: 0 <= i < |cs| ==> cs[i].w >= 0.0
  }

  lemma TotalsLast(cs: seq<Contribution>, c: Contribution)
    ensures TotalsOf(cs + [c]) == Plus(TotalsOf(cs), c)
  {
    assert (cs + [c])[..|cs|] == cs;
  }

  lemma PlusCommutes(t: Totals, c: Contribution, d: Contribution)
    ensures Plus(Plus(t, c), d) == Plus(Plus(t, d), c)
  {
  }

  lemma {:induction false} TotalsFirst(cs: seq<Contribution>)
    requires cs != []
    ensures TotalsOf(cs) == Plus(TotalsOf(cs[1..]), cs[0])
    decreases |cs|
  {
    var n := |cs| - 1;
    if n == 0 {
      assert cs[1..] == [] && cs[..0] == [];
    } else {
      var init, rest := cs[..n], cs[1..];
      TotalsFirst(init);
      assert init[1..] == rest[..n - 1];
      PlusCommutes(TotalsOf(rest[..n - 1]), cs[0], cs[n]);
      hide Plus;
    }
  }

  lemma {:induction false} WeightIsPositive(cs: seq<Contribution>)
    requires NonNegative(cs)
    ensures TotalsOf(cs).w >= 0.0 && (TotalsOf(cs).n == 0 <==> TotalsOf(cs).w == 0.0)
    ensures TotalsOf(cs).n == 0 ==> TotalsOf(cs) == Totals(0.0, 0.0, 0.0, 0)
  {
    if cs != [] {
      var last := cs[|cs| - 1];
      WeightIsPositive(cs[..|cs| - 1]);
      assert last.w == 0.0 ==> last.w * last.x == 0.0 && last.w * last.x * last.x == 0.0;
    }
  }

  lemma Square(w: real, x: real, m: real)
    ensures w * ((x - m) * (x - m)) == w * x * x - 2.0 * m * (w * x) + m * m * w
  {
    assert (x - m) * (x - m) == x * x - 2.0 * m * x + m * m;
    assert w * (x * x - 2.0 * m * x + m * m) == w * (x * x) - w * (2.0 * m * x) + w * (m * m);
    assert w * (2.0 * m * x) == 2.0 * m * (w * x);
  }

  /** The squared deviations from `m`, in terms of the totals. */
  function Expanded(t: Totals, m: real): real {
    t.q - 2.0 * m * t.s + m * m * t.w
  }

  lemma {:induction false} DeviationsExpand(cs: seq<Contribution>, m: real)
    ensures SquaredDeviations(cs, m) == Expanded(TotalsOf(cs), m)
  {
    if cs != [] {
      ExpandedStep(TotalsOf(cs[..|cs| - 1]), cs[|cs| - 1], m);
    }
    assert Expanded(Totals(0.0, 0.0, 0.0, 0), m) == 0.0;
    hide Plus, Expanded, Deviation;
    if cs != [] {
      DeviationsExpand(cs[..|cs| - 1], m);
    }
  }

  lemma ExpandedStep(t: Totals, c: Contribution, m: real)
    ensures Expanded(Plus(t, c), m) == Expanded(t, m) + Deviation(c, m)
  {
    Square(c.w, c.x, m);
    assert 2.0 * m * (t.s + c.w * c.x) == 2.0 * m * t.s + 2.0 * m * (c.w * c.x);
    assert m * m * (t.w + c.w) == m * m * t.w + m * m * c.w;
  }

  lemma {:induction false} DeviationsAreNonNegative(cs: seq<Contribution>, m: real)
    requires NonNegative(cs)
    ensures SquaredDeviations(cs, m) >= 0.0
  {
    if cs != [] {
      var c := cs[|cs| - 1];
      DeviationsAreNonNegative(cs[..|cs| - 1], m);
      ProductNonNegative(c.w, c.x - m);
    }
  }

  lemma ProductNonNegative(w: real, d: real)
    requires w >= 0.0
    ensures w * (d * d) >= 0.0
  {
    assert d * d >= 0.0;
  }

  // ----- The accumulator against the textbook -----

  /** `a` is the accumulator of contributions with these totals. */
  ghost predicate Matches(a: Accumulator, t: Totals) {
    && a.wSum == t.w && a.count == t.n
    && (t.n == 0 ==> a == EMPTY)
    && (t.n > 0 ==> t.w > 0.0 && a.mean * t.w == t.s && a.m2 + a.mean * t.s == t.q)
  }

  ghost predicate Represents(a: Accumulator, cs: seq<Contribution>) {
    NonNegative(cs) && Matches(a, TotalsOf(cs))
  }

  /** The accumulator holds the weighted mean and the weighted sum of squared deviations from it. */
  lemma RepresentsTextbook(a: Accumulator, cs: seq<Contribution>)
    requires Represents(a, cs)
    ensures TotalsOf(cs).w > 0.0 ==> a.mean == TotalsOf(cs).s / TotalsOf(cs).w
    ensures a.m2 == SquaredDeviations(cs, a.mean) && a.m2 >= 0.0
  {
    WeightIsPositive(cs);
    DeviationsExpand(cs, a.mean);
    DeviationsAreNonNegative(cs, a.mean);
    MatchesMeans(a, TotalsOf(cs));
    hide *;
  }

  lemma MatchesMeans(a: Accumulator, t: Totals)
    requires Matches(a, t) && (t.n == 0 ==> t == Totals(0.0, 0.0, 0.0, 0))
    ensures t.w > 0.0 ==> a.mean == t.s / t.w
    ensures a.m2 == Expanded(t, a.mean)
  {
    if t.n > 0 {
      assert a.mean * a.mean * t.w == a.mean * (a.mean * t.w);
      assert a.mean == (a.mean * t.w) / t.w;
    }
  }

  /** The algebra of one push: `q` is `w / (W + w)`, `d` is `x - mean`. */
  lemma PushAlgebra(W: real, w: real, mean: real, x: real)
    requires W >= 0.0 && w > 0.0
    ensures var W' := W + w;
            var mean' := mean + (w / W') * (x - mean);
            && mean' * W' == mean * W + w * x
            && w * (x - mean) * (x - mean') + mean' * (mean * W + w * x) == mean * (mean * W) + w * x * x
  {
    var W', d := W + w, x - mean;
    var q := w / W';
    assert q * W' == w;
    var mean' := mean + q * d;
    assert mean' * W' == mean * W' + (q * W') * d;
    assert mean * W' == mean * W + mean * w;
    assert w * d == w * x - w * mean;
    SecondMoment(W, w, mean, d, q);
    assert x == mean + d && x - mean' == d - q * d;
  }

  lemma SecondMoment(W: real, w: real, mean: real, d: real, q: real)
    requires q * (W + w) == w
    ensures w * d * (d - q * d) + (mean + q * d) * (mean * W + w * (mean + d)) ==
            mean * (mean * W) + w * (mean + d) * (mean + d)
  {
    var s := mean * W + w * (mean + d);
    assert s == mean * (W + w) + w * d by {
      assert w * (mean + d) == w * mean + w * d;
      assert mean * (W + w) == mean * W + mean * w;
    }
    assert q * s == mean * w + q * (w * d) by {
      assert q * (mean * (W + w)) == mean * (q * (W + w));
      assert q * s == q * (mean * (W + w)) + q * (w * d);
    }
    assert (mean + q * d) * s == mean * s + d * (q * s) by {
      assert (q * d) * s == d * (q * s);
    }
    assert d * (q * s) == d * (mean * w) + d * (q * (w * d));
    assert w * d * (d - q * d) == w * d * d - d * (q * (w * d)) by {
      assert w * d * (q * d) == d * (q * (w * d));
    }
    assert mean * s == mean * (mean * W) + mean * (w * (mean + d));
    assert w * (mean + d) * (mean + d) == mean * (w * (mean + d)) + d * (w * (mean + d));
    assert d * (w * (mean + d)) == d * (mean * w) + w * d * d;
  }

  lemma PushMean(a: Accumulator, t: Totals, c: Contribution)
    requires a.wSum == t.w >= 0.0 && a.mean * a.wSum == t.s && c.w > 0.0
    ensures Pushed(a, c.x, c.w).mean * Plus(t, c).w == Plus(t, c).s
  {
    PushAlgebra(a.wSum, c.w, a.mean, c.x);
  }

  lemma PushM2(a: Accumulator, t: Totals, c: Contribution)
    requires a.wSum == t.w >= 0.0 && a.mean * a.wSum == t.s && a.m2 + a.mean * t.s == t.q && c.w > 0.0
    ensures Pushed(a, c.x, c.w).m2 + Pushed(a, c.x, c.w).mean * Plus(t, c).s == Plus(t, c).q
  {
    PushAlgebra(a.wSum, c.w, a.mean, c.x);
    var b := Pushed(a, c.x, c.w);
    assert b.m2 == a.m2 + c.w * (c.x - a.mean) * (c.x - b.mean);
  }

  /** Pushing adds a contribution. */
  lemma PushMatches(a: Accumulator, t: Totals, c: Contribution)
    requires Matches(a, t) && c.w >= 0.0 && t.w >= 0.0 && (t.n == 0 ==> t == Totals(0.0, 0.0, 0.0, 0))
    ensures Matches(Pushed(a, c.x, c.w), Plus(t, c))
  {
    if c.w == 0.0 {
      assert c.w * c.x == 0.0 && c.w * c.x * c.x == 0.0;
    } else {
      assert a.mean * a.wSum == t.s && a.m2 + a.mean * t.s == t.q;
      PushMean(a, t, c);
      PushM2(a, t, c);
    }
  }

  /** Removing takes one away: what is left matches the totals without it, and the clamp does not act. */
  lemma RemoveMatches(a: Accumulator, t: Totals, c: Contribution, b: Accumulator)
    requires Matches(a, Plus(t, c)) && c.w > 0.0 && t.n > 0 && t.w > 0.0
    requires Matches(b, t) && b.m2 >= 0.0
    ensures a.wSum - c.w > 0.0 && RawM2(a, c.x, c.w) == b.m2 && Removed(a, c.x, c.w) == b
  {
    OldMean(a, t, c, b);
    PushMatches(b, t, c);
    MatchesUnique(a, Pushed(b, c.x, c.w), Plus(t, c));
    RawIsOld(a, c, b);
    hide RawM2, Pushed;
  }

  lemma RawIsOld(a: Accumulator, c: Contribution, b: Accumulator)
    requires b.wSum >= 0.0 && c.w > 0.0 && a == Pushed(b, c.x, c.w) && a.wSum - c.w > 0.0
    requires (a.wSum * a.mean - c.w * c.x) / (a.wSum - c.w) == b.mean
    ensures RawM2(a, c.x, c.w) == b.m2
  {
    SameRaw(a, c, b.mean);
    PushedM2(b, c.x, c.w);
    hide *;
  }

  lemma PushedM2(b: Accumulator, x: real, w: real)
    requires b.wSum >= 0.0 && w > 0.0
    ensures Pushed(b, x, w).m2 == b.m2 + w * (x - b.mean) * (x - Pushed(b, x, w).mean)
  {
  }

  lemma OldMean(a: Accumulator, t: Totals, c: Contribution, b: Accumulator)
    requires Matches(a, Plus(t, c)) && c.w > 0.0 && t.n > 0 && t.w > 0.0 && Matches(b, t)
    ensures a.wSum - c.w == t.w && (a.wSum * a.mean - c.w * c.x) / t.w == b.mean
  {
    assert a.wSum * a.mean == t.s + c.w * c.x;
    assert b.mean == (b.mean * t.w) / t.w;
  }

  lemma SameRaw(a: Accumulator, c: Contribution, mean: real)
    requires a.wSum - c.w > 0.0 && mean == (a.wSum * a.mean - c.w * c.x) / (a.wSum - c.w)
    ensures RawM2(a, c.x, c.w) == a.m2 - c.w * (c.x - mean) * (c.x - a.mean)
  {
  }

  /** The totals determine the accumulator. */
  lemma MatchesUnique(a: Accumulator, b: Accumulator, t: Totals)
    requires Matches(a, t) && Matches(b, t)
    ensures a == b
  {
    if t.n > 0 {
      assert a.mean == (a.mean * t.w) / t.w && b.mean == (b.mean * t.w) / t.w;
    }
  }

  /** Every non-empty collection has its accumulator, and its `m2` is not negative. */
  lemma AccumulatorExists(cs: seq<Contribution>) returns (a: Accumulator)
    requires NonNegative(cs)
    ensures Represents(a, cs) && a.m2 >= 0.0
  {
    var t := TotalsOf(cs);
    WeightIsPositive(cs);
    if t.n == 0 {
      a := EMPTY;
    } else {
      var mean := t.s / t.w;
      a := Accumulator(t.w, t.n, mean, t.q - mean * t.s);
      assert mean * t.w == t.s;
      RepresentsTextbook(a, cs);
    }
  }

  lemma PushRepresents(a: Accumulator, cs: seq<Contribution>, c: Contribution)
    requires Represents(a, cs) && c.w >= 0.0
    ensures a.wSum >= 0.0 && Represents(Pushed(a, c.x, c.w), cs + [c])
  {
    WeightIsPositive(cs);
    TotalsLast(cs, c);
    PushMatches(a, TotalsOf(cs), c);
  }

  /** Removing any one contribution leaves the accumulator of the rest; the negative-`m2` clamp never acts. */
  lemma RemoveRepresents(a: Accumulator, cs: seq<Contribution>)
    requires Represents(a, cs) && cs != []
    ensures Represents(Removed(a, cs[0].x, cs[0].w), cs[1..])
    ensures cs[0].w > 0.0 && a.count > 1 && a.wSum - cs[0].w > 0.0 ==> RawM2(a, cs[0].x, cs[0].w) >= 0.0
  {
    var c, rest := cs[0], cs[1..];
    TotalsFirst(cs);
    assert NonNegative(rest);
    var t := TotalsOf(rest);
    WeightIsPositive(rest);
    if c.w == 0.0 {
      assert c.w * c.x == 0.0 && c.w * c.x * c.x == 0.0;
    } else if t.n > 0 {
      var b := AccumulatorExists(rest);
      RemoveMatches(a, t, c, b);
    }
  }

  /** `remove` is the exact inverse of `push`. */
  lemma RemoveInvertsPush(a: Accumulator, cs: seq<Contribution>, x: real, w: real)
    requires Represents(a, cs) && w >= 0.0
    ensures a.wSum >= 0.0 && Removed(Pushed(a, x, w), x, w) == a
  {
    var c := Contribution(x, w);
    WeightIsPositive(cs);
    RepresentsTextbook(a, cs);
    PushMatches(a, TotalsOf(cs), c);
    if w > 0.0 && TotalsOf(cs).n > 0 {
      RemoveMatches(Pushed(a, x, w), TotalsOf(cs), c, a);
    }
  }
}
