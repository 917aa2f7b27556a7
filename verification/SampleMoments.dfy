/** What the moments are in terms of the samples themselves, each as a sum over the window. */
module SampleMoments {
  import opened Moments
  import opened RollingMoments

  lemma {:induction false} SumAdds(a: seq<real>, b: seq<real>)
    ensures Sum(a + b) == Sum(a) + Sum(b)
    decreases |b|
  {
    if b == [] {
      assert a + b == a;
    } else {
      var n := |b| - 1;
      SumAdds(a, b[..n]);
      assert (a + b)[..|a + b| - 1] == a + b[..n];
    }
  }

  lemma SumOfOne(x: real)
    ensures Sum([x]) == x && Sum([]) == 0.0
  {
    assert [x][..0] == [];
  }

  // ----- Totals as sums -----

  lemma {:induction false} TotalsAreSums(cs: seq<Contribution>, ws: seq<real>, xs: seq<real>)
    requires |ws| == |xs| == |cs|
    requires forall i :: 0 <= i < |cs| ==> ws[i] == cs[i].w && xs[i] == cs[i].w * cs[i].x
    ensures TotalsOf(cs).w == Sum(ws) && TotalsOf(cs).s == Sum(xs)
  {
    if cs != [] {
      var n := |cs| - 1;
      TotalsAreSums(cs[..n], ws[..n], xs[..n]);
    }
  }

  lemma {:induction false} DeviationsAreSums(cs: seq<Contribution>, m: real, ds: seq<real>)
    requires |ds| == |cs| && forall i :: 0 <= i < |cs| ==> ds[i] == cs[i].w * ((cs[i].x - m) * (cs[i].x - m))
    ensures SquaredDeviations(cs, m) == Sum(ds)
  {
    if cs != [] {
      DeviationsAreSums(cs[..|cs| - 1], m, ds[..|cs| - 1]);
    }
  }

  lemma TextbookOf(weighting: Weighting, cs: seq<Contribution>, current: real, w: real, s: real, d: real)
    requires TotalsOf(cs).w == w && TotalsOf(cs).s == s && (w > 0.0 ==> SquaredDeviations(cs, s / w) == d)
    ensures Textbook(Mean, weighting, cs, current) == if w <= 0.0 then current else s / w
    ensures Textbook(Variance, weighting, cs, current) ==
            if w <= 0.0 || (weighting.ByCount? && TotalsOf(cs).n < 2) then 0.0
            else d / (if weighting.ByCount? then TotalsOf(cs).n as real - 1.0 else w)
  {
    hide TotalsOf, SquaredDeviations;
  }

  lemma Unweighted(x: real)
    ensures 1.0 * x == x
  {
  }

  // ----- By count -----

  lemma {:induction false} UnitTotals(b: seq<Sample>)
    ensures var t := TotalsOf(Contributions(ByCount, b)); t.w == |b| as real && t.n == |b|
  {
    var cs := Contributions(ByCount, b);
    if b != [] {
      var n := |b| - 1;
      UnitTotals(b[..n]);
      assert cs[..n] == Contributions(ByCount, b[..n]);
    }
  }

  ghost predicate AreValues(b: seq<Sample>, xs: seq<real>) {
    |xs| == |b| && forall i :: 0 <= i < |b| ==> xs[i] == b[i].value
  }

  ghost predicate AreSquares(b: seq<Sample>, mean: real, ds: seq<real>) {
    |ds| == |b| && forall i :: 0 <= i < |b| ==> ds[i] == (b[i].value - mean) * (b[i].value - mean)
  }

  lemma ValuesSum(b: seq<Sample>, xs: seq<real>)
    requires AreValues(b, xs)
    ensures TotalsOf(Contributions(ByCount, b)).s == Sum(xs)
  {
    var cs, ws := Contributions(ByCount, b), seq(|b|, i => 1.0);
    forall i | 0 <= i < |b| ensures ws[i] == cs[i].w && xs[i] == cs[i].w * cs[i].x {
      Unweighted(xs[i]);
    }
    TotalsAreSums(cs, ws, xs);
  }

  lemma SquaresSum(b: seq<Sample>, mean: real, ds: seq<real>)
    requires AreSquares(b, mean, ds)
    ensures SquaredDeviations(Contributions(ByCount, b), mean) == Sum(ds)
  {
    var cs := Contributions(ByCount, b);
    forall i | 0 <= i < |b| ensures ds[i] == cs[i].w * ((cs[i].x - mean) * (cs[i].x - mean)) {
      Unweighted((b[i].value - mean) * (b[i].value - mean));
    }
    DeviationsAreSums(cs, mean, ds);
  }

  /** Every sample counts the same: the mean is their sum over their number, and the variance the sum of their
      squared distances from it over one less. */
  lemma CountMoments(b: seq<Sample>, xs: seq<real>, ds: seq<real>, current: real)
    requires AreValues(b, xs) && (b != [] ==> AreSquares(b, Sum(xs) / |b| as real, ds))
    ensures Textbook(Mean, ByCount, Contributions(ByCount, b), current) ==
            if b == [] then current else Sum(xs) / |b| as real
    ensures Textbook(Variance, ByCount, Contributions(ByCount, b), current) ==
            if |b| < 2 then 0.0 else Sum(ds) / (|b| as real - 1.0)
  {
    hide *;
    var cs := Contributions(ByCount, b);
    UnitTotals(b);
    ValuesSum(b, xs);
    if b != [] {
      SquaresSum(b, Sum(xs) / |b| as real, ds);
    }
    TextbookOf(ByCount, cs, current, |b| as real, Sum(xs), Sum(ds));
  }

  // ----- By time -----

  function Span(b: seq<Sample>): real {
    if b == [] then 0.0 else (b[|b| - 1].time - b[0].time) as real
  }

  lemma {:induction false} TimeTotals(b: seq<Sample>, last: nat)
    requires Timed(b, last)
    ensures TotalsOf(Contributions(ByTime, b)).w == Span(b)
  {
    var cs := Contributions(ByTime, b);
    if |b| > 1 {
      var n := |b| - 1;
      TimeTotals(b[..n], last);
      assert cs[..n - 1] == Contributions(ByTime, b[..n]);
    } else {
      assert cs == [];
    }
  }

  ghost predicate AreIntegrals(b: seq<Sample>, xs: seq<real>) {
    |b| == |xs| + 1 && forall i, j :: 0 <= i < |xs| && j == i + 1 ==>
      xs[i] == (b[j].time - b[i].time) as real * b[i].value
  }

  ghost predicate AreSpreads(b: seq<Sample>, mean: real, ds: seq<real>) {
    |b| == |ds| + 1 && forall i, j :: 0 <= i < |ds| && j == i + 1 ==>
      ds[i] == (b[j].time - b[i].time) as real * ((b[i].value - mean) * (b[i].value - mean))
  }

  lemma IntegralsSum(b: seq<Sample>, xs: seq<real>)
    requires AreIntegrals(b, xs)
    ensures TotalsOf(Contributions(ByTime, b)).s == Sum(xs)
  {
    var cs := Contributions(ByTime, b);
    var ws := seq(|xs|, i requires 0 <= i < |xs| => cs[i].w);
    TotalsAreSums(cs, ws, xs);
  }

  lemma SpreadsSum(b: seq<Sample>, mean: real, ds: seq<real>)
    requires AreSpreads(b, mean, ds)
    ensures SquaredDeviations(Contributions(ByTime, b), mean) == Sum(ds)
  {
    DeviationsAreSums(Contributions(ByTime, b), mean, ds);
  }

  /** Every sample but the newest counts for as long as it lasted: the mean is its integral over the time spanned,
      and the variance that of the squared distance from it. */
  lemma TimeMoments(b: seq<Sample>, last: nat, xs: seq<real>, ds: seq<real>, current: real)
    requires Timed(b, last) && AreIntegrals(b, xs) && (Span(b) > 0.0 ==> AreSpreads(b, Sum(xs) / Span(b), ds))
    ensures Textbook(Mean, ByTime, Contributions(ByTime, b), current) ==
            if Span(b) == 0.0 then current else Sum(xs) / Span(b)
    ensures Textbook(Variance, ByTime, Contributions(ByTime, b), current) ==
            if Span(b) == 0.0 then 0.0 else Sum(ds) / Span(b)
  {
    hide *;
    SpanIsForward(b, last);
    TimeTotals(b, last);
    IntegralsSum(b, xs);
    if Span(b) > 0.0 {
      SpreadsSum(b, Sum(xs) / Span(b), ds);
    }
    TextbookOf(ByTime, Contributions(ByTime, b), current, Span(b), Sum(xs), Sum(ds));
  }

  lemma SpanIsForward(b: seq<Sample>, last: nat)
    requires Timed(b, last)
    ensures Span(b) >= 0.0
  {
  }
}
