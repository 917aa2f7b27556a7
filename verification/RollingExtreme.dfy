/** Rolling minimum and maximum by a monotonic deque, against brute force over the window. */
module RollingExtreme {

  datatype Extreme = Min | Max

  /** `a` is at least as extreme as `b`. */
  predicate Dominates(extreme: Extreme, a: real, b: real) {
    match extreme
    case Min => a <= b
    case Max => a >= b
  }

  /** The extreme of a non-empty sequence, by looking at every element. */
  function BruteForce(extreme: Extreme, s: seq<real>): (v: real)
    requires s != []
    ensures v in s && forall x :: x in s ==> Dominates(extreme, v, x)
  {
    if |s| == 1 then s[0]
    else
      var n := |s| - 1;
      var v := BruteForce(extreme, s[..n]);
      assert s == s[..n] + [s[n]];
      if Dominates(extreme, v, s[n]) then v else s[n]
  }

  /** Which of the two it is. */
  lemma ExtremeIs(extreme: Extreme, s: seq<real>)
    requires s != []
    ensures var v := BruteForce(extreme, s);
            v in s && forall x :: x in s ==> if extreme == Min then v <= x else v >= x
  {
    hide BruteForce;
  }

  function WindowStart(n: nat, window: nat): nat {
    if n > window then n - window else 0
  }

  datatype Candidate = Candidate(index: nat, value: real)

  /** Samples of `h`, in order of arrival, each strictly less extreme than the ones before it. */
  ghost predicate Monotonic(extreme: Extreme, d: seq<Candidate>, h: seq<real>) {
    && (forall a :: 0 <= a < |d| ==> d[a].index < |h| && d[a].value == h[d[a].index])
    && (forall a, b :: 0 <= a < b < |d| ==> d[a].index < d[b].index && !Dominates(extreme, d[b].value, d[a].value))
  }

  /** Some candidate, no older than sample `j`, is at least as extreme. */
  ghost predicate Covered(extreme: Extreme, d: seq<Candidate>, h: seq<real>, j: nat)
    requires j < |h|
  {
    exists a :: 0 <= a < |d| && d[a].index >= j && Dominates(extreme, d[a].value, h[j])
  }

  /** The deque stands for the samples from `lo` on. */
  ghost predicate StandsFor(extreme: Extreme, d: seq<Candidate>, h: seq<real>, lo: nat) {
    Monotonic(extreme, d, h) && forall j :: lo <= j < |h| ==> Covered(extreme, d, h, j)
  }

  /** The front is the extreme of everything the deque stands for. */
  lemma FrontIsExtreme(extreme: Extreme, d: seq<Candidate>, h: seq<real>, lo: nat)
    requires StandsFor(extreme, d, h, lo) && lo < |h| && d != [] && d[0].index >= lo
    ensures d[0].value == BruteForce(extreme, h[lo..])
  {
    var s, v := h[lo..], d[0].value;
    assert v == s[d[0].index - lo];
    forall x | x in s ensures Dominates(extreme, v, x) {
      var k :| 0 <= k < |s| && s[k] == x;
      assert Covered(extreme, d, h, lo + k);
      var a :| 0 <= a < |d| && d[a].index >= lo + k && Dominates(extreme, d[a].value, h[lo + k]);
      assert a > 0 ==> !Dominates(extreme, d[a].value, d[0].value);
    }
    assert Dominates(extreme, v, BruteForce(extreme, s)) && Dominates(extreme, BruteForce(extreme, s), v);
  }

  /** A new sample replaces the candidates it dominates. */
  lemma PushStandsFor(extreme: Extreme, d: seq<Candidate>, h: seq<real>, lo: nat, x: real, m: nat)
    requires StandsFor(extreme, d, h, lo) && m <= |d|
    requires forall a :: m <= a < |d| ==> Dominates(extreme, x, d[a].value)
    requires m > 0 ==> !Dominates(extreme, x, d[m - 1].value)
    ensures StandsFor(extreme, d[..m] + [Candidate(|h|, x)], h + [x], lo)
  {
    var d', h' := d[..m] + [Candidate(|h|, x)], h + [x];
    forall a | 0 <= a < m ensures !Dominates(extreme, x, d[a].value) {
      assert a < m - 1 ==> !Dominates(extreme, d[m - 1].value, d[a].value);
    }
    assert d'[m] == Candidate(|h|, x);
    forall j | lo <= j < |h'| ensures Covered(extreme, d', h', j) {
      if j < |h| {
        assert Covered(extreme, d, h, j);
        var a :| 0 <= a < |d| && d[a].index >= j && Dominates(extreme, d[a].value, h[j]);
        assert if a < m then d'[a] == d[a] else Dominates(extreme, d'[m].value, h[j]);
      }
    }
  }

  /** Candidates that have left the window are not needed. */
  lemma DropStandsFor(extreme: Extreme, d: seq<Candidate>, h: seq<real>, lo: nat, lo': nat)
    requires StandsFor(extreme, d, h, lo) && lo <= lo' && d != [] && d[0].index < lo'
    ensures StandsFor(extreme, d[1..], h, lo')
  {
    forall j | lo' <= j < |h| ensures Covered(extreme, d[1..], h, j) {
      assert Covered(extreme, d, h, j);
      var a :| 0 <= a < |d| && d[a].index >= j && Dominates(extreme, d[a].value, h[j]);
      assert d[1..][a - 1] == d[a];
    }
  }

  class RollingExtremeStream {
    const extreme: Extreme
    const window: nat
    var deque: seq<Candidate>
    var index: nat
    var value: real
    ghost var history: seq<real>
    /** How many candidates have been popped. */
    ghost var pops: nat

    /** The deque stands for the last `min(window, n)` samples, and every pop undoes one push. */
    ghost predicate Valid()
      reads this
    {
      && window >= 1 && index == |history| && pops + |deque| == index
      && StandsFor(extreme, deque, history, WindowStart(index, window))
      && (deque != [] ==> deque[0].index >= WindowStart(index, window))
    }

    constructor (extreme: Extreme, window: nat)
      ensures Valid() && history == [] && this.extreme == extreme && this.window == if window == 0 then 1 else window
    {
      this.extreme := extreme;
      this.window := if window == 0 then 1 else window;
      deque, index, value, history, pops := [], 0, 0.0, [], 0;
    }

    /** Drop the back candidates that the sample dominates. */
    method PopDominated(sample: real)
      modifies this`deque, this`pops
      ensures |deque| <= |old(deque)| && deque == old(deque)[..|deque|] && pops + |deque| == old(pops) + |old(deque)|
      ensures forall a :: |deque| <= a < |old(deque)| ==> Dominates(extreme, sample, old(deque)[a].value)
      ensures deque != [] ==> !Dominates(extreme, sample, old(deque)[|deque| - 1].value)
    {
      while deque != [] && Dominates(extreme, sample, deque[|deque| - 1].value)
        invariant |deque| <= |old(deque)| && deque == old(deque)[..|deque|] &&
                  pops + |deque| == old(pops) + |old(deque)|
        invariant forall a :: |deque| <= a < |old(deque)| ==> Dominates(extreme, sample, old(deque)[a].value)
        decreases |deque|
      {
        deque := deque[..|deque| - 1];
        pops := pops + 1;
      }
    }

    /** Drop the front candidates that have left the window; the newest never has. */
    method PopStale(i: nat)
      requires window >= 1 && |history| == i + 1 && StandsFor(extreme, deque, history, WindowStart(i, window))
      requires deque != [] && deque[|deque| - 1].index == i
      modifies this`deque, this`pops
      ensures deque != [] && pops + |deque| == old(pops) + |old(deque)|
      ensures StandsFor(extreme, deque, history, WindowStart(i + 1, window)) &&
              deque[0].index >= WindowStart(i + 1, window)
    {
      ghost var lo: nat := WindowStart(i, window);
      while deque != [] && i - deque[0].index >= window
        invariant deque != [] && deque[|deque| - 1].index == i && pops + |deque| == old(pops) + |old(deque)|
        invariant StandsFor(extreme, deque, history, lo) && WindowStart(i, window) <= lo <= WindowStart(i + 1, window)
        decreases |deque|
      {
        DropStandsFor(extreme, deque, history, lo, WindowStart(i + 1, window));
        lo := WindowStart(i + 1, window);
        hide StandsFor;
        deque := deque[1..];
        pops := pops + 1;
      }
      assert forall j: nat :: WindowStart(i + 1, window) <= j < |history| ==> Covered(extreme, deque, history, j);
    }

    /** After every tick the value is the extreme of the last `min(window, n)` samples. */
    method Cycle(sample: real)
      requires Valid()
      modifies this
      ensures Valid() && history == old(history) + [sample] && deque != []
      ensures value == BruteForce(extreme, history[WindowStart(|history|, window)..])
      ensures var retained := history[if |history| > window then |history| - window else 0..];
              value in retained && forall x :: x in retained ==> if extreme == Min then value <= x else value >= x
    {
      hide StandsFor, BruteForce, Dominates;
      var i := index;
      index := index + 1;
      ghost var d, h := deque, history;
      PopDominated(sample);
      PushStandsFor(extreme, d, h, WindowStart(i, window), sample, |deque|);
      deque := deque + [Candidate(i, sample)];
      history := history + [sample];
      PopStale(i);
      FrontIsExtreme(extreme, deque, history, WindowStart(index, window));
      value := deque[0].value;
      ExtremeIs(extreme, history[WindowStart(index, window)..]);
    }
  }
}
