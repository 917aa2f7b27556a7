/** Cycles and ranks of a relation over a finite set: there is no cycle if and only if some rank rises along
    every edge. */
module Acyclic {

  /** `r(u, v)`: there is an edge from `u` to `v`. */
  type Relation = (nat, nat) -> bool

  ghost predicate IsWalk(r: Relation, p: seq<nat>) {
    |p| > 0 && forall i, j :: 0 <= i < |p| - 1 && j == i + 1 ==> r(p[i], p[j])
  }

  ghost predicate Closes(r: Relation, p: seq<nat>) {
    IsWalk(r, p) && |p| > 1 && p[0] == p[|p| - 1]
  }

  ghost predicate HasCycle(r: Relation) {
    exists p :: Closes(r, p)
  }

  ghost predicate Within(r: Relation, universe: set<nat>) {
    forall u: nat, v: nat :: r(u, v) ==> u in universe && v in universe
  }

  ghost predicate RisesAlong(r: Relation, rank: nat -> nat) {
    forall u: nat, v: nat :: r(u, v) ==> rank(u) < rank(v)
  }

  // ----- A rank rules out cycles -----

  lemma {:induction false} RankRises(r: Relation, rank: nat -> nat, p: seq<nat>)
    requires RisesAlong(r, rank) && IsWalk(r, p)
    ensures rank(p[0]) + |p| - 1 <= rank(p[|p| - 1])
  {
    if |p| > 1 {
      var q := p[..|p| - 1];
      RankRises(r, rank, q);
      assert r(p[|p| - 2], p[|p| - 1]);
    }
  }

  lemma RankedHasNoCycle(r: Relation, rank: nat -> nat)
    requires RisesAlong(r, rank)
    ensures !HasCycle(r)
  {
    if p :| Closes(r, p) {
      RankRises(r, rank, p);
    }
  }

  /** Fewer edges, fewer cycles. */
  lemma FewerEdges(r: Relation, r': Relation)
    requires !HasCycle(r') && forall u: nat, v: nat :: r(u, v) ==> r'(u, v)
    ensures !HasCycle(r)
  {
    if p :| Closes(r, p) {
      assert Closes(r', p);
    }
  }

  // ----- Without a cycle, walks are short -----

  lemma WalkIsSimple(r: Relation, p: seq<nat>, i: nat, j: nat)
    requires !HasCycle(r) && IsWalk(r, p) && i < j < |p|
    ensures p[i] != p[j]
  {
    if p[i] == p[j] {
      assert Closes(r, p[i..j + 1]);
    }
  }

  lemma {:induction false} SimpleIsShort(p: seq<nat>, universe: set<nat>)
    requires forall i :: 0 <= i < |p| ==> p[i] in universe
    requires forall i, j :: 0 <= i < j < |p| ==> p[i] != p[j]
    ensures |p| <= |universe|
  {
    if p != [] {
      var last := p[|p| - 1];
      SimpleIsShort(p[..|p| - 1], universe - {last});
    }
  }

  lemma WalkIsShort(r: Relation, universe: set<nat>, p: seq<nat>)
    requires !HasCycle(r) && Within(r, universe) && IsWalk(r, p)
    ensures |p| <= |universe| + 1
  {
    if |p| > 1 {
      forall i | 0 <= i < |p| ensures p[i] in universe {
        if i == 0 {
          assert r(p[0], p[1]);
        } else {
          assert r(p[i - 1], p[i]);
        }
      }
      forall i, j | 0 <= i < j < |p| ensures p[i] != p[j] {
        WalkIsSimple(r, p, i, j);
      }
      SimpleIsShort(p, universe);
    }
  }

  // ----- The rank: how long a walk to `x` can get -----

  /** Some walk over `k` nodes ends in `x`. */
  ghost predicate EndsIn(r: Relation, x: nat, k: nat) {
    exists p :: IsWalk(r, p) && |p| == k && p[|p| - 1] == x
  }

  /** The greatest such `k` up to `n`. */
  ghost function Height(r: Relation, x: nat, n: nat): (h: nat)
    ensures h <= n && (h > 0 ==> EndsIn(r, x, h))
    ensures forall k :: h < k <= n ==> !EndsIn(r, x, k)
  {
    if n == 0 || EndsIn(r, x, n) then n else Height(r, x, n - 1)
  }

  lemma WalkExtends(r: Relation, u: nat, v: nat, k: nat)
    requires r(u, v) && EndsIn(r, u, k)
    ensures EndsIn(r, v, k + 1)
  {
    var p :| IsWalk(r, p) && |p| == k && p[|p| - 1] == u;
    assert IsWalk(r, p + [v]);
  }

  lemma HeightRises(r: Relation, universe: set<nat>, u: nat, v: nat)
    requires !HasCycle(r) && Within(r, universe) && r(u, v)
    ensures Height(r, u, |universe| + 1) < Height(r, v, |universe| + 1)
  {
    var n := |universe| + 1;
    assert IsWalk(r, [u]);
    assert EndsIn(r, u, 1);
    var h := Height(r, u, n);
    WalkExtends(r, u, v, h);
    var p :| IsWalk(r, p) && |p| == h + 1 && p[|p| - 1] == v;
    WalkIsShort(r, universe, p);
  }

  /** A relation over a finite set that has no cycle has a rank. */
  lemma AcyclicHasRank(r: Relation, universe: set<nat>) returns (rank: nat -> nat)
    requires !HasCycle(r) && Within(r, universe)
    ensures RisesAlong(r, rank)
  {
    rank := x => Height(r, x, |universe| + 1);
    forall u: nat, v: nat | r(u, v) ensures rank(u) < rank(v) {
      HeightRises(r, universe, u, v);
    }
  }

  lemma AcyclicIffRanked(r: Relation, universe: set<nat>)
    requires Within(r, universe)
    ensures !HasCycle(r) <==> exists rank: nat -> nat :: RisesAlong(r, rank)
  {
    if !HasCycle(r) {
      var rank := AcyclicHasRank(r, universe);
    }
    if rank: nat -> nat :| RisesAlong(r, rank) {
      RankedHasNoCycle(r, rank);
    }
  }
}
