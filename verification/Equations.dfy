/** What a cycle is, without saying how it is computed: which nodes reply and what they reply, as equations that
    relate every reply to the replies of the node's upstreams.  They have exactly one solution. */
module Equations {
  import opened GraphModel
  import opened Evaluation

  /** The replies of the nodes that run. */
  type Replies<!S> = map<nat, Reply<S>>

  /** What other nodes see of node `u`: what it replied, or its old state and no tick. */
  function Shown<S>(sc: Scene<S>, replies: Replies<S>, u: nat): Seen<S>
    requires u < |sc.init|
  {
    if u in replies && replies[u].Reply? then Seen(replies[u].state, replies[u].ticked) else Seen(sc.init[u], false)
  }

  /** Node `n` is to run: it was marked at the start, an active upstream ticked, or some upstream marked it. */
  ghost predicate Woken<S(!new)>(sc: Scene<S>, replies: Replies<S>, n: nat)
    requires n < |sc.nodes|
  {
    || n in sc.dirty
    || exists e :: && e in sc.nodes[n].upstreams && e.node in replies && replies[e.node].Reply?
                   && ((e.active && replies[e.node].ticked) || n in replies[e.node].marks)
  }

  /** Node `n` replies to its own state and what its upstreams show, in the order of its edges. */
  ghost predicate Answers<S(!new)>(sc: Scene<S>, replies: Replies<S>, n: nat)
    requires n < |sc.nodes| && |sc.init| == |sc.nodes| && n in replies
  {
    var ups := sc.nodes[n].upstreams;
    exists seen: seq<Seen<S>> ::
      && |seen| == |ups|
      && (forall k :: 0 <= k < |ups| ==> ups[k].node < |sc.init| && seen[k] == Shown(sc, replies, ups[k].node))
      && replies[n] == sc.beh(n, sc.init[n], seen)
  }

  /** The equations of a cycle. */
  ghost predicate Solves<S(!new)>(sc: Scene<S>, replies: Replies<S>)
    requires |sc.init| == |sc.nodes|
  {
    && (forall n: nat :: n in replies <==> Live(sc.nodes, n) && Woken(sc, replies, n))
    && (forall n: nat :: n in replies ==> Answers(sc, replies, n))
  }

  /** What a reply makes of the node. */
  function Made<S>(sc: Scene<S>, replies: Replies<S>, n: nat): Outcome<S>
    requires n < |sc.init|
  {
    if n !in replies then Outcome(sc.init[n], false, false, [], {}, false)
    else
      match replies[n]
      case Reply(state, ticked, marks, requests) => Outcome(state, true, ticked, marks, requests, false)
      case Failed => Outcome(sc.init[n], true, false, [], {}, true)
  }

  /** The upstreams of `n` have come out as the equations say. */
  ghost predicate UpstreamsMade<S(!new)>(sc: Scene<S>, replies: Replies<S>, n: nat)
    requires WellFormed(sc) && n < |sc.nodes|
  {
    Live(sc.nodes, n) ==> forall e :: e in sc.nodes[n].upstreams ==> Eval(sc, e.node) == Made(sc, replies, e.node)
  }

  lemma {:induction false} WokenIffTriggered<S(!new)>(sc: Scene<S>, replies: Replies<S>, n: nat)
    requires WellFormed(sc) && Live(sc.nodes, n) && UpstreamsMade(sc, replies, n)
    ensures Woken(sc, replies, n) <==> n in sc.dirty || Triggered(sc, n)
  {
    forall e | e in sc.nodes[n].upstreams
      ensures Triggers(Eval(sc, e.node), e, n) <==>
              && e.node in replies && replies[e.node].Reply?
              && ((e.active && replies[e.node].ticked) || n in replies[e.node].marks)
    {
      assert Eval(sc, e.node) == Made(sc, replies, e.node);
    }
    hide Eval, WellFormed;
  }

  /** What node `n` sees in the reference. */
  ghost function SeenInEval<S(!new)>(sc: Scene<S>, n: nat): (seen: seq<Seen<S>>)
    requires WellFormed(sc) && Live(sc.nodes, n)
    ensures |seen| == |sc.nodes[n].upstreams|
  {
    var ups := sc.nodes[n].upstreams;
    seq(|ups|, k requires 0 <= k < |ups| => assert ups[k] in ups; View(Eval(sc, ups[k].node)))
  }

  lemma {:induction false} ShownIsSeen<S(!new)>(sc: Scene<S>, replies: Replies<S>, n: nat, k: nat)
    requires WellFormed(sc) && Live(sc.nodes, n) && UpstreamsMade(sc, replies, n) && k < |sc.nodes[n].upstreams|
    ensures var u := sc.nodes[n].upstreams[k].node;
            u < |sc.init| && SeenInEval(sc, n)[k] == Shown(sc, replies, u)
  {
    var e := sc.nodes[n].upstreams[k];
    assert e in sc.nodes[n].upstreams && Eval(sc, e.node) == Made(sc, replies, e.node);
    hide Eval;
  }

  /** What a node replied is what it replies in the reference. */
  lemma {:induction false} OneAnswered<S(!new)>(sc: Scene<S>, replies: Replies<S>, n: nat)
    requires WellFormed(sc) && Live(sc.nodes, n) && UpstreamsMade(sc, replies, n)
    requires |sc.init| == |sc.nodes| && n in replies && Answers(sc, replies, n)
    ensures replies[n] == sc.beh(n, sc.init[n], SeenInEval(sc, n))
  {
    hide WellFormed, UpstreamsMade, SeenInEval, Shown, Eval;
    var ups := sc.nodes[n].upstreams;
    var seen: seq<Seen<S>> :| && |seen| == |ups|
      && (forall k :: 0 <= k < |ups| ==> ups[k].node < |sc.init| && seen[k] == Shown(sc, replies, ups[k].node))
      && replies[n] == sc.beh(n, sc.init[n], seen);
    forall k | 0 <= k < |ups| ensures seen[k] == SeenInEval(sc, n)[k] {
      ShownIsSeen(sc, replies, n, k);
    }
    assert seen == SeenInEval(sc, n);
  }

  lemma EvalUnfolds<S(!new)>(sc: Scene<S>, n: nat)
    requires WellFormed(sc) && n < |sc.nodes|
    ensures Eval(sc, n) == if Live(sc.nodes, n) && (n in sc.dirty || Triggered(sc, n))
                           then OutcomeOf(sc.init[n], sc.beh(n, sc.init[n], SeenInEval(sc, n)))
                           else Outcome(sc.init[n], false, false, [], {}, false)
  {
  }

  /** If the upstreams of `n` have come out as the equations say, so does `n`. */
  lemma {:induction false} OneMade<S(!new)>(sc: Scene<S>, replies: Replies<S>, n: nat)
    requires WellFormed(sc) && Solves(sc, replies) && n < |sc.nodes| && UpstreamsMade(sc, replies, n)
    ensures Eval(sc, n) == Made(sc, replies, n)
  {
    assert |sc.init| == |sc.nodes|;
    hide WellFormed, Eval, UpstreamsMade, Triggered, Woken, Answers, SeenInEval;
    EvalUnfolds(sc, n);
    if Live(sc.nodes, n) {
      WokenIffTriggered(sc, replies, n);
      if n in replies {
        OneAnswered(sc, replies, n);
      }
    }
  }

  /** Every solution of the equations gives every node its reference outcome, so there is at most one. */
  lemma {:induction false} SolutionIsEval<S(!new)>(sc: Scene<S>, replies: Replies<S>, n: nat)
    requires WellFormed(sc) && Solves(sc, replies) && n < |sc.nodes|
    ensures Eval(sc, n) == Made(sc, replies, n)
    decreases sc.nodes[n].layer
  {
    if Live(sc.nodes, n) {
      forall e | e in sc.nodes[n].upstreams ensures Eval(sc, e.node) == Made(sc, replies, e.node) {
        SolutionIsEval(sc, replies, e.node);
      }
    }
    hide Eval, Made, Solves;
    OneMade(sc, replies, n);
  }

  // ----- The solution -----

  ghost function RepliesIn<S(!new)>(sc: Scene<S>): Replies<S>
    requires WellFormed(sc)
  {
    map n | 0 <= n < |sc.nodes| && Eval(sc, n).ran :: sc.beh(n, sc.init[n], SeenInEval(sc, n))
  }

  lemma {:induction false} RepliesMade<S(!new)>(sc: Scene<S>, n: nat)
    requires WellFormed(sc) && n < |sc.nodes|
    ensures Eval(sc, n) == Made(sc, RepliesIn(sc), n)
  {
  }

  /** The equations have a solution. */
  lemma {:induction false} EvalSolves<S(!new)>(sc: Scene<S>)
    requires WellFormed(sc)
    ensures Solves(sc, RepliesIn(sc))
  {
    var replies := RepliesIn(sc);
    forall n: nat | n < |sc.nodes| ensures UpstreamsMade(sc, replies, n) {
      UpstreamsAreMade(sc, n);
    }
    forall n: nat ensures n in replies <==> Live(sc.nodes, n) && Woken(sc, replies, n) {
      if Live(sc.nodes, n) {
        WokenIffTriggered(sc, replies, n);
      }
    }
    forall n: nat | n in replies ensures Answers(sc, replies, n) {
      EvalAnswers(sc, n);
    }
    hide UpstreamsMade, Triggered, Woken, WellFormed, Answers;
  }

  lemma {:induction false} UpstreamsAreMade<S(!new)>(sc: Scene<S>, n: nat)
    requires WellFormed(sc) && n < |sc.nodes|
    ensures UpstreamsMade(sc, RepliesIn(sc), n)
  {
    if Live(sc.nodes, n) {
      forall e | e in sc.nodes[n].upstreams ensures Eval(sc, e.node) == Made(sc, RepliesIn(sc), e.node) {
        RepliesMade(sc, e.node);
      }
    }
    hide Eval, Made, RepliesIn;
  }

  lemma {:induction false} EvalAnswers<S(!new)>(sc: Scene<S>, n: nat)
    requires WellFormed(sc) && n in RepliesIn(sc)
    ensures Answers(sc, RepliesIn(sc), n)
  {
    var replies, ups, seen := RepliesIn(sc), sc.nodes[n].upstreams, SeenInEval(sc, n);
    forall k | 0 <= k < |ups| ensures ups[k].node < |sc.init| && seen[k] == Shown(sc, replies, ups[k].node) {
      assert ups[k] in ups;
      RepliesMade(sc, ups[k].node);
    }
  }

  /** Every mark of a reply is honoured: the node it names runs in the same cycle. */
  lemma {:induction false} MarksAreHonoured<S(!new)>(sc: Scene<S>, replies: Replies<S>, n: nat, m: nat)
    requires WellFormed(sc) && Solves(sc, replies) && n in replies && replies[n].Reply? && m in replies[n].marks
    ensures m in replies && m < |sc.nodes| && Eval(sc, m).ran
  {
    MarkReaches(sc, replies, n, m);
    hide WellFormed, Eval, Woken, Answers;
    SolutionIsEval(sc, replies, m);
  }

  lemma {:induction false} MarkReaches<S(!new)>(sc: Scene<S>, replies: Replies<S>, n: nat, m: nat)
    requires WellFormed(sc) && Solves(sc, replies) && n in replies && replies[n].Reply? && m in replies[n].marks
    ensures Live(sc.nodes, m) && Woken(sc, replies, m)
  {
    assert Live(sc.nodes, n) && Answers(sc, replies, n);
    assert Feeds(sc.nodes, n, m) && Live(sc.nodes, m);
    Mirrored(sc.nodes, n, m, true);
    Mirrored(sc.nodes, n, m, false);
    assert Edge(n, true) in sc.nodes[m].upstreams || Edge(n, false) in sc.nodes[m].upstreams;
  }

  /** What an engine makes of a cycle: who ran, the states they left, and what they asked for. */
  ghost predicate Performs<S(!new)>(sc: Scene<S>, values: seq<S>, log: seq<nat>, requests: set<(nat, nat)>)
    requires |sc.init| == |sc.nodes|
  {
    exists replies: Replies<S> :: Solves(sc, replies) && Performed(sc, replies, values, log, requests)
  }

  ghost predicate Performed<S(!new)>(sc: Scene<S>, replies: Replies<S>, values: seq<S>, log: seq<nat>,
                                     requests: set<(nat, nat)>) {
    && |values| == |sc.nodes| == |sc.init| && (forall n: nat :: n in log <==> n in replies)
    && (forall n: nat :: n < |sc.nodes| ==> values[n] == if n in replies && replies[n].Reply? then replies[n].state
                                                       else sc.init[n])
    && (forall n: nat :: n in replies ==> replies[n].Reply?)
    && (forall q :: q in requests <==> exists n: nat :: n in replies && replies[n].Reply? && q in replies[n].requests)
  }

  /** Reference outcomes for everybody, without a failure, are a performance of the cycle. */
  lemma {:induction false} OutcomesPerform<S(!new)>(sc: Scene<S>, values: seq<S>, log: seq<nat>,
                                                    requests: set<(nat, nat)>)
    requires WellFormed(sc) && |values| == |sc.nodes| && (forall n :: n in log ==> n < |sc.nodes|)
    requires forall n: nat :: n < |sc.nodes| ==>
               values[n] == Eval(sc, n).state && (n in log <==> Eval(sc, n).ran) && !Eval(sc, n).failed
    requires forall q :: q in requests <==> exists n: nat :: n < |sc.nodes| && q in Eval(sc, n).requests
    ensures Performs(sc, values, log, requests)
  {
    var replies := RepliesIn(sc);
    EvalSolves(sc);
    forall n: nat | n < |sc.nodes| ensures Eval(sc, n) == Made(sc, replies, n) {
      RepliesMade(sc, n);
    }
    hide Eval, WellFormed, Solves, RepliesIn;
    RequestsMade(sc, replies, requests);
    assert Performed(sc, replies, values, log, requests);
  }

  lemma {:induction false} RequestsMade<S(!new)>(sc: Scene<S>, replies: Replies<S>, requests: set<(nat, nat)>)
    requires WellFormed(sc) && Solves(sc, replies)
    requires forall n: nat :: n < |sc.nodes| ==> Eval(sc, n) == Made(sc, replies, n)
    requires forall q :: q in requests <==> exists n: nat :: n < |sc.nodes| && q in Eval(sc, n).requests
    ensures forall q :: q in requests <==>
              exists n: nat :: n in replies && replies[n].Reply? && q in replies[n].requests
  {
    assert |sc.init| == |sc.nodes| && forall n: nat :: n in replies ==> n < |sc.nodes|;
    hide Eval, WellFormed, Solves;
    forall q ensures q in requests <==> exists n: nat :: n in replies && replies[n].Reply? && q in replies[n].requests {
      if q in requests {
        var n: nat :| n < |sc.nodes| && q in Eval(sc, n).requests;
        assert n in replies && replies[n].Reply? && q in replies[n].requests;
      }
      if n: nat :| n in replies && replies[n].Reply? && q in replies[n].requests {
        assert n < |sc.nodes| && q in Eval(sc, n).requests;
      }
    }
  }

  /** In the cycle, node `n` runs and fails. */
  ghost predicate Fails<S(!new)>(sc: Scene<S>, n: nat)
    requires |sc.init| == |sc.nodes|
  {
    exists replies: Replies<S> :: Solves(sc, replies) && n in replies && replies[n].Failed?
  }

  lemma {:induction false} OutcomeFails<S(!new)>(sc: Scene<S>, n: nat)
    requires WellFormed(sc) && n < |sc.nodes| && Eval(sc, n).failed
    ensures Fails(sc, n)
  {
    EvalSolves(sc);
    RepliesMade(sc, n);
    assert n in RepliesIn(sc) && RepliesIn(sc)[n].Failed?;
    hide Eval, WellFormed, Solves, RepliesIn;
  }
}
