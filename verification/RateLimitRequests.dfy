/** What became of each request of a run, said of the request's own step: how it was decided and on which counter. */
module RateLimitRequests {
  import opened Prelude
  import opened RateLimit

  /** What the step at j of the run, a request, says of the decision on it. */
  predicate DecidedAs(cfg: Enforced, actions: seq<Action>, j: nat, d: Decision, earlier: seq<Decision>)
    requires j < |actions| && actions[j].Request?
  {
    var s := Run(cfg, actions[..j]);
    && d.at == s.now && d.gen == (if Live(s) then s.counter.value.gen else |s.gens|)
    && (d.verdict.FailedOpen? <==> actions[j].replyLost)
    && (d.verdict.Rejected? <==> !actions[j].replyLost && Draws(earlier, d.gen) >= cfg.limit)
    && (d.verdict.Admitted? <==> !actions[j].replyLost && Draws(earlier, d.gen) < cfg.limit)
  }

  lemma RunPrefix(cfg: Enforced, actions: seq<Action>, k: nat)
    requires k < |actions|
    ensures Run(cfg, actions[..k + 1]) == Step(Run(cfg, actions[..k]), cfg, actions[k])
  {
    assert actions[..k + 1][..k] == actions[..k];
  }

  lemma {:induction false} LogGrows(cfg: Enforced, actions: seq<Action>, k: nat, n: nat)
    requires k <= n <= |actions|
    ensures Run(cfg, actions[..k]).log <= Run(cfg, actions[..n]).log
    decreases n
  {
    if k < n {
      LogGrows(cfg, actions, k, n - 1);
      RunPrefix(cfg, actions, n - 1);
    }
  }

  lemma CountDecides(s: State, cfg: Enforced, lost: bool)
    requires Numbered(s)
    ensures var s' := AfterRequest(s, cfg, lost);
      && |s'.log| == |s.log| + 1 && s.log <= s'.log
      && s'.log[|s.log|].count == Draws(s.log, s'.log[|s.log|].gen) + 1
  {
    NoDrawsBeforeCreation(s.log, |s.gens|);
  }

  lemma RequestIsDecided(cfg: Enforced, actions: seq<Action>, j: nat)
    requires j < |actions| && actions[j].Request?
    ensures var s, t := Run(cfg, actions[..j]), Run(cfg, actions[..j + 1]);
      && |t.log| == |s.log| + 1 && s.log <= t.log
      && DecidedAs(cfg, actions, j, t.log[|s.log|], s.log)
  {
    RunIsNumbered(cfg, actions[..j]);
    RunPrefix(cfg, actions, j);
    CountDecides(Run(cfg, actions[..j]), cfg, actions[j].replyLost);
  }

  /**
   * Every request whose INCR took effect is decided once, at its own instant and on the counter it
   * finds: it fails open if and only if its reply was lost, and is rejected if and only if its reply
   * arrived and Limit requests had drawn from that counter before it.
   */
  lemma EveryRequestIsDecided(cfg: Enforced, actions: seq<Action>, j: nat)
    requires j < |actions| && actions[j].Request?
    ensures var i, log := |Run(cfg, actions[..j]).log|, Run(cfg, actions).log;
      i < |log| && DecidedAs(cfg, actions, j, log[i], log[..i])
  {
    RequestIsDecided(cfg, actions, j);
    LogGrows(cfg, actions, j + 1, |actions|);
    assert actions[..|actions|] == actions;
    var s, t := Run(cfg, actions[..j]), Run(cfg, actions[..j + 1]);
    assert Run(cfg, actions).log[..|s.log|] == t.log[..|s.log|] == s.log;
  }

  lemma OnlyRequestsLog(s: State, cfg: Enforced, a: Action)
    requires !a.Request?
    ensures Step(s, cfg, a).log == s.log
  {
  }

  lemma {:induction false} LoggedAt(cfg: Enforced, actions: seq<Action>, n: nat, i: nat) returns (j: nat)
    requires n <= |actions| && i < |Run(cfg, actions[..n]).log|
    ensures j < n && actions[j].Request? && |Run(cfg, actions[..j]).log| == i
    decreases n
  {
    j := n - 1;
    RunPrefix(cfg, actions, j);
    if actions[j].Request? {
      RequestIsDecided(cfg, actions, j);
    } else {
      OnlyRequestsLog(Run(cfg, actions[..j]), cfg, actions[j]);
    }
    if i < |Run(cfg, actions[..j]).log| {
      j := LoggedAt(cfg, actions, j, i);
    }
  }

  /** And every decision of a run is that of one of its requests. */
  lemma EveryDecisionIsARequests(cfg: Enforced, actions: seq<Action>, i: nat) returns (j: nat)
    requires i < |Run(cfg, actions).log|
    ensures j < |actions| && actions[j].Request? && |Run(cfg, actions[..j]).log| == i
    ensures DecidedAs(cfg, actions, j, Run(cfg, actions).log[i], Run(cfg, actions).log[..i])
  {
    assert actions[..|actions|] == actions;
    j := LoggedAt(cfg, actions, |actions|, i);
    EveryRequestIsDecided(cfg, actions, j);
  }

  // ---- the EXPIRE of each counter ----

  /** The first EXPIRE sent for counter g after its creation at j is the step at k. */
  predicate FirstExpire(actions: seq<Action>, j: nat, k: nat, g: nat) {
    && j < k < |actions| && actions[k].Expire? && actions[k].g == g
    && forall l :: j < l < k ==> !(actions[l].Expire? && actions[l].g == g)
  }

  predicate NoExpire(actions: seq<Action>, j: nat, g: nat) {
    forall l :: j < l < |actions| ==> !(actions[l].Expire? && actions[l].g == g)
  }

  predicate FirstExpireSays(cfg: Enforced, actions: seq<Action>, j: nat, k: nat, g: nat, e: Expiry) {
    && FirstExpire(actions, j, k, g)
    && e == if actions[k].fails then Never else Applied(Run(cfg, actions[..k]).now)
  }

  /** What a counter's EXPIRE came to, said of the steps of the run. */
  predicate ExpiryOf(cfg: Enforced, actions: seq<Action>, j: nat, g: nat, e: Expiry)
    requires j < |actions| && actions[j].Request?
  {
    if actions[j].replyLost then e == Never
    else
      || (e == Pending && NoExpire(actions, j, g))
      || exists k :: j < k < |actions| && FirstExpireSays(cfg, actions, j, k, g, e)
  }

  /** The step at j is the request that creates counter g. */
  predicate CreatesAt(cfg: Enforced, actions: seq<Action>, j: nat, g: nat) {
    j < |actions| && actions[j].Request? && !Live(Run(cfg, actions[..j])) && |Run(cfg, actions[..j]).gens| == g
  }

  lemma GensAfterStep(s: State, cfg: Enforced, a: Action, g: nat)
    requires g < |s.gens|
    ensures var s' := Step(s, cfg, a);
      && |s.gens| <= |s'.gens| && s'.gens[g].created == s.gens[g].created
      && s'.gens[g].expiry ==
           if a.Expire? && a.g == g && s.gens[g].expiry.Pending? then if a.fails then Never else Applied(s.now)
           else s.gens[g].expiry
  {
  }

  lemma NewGen(s: State, cfg: Enforced, a: Action)
    requires |Step(s, cfg, a).gens| > |s.gens|
    ensures a.Request? && !Live(s) && |Step(s, cfg, a).gens| == |s.gens| + 1
    ensures Step(s, cfg, a).gens[|s.gens|] == Generation(s.now, if a.replyLost then Never else Pending)
  {
  }

  lemma ExpiryOfMore(cfg: Enforced, before: seq<Action>, a: Action, j: nat, g: nat, e: Expiry, e': Expiry)
    requires j < |before| && before[j].Request? && ExpiryOf(cfg, before, j, g, e)
    requires e' == if a.Expire? && a.g == g && e.Pending? then
                     if a.fails then Never else Applied(Run(cfg, before).now)
                   else e
    ensures ExpiryOf(cfg, before + [a], j, g, e')
  {
    var more, n := before + [a], |before|;
    if !before[j].replyLost {
      if e == Pending && NoExpire(before, j, g) {
        if a.Expire? && a.g == g {
          assert more[..n] == before;
          assert FirstExpireSays(cfg, more, j, n, g, e');
        }
      } else {
        var k :| j < k < n && FirstExpireSays(cfg, before, j, k, g, e);
        assert more[..k] == before[..k];
        assert FirstExpireSays(cfg, more, j, k, g, e');
      }
    }
  }

  /**
   * Every counter of a run was created by one of its requests, at that request's instant, when the
   * one before was gone; and its EXPIRE is the first the run sends for it, lost exactly if that fails
   * or the creator never got its reply.
   */
  lemma {:induction false} EveryCounterIsOfTheRun(cfg: Enforced, actions: seq<Action>, g: nat) returns (j: nat)
    requires g < |Run(cfg, actions).gens|
    ensures CreatesAt(cfg, actions, j, g)
    ensures Run(cfg, actions).gens[g].created == Run(cfg, actions[..j]).now
    ensures ExpiryOf(cfg, actions, j, g, Run(cfg, actions).gens[g].expiry)
  {
    var n := |actions| - 1;
    var before, a := actions[..n], actions[n];
    var s := Run(cfg, before);
    if g < |s.gens| {
      j := EveryCounterIsOfTheRun(cfg, before, g);
      assert before[..j] == actions[..j];
      GensAfterStep(s, cfg, a, g);
      ExpiryOfMore(cfg, before, a, j, g, s.gens[g].expiry, Run(cfg, actions).gens[g].expiry);
      assert before + [a] == actions;
    } else {
      j := n;
      NewGen(s, cfg, a);
    }
  }
}
