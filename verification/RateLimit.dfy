/** The gateway's fixed-window rate limiter over a shared counter. */
module RateLimit {
  // INCR on the counter, then EXPIRE by the request that created it, are separate commands. So any
  // number of replicas' commands interleave, an EXPIRE may arrive late or never, and a reply may be
  // lost after its INCR took effect.

  import opened Prelude

  datatype Config = Config(limit: int, window: real)

  type Enforced = cfg: Config | cfg.limit >= 1 && cfg.window > 0.0 witness Config(100, 60.0)

  /** The limit and window in force: a value that is not positive means the default. */
  function Effective(cfg: Config): (r: Enforced)
    ensures cfg.limit >= 1 && cfg.window > 0.0 ==> r == cfg
    ensures (cfg.limit <= 0 ==> r.limit == 100) && (cfg.window <= 0.0 ==> r.window == 60.0)
  {
    Config(if cfg.limit <= 0 then 100 else cfg.limit, if cfg.window <= 0.0 then 60.0 else cfg.window)
  }

  datatype Verdict = Admitted | Rejected | FailedOpen

  /** A request whose INCR took effect: when, on which counter of the key, and with what count. */
  datatype Decision = Decision(at: real, gen: nat, count: nat, verdict: Verdict)

  /** The creator's EXPIRE: still to come, applied at an instant, or never to come. */
  datatype Expiry = Pending | Applied(at: real) | Never

  /** One lifetime of the key's counter. */
  datatype Generation = Generation(created: real, expiry: Expiry)

  datatype Counter = Counter(count: nat, gen: nat, deadline: Option<real>)

  /** One key: what Redis holds, and the history of the key's counters and decisions. */
  datatype State = State(now: real, counter: Option<Counter>, gens: seq<Generation>, log: seq<Decision>)

  datatype Action =
    | Request(replyLost: bool)
    | Unreachable                      // the INCR never took effect: the request fails open, uncounted
    | Expire(g: nat, fails: bool)
    | Pass(dt: real)

  function Init(): State {
    State(0.0, None, [], [])
  }

  predicate Live(s: State) {
    s.counter.Some? && (s.counter.value.deadline.Some? ==> s.now < s.counter.value.deadline.value)
  }

  function VerdictOf(count: nat, limit: int, replyLost: bool): Verdict {
    if replyLost then FailedOpen else if count > limit then Rejected else Admitted
  }

  /** A lost reply also loses the creator's knowledge that it must send the EXPIRE. */
  function AfterRequest(s: State, cfg: Enforced, replyLost: bool): State {
    if Live(s) then
      var c := s.counter.value;
      s.(counter := Some(c.(count := c.count + 1)),
         log := s.log + [Decision(s.now, c.gen, c.count + 1, VerdictOf(c.count + 1, cfg.limit, replyLost))])
    else
      s.(counter := Some(Counter(1, |s.gens|, None)),
         gens := s.gens + [Generation(s.now, if replyLost then Never else Pending)],
         log := s.log + [Decision(s.now, |s.gens|, 1, VerdictOf(1, cfg.limit, replyLost))])
  }

  /** EXPIRE acts on whichever counter the key then has. */
  function AfterExpire(s: State, cfg: Enforced, g: nat, fails: bool): State {
    if g < |s.gens| && s.gens[g].expiry.Pending? then
      if fails then s.(gens := s.gens[g := s.gens[g].(expiry := Never)])
      else
        s.(gens := s.gens[g := s.gens[g].(expiry := Applied(s.now))],
           counter := if Live(s) then Some(s.counter.value.(deadline := Some(s.now + cfg.window))) else s.counter)
    else s
  }

  function Step(s: State, cfg: Enforced, a: Action): State {
    match a
    case Request(lost) => AfterRequest(s, cfg, lost)
    case Unreachable => s
    case Expire(g, fails) => AfterExpire(s, cfg, g, fails)
    case Pass(dt) => if dt > 0.0 then s.(now := s.now + dt) else s
  }

  function RunFrom(s: State, cfg: Enforced, actions: seq<Action>): State {
    if actions == [] then s else Step(RunFrom(s, cfg, actions[..|actions| - 1]), cfg, actions[|actions| - 1])
  }

  function Run(cfg: Enforced, actions: seq<Action>): State {
    RunFrom(Init(), cfg, actions)
  }

  // ---- what every run keeps ----

  /** Every counter but the last was given its deadline once and outlived by the next one. */
  predicate GenerationsOk(gens: seq<Generation>, window: real, now: real) {
    && (forall g :: 0 <= g < |gens| ==>
          gens[g].created <= now && (gens[g].expiry.Applied? ==> gens[g].created <= gens[g].expiry.at <= now))
    && (forall g :: 0 <= g < |gens| - 1 ==>
          gens[g].expiry.Applied? && gens[g].expiry.at + window <= gens[g + 1].created)
  }

  predicate CounterOk(s: State, window: real) {
    match s.counter
    case None => s.gens == []
    case Some(c) =>
      && c.gen == |s.gens| - 1 && c.count >= 1
      && c.deadline == if s.gens[c.gen].expiry.Applied? then Some(s.gens[c.gen].expiry.at + window) else None
  }

  predicate DecisionOk(d: Decision, gens: seq<Generation>, cfg: Enforced) {
    && d.gen < |gens| && d.count >= 1 && gens[d.gen].created <= d.at
    && (d.count == 1 ==> d.at == gens[d.gen].created)
    && (gens[d.gen].expiry.Applied? ==> d.at < gens[d.gen].expiry.at + cfg.window)
    && (d.verdict.Admitted? ==> d.count <= cfg.limit)
    && (d.verdict.Rejected? ==> d.count > cfg.limit)
  }

  /** No two requests draw the same count from one counter. */
  predicate DistinctDraws(log: seq<Decision>) {
    forall i, j :: 0 <= i < j < |log| && log[i].gen == log[j].gen ==> log[i].count < log[j].count
  }

  predicate Sound(s: State, cfg: Enforced) {
    && GenerationsOk(s.gens, cfg.window, s.now) && CounterOk(s, cfg.window)
    && (forall i :: 0 <= i < |s.log| ==> DecisionOk(s.log[i], s.gens, cfg) && s.log[i].at <= s.now)
    && (forall i :: 0 <= i < |s.log| && s.counter.Some? && s.log[i].gen == s.counter.value.gen ==>
          s.log[i].count <= s.counter.value.count)
    && DistinctDraws(s.log)
  }

  lemma DrawKeepsSound(s: State, cfg: Enforced, lost: bool)
    requires Sound(s, cfg) && Live(s)
    ensures Sound(AfterRequest(s, cfg, lost), cfg)
  {
    assert DecisionOk(AfterRequest(s, cfg, lost).log[|s.log|], s.gens, cfg);
  }

  lemma GenerationStays(d: Decision, gens: seq<Generation>, gen: Generation, cfg: Enforced)
    requires DecisionOk(d, gens, cfg)
    ensures DecisionOk(d, gens + [gen], cfg)
  {
  }

  lemma CreationKeepsSound(s: State, cfg: Enforced, lost: bool)
    requires Sound(s, cfg) && !Live(s)
    ensures Sound(AfterRequest(s, cfg, lost), cfg)
  {
    var s' := AfterRequest(s, cfg, lost);
    var gen := s'.gens[|s.gens|];
    assert GenerationsOk(s'.gens, cfg.window, s.now);
    forall i | 0 <= i < |s'.log| ensures DecisionOk(s'.log[i], s'.gens, cfg) && s'.log[i].at <= s.now {
      if i < |s.log| {
        GenerationStays(s.log[i], s.gens, gen, cfg);
      }
    }
    forall i | 0 <= i < |s.log| ensures s.log[i].gen < |s.gens| {
      assert DecisionOk(s.log[i], s.gens, cfg);
    }
  }

  /** Only the last counter can still be without a deadline, so a late EXPIRE never lands on another's. */
  lemma ExpireKeepsSound(s: State, cfg: Enforced, g: nat, fails: bool)
    requires Sound(s, cfg)
    ensures Sound(AfterExpire(s, cfg, g, fails), cfg)
  {
    var s' := AfterExpire(s, cfg, g, fails);
    forall i | 0 <= i < |s.log| ensures DecisionOk(s'.log[i], s'.gens, cfg) {
      assert DecisionOk(s.log[i], s.gens, cfg);
    }
  }

  lemma {:induction false} RunIsSound(cfg: Enforced, actions: seq<Action>)
    ensures Sound(Run(cfg, actions), cfg)
  {
    if actions != [] {
      RunIsSound(cfg, actions[..|actions| - 1]);
      var s := Run(cfg, actions[..|actions| - 1]);
      match actions[|actions| - 1]
      case Request(lost) => if Live(s) { DrawKeepsSound(s, cfg, lost); } else { CreationKeepsSound(s, cfg, lost); }
      case Expire(g, fails) => ExpireKeepsSound(s, cfg, g, fails);
      case _ =>
    }
  }

  // ---- how many are admitted ----

  /** The positions of the requests admitted in [from, until). */
  function AdmittedWithin(log: seq<Decision>, from: real, until: real): set<nat> {
    set i: nat | i < |log| && log[i].verdict.Admitted? && from <= log[i].at < until
  }

  function AdmittedOf(log: seq<Decision>, gen: nat): set<nat> {
    set i: nat | i < |log| && log[i].verdict.Admitted? && log[i].gen == gen
  }

  /** Requests of one counter with counts from lo to hi: no more than there are counts. */
  lemma {:induction false} FewDraws(log: seq<Decision>, gen: nat, requests: set<nat>, lo: int, hi: int)
    requires DistinctDraws(log) && lo <= hi + 1
    requires forall i :: i in requests ==> i < |log| && log[i].gen == gen && lo <= log[i].count <= hi
    ensures |requests| <= hi - lo + 1
    decreases hi - lo + 1
  {
    if lo == hi + 1 {
      assert requests == {};
    } else if i :| i in requests && log[i].count == hi {
      assert |requests - {i}| == |requests| - 1;
      FewDraws(log, gen, requests - {i}, lo, hi - 1);
    } else {
      FewDraws(log, gen, requests, lo, hi - 1);
    }
  }

  /** At most Limit admissions per counter lifetime. */
  lemma AtMostLimitPerCounter(cfg: Enforced, actions: seq<Action>, gen: nat)
    ensures |AdmittedOf(Run(cfg, actions).log, gen)| <= cfg.limit
  {
    RunIsSound(cfg, actions);
    FewDraws(Run(cfg, actions).log, gen, AdmittedOf(Run(cfg, actions).log, gen), 1, cfg.limit);
  }

  /** Counters are created at least a window apart. */
  lemma {:induction false} CreatedApart(gens: seq<Generation>, window: real, now: real, g: nat, h: nat)
    requires GenerationsOk(gens, window, now) && window > 0.0 && g < h < |gens|
    ensures gens[g].expiry.Applied? && gens[g].expiry.at + window <= gens[h].created
    ensures gens[g].created + window <= gens[h].created
  {
    if g < h - 1 {
      CreatedApart(gens, window, now, g, h - 1);
    }
  }

  /**
   * Two admissions less than a window apart come from one counter or two consecutive ones; then the
   * older is no creator.
   */
  lemma CloseAdmissions(s: State, cfg: Enforced, i: nat, j: nat, from: real)
    requires Sound(s, cfg)
    requires i in AdmittedWithin(s.log, from, from + cfg.window) && j in AdmittedWithin(s.log, from, from + cfg.window)
    requires s.log[i].gen < s.log[j].gen
    ensures s.log[j].gen == s.log[i].gen + 1 && s.log[i].count >= 2
  {
    var d, e := s.log[i], s.log[j];
    assert DecisionOk(d, s.gens, cfg) && DecisionOk(e, s.gens, cfg);
    CreatedApart(s.gens, cfg.window, s.now, d.gen, e.gen);
    if d.gen + 1 < e.gen {
      CreatedApart(s.gens, cfg.window, s.now, d.gen, d.gen + 1);
      CreatedApart(s.gens, cfg.window, s.now, d.gen + 1, e.gen);
    }
  }

  /** Within a window: some counter's admissions, or two consecutive counters' without the older's creator. */
  lemma TwoCountersAtMost(s: State, cfg: Enforced, from: real) returns (g: nat)
    requires Sound(s, cfg)
    ensures var admitted := AdmittedWithin(s.log, from, from + cfg.window);
      && (forall i :: i in admitted ==> s.log[i].gen == g || s.log[i].gen == g + 1)
      && (forall i, j :: i in admitted && j in admitted && s.log[i].gen == g && s.log[j].gen == g + 1 ==>
            s.log[i].count >= 2)
  {
    var admitted := AdmittedWithin(s.log, from, from + cfg.window);
    forall i, j | i in admitted && j in admitted && s.log[i].gen < s.log[j].gen
      ensures s.log[j].gen == s.log[i].gen + 1 && s.log[i].count >= 2
    {
      CloseAdmissions(s, cfg, i, j, from);
    }
    g := 0;
    if i :| i in admitted {
      g := s.log[i].gen;
      if j :| j in admitted && s.log[j].gen < g {
        g := s.log[j].gen;
      }
    }
  }

  /** At most 2 * Limit - 1 admissions in any half-open interval of one window's length. */
  lemma AtMostTwiceLimitPerWindow(cfg: Enforced, actions: seq<Action>, from: real)
    ensures |AdmittedWithin(Run(cfg, actions).log, from, from + cfg.window)| <= 2 * cfg.limit - 1
  {
    var s := Run(cfg, actions);
    RunIsSound(cfg, actions);
    var g := TwoCountersAtMost(s, cfg, from);
    AdmittedByTwo(s.log, AdmittedWithin(s.log, from, from + cfg.window), g, cfg.limit);
  }

  lemma AdmittedByTwo(log: seq<Decision>, admitted: set<nat>, g: nat, limit: int)
    requires DistinctDraws(log) && limit >= 1
    requires forall i :: i in admitted ==>
      i < |log| && 1 <= log[i].count <= limit && (log[i].gen == g || log[i].gen == g + 1)
    requires forall i, j :: i in admitted && j in admitted && log[i].gen == g && log[j].gen == g + 1 ==>
      log[i].count >= 2
    ensures |admitted| <= 2 * limit - 1
  {
    var older := set i | i in admitted && log[i].gen == g;
    var newer := admitted - older;
    assert admitted == older + newer;
    FewDraws(log, g + 1, newer, 1, limit);
    if newer == {} {
      FewDraws(log, g, older, 1, limit);
    } else {
      var j :| j in newer;
      assert log[j].gen == g + 1;
      FewDraws(log, g, older, 2, limit);
    }
  }

  // ---- which are admitted ----

  /** How many requests of the log drew from the counter. */
  function Draws(log: seq<Decision>, gen: nat): nat {
    if log == [] then 0 else Draws(log[..|log| - 1], gen) + if log[|log| - 1].gen == gen then 1 else 0
  }

  /** Counts are the order of arrival at each counter. */
  predicate InOrder(log: seq<Decision>) {
    forall i :: 0 <= i < |log| ==> log[i].count == Draws(log[..i], log[i].gen) + 1
  }

  predicate Numbered(s: State) {
    && InOrder(s.log)
    && (forall i :: 0 <= i < |s.log| ==> s.log[i].gen < |s.gens|)
    && (s.counter.Some? ==>
        s.counter.value.count == Draws(s.log, s.counter.value.gen) && s.counter.value.gen < |s.gens|)
  }

  lemma {:induction false} NoDrawsBeforeCreation(log: seq<Decision>, gen: nat)
    requires forall i :: 0 <= i < |log| ==> log[i].gen < gen
    ensures Draws(log, gen) == 0
  {
    if log != [] {
      NoDrawsBeforeCreation(log[..|log| - 1], gen);
    }
  }

  lemma NextInOrder(log: seq<Decision>, d: Decision)
    requires InOrder(log) && d.count == Draws(log, d.gen) + 1
    ensures InOrder(log + [d]) && Draws(log + [d], d.gen) == d.count
  {
    assert (log + [d])[..|log|] == log;
    forall i | 0 <= i < |log| ensures (log + [d])[..i] == log[..i] {
    }
  }

  lemma RequestKeepsNumbered(s: State, cfg: Enforced, lost: bool)
    requires Numbered(s)
    ensures Numbered(AfterRequest(s, cfg, lost))
  {
    NoDrawsBeforeCreation(s.log, |s.gens|);
    NextInOrder(s.log, AfterRequest(s, cfg, lost).log[|s.log|]);
  }

  lemma {:induction false} RunIsNumbered(cfg: Enforced, actions: seq<Action>)
    ensures Numbered(Run(cfg, actions))
  {
    if actions != [] {
      RunIsNumbered(cfg, actions[..|actions| - 1]);
      var s := Run(cfg, actions[..|actions| - 1]);
      match actions[|actions| - 1]
      case Request(lost) => RequestKeepsNumbered(s, cfg, lost);
      case _ =>
    }
  }

  /** A counter admits exactly its first Limit requests, except that a lost reply fails open. */
  lemma FirstLimitAreAdmitted(cfg: Enforced, actions: seq<Action>, i: nat)
    requires i < |Run(cfg, actions).log|
    ensures var log := Run(cfg, actions).log;
      log[i].verdict.FailedOpen? || (log[i].verdict.Admitted? <==> Draws(log[..i], log[i].gen) < cfg.limit)
  {
    RunIsSound(cfg, actions);
    RunIsNumbered(cfg, actions);
    var s := Run(cfg, actions);
    assert DecisionOk(s.log[i], s.gens, cfg);
  }

  // ---- how long a counter lives ----

  lemma DeadlineAfterStep(s: State, cfg: Enforced, a: Action, g: nat)
    requires Sound(s, cfg) && g < |s.gens|
    ensures var s' := Step(s, cfg, a);
      && s.now <= s'.now && g < |s'.gens| && s'.gens[g].created == s.gens[g].created
      && (!s.gens[g].expiry.Pending? ==> s'.gens[g] == s.gens[g])
      && (s.gens[g].expiry.Pending? && s'.gens[g].expiry.Applied? ==> s'.gens[g].expiry.at == s.now)
  {
  }

  /** One EXPIRE at most per counter: once it is applied, or known never to come, nothing moves the deadline. */
  lemma {:induction false} DeadlineIsFinal(cfg: Enforced, actions: seq<Action>, j: nat, g: nat)
    requires j <= |actions| && g < |Run(cfg, actions[..j]).gens|
    ensures var s, s' := Run(cfg, actions[..j]), Run(cfg, actions);
      && s.now <= s'.now && g < |s'.gens| && s'.gens[g].created == s.gens[g].created
      && (!s.gens[g].expiry.Pending? ==> s'.gens[g] == s.gens[g])
      && (s.gens[g].expiry.Pending? && s'.gens[g].expiry.Applied? ==> s'.gens[g].expiry.at >= s.now)
  {
    var n := |actions|;
    if j == n {
      assert actions[..j] == actions;
    } else {
      assert actions[..n - 1][..j] == actions[..j];
      DeadlineIsFinal(cfg, actions[..n - 1], j, g);
      RunIsSound(cfg, actions[..n - 1]);
      DeadlineAfterStep(Run(cfg, actions[..n - 1]), cfg, actions[n - 1], g);
    }
  }

  /**
   * After any decision whose counter got its EXPIRE at x, that counter serves no request from
   * x + Window on; the next one that finds no live counter draws count 1 and is admitted.
   */
  lemma CounterIsGoneAfterWindow(cfg: Enforced, actions: seq<Action>, i: nat, lost: bool)
    requires i < |Run(cfg, actions).log|
    ensures var s := Run(cfg, actions); var g := s.log[i].gen;
      && g < |s.gens|
      && (s.gens[g].expiry.Applied? ==>
            && s.log[i].at < s.gens[g].expiry.at + cfg.window
            && (s.now >= s.gens[g].expiry.at + cfg.window ==> AfterRequest(s, cfg, lost).log[|s.log|].gen > g))
      && (!Live(s) ==> AfterRequest(s, cfg, false).log[|s.log|].verdict.Admitted?)
  {
    RunIsSound(cfg, actions);
    var s := Run(cfg, actions);
    assert DecisionOk(s.log[i], s.gens, cfg);
  }

  /** A caller rejected at t, the EXPIRE having been applied by then, is rid of that counter from t + Window on. */
  lemma RejectionsEndWithinWindow(cfg: Enforced, actions: seq<Action>, j: nat, i: nat, lost: bool)
    requires j <= |actions|
    requires var s := Run(cfg, actions[..j]);
      && i < |s.log| && s.log[i].verdict.Rejected? && s.log[i].gen < |s.gens|
      && s.gens[s.log[i].gen].expiry.Applied? && s.gens[s.log[i].gen].expiry.at <= s.log[i].at
    ensures var d, s' := Run(cfg, actions[..j]).log[i], Run(cfg, actions);
      s'.now >= d.at + cfg.window ==> AfterRequest(s', cfg, lost).log[|s'.log|].gen > d.gen
  {
    RunIsSound(cfg, actions);
    DeadlineIsFinal(cfg, actions, j, Run(cfg, actions[..j]).log[i].gen);
  }

  /** By how much a counter outlives its window: its EXPIRE's delay. */
  function DelayOf(gen: Generation): real
    requires gen.expiry.Applied?
  {
    gen.expiry.at - gen.created
  }

  /**
   * Exactly how long a counter lasts: the next request draws from the last counter unless its EXPIRE
   * has been applied and one window more than that EXPIRE's delay has passed since its creation. So
   * it lasts one window exactly when the EXPIRE comes at the instant of creation.
   */
  lemma CounterLastsWindowAndDelay(cfg: Enforced, actions: seq<Action>, lost: bool)
    requires Run(cfg, actions).gens != []
    ensures var s := Run(cfg, actions); var g := |s.gens| - 1;
      && (AfterRequest(s, cfg, lost).log[|s.log|].gen == g
          <==> (s.gens[g].expiry.Applied? ==> s.now < s.gens[g].created + cfg.window + DelayOf(s.gens[g])))
      && (s.gens[g].expiry.Applied? ==> DelayOf(s.gens[g]) >= 0.0)
  {
    RunIsSound(cfg, actions);
  }

  /** At t the counter of s is still there, without a deadline, and every request since has drawn from it. */
  predicate StillStuck(s: State, t: State, cfg: Enforced)
    requires s.counter.Some?
  {
    && t.gens == s.gens && t.counter.Some? && t.counter.value.count >= s.counter.value.count
    && t.counter.value.gen == s.counter.value.gen && t.counter.value.deadline.None?
    && s.log <= t.log
    && (forall i :: |s.log| <= i < |t.log| ==> DrawnBeyond(t.log[i], s.counter.value.count, cfg.limit))
  }

  /** A decision on a count beyond the given one, admitted only within the limit. */
  predicate DrawnBeyond(d: Decision, count: nat, limit: int) {
    d.count > count && (d.verdict.Admitted? ==> d.count <= limit)
  }

  lemma StepStaysStuck(s: State, t: State, cfg: Enforced, a: Action)
    requires s.counter.Some? && StillStuck(s, t, cfg)
    requires s.gens != [] && s.counter.value.gen == |s.gens| - 1
    requires forall g :: 0 <= g < |s.gens| ==> !s.gens[g].expiry.Pending?
    ensures StillStuck(s, Step(t, cfg, a), cfg)
  {
  }

  /** From a counter whose EXPIRE never comes: every later request draws from it. */
  lemma {:induction false} StuckCounter(s: State, cfg: Enforced, actions: seq<Action>)
    requires Sound(s, cfg) && s.counter.Some? && s.gens[|s.gens| - 1].expiry.Never?
    ensures StillStuck(s, RunFrom(s, cfg, actions), cfg)
  {
    if actions != [] {
      StuckCounter(s, cfg, actions[..|actions| - 1]);
      StepStaysStuck(s, RunFrom(s, cfg, actions[..|actions| - 1]), cfg, actions[|actions| - 1]);
    }
  }

  ghost predicate AdmitsAgain(s: State, cfg: Enforced, more: seq<Action>) {
    exists i :: |s.log| <= i < |RunFrom(s, cfg, more).log| && RunFrom(s, cfg, more).log[i].verdict.Admitted?
  }

  lemma RunFromOne(s: State, cfg: Enforced, actions: seq<Action>)
    requires |actions| == 1
    ensures RunFrom(s, cfg, actions) == Step(s, cfg, actions[0])
  {
    assert actions[..0] == [];
  }

  lemma RunFromTwo(s: State, cfg: Enforced, actions: seq<Action>)
    requires |actions| == 2
    ensures RunFrom(s, cfg, actions) == Step(Step(s, cfg, actions[0]), cfg, actions[1])
  {
    RunFromOne(s, cfg, actions[..1]);
  }

  lemma RunFromThree(s: State, cfg: Enforced, actions: seq<Action>)
    requires |actions| == 3
    ensures RunFrom(s, cfg, actions) == Step(Step(Step(s, cfg, actions[0]), cfg, actions[1]), cfg, actions[2])
  {
    RunFromTwo(s, cfg, actions[..2]);
  }

  /** Once its EXPIRE has arrived or arrives now, a counter is gone a window later. */
  lemma AdmitsAfterWindow(s: State, cfg: Enforced, g: nat)
    requires Sound(s, cfg)
    requires s.counter.Some? && g == s.counter.value.gen && !s.gens[g].expiry.Never?
    ensures AdmitsAgain(s, cfg, [Expire(g, false), Pass(cfg.window), Request(false)])
  {
    RunFromThree(s, cfg, [Expire(g, false), Pass(cfg.window), Request(false)]);
    var t := AfterExpire(s, cfg, g, false);
    assert t.counter.value.deadline.Some? && t.counter.value.deadline.value <= s.now + cfg.window;
    assert RunFrom(s, cfg, [Expire(g, false), Pass(cfg.window), Request(false)]).log[|s.log|].verdict.Admitted?;
  }

  /** An exhausted key admits again in some continuation exactly when its creator's EXPIRE was not lost. */
  lemma ExhaustedKeysRecoverUnlessExpireIsLost(cfg: Enforced, actions: seq<Action>)
    requires var c := Run(cfg, actions).counter; c.Some? && c.value.count >= cfg.limit
    ensures var s := Run(cfg, actions);
      s.gens != [] && ((exists more :: AdmitsAgain(s, cfg, more)) <==> !s.gens[|s.gens| - 1].expiry.Never?)
  {
    var s := Run(cfg, actions);
    RunIsSound(cfg, actions);
    if s.gens[|s.gens| - 1].expiry.Never? {
      forall more ensures !AdmitsAgain(s, cfg, more) {
        StuckCounter(s, cfg, more);
      }
    } else {
      AdmitsAfterWindow(s, cfg, |s.gens| - 1);
    }
  }

  // ---- a lost EXPIRE ----

  /** The creator's EXPIRE fails, and the rest of the budget is used up. */
  function LostExpire(cfg: Enforced): seq<Action> {
    [Request(false), Expire(0, true)] + Requests(cfg.limit - 1)
  }

  /**
   * For every limit and window: one failed EXPIRE, Limit requests admitted, and no request ever
   * again, however late.
   */
  lemma LostExpireBlocksTheKey(cfg: Enforced, more: seq<Action>)
    ensures var s := Run(cfg, LostExpire(cfg));
      && |s.log| == cfg.limit && (forall i :: 0 <= i < |s.log| ==> s.log[i].verdict.Admitted?)
      && !AdmitsAgain(s, cfg, more)
  {
    var opening := [Request(false), Expire(0, true)];
    RunFromTwo(Init(), cfg, [Request(false), Expire(0, true)]);
    var s := Run(cfg, opening);
    assert s == AfterExpire(AfterRequest(Init(), cfg, false), cfg, 0, true);
    Burst(s, cfg, cfg.limit - 1);
    RunFromConcat(Init(), cfg, opening, Requests(cfg.limit - 1));
    RunIsSound(cfg, LostExpire(cfg));
    StuckCounter(Run(cfg, LostExpire(cfg)), cfg, more);
  }

  /** The budget is used up, and only a time t after the counter's creation its EXPIRE arrives. */
  function LateExpire(cfg: Enforced, t: real): seq<Action> {
    Requests(1) + Requests(cfg.limit - 1) + [Pass(t), Request(false), Expire(0, false)]
  }

  /**
   * For every delay, many windows or one instant: a request so long after the creation is rejected,
   * and a window goes on top.
   */
  lemma LateExpireOutlivesTheWindow(cfg: Enforced, t: real)
    requires t > 0.0
    ensures var s := Run(cfg, LateExpire(cfg, t));
      && |s.gens| == 1 && s.gens[0] == Generation(0.0, Applied(t))
      && |s.log| == cfg.limit + 1 && s.log[cfg.limit] == Decision(t, 0, cfg.limit + 1, Rejected)
      && s.counter == Some(Counter(cfg.limit + 1, 0, Some(t + cfg.window)))
  {
    var one := Requests(1);
    assert one == [Request(false)];
    RunFromOne(Init(), cfg, [Request(false)]);
    var s := Run(cfg, one);
    Burst(s, cfg, cfg.limit - 1);
    RunFromConcat(Init(), cfg, one, Requests(cfg.limit - 1));
    var u := Run(cfg, one + Requests(cfg.limit - 1));
    RunFromConcat(Init(), cfg, one + Requests(cfg.limit - 1), [Pass(t), Request(false), Expire(0, false)]);
    LateEnd(u, cfg, t);
  }

  lemma LateEnd(u: State, cfg: Enforced, t: real)
    requires t > 0.0 && u.now == 0.0 && u.gens == [Generation(0.0, Pending)]
    requires u.counter == Some(Counter(cfg.limit, 0, None)) && |u.log| == cfg.limit
    ensures var s := RunFrom(u, cfg, [Pass(t), Request(false), Expire(0, false)]);
      && s.gens == [Generation(0.0, Applied(t))] && s.counter == Some(Counter(cfg.limit + 1, 0, Some(t + cfg.window)))
      && s.log == u.log + [Decision(t, 0, cfg.limit + 1, Rejected)]
  {
    RunFromThree(u, cfg, [Pass(t), Request(false), Expire(0, false)]);
    var v := u.(now := t);
    assert Step(u, cfg, Pass(t)) == v && Live(v);
  }

  // ---- the bound is met ----

  function Requests(n: nat): seq<Action> {
    seq(n, i => Request(false))
  }

  lemma {:induction false} Burst(s: State, cfg: Enforced, n: nat)
    requires Live(s) && s.counter.value.count + n <= cfg.limit
    ensures var s' := RunFrom(s, cfg, Requests(n)); var c := s.counter.value;
      && s' == s.(counter := Some(c.(count := c.count + n)), log := s'.log)
      && |s'.log| == |s.log| + n && s.log <= s'.log
      && (forall i :: |s.log| <= i < |s'.log| ==> s'.log[i].at == s.now && s'.log[i].verdict.Admitted?)
  {
    if n > 0 {
      Burst(s, cfg, n - 1);
      assert Requests(n)[..n - 1] == Requests(n - 1);
    }
  }

  lemma {:induction false} RunFromConcat(s: State, cfg: Enforced, a: seq<Action>, b: seq<Action>)
    ensures RunFrom(s, cfg, a + b) == RunFrom(RunFrom(s, cfg, a), cfg, b)
  {
    if b == [] {
      assert a + b == a;
    } else {
      assert (a + b)[..|a + b| - 1] == a + b[..|b| - 1];
      RunFromConcat(s, cfg, a, b[..|b| - 1]);
    }
  }

  /** Open a counter, use up its budget just before it expires, and the next one's just after. */
  function Straddle(cfg: Enforced): seq<Action>
  {
    [Request(false), Expire(0, false), Pass(cfg.window / 2.0)] + Requests(cfg.limit - 1)
    + ([Pass(cfg.window / 2.0)] + Requests(1) + Requests(cfg.limit - 1))
  }

  lemma StraddleFirstHalf(cfg: Enforced)
    ensures var first := [Request(false), Expire(0, false), Pass(cfg.window / 2.0)];
      var s := RunFrom(Init(), cfg, first + Requests(cfg.limit - 1));
      && s.now == cfg.window / 2.0 && s.counter == Some(Counter(cfg.limit, 0, Some(cfg.window))) && |s.log| == cfg.limit
      && (forall i :: 1 <= i < |s.log| ==> s.log[i].at == cfg.window / 2.0 && s.log[i].verdict.Admitted?)
  {
    var a := [Request(false), Expire(0, false), Pass(cfg.window / 2.0)];
    RunFromThree(Init(), cfg, [a[0], a[1], a[2]]);
    assert a == [a[0], a[1], a[2]];
    Burst(RunFrom(Init(), cfg, a), cfg, cfg.limit - 1);
    RunFromConcat(Init(), cfg, a, Requests(cfg.limit - 1));
  }

  lemma StraddleSecondHalf(s: State, cfg: Enforced)
    requires s.counter.Some? && s.now == cfg.window / 2.0 && s.counter.value.deadline == Some(cfg.window)
    ensures var s' := RunFrom(s, cfg, [Pass(cfg.window / 2.0)] + Requests(1) + Requests(cfg.limit - 1));
      && |s'.log| == |s.log| + cfg.limit && s.log <= s'.log
      && (forall i :: |s.log| <= i < |s'.log| ==> s'.log[i].at == cfg.window && s'.log[i].verdict.Admitted?)
  {
    var b := [Pass(cfg.window / 2.0)];
    assert b[..0] == [];
    assert RunFrom(s, cfg, b) == s.(now := cfg.window);
    assert Requests(1) == [Request(false)] && Requests(1)[..0] == [];
    RunFromConcat(s, cfg, b, Requests(1));
    var t := RunFrom(s, cfg, b + Requests(1));
    assert t == AfterRequest(s.(now := cfg.window), cfg, false);
    Burst(t, cfg, cfg.limit - 1);
    RunFromConcat(s, cfg, b + Requests(1), Requests(cfg.limit - 1));
  }

  lemma {:induction false} RangeSize(lo: nat, hi: nat, range: set<nat>)
    requires lo <= hi && forall i :: i in range <==> lo <= i < hi
    ensures |range| == hi - lo
    decreases hi
  {
    if lo == hi {
      assert range == {};
    } else {
      RangeSize(lo, hi - 1, range - {hi - 1});
    }
  }

  lemma StraddleLog(cfg: Enforced)
    ensures var log := Run(cfg, Straddle(cfg)).log;
      |log| == 2 * cfg.limit
      && (forall i :: 1 <= i < |log| ==> cfg.window / 2.0 <= log[i].at <= cfg.window && log[i].verdict.Admitted?)
  {
    var first := [Request(false), Expire(0, false), Pass(cfg.window / 2.0)] + Requests(cfg.limit - 1);
    StraddleFirstHalf(cfg);
    StraddleSecondHalf(RunFrom(Init(), cfg, first), cfg);
    RunFromConcat(Init(), cfg, first, [Pass(cfg.window / 2.0)] + Requests(1) + Requests(cfg.limit - 1));
  }

  /** For every limit and window some run admits 2 * Limit - 1 requests in one window. */
  lemma TwiceLimitLessOneIsReached(cfg: Enforced)
    ensures var from := cfg.window / 2.0;
      |AdmittedWithin(Run(cfg, Straddle(cfg)).log, from, from + cfg.window)| == 2 * cfg.limit - 1
  {
    var from := cfg.window / 2.0;
    var admitted := AdmittedWithin(Run(cfg, Straddle(cfg)).log, from, from + cfg.window);
    StraddleLog(cfg);
    RangeSize(1, 2 * cfg.limit, admitted - {0});
    AtMostTwiceLimitPerWindow(cfg, Straddle(cfg), from);
    SubsetCardinality(admitted - {0}, admitted);
  }
}
