/** Many keys over one Redis, and the gateway middleware as one replica executes it. */
module RateLimitKeys {
  import opened Prelude
  import opened RateLimit

  /** Whom a request counts against: its verified user if it has one, else its address. */
  datatype Principal = User(id: string) | Ip(addr: string)

  function Key(p: Principal): string {
    match p
    case User(id) => "ratelimit:user:" + id
    case Ip(addr) => "ratelimit:ip:" + addr
  }

  /** No user shares a budget with another user or with any address, whatever the ids look like. */
  lemma KeysNeverCoincide(p: Principal, q: Principal)
    ensures Key(p) == Key(q) <==> p == q
  {
    if p.User? && q.User? {
      assert Key(p)[15..] == p.id && Key(q)[15..] == q.id;
    } else if p.Ip? && q.Ip? {
      assert Key(p)[13..] == p.addr && Key(q)[13..] == q.addr;
    } else {
      assert Key(p)[10] != Key(q)[10];
    }
  }

  // ---- runs over all keys ----

  datatype AllKeys = AllKeys(now: real, states: map<string, State>)

  datatype KeyedAction = On(key: string, a: Action) | Tick(dt: real)

  function StateOf(m: AllKeys, key: string): State {
    if key in m.states then m.states[key] else Init().(now := m.now)
  }

  function StepAll(m: AllKeys, cfg: Enforced, a: KeyedAction): AllKeys {
    match a
    case On(key, b) => if b.Pass? then m else m.(states := m.states[key := Step(StateOf(m, key), cfg, b)])
    case Tick(dt) =>
      if dt > 0.0 then
        AllKeys(m.now + dt, map key | key in m.states :: m.states[key].(now := m.states[key].now + dt))
      else m
  }

  function RunAll(cfg: Enforced, actions: seq<KeyedAction>): AllKeys {
    if actions == [] then AllKeys(0.0, map[])
    else StepAll(RunAll(cfg, actions[..|actions| - 1]), cfg, actions[|actions| - 1])
  }

  /** The key's own commands, and the passing of time. */
  function Projected(actions: seq<KeyedAction>, key: string): seq<Action> {
    if actions == [] then []
    else
      Projected(actions[..|actions| - 1], key)
      + match actions[|actions| - 1]
        case On(k, b) => if k == key && !b.Pass? then [b] else []
        case Tick(dt) => [Pass(dt)]
  }

  lemma RunNext(cfg: Enforced, actions: seq<Action>, a: Action)
    ensures Run(cfg, actions + [a]) == Step(Run(cfg, actions), cfg, a)
  {
    assert (actions + [a])[..|actions|] == actions;
  }

  /** A key's counters and decisions are those of a run of that key alone. */
  lemma {:induction false} KeysAreIndependent(cfg: Enforced, actions: seq<KeyedAction>, key: string)
    ensures StateOf(RunAll(cfg, actions), key) == Run(cfg, Projected(actions, key))
    ensures StateOf(RunAll(cfg, actions), key).now == RunAll(cfg, actions).now
  {
    if actions != [] {
      var before := actions[..|actions| - 1];
      KeysAreIndependent(cfg, before, key);
      match actions[|actions| - 1]
      case On(k, b) =>
        if k == key && !b.Pass? {
          RunNext(cfg, Projected(before, key), b);
        } else {
          assert Projected(before, key) + [] == Projected(before, key);
        }
      case Tick(dt) =>
        RunNext(cfg, Projected(before, key), Pass(dt));
    }
  }

  // ---- one replica's request, uninterrupted ----

  /** INCR, and the creator's EXPIRE straight after it. */
  function IncrThenExpire(s: State, cfg: Enforced, replyLost: bool, expireFails: bool): State {
    var t := AfterRequest(s, cfg, replyLost);
    if !replyLost && !Live(s) then AfterExpire(t, cfg, |s.gens|, expireFails) else t
  }

  lemma IncrLogsOnce(s: State, cfg: Enforced, replyLost: bool, expireFails: bool)
    ensures var s' := IncrThenExpire(s, cfg, replyLost, expireFails);
      && |s'.log| == |s.log| + 1 && s.log <= s'.log
      && (s'.log[|s.log|].verdict.Rejected? <==> !replyLost && Live(s) && s.counter.value.count >= cfg.limit)
  {
  }

  /** So every bound on runs holds of the middleware, whatever its requests and failures. */
  lemma UninterruptedRequestIsARun(s: State, cfg: Enforced, replyLost: bool, expireFails: bool)
    ensures IncrThenExpire(s, cfg, replyLost, expireFails)
      == RunFrom(s, cfg, [Request(replyLost), Expire(|s.gens|, expireFails)])
  {
    var actions := [Request(replyLost), Expire(|s.gens|, expireFails)];
    assert actions[..1] == [Request(replyLost)] && actions[..1][..0] == [];
    assert RunFrom(s, cfg, actions[..1]) == AfterRequest(s, cfg, replyLost);
  }

  class Limiter {
    var all: AllKeys
    const cfg: Enforced
    const enabled: bool

    constructor (cfg: Config, enabled: bool)
      ensures all == AllKeys(0.0, map[]) && this.cfg == Effective(cfg) && this.enabled == enabled
    {
      all := AllKeys(0.0, map[]);
      this.cfg := Effective(cfg);
      this.enabled := enabled;
    }

    method Incr(key: string, unreachable: bool, replyLost: bool, expireFails: bool) returns (count: nat, ok: bool)
      modifies this
      ensures !enabled || unreachable ==> !ok && all == old(all)
      ensures enabled && !unreachable ==>
        && all == old(all).(states := old(all).states[
             key := IncrThenExpire(old(StateOf(all, key)), cfg, replyLost, expireFails)])
        && ok == !replyLost
        && (ok ==> count == if Live(old(StateOf(all, key))) then old(StateOf(all, key)).counter.value.count + 1 else 1)
    {
      count, ok := 0, false;
      if !enabled || unreachable {
        return;
      }
      var s := StateOf(all, key);
      var live := s.counter.Some? && (s.counter.value.deadline.None? || s.now < s.counter.value.deadline.value);
      s := AfterRequest(s, cfg, replyLost);
      if !replyLost {
        count, ok := s.counter.value.count, true;
        if !live {
          s := AfterExpire(s, cfg, |s.gens| - 1, expireFails);
        }
      }
      all := all.(states := all.states[key := s]);
    }

    /** The request goes through unless its counter had already served Limit requests. */
    method Allow(p: Principal, unreachable: bool, replyLost: bool, expireFails: bool) returns (allowed: bool)
      modifies this
      ensures var s := old(StateOf(all, Key(p)));
        allowed <==> !enabled || unreachable || replyLost || !Live(s) || s.counter.value.count < cfg.limit
      ensures var log, log' := old(StateOf(all, Key(p))).log, StateOf(all, Key(p)).log;
        if !enabled || unreachable then log' == log
        else |log'| == |log| + 1 && log <= log' && (allowed <==> !log'[|log|].verdict.Rejected?)
      ensures StateOf(all, Key(p))
           == if !enabled || unreachable then old(StateOf(all, Key(p)))
              else IncrThenExpire(old(StateOf(all, Key(p))), cfg, replyLost, expireFails)
      ensures forall q :: q != p ==> StateOf(all, Key(q)) == old(StateOf(all, Key(q)))
    {
      IncrLogsOnce(StateOf(all, Key(p)), cfg, replyLost, expireFails);
      var count, ok := Incr(Key(p), unreachable, replyLost, expireFails);
      allowed := !ok || count <= cfg.limit;
      forall q | q != p ensures StateOf(all, Key(q)) == old(StateOf(all, Key(q))) {
        KeysNeverCoincide(p, q);
      }
    }
  }
}
