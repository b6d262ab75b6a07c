/**
 * When the snapshot agrees with users-service's table.
 *
 * AddUserSkill re-reads and publishes in two steps, so overlapping calls for one user can publish an
 * older list last; calls that do not overlap leave the table's own list last.
 */
module PipelineOrder {
  import opened Prelude
  import opened UserSkills
  import opened Pipeline
  import S = Snapshot

  // ---- the snapshot of a user whose calls do not overlap ----

  predicate InFlight(s: State, c: nat, user: string) {
    c in s.calls && s.calls[c].user == user
  }

  /**
   * The action neither overlaps two calls of the user, nor drops a call of the user's between
   * its write and its event, nor fails to replace the user's rows or has another member do so.
   */
  ghost predicate Orderly(s: State, a: Action, user: string) {
    match a
    case Upsert(c, u, _, _) => u == user ==> NoneInFlight(s, user)
    case Abandon(c) => !InFlight(s, c, user)
    case Publish(c, lost) => lost ==> !InFlight(s, c, user)
    case Consume(d) => !S.Upsets(s.projection, d, user)
    case _ => true
  }

  ghost predicate OrderlyAt(actions: seq<Action>, i: nat, user: string)
    requires i < |actions|
  {
    Orderly(Run(actions[..i]), actions[i], user)
  }

  ghost predicate OrderlyRun(actions: seq<Action>, user: string) {
    forall i :: 0 <= i < |actions| ==> OrderlyAt(actions, i, user)
  }

  /** The user's last event is the user's table, or the one call that will make it so is in flight. */
  ghost predicate Tracks(s: State, user: string) {
    && S.HasAccount(s.projection, user)
    && (forall c, d :: InFlight(s, c, user) && InFlight(s, d, user) ==> c == d)
    && (forall c :: InFlight(s, c, user) && s.calls[c].Listed? ==> Lists(s.calls[c].skills, SkillsOf(s.skills, user)))
    && (NoneInFlight(s, user) ==> LastEventIsTable(s, user))
    && (forall c :: InFlight(s, c, user) ==> user != "")
  }

  ghost predicate NoneInFlight(s: State, user: string) {
    forall c :: !InFlight(s, c, user)
  }

  predicate LastEventIsTable(s: State, user: string) {
    SkillsOf(S.ExactlyOnce(s.projection.topic), user) == SkillsOf(s.skills, user)
  }

  /** A step that leaves the user's calls, events and rows alone. */
  lemma UntouchedTracks(s: State, s': State, user: string)
    requires Tracks(s, user) && s'.projection == s.projection
    requires SkillsOf(s'.skills, user) == SkillsOf(s.skills, user)
    requires
      || s'.calls == s.calls
      || exists c: nat, u :: u != user && c !in s.calls && s'.calls == s.calls[c := Upserted(u)]
    ensures Tracks(s', user)
  {
    assert forall c :: InFlight(s', c, user) <==> InFlight(s, c, user);
  }

  /** A step that opens the user's only call. */
  lemma FreshCallTracks(s: State, s': State, c: nat, user: string)
    requires Tracks(s, user) && NoneInFlight(s, user) && s'.projection == s.projection && user != ""
    requires s'.calls == s.calls[c := Upserted(user)]
    ensures Tracks(s', user)
  {
    forall d ensures InFlight(s', d, user) <==> d == c {
      assert !InFlight(s, d, user);
    }
    assert InFlight(s', c, user);
  }

  lemma UpsertKeepsTracks(s: State, c: nat, u: string, skill: string, proficiency: string, user: string, s': State)
    requires Tracks(s, user) && Orderly(s, Upsert(c, u, skill, proficiency), user)
    requires s' == Step(s, Upsert(c, u, skill, proficiency))
    ensures Tracks(s', user)
  {
    if s' != s {
      if u == user {
        FreshCallTracks(s, s', c, user);
      } else {
        UpsertedTouchesOnePair(s.skills, u, skill, proficiency, user);
        UntouchedTracks(s, s', user);
      }
    }
  }

  lemma RereadKeepsTracks(s: State, c: nat, listing: seq<Entry>, user: string, s': State)
    requires Tracks(s, user)
    requires s' == Step(s, Reread(c, listing))
    ensures Tracks(s', user)
  {
    assert forall d :: InFlight(s', d, user) <==> InFlight(s, d, user);
  }

  lemma AppendedLastEvent(topic: seq<S.Record>, r: S.Record, user: string)
    ensures SkillsOf(S.ExactlyOnce(topic + [r]), user)
         == if S.IsEventOf(r, user) then AsMap(r.event.skills) else SkillsOf(S.ExactlyOnce(topic), user)
  {
    assert (topic + [r])[..|topic|] == topic;
    S.HandledBySkills(S.ExactlyOnce(topic), r, user);
  }

  lemma PublishEndsCall(s: State, c: nat, lost: bool, user: string, s': State)
    requires s' == AfterPublish(s, c, lost) && c in s.calls && s.calls[c].Listed?
    ensures s'.skills == s.skills
    ensures forall d :: InFlight(s', d, user) <==> InFlight(s, d, user) && d != c
    ensures forall d :: InFlight(s', d, user) ==> s'.calls[d] == s.calls[d]
    ensures s'.projection
         == if lost then s.projection
            else S.Step(s.projection, S.Append(S.Event(SkillsUpdated(s.calls[c].user, s.calls[c].skills))))
  {
  }

  lemma PublishKeepsTracks(s: State, c: nat, lost: bool, user: string, s': State)
    requires Tracks(s, user) && Orderly(s, Publish(c, lost), user)
    requires s' == Step(s, Publish(c, lost))
    ensures Tracks(s', user)
  {
    if c in s.calls && s.calls[c].Listed? {
      var event := S.Event(SkillsUpdated(s.calls[c].user, s.calls[c].skills));
      PublishEndsCall(s, c, lost, user, s');
      S.StepKeepsAccount(s.projection, S.Append(event), user);
      AppendedLastEvent(s.projection.topic, event, user);
      if s.calls[c].user == user {
        assert InFlight(s, c, user);
      }
    }
  }

  lemma ConsumeKeepsTracks(s: State, d: S.Action, user: string, s': State)
    requires Tracks(s, user) && Orderly(s, Consume(d), user)
    requires s' == Step(s, Consume(d))
    ensures Tracks(s', user)
  {
    assert forall c :: InFlight(s', c, user) <==> InFlight(s, c, user);
    if s' != s {
      S.StepKeepsAccount(s.projection, d, user);
      if d.Append? {
        AppendedLastEvent(s.projection.topic, d.r, user);
      }
    }
  }

  lemma AbandonKeepsTracks(s: State, c: nat, user: string)
    requires Tracks(s, user) && Orderly(s, Abandon(c), user)
    ensures Tracks(Step(s, Abandon(c)), user)
  {
    var s' := Step(s, Abandon(c));
    assert forall d :: InFlight(s', d, user) <==> InFlight(s, d, user);
  }

  lemma JobStepsTouchNoSkills(s: State, a: Action)
    requires a.InsertJob? || a.PostJob? || a.StrayPost?
    ensures var s' := Step(s, a); s'.skills == s.skills && s'.calls == s.calls && s'.projection == s.projection
  {
  }

  lemma SendsTouchNoSkills(s: State, a: Action)
    requires a.SendMatched? || a.SendRealtime?
    ensures var s' := Step(s, a); s'.skills == s.skills && s'.calls == s.calls && s'.projection == s.projection
  {
  }

  lemma MatchUserTouchesNoSkills(s: State, user: string, fault: bool)
    ensures var s' := AfterMatchUser(s, user, fault);
      s'.skills == s.skills && s'.calls == s.calls && s'.projection == s.projection
  {
  }

  lemma WorkStepsTouchNoSkills(s: State, a: Action)
    requires a.StartJob? || a.FinishJob? || a.RestartMatcher?
    ensures var s' := Step(s, a); s'.skills == s.skills && s'.calls == s.calls && s'.projection == s.projection
  {
  }

  lemma StepKeepsTracks(s: State, a: Action, user: string)
    requires Tracks(s, user) && Orderly(s, a, user)
    ensures Tracks(Step(s, a), user)
  {
    match a
    case Upsert(c, u, skill, proficiency) => UpsertKeepsTracks(s, c, u, skill, proficiency, user, Step(s, a));
    case Reread(c, listing) => RereadKeepsTracks(s, c, listing, user, Step(s, a));
    case Abandon(c) => AbandonKeepsTracks(s, c, user);
    case Publish(c, lost) => PublishKeepsTracks(s, c, lost, user, Step(s, a));
    case Consume(d) => ConsumeKeepsTracks(s, d, user, Step(s, a));
    case MatchUser(u, fault) =>
      MatchUserTouchesNoSkills(s, u, fault);
      UntouchedTracks(s, Step(s, a), user);
    case _ =>
      if a.InsertJob? || a.PostJob? || a.StrayPost? {
        JobStepsTouchNoSkills(s, a);
      } else if a.SendMatched? || a.SendRealtime? {
        SendsTouchNoSkills(s, a);
      } else {
        WorkStepsTouchNoSkills(s, a);
      }
      UntouchedTracks(s, Step(s, a), user);
  }

  lemma {:induction false} OrderlyRunTracks(actions: seq<Action>, user: string)
    requires OrderlyRun(actions, user)
    ensures Tracks(Run(actions), user)
  {
    if actions == [] {
      S.EmptyIsConsistent();
      assert S.HasAccount(S.Empty(), user);
    } else {
      var n := |actions| - 1;
      forall i | 0 <= i < n ensures OrderlyAt(actions[..n], i, user) {
        assert OrderlyAt(actions, i, user) && actions[..n][..i] == actions[..i];
      }
      assert OrderlyAt(actions, n, user);
      OrderlyRunTracks(actions[..n], user);
      StepKeepsTracks(Run(actions[..n]), actions[n], user);
    }
  }

  lemma TracksWhenDrained(s: State, user: string)
    requires Tracks(s, user) && NoneInFlight(s, user) && s.projection.pos == |s.projection.topic|
    ensures SkillsOf(s.projection.rows, user) == SkillsOf(s.skills, user)
  {
    var p := s.projection;
    S.CaughtUpSkills(p, user);
    assert p.topic[..p.high] == p.topic;
  }

  /**
   * If one user's AddUserSkill calls do not overlap and none of the user's events is lost, then
   * with the topic drained the snapshot holds that user's table, whatever everyone else does.
   */
  lemma DrainedSnapshotIsTheTable(actions: seq<Action>, user: string)
    requires OrderlyRun(actions, user)
    requires NoneInFlight(Run(actions), user)
    requires Run(actions).projection.pos == |Run(actions).projection.topic|
    ensures SkillsOf(Run(actions).projection.rows, user) == SkillsOf(Run(actions).skills, user)
  {
    OrderlyRunTracks(actions, user);
    TracksWhenDrained(Run(actions), user);
  }

  // ---- overlapping calls ----

  lemma ListsOneAndTwo(e: Entry, f: Entry)
    requires e.skill != f.skill
    ensures Lists([e], map[e.skill := e.proficiency])
    ensures Lists([e, f], map[e.skill := e.proficiency][f.skill := f.proficiency])
  {
    assert [e][..0] == [];
    assert [e, f][..1] == [e];
  }

  predicate HasNoBlank(user: string, e: Entry) {
    user != "" && e.skill != "" && e.proficiency != ""
  }

  predicate Usable(user: string, e: Entry, f: Entry) {
    HasNoBlank(user, e) && HasNoBlank(user, f) && e.skill != f.skill
  }

  /** No lost publish, no abandoned call, no failed replace. */
  predicate Faultless(a: Action) {
    !a.Abandon? && !(a.Publish? && a.lost) && (a.Consume? ==> S.Smooth(a.a))
  }

  predicate AllFaultless(run: seq<Action>) {
    forall i :: 0 <= i < |run| ==> Faultless(run[i])
  }

  /** What the run's end looks like from one user's point of view. */
  predicate Shows(run: seq<Action>, calls: map<nat, Call>, p: S.Projection, user: string, table: map<string, string>) {
    var s := Run(run);
    AllFaultless(run) && s.calls == calls && s.projection == p && SkillsOf(s.skills, user) == table
  }

  lemma ThenWrite(
      run: seq<Action>, calls: map<nat, Call>, p: S.Projection, user: string, table: map<string, string>, c: nat,
      e: Entry)
    returns (run': seq<Action>)
    requires Shows(run, calls, p, user, table) && c !in calls && HasNoBlank(user, e)
    ensures Shows(run', calls[c := Upserted(user)], p, user, table[e.skill := e.proficiency])
  {
    var upsert := Upsert(c, user, e.skill, e.proficiency);
    run' := run + [upsert];
    RunNext(run, upsert);
    UpsertEffect(Run(run), c, user, e);
  }

  lemma ThenList(
      run: seq<Action>, calls: map<nat, Call>, p: S.Projection, user: string, table: map<string, string>, c: nat,
      listing: seq<Entry>)
    returns (run': seq<Action>)
    requires Shows(run, calls, p, user, table) && c in calls && calls[c] == Upserted(user)
    requires Lists(listing, table)
    ensures Shows(run', calls[c := Listed(user, listing)], p, user, table)
  {
    run' := run + [Reread(c, listing)];
    RunNext(run, Reread(c, listing));
    RereadEffect(Run(run), c, user, listing);
  }

  lemma ThenPublish(
      run: seq<Action>, calls: map<nat, Call>, p: S.Projection, user: string, table: map<string, string>, c: nat,
      listing: seq<Entry>)
    returns (run': seq<Action>)
    requires Shows(run, calls, p, user, table) && c in calls && calls[c] == Listed(user, listing)
    ensures Shows(run', calls - {c}, p.(topic := p.topic + [S.Event(SkillsUpdated(user, listing))]), user, table)
  {
    run' := run + [Publish(c, false)];
    RunNext(run, Publish(c, false));
    PublishEffect(Run(run), c, user, listing);
  }

  lemma ThenConsume(run: seq<Action>, calls: map<nat, Call>, p: S.Projection, user: string, table: map<string, string>)
    returns (run': seq<Action>)
    requires Shows(run, calls, p, user, table)
    ensures Shows(run', calls, S.Step(p, S.Deliver(false)), user, table)
  {
    run' := run + [Consume(S.Deliver(false))];
    RunNext(run, Consume(S.Deliver(false)));
  }

  lemma NothingYet(user: string)
    ensures Shows([], map[], S.Empty(), user, map[])
  {
    assert SkillsOf(map[], user) == map[];
  }

  lemma ThenWriteAndList(
      run: seq<Action>, calls: map<nat, Call>, p: S.Projection, user: string, table: map<string, string>, c: nat,
      e: Entry, listing: seq<Entry>)
    returns (run': seq<Action>)
    requires Shows(run, calls, p, user, table) && c !in calls && HasNoBlank(user, e)
    requires Lists(listing, table[e.skill := e.proficiency])
    ensures Shows(run', calls[c := Upserted(user)][c := Listed(user, listing)], p, user,
      table[e.skill := e.proficiency])
  {
    var written, table' := calls[c := Upserted(user)], table[e.skill := e.proficiency];
    var half := ThenWrite(run, calls, p, user, table, c, e);
    run' := ThenList(half, written, p, user, table', c, listing);
  }

  /** Publishing call 1's list and then call 0's. */
  lemma ThenPublishBoth(
      run: seq<Action>, calls: map<nat, Call>, user: string, table: map<string, string>, older: seq<Entry>,
      newer: seq<Entry>)
    returns (run': seq<Action>)
    requires Shows(run, calls, S.Empty(), user, table)
    requires calls.Keys == {0, 1} && calls[0] == Listed(user, older) && calls[1] == Listed(user, newer)
    ensures Shows(run', map[],
      S.Empty().(topic := [S.Event(SkillsUpdated(user, newer)), S.Event(SkillsUpdated(user, older))]), user, table)
  {
    run' := ThenPublish(run, calls, S.Empty(), user, table, 1, newer);
    run' := ThenPublish(run', calls - {1}, S.Empty().(topic := [] + [S.Event(SkillsUpdated(user, newer))]), user,
      table, 0, older);
    assert calls - {1} - {0} == map[];
  }

  /**
   * The agreement fails without the no-overlap condition: for any user and any two skills there is
   * a run in which no step fails, and yet the drained snapshot lacks a skill the user has claimed.
   */
  lemma OverlappingCallsLoseASkill(user: string, e: Entry, f: Entry) returns (run: seq<Action>)
    requires Usable(user, e, f)
    ensures AllFaultless(run)
    ensures var s := Run(run);
      && s.calls == map[] && s.projection.pos == |s.projection.topic|
      && f.skill in SkillsOf(s.skills, user) && f.skill !in SkillsOf(s.projection.rows, user)
  {
    ListsOneAndTwo(e, f);
    NothingYet(user);
    var one := map[][e.skill := e.proficiency];
    run := ThenWriteAndList([], map[], S.Empty(), user, map[], 0, e, [e]);
    var calls := map[][0 := Upserted(user)][0 := Listed(user, [e])];
    run := ThenWriteAndList(run, calls, S.Empty(), user, one, 1, f, [e, f]);
    var both := one[f.skill := f.proficiency];
    run := ThenPublishBoth(run, calls[1 := Upserted(user)][1 := Listed(user, [e, f])], user, both, [e], [e, f]);
    run := ThenConsumeBoth(run, user, both, [e, f], [e]);
  }

  lemma ThenConsumeBoth(run: seq<Action>, user: string, table: map<string, string>, first: seq<Entry>, last: seq<Entry>)
    returns (run': seq<Action>)
    requires user != "" && DistinctSkills(last)
    requires Shows(run, map[],
      S.Empty().(topic := [S.Event(SkillsUpdated(user, first)), S.Event(SkillsUpdated(user, last))]), user, table)
    ensures AllFaultless(run')
    ensures var s := Run(run');
      && s.calls == map[] && s.projection.pos == |s.projection.topic|
      && SkillsOf(s.skills, user) == table && SkillsOf(s.projection.rows, user) == AsMap(last)
  {
    var p := S.Empty().(topic := [S.Event(SkillsUpdated(user, first)), S.Event(SkillsUpdated(user, last))]);
    run' := ThenConsume(run, map[], p, user, table);
    var p' := S.Step(p, S.Deliver(false));
    run' := ThenConsume(run', map[], p', user, table);
    S.HandledBySkills(p'.rows, p.topic[1], user);
  }

  /** The action at position i neither loses an event of the user's nor has another member handle one. */
  ghost predicate KeepsEventAt(actions: seq<Action>, i: nat, user: string)
    requires i < |actions|
  {
    actions[i].Consume? ==> !S.Upsets(Run(actions[..i]).projection, actions[i].a, user)
  }

  ghost predicate KeepsEventsOf(actions: seq<Action>, user: string) {
    forall i :: 0 <= i < |actions| ==> KeepsEventAt(actions, i, user)
  }

  lemma StepKeepsPipelineAccount(s: State, a: Action, user: string)
    requires S.HasAccount(s.projection, user)
    requires a.Consume? ==> !S.Upsets(s.projection, a.a, user)
    ensures S.HasAccount(Step(s, a).projection, user)
  {
    if a.Consume? {
      S.StepKeepsAccount(s.projection, a.a, user);
    } else if a.Publish? && a.call in s.calls && s.calls[a.call].Listed? {
      S.StepKeepsAccount(s.projection, S.Append(S.Event(SkillsUpdated(s.calls[a.call].user, s.calls[a.call].skills))),
        user);
    }
  }

  lemma {:induction false} RunKeepsAccount(actions: seq<Action>, user: string)
    requires KeepsEventsOf(actions, user)
    ensures S.HasAccount(Run(actions).projection, user)
  {
    if actions == [] {
      S.EmptyIsConsistent();
      assert S.HasAccount(S.Empty(), user);
    } else {
      var n := |actions| - 1;
      forall i | 0 <= i < n ensures KeepsEventAt(actions[..n], i, user) {
        assert KeepsEventAt(actions, i, user) && actions[..n][..i] == actions[..i];
      }
      assert KeepsEventAt(actions, n, user);
      RunKeepsAccount(actions[..n], user);
      StepKeepsPipelineAccount(Run(actions[..n]), actions[n], user);
    }
  }
}
