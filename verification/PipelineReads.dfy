/** When the drained snapshot agrees with users-service's table, read off the schedule. */
module PipelineReads {
  // Every event carries the user's table as of its call's re-read, so what counts is what was
  // written after the re-read behind the user's last event.

  import opened Prelude
  import opened UserSkills
  import opened Pipeline
  import opened PipelineOrder
  import S = Snapshot

  /** The user's table before the action at position j. */
  function SkillsAt(actions: seq<Action>, j: nat, user: string): map<string, string>
    requires j <= |actions|
  {
    SkillsOf(Run(actions[..j]).skills, user)
  }

  // ---- every event is a re-read ----

  /** A call of the user's re-reads at position j, and this is what it finds. */
  predicate RereadAt(actions: seq<Action>, j: nat, user: string, listing: seq<Entry>) {
    && j < |actions| && actions[j].Reread? && actions[j].listing == listing && user != ""
    && actions[j].call in Run(actions[..j]).calls && Run(actions[..j]).calls[actions[j].call] == Upserted(user)
    && Lists(listing, SkillsAt(actions, j, user))
  }

  ghost predicate WasReread(actions: seq<Action>, user: string, listing: seq<Entry>) {
    exists j :: 0 <= j < |actions| && RereadAt(actions, j, user, listing)
  }

  ghost predicate CallWasReread(actions: seq<Action>, c: Call) {
    c.user != "" && (c.Listed? ==> WasReread(actions, c.user, c.skills))
  }

  ghost predicate RecordWasReread(actions: seq<Action>, r: S.Record) {
    r.Event? ==> WasReread(actions, r.event.user, r.event.skills)
  }

  ghost predicate AllWereReread(actions: seq<Action>, calls: map<nat, Call>, topic: seq<S.Record>) {
    && (forall c :: c in calls ==> CallWasReread(actions, calls[c]))
    && (forall i :: 0 <= i < |topic| ==> RecordWasReread(actions, topic[i]))
  }

  lemma StillReread(actions: seq<Action>, a: Action, user: string, listing: seq<Entry>)
    requires WasReread(actions, user, listing)
    ensures WasReread(actions + [a], user, listing)
  {
    var j :| 0 <= j < |actions| && RereadAt(actions, j, user, listing);
    assert (actions + [a])[..j] == actions[..j];
    assert RereadAt(actions + [a], j, user, listing);
  }

  lemma AllStillReread(actions: seq<Action>, a: Action, calls: map<nat, Call>, topic: seq<S.Record>)
    requires AllWereReread(actions, calls, topic)
    ensures AllWereReread(actions + [a], calls, topic)
  {
    forall c | c in calls ensures CallWasReread(actions + [a], calls[c]) {
      assert CallWasReread(actions, calls[c]);
      if calls[c].Listed? {
        StillReread(actions, a, calls[c].user, calls[c].skills);
      }
    }
    forall i | 0 <= i < |topic| ensures RecordWasReread(actions + [a], topic[i]) {
      assert RecordWasReread(actions, topic[i]);
      if topic[i].Event? {
        StillReread(actions, a, topic[i].event.user, topic[i].event.skills);
      }
    }
  }

  lemma RereadIsItsOwn(actions: seq<Action>, s: State, c: nat, listing: seq<Entry>)
    requires s == Run(actions) && c in s.calls && s.calls[c].Upserted? && s.calls[c].user != ""
    requires Lists(listing, SkillsOf(s.skills, s.calls[c].user))
    ensures WasReread(actions + [Reread(c, listing)], s.calls[c].user, listing)
  {
    var all := actions + [Reread(c, listing)];
    assert all[..|actions|] == actions;
    assert RereadAt(all, |actions|, s.calls[c].user, listing);
  }

  lemma UpsertStillReread(actions: seq<Action>, s: State, c: nat, u: string, skill: string, proficiency: string)
    requires AllWereReread(actions, s.calls, s.projection.topic)
    ensures var s' := AfterUpsert(s, c, u, skill, proficiency); AllWereReread(actions, s'.calls, s'.projection.topic)
  {
  }

  lemma RereadStillReread(actions: seq<Action>, s: State, c: nat, listing: seq<Entry>)
    requires AllWereReread(actions, s.calls, s.projection.topic)
    requires c in s.calls && s.calls[c].Upserted? && Lists(listing, SkillsOf(s.skills, s.calls[c].user))
      ==> WasReread(actions, s.calls[c].user, listing)
    ensures var s' := AfterReread(s, c, listing); AllWereReread(actions, s'.calls, s'.projection.topic)
  {
    assert c in s.calls ==> CallWasReread(actions, s.calls[c]);
  }

  lemma PublishStillReread(actions: seq<Action>, s: State, c: nat, lost: bool)
    requires AllWereReread(actions, s.calls, s.projection.topic)
    ensures var s' := AfterPublish(s, c, lost); AllWereReread(actions, s'.calls, s'.projection.topic)
  {
    assert c in s.calls ==> CallWasReread(actions, s.calls[c]);
  }

  lemma ConsumeStillReread(actions: seq<Action>, s: State, a: Action)
    requires AllWereReread(actions, s.calls, s.projection.topic) && (a.Consume? || a.Abandon?)
    ensures var s' := Step(s, a); AllWereReread(actions, s'.calls, s'.projection.topic)
  {
  }

  lemma QuietStep(s: State, a: Action)
    requires !a.Upsert? && !a.Reread? && !a.Publish? && !a.Consume? && !a.Abandon?
    ensures Step(s, a).calls == s.calls && Step(s, a).projection == s.projection && Step(s, a).skills == s.skills
  {
    match a
    case MatchUser(user, fault) => MatchUserTouchesNoSkills(s, user, fault);
    case _ =>
      if a.InsertJob? || a.PostJob? || a.StrayPost? {
        JobStepsTouchNoSkills(s, a);
      } else if a.SendMatched? || a.SendRealtime? {
        SendsTouchNoSkills(s, a);
      } else {
        WorkStepsTouchNoSkills(s, a);
      }
  }

  lemma NextStillReread(actions: seq<Action>, s: State, a: Action)
    requires s == Run(actions) && AllWereReread(actions, s.calls, s.projection.topic)
    ensures AllWereReread(actions + [a], Step(s, a).calls, Step(s, a).projection.topic)
  {
    var all := actions + [a];
    AllStillReread(actions, a, s.calls, s.projection.topic);
    match a
    case Upsert(c, u, skill, proficiency) => UpsertStillReread(all, s, c, u, skill, proficiency);
    case Reread(c, listing) =>
      if c in s.calls && s.calls[c].Upserted? && Lists(listing, SkillsOf(s.skills, s.calls[c].user)) {
        assert CallWasReread(actions, s.calls[c]);
        RereadIsItsOwn(actions, s, c, listing);
      }
      RereadStillReread(all, s, c, listing);
    case Publish(c, lost) => PublishStillReread(all, s, c, lost);
    case Consume(_) => ConsumeStillReread(all, s, a);
    case Abandon(_) => ConsumeStillReread(all, s, a);
    case _ => QuietStep(s, a);
  }

  /** In every run each event, and each list a call holds, was read from the table at one position. */
  lemma {:induction false} EventsAreRereads(actions: seq<Action>)
    ensures AllWereReread(actions, Run(actions).calls, Run(actions).projection.topic)
  {
    if actions != [] {
      var before, last := actions[..|actions| - 1], actions[|actions| - 1];
      EventsAreRereads(before);
      NextStillReread(before, Run(before), last);
      assert actions == before + [last];
    }
  }

  // ---- the read behind the user's last event ----

  /** The user's last event carries what was re-read at j; with no event, j is the run's start. */
  ghost predicate IsLastRead(actions: seq<Action>, user: string, j: nat) {
    var topic := Run(actions).projection.topic;
    var last := S.LastEvent(topic, user);
    if last == -1 then j == 0 else RereadAt(actions, j, user, topic[last].event.skills)
  }

  lemma LastReadExists(actions: seq<Action>, user: string) returns (j: nat)
    ensures IsLastRead(actions, user, j)
  {
    EventsAreRereads(actions);
    var topic := Run(actions).projection.topic;
    var last := S.LastEvent(topic, user);
    j := 0;
    if last != -1 {
      assert RecordWasReread(actions, topic[last]);
      j :| j < |actions| && RereadAt(actions, j, user, topic[last].event.skills);
    }
  }

  /**
   * Whatever calls overlapped and whatever publishes were lost, if no replace of the user's events
   * fails then the drained snapshot is the user's table as of the re-read behind the last event.
   */
  lemma DrainedSnapshotIsTheLastRead(actions: seq<Action>, user: string, j: nat)
    requires KeepsEventsOf(actions, user) && IsLastRead(actions, user, j)
    requires Run(actions).projection.pos == |Run(actions).projection.topic|
    ensures j <= |actions| && SkillsOf(Run(actions).projection.rows, user) == SkillsAt(actions, j, user)
  {
    RunKeepsAccount(actions, user);
    var p := Run(actions).projection;
    S.CaughtUpSkills(p, user);
    assert p.topic[..p.high] == p.topic;
    S.LastEventIsExactlyOnce(p.topic, user);
    if S.LastEvent(p.topic, user) == -1 {
      assert SkillsOf(map[], user) == map[];
    }
  }

  // ---- what was written since ----

  /** The action at position k is a write of the user's that takes effect. */
  predicate WritesAt(actions: seq<Action>, k: nat, user: string)
    requires k < |actions|
  {
    && actions[k].Upsert? && actions[k].user == user
    && HasNoBlank(user, Entry(actions[k].skill, actions[k].proficiency)) && actions[k].call !in Run(actions[..k]).calls
  }

  predicate WritesSkillAt(actions: seq<Action>, k: nat, user: string, skill: string)
    requires k < |actions|
  {
    WritesAt(actions, k, user) && actions[k].skill == skill
  }

  function Lookup(m: map<string, string>, skill: string): Option<string> {
    if skill in m then Some(m[skill]) else None
  }

  lemma OnlyUpsertWrites(s: State, a: Action)
    requires !a.Upsert?
    ensures Step(s, a).skills == s.skills
  {
    if !a.Reread? && !a.Publish? && !a.Consume? && !a.Abandon? {
      QuietStep(s, a);
    }
  }

  lemma TableAfterStep(s: State, a: Action, user: string)
    ensures SkillsOf(Step(s, a).skills, user)
         == if a.Upsert? && a.user == user && HasNoBlank(user, Entry(a.skill, a.proficiency)) && a.call !in s.calls
            then SkillsOf(s.skills, user)[a.skill := a.proficiency] else SkillsOf(s.skills, user)
  {
    if a.Upsert? {
      UpsertedTouchesOnePair(s.skills, a.user, a.skill, a.proficiency, user);
    } else {
      OnlyUpsertWrites(s, a);
    }
  }

  /** A skill of the user's before the action at position n. */
  function EntryAt(actions: seq<Action>, n: nat, user: string, skill: string): Option<string>
    requires n <= |actions|
  {
    Lookup(SkillsAt(actions, n, user), skill)
  }

  lemma EntryAfter(actions: seq<Action>, n: nat, user: string, skill: string)
    requires n < |actions|
    ensures EntryAt(actions, n + 1, user, skill)
         == if WritesSkillAt(actions, n, user, skill) then Some(actions[n].proficiency)
           else EntryAt(actions, n, user, skill)
  {
    RunPrefix(actions, n);
    TableAfterStep(Run(actions[..n]), actions[n], user);
  }

  /** The position of the last write of the skill in [j, n), or -1. */
  function LastWrite(actions: seq<Action>, j: nat, n: nat, user: string, skill: string): (last: int)
    requires j <= n <= |actions|
    ensures last == -1 || (j <= last < n && WritesSkillAt(actions, last, user, skill))
    decreases n
  {
    if j == n then -1
    else if WritesSkillAt(actions, n - 1, user, skill) then n - 1
    else LastWrite(actions, j, n - 1, user, skill)
  }

  lemma {:induction false} NoneAfterLastWrite(actions: seq<Action>, j: nat, n: nat, user: string, skill: string)
    requires j <= n <= |actions|
    ensures forall k :: j <= k < n && k > LastWrite(actions, j, n, user, skill) ==>
      !WritesSkillAt(actions, k, user, skill)
    decreases n
  {
    if j < n && !WritesSkillAt(actions, n - 1, user, skill) {
      NoneAfterLastWrite(actions, j, n - 1, user, skill);
    }
  }

  /** A skill's entry at position n is that of the last write since j, or as it was at j. */
  lemma {:induction false} EntryOfLastWrite(actions: seq<Action>, j: nat, n: nat, user: string, skill: string)
    requires j <= n <= |actions|
    ensures var last := LastWrite(actions, j, n, user, skill);
      EntryAt(actions, n, user, skill)
        == if last == -1 then EntryAt(actions, j, user, skill) else Some(actions[last].proficiency)
    decreases n
  {
    if j < n {
      EntryOfLastWrite(actions, j, n - 1, user, skill);
      EntryAfter(actions, n - 1, user, skill);
    }
  }

  lemma EntrySince(actions: seq<Action>, j: nat, user: string, skill: string) returns (last: int)
    requires j <= |actions|
    ensures last == -1 || (j <= last < |actions| && WritesSkillAt(actions, last, user, skill))
    ensures forall k :: j <= k < |actions| && k > last ==> !WritesSkillAt(actions, k, user, skill)
    ensures EntryAt(actions, |actions|, user, skill)
         == if last == -1 then EntryAt(actions, j, user, skill) else Some(actions[last].proficiency)
  {
    last := LastWrite(actions, j, |actions|, user, skill);
    NoneAfterLastWrite(actions, j, |actions|, user, skill);
    EntryOfLastWrite(actions, j, |actions|, user, skill);
  }

  /** A write since j that no later write of the same skill undoes, and that changes what was read at j. */
  predicate ChangesSince(actions: seq<Action>, j: nat, k: nat, user: string)
    requires j <= k < |actions|
  {
    && WritesAt(actions, k, user)
    && (forall m :: k < m < |actions| ==> !WritesSkillAt(actions, m, user, actions[k].skill))
    && EntryAt(actions, j, user, actions[k].skill) != Some(actions[k].proficiency)
  }

  lemma SameTableExactlyWithoutChange(actions: seq<Action>, j: nat, user: string)
    requires j <= |actions|
    ensures SkillsAt(actions, j, user) == SkillsAt(actions, |actions|, user)
       <==> forall k :: j <= k < |actions| ==> !ChangesSince(actions, j, k, user)
  {
    if SkillsAt(actions, j, user) == SkillsAt(actions, |actions|, user) {
      forall k | j <= k < |actions| && WritesAt(actions, k, user) ensures !ChangesSince(actions, j, k, user) {
        var last := EntrySince(actions, j, user, actions[k].skill);
        assert WritesSkillAt(actions, k, user, actions[k].skill);
      }
    }
    if forall k :: j <= k < |actions| ==> !ChangesSince(actions, j, k, user) {
      var before, after := SkillsAt(actions, j, user), SkillsAt(actions, |actions|, user);
      forall skill ensures Lookup(before, skill) == Lookup(after, skill) {
        EntryStays(actions, j, user, skill);
      }
      SameLookups(before, after);
    }
  }

  lemma EntryStays(actions: seq<Action>, j: nat, user: string, skill: string)
    requires j <= |actions| && forall k :: j <= k < |actions| ==> !ChangesSince(actions, j, k, user)
    ensures EntryAt(actions, j, user, skill) == EntryAt(actions, |actions|, user, skill)
  {
    var last := EntrySince(actions, j, user, skill);
    assert last != -1 ==> !ChangesSince(actions, j, last, user);
  }

  lemma SameLookups(a: map<string, string>, b: map<string, string>)
    requires forall skill :: Lookup(a, skill) == Lookup(b, skill)
    ensures a == b
  {
    forall skill ensures skill in a <==> skill in b {
      assert Lookup(a, skill) == Lookup(b, skill);
    }
    forall skill | skill in a ensures a[skill] == b[skill] {
      assert Lookup(a, skill) == Lookup(b, skill);
    }
  }

  /**
   * The exact condition on the schedule: with calls overlapping and publishes lost, the drained
   * snapshot is the user's table as a map skill -> proficiency if and only if no write at or after
   * the re-read behind the user's last event leaves a skill other than that re-read found it.
   */
  lemma DrainedSnapshotIsTheTableExactly(actions: seq<Action>, user: string, j: nat)
    requires KeepsEventsOf(actions, user) && IsLastRead(actions, user, j)
    requires Run(actions).projection.pos == |Run(actions).projection.topic|
    ensures j <= |actions|
    ensures SkillsOf(Run(actions).projection.rows, user) == SkillsOf(Run(actions).skills, user)
       <==> forall k :: j <= k < |actions| ==> !ChangesSince(actions, j, k, user)
  {
    DrainedSnapshotIsTheLastRead(actions, user, j);
    SameTableExactlyWithoutChange(actions, j, user);
    assert actions[..|actions|] == actions;
  }

  /** And no claimed skill is missing if and only if no write at or after that re-read claims a new one. */
  lemma DrainedSnapshotHasEverySkillExactly(actions: seq<Action>, user: string, j: nat)
    requires KeepsEventsOf(actions, user) && IsLastRead(actions, user, j)
    requires Run(actions).projection.pos == |Run(actions).projection.topic|
    ensures j <= |actions|
    ensures Claimed(Run(actions).projection.rows, user) == Claimed(Run(actions).skills, user)
       <==> forall k :: j <= k < |actions| && WritesAt(actions, k, user) ==>
         actions[k].skill in SkillsAt(actions, j, user)
  {
    DrainedSnapshotIsTheLastRead(actions, user, j);
    assert actions[..|actions|] == actions;
    KeysExactlyWithoutNewClaim(actions, j, user);
    assert Claimed(Run(actions).projection.rows, user) == SkillsOf(Run(actions).projection.rows, user).Keys;
  }

  lemma KeysExactlyWithoutNewClaim(actions: seq<Action>, j: nat, user: string)
    requires j <= |actions|
    ensures SkillsAt(actions, j, user).Keys == SkillsAt(actions, |actions|, user).Keys
       <==> forall k :: j <= k < |actions| && WritesAt(actions, k, user) ==>
         actions[k].skill in SkillsAt(actions, j, user)
  {
    var before, after := SkillsAt(actions, j, user), SkillsAt(actions, |actions|, user);
    forall k | j <= k < |actions| && WritesAt(actions, k, user) ensures actions[k].skill in after {
      var last := EntrySince(actions, j, user, actions[k].skill);
      assert WritesSkillAt(actions, k, user, actions[k].skill);
    }
    forall skill
      ensures skill in before ==> skill in after
      ensures skill in after && skill !in before ==>
        exists k :: j <= k < |actions| && WritesSkillAt(actions, k, user, skill)
    {
      var last := EntrySince(actions, j, user, skill);
    }
    if before.Keys != after.Keys {
      var skill :| skill in after && skill !in before;
      var k :| j <= k < |actions| && WritesSkillAt(actions, k, user, skill);
    }
  }

  // ---- in every run, drained or not, whatever failed ----

  /** The record of the user's that the snapshot's rows come from, or -1. */
  function LastApplied(actions: seq<Action>, user: string): int {
    if actions == [] then -1
    else
      var before, i := actions[..|actions| - 1], LastApplied(actions[..|actions| - 1], user);
      match actions[|actions| - 1]
      case Consume(d) => S.AppliedBy(Run(before).projection, d, user, i)
      case _ => i
  }

  ghost predicate Carries(p: S.Projection, user: string, i: int) {
    -1 <= i < |p.topic| && S.CarriesRecord(p.topic, p.rows, user, i)
  }

  lemma StepCarries(s: State, a: Action, user: string, i: int)
    requires Carries(s.projection, user, i)
    ensures Carries(Step(s, a).projection, user, if a.Consume? then S.AppliedBy(s.projection, a.a, user, i) else i)
  {
    match a
    case Consume(d) => S.StepCarriesApplied(s.projection, d, user, i);
    case Publish(c, _) =>
      if c in s.calls && s.calls[c].Listed? {
        S.StepCarriesApplied(
          s.projection, S.Append(S.Event(SkillsUpdated(s.calls[c].user, s.calls[c].skills))), user, i);
      }
    case Upsert(_, _, _, _) =>
    case Reread(_, _) =>
    case Abandon(_) =>
    case _ => QuietStep(s, a);
  }

  lemma {:induction false} RowsAreTheLastApplied(actions: seq<Action>, user: string)
    ensures Carries(Run(actions).projection, user, LastApplied(actions, user))
  {
    if actions == [] {
      assert SkillsOf(map[], user) == map[];
    } else {
      var n := |actions| - 1;
      RowsAreTheLastApplied(actions[..n], user);
      StepCarries(Run(actions[..n]), actions[n], user, LastApplied(actions[..n], user));
    }
  }

  /** What the snapshot shows was re-read at j; when it shows nothing, j is the run's start. */
  ghost predicate IsAppliedRead(actions: seq<Action>, user: string, j: nat) {
    var topic, i := Run(actions).projection.topic, LastApplied(actions, user);
    if -1 < i < |topic| then topic[i].Event? && RereadAt(actions, j, user, topic[i].event.skills) else j == 0
  }

  lemma AppliedReadExists(actions: seq<Action>, user: string) returns (j: nat)
    ensures IsAppliedRead(actions, user, j)
  {
    EventsAreRereads(actions);
    RowsAreTheLastApplied(actions, user);
    var topic, i := Run(actions).projection.topic, LastApplied(actions, user);
    j := 0;
    if i != -1 {
      assert RecordWasReread(actions, topic[i]);
      j :| j < |actions| && RereadAt(actions, j, user, topic[i].event.skills);
    }
  }

  /**
   * In every run - behind or drained, with failed replaces, skipped records, overlapping members and
   * lost publishes - the snapshot shows the user's table as of the re-read behind the record that was
   * applied last.
   */
  lemma SnapshotIsTheAppliedRead(actions: seq<Action>, user: string, j: nat)
    requires IsAppliedRead(actions, user, j)
    ensures j <= |actions| && SkillsOf(Run(actions).projection.rows, user) == SkillsAt(actions, j, user)
  {
    RowsAreTheLastApplied(actions, user);
    if LastApplied(actions, user) == -1 {
      assert SkillsOf(map[], user) == map[];
    }
  }

  /** So it is the table, as a map, if and only if no write at or after that re-read changes what it found. */
  lemma SnapshotIsTheTableExactly(actions: seq<Action>, user: string, j: nat)
    requires IsAppliedRead(actions, user, j)
    ensures j <= |actions|
    ensures SkillsOf(Run(actions).projection.rows, user) == SkillsOf(Run(actions).skills, user)
       <==> forall k :: j <= k < |actions| ==> !ChangesSince(actions, j, k, user)
  {
    SnapshotIsTheAppliedRead(actions, user, j);
    SameTableExactlyWithoutChange(actions, j, user);
    assert actions[..|actions|] == actions;
  }
}
