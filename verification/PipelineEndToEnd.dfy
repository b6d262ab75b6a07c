/**
 * Whole runs of the pipeline for any user, skill and job.
 *
 * From a claimed skill over its event and the snapshot to the job that requires it, the match and
 * the messages about it; to the loss of those messages; and to a worker that stops before it sends
 * them.
 */
module PipelineEndToEnd {
  import opened Prelude
  import opened UserSkills
  import opened Pipeline
  import Text
  import S = Snapshot
  import M = Matcher

  predicate Usable(user: string, e: Entry, job: string) {
    user != "" && job != "" && e.skill != "" && Text.Trimmed(e.skill) && e.proficiency != ""
  }

  function Told(user: string, e: Entry): S.Record {
    S.Event(SkillsUpdated(user, [e]))
  }

  /** The user has claimed the skill, and the event about it has been published. */
  function AfterClaim(user: string, e: Entry): State {
    Init().(skills := map[Key(user, e.skill) := e.proficiency],
      projection := S.Projection([Told(user, e)], 0, 0, map[]))
  }

  /** The snapshot has it too. */
  function AfterSnapshot(user: string, e: Entry): State {
    AfterClaim(user, e).(projection := S.Projection([Told(user, e)], 1, 1, map[Key(user, e.skill) := e.proficiency]))
  }

  /** A job that requires the skill is committed and posted. */
  function AfterCreate(user: string, e: Entry, job: string): State {
    AfterSnapshot(user, e).(jobs := map[job := [e.skill]], posted := [M.JobPosted(job, [e.skill])])
  }

  /** The worker has upserted the user's row. */
  function AfterMatch(user: string, e: Entry, job: string): State {
    AfterCreate(user, e, job).(
      matchPos := 1, matches := map[M.MatchKey(job, user) := 1.0],
      work := Matching(job, [e.skill], map[], Both(M.Announcement(M.MatchKey(job, user), 1.0)), {}))
  }

  lemma OneEntryListed(user: string, e: Entry)
    ensures Lists([e], SkillsOf(map[Key(user, e.skill) := e.proficiency], user))
    ensures DistinctSkills([e]) && AsMap([e]) == map[e.skill := e.proficiency]
  {
    assert [e][..0] == [];
    var t: Table := map[Key(user, e.skill) := e.proficiency];
    forall s ensures s in Claimed(t, user) <==> s == e.skill {
      ClaimedMeansKey(t, user, s);
    }
  }

  /** The table with the one claim. */
  function OneClaim(user: string, e: Entry): Table {
    map[Key(user, e.skill) := e.proficiency]
  }

  lemma FirstUpsert(user: string, e: Entry, job: string)
    requires Usable(user, e, job)
    ensures Step(Init(), Upsert(0, user, e.skill, e.proficiency))
         == Init().(skills := OneClaim(user, e), calls := map[0 := Upserted(user)])
  {
  }

  lemma FirstReread(user: string, e: Entry, s: State)
    requires s == Init().(skills := OneClaim(user, e), calls := map[0 := Upserted(user)])
    ensures Step(s, Reread(0, [e])) == s.(calls := map[0 := Listed(user, [e])])
  {
    OneEntryListed(user, e);
  }

  lemma FirstPublish(user: string, e: Entry, s: State)
    requires s == Init().(skills := OneClaim(user, e), calls := map[0 := Listed(user, [e])])
    ensures Step(s, Publish(0, false)) == AfterClaim(user, e)
  {
    assert s.calls - {0} == map[];
  }

  lemma ClaimIsPublished(user: string, e: Entry, job: string)
    requires Usable(user, e, job)
    ensures Step(Step(Step(Init(), Upsert(0, user, e.skill, e.proficiency)), Reread(0, [e])), Publish(0, false))
         == AfterClaim(user, e)
  {
    FirstUpsert(user, e, job);
    FirstReread(user, e, Init().(skills := OneClaim(user, e), calls := map[0 := Upserted(user)]));
    FirstPublish(user, e, Init().(skills := OneClaim(user, e), calls := map[0 := Listed(user, [e])]));
  }

  lemma EventIsTheClaim(user: string, e: Entry)
    requires user != ""
    ensures S.Handled(map[], Told(user, e)) == OneClaim(user, e)
  {
    OneEntryListed(user, e);
    S.InsertedRow(map[], user, map[], e.skill, e.proficiency);
    assert S.Without(map[], user) + S.RowsOf(user, map[]) == map[];
  }

  lemma ClaimIsConsumed(user: string, e: Entry, job: string)
    requires Usable(user, e, job)
    ensures Step(AfterClaim(user, e), Consume(S.Deliver(false))) == AfterSnapshot(user, e)
  {
    EventIsTheClaim(user, e);
    ConsumesOne(AfterClaim(user, e), Told(user, e));
  }

  lemma ConsumesOne(s: State, r: S.Record)
    requires s.projection == S.Projection([r], 0, 0, map[])
    ensures Step(s, Consume(S.Deliver(false))) == s.(projection := S.Projection([r], 1, 1, S.Handled(map[], r)))
  {
  }

  lemma JobIsPosted(user: string, e: Entry, job: string)
    requires Usable(user, e, job)
    ensures Step(Step(AfterSnapshot(user, e), InsertJob(job, [e.skill])), PostJob(job, false))
      == AfterCreate(user, e, job)
  {
    Text.CleanListsStay([e.skill]);
    var s := AfterSnapshot(user, e);
    var t := Step(s, InsertJob(job, [e.skill]));
    assert t == s.(jobs := map[job := [e.skill]], unposted := {job});
    assert t.unposted - {job} == {};
  }

  lemma OneCandidate(user: string, e: Entry)
    ensures M.Candidates({Key(user, e.skill)}, [e.skill]) == map[user := 1]
  {
    var rows := {Key(user, e.skill)};
    forall u ensures u in M.Candidates(rows, [e.skill]) <==> u == user {
      M.CandidatesAreTheOverlapping(rows, [e.skill], u);
      assert u == user ==> e.skill in M.Shared(rows, u, [e.skill]);
    }
    assert M.Shared(rows, user, [e.skill]) == {e.skill};
  }

  /** Whatever rows there are already, polling the job and taking its one candidate. */
  lemma JobIsMatched(user: string, e: Entry, job: string, m: M.Matches)
    requires Usable(user, e, job)
    ensures Step(Step(AfterCreate(user, e, job).(matches := m), StartJob(false)), MatchUser(user, false))
         == AfterMatch(user, e, job).(matches := m[M.MatchKey(job, user) := 1.0])
  {
    var s := AfterCreate(user, e, job).(matches := m);
    PollsTheJob(user, e, job, s);
    TakesTheUser(user, e, job, s.(matchPos := 1, work := Matching(job, [e.skill], map[user := 1], Nothing, {})));
  }

  lemma PollsTheJob(user: string, e: Entry, job: string, s: State)
    requires Usable(user, e, job) && s == AfterCreate(user, e, job).(matches := s.matches)
    ensures Step(s, StartJob(false))
         == s.(matchPos := 1, work := Matching(job, [e.skill], map[user := 1], Nothing, {}))
  {
    OneCandidate(user, e);
    assert s.projection.rows.Keys == {Key(user, e.skill)};
  }

  lemma TakesTheUser(user: string, e: Entry, job: string, t: State)
    requires t.work == Matching(job, [e.skill], map[user := 1], Nothing, {})
    ensures var k := M.MatchKey(job, user);
      Step(t, MatchUser(user, false))
      == t.(matches := t.matches[k := 1.0],
            work := Matching(job, [e.skill], map[], Both(M.Announcement(k, 1.0)), {}))
  {
    assert t.work.todo - {user} == map[];
  }

  /** A claim, its event, a job that requires the skill, and the worker up to the user's row. */
  function UpToTheRow(user: string, e: Entry, job: string): seq<Action> {
    [Upsert(0, user, e.skill, e.proficiency), Reread(0, [e]), Publish(0, false), Consume(S.Deliver(false)),
     InsertJob(job, [e.skill]), PostJob(job, false), StartJob(false), MatchUser(user, false)]
  }

  lemma RunOfEight(run: seq<Action>)
    requires |run| == 8
    ensures Run(run) == Step(Step(Run(run[..6]), run[6]), run[7])
    ensures Run(run[..6]) == Step(Step(Run(run[..4]), run[4]), run[5])
    ensures Run(run[..4]) == Step(Step(Step(Step(Init(), run[0]), run[1]), run[2]), run[3])
  {
    forall k | 0 <= k < 8 ensures Run(run[..k + 1]) == Step(Run(run[..k]), run[k]) {
      RunPrefix(run, k);
    }
    assert run[..8] == run && run[..0] == [];
  }

  lemma RowIsThere(user: string, e: Entry, job: string)
    requires Usable(user, e, job)
    ensures Run(UpToTheRow(user, e, job)) == AfterMatch(user, e, job)
  {
    RunOfEight(UpToTheRow(user, e, job));
    ClaimIsPublished(user, e, job);
    ClaimIsConsumed(user, e, job);
    JobIsPosted(user, e, job);
    JobIsMatched(user, e, job, map[]);
  }

  lemma TellsAndFinishes(s: State, a: M.Announcement)
    requires s.work.Matching? && s.work.todo == map[] && s.work.sending == Both(a)
    ensures Step(Step(Step(s, SendMatched(false)), SendRealtime(false)), FinishJob)
         == s.(matched := s.matched + [a], realtime := s.realtime + [a], work := Idle)
  {
    assert Step(s, SendMatched(false)) == s.(matched := s.matched + [a], work := s.work.(sending := Last(a)));
  }

  lemma RunThree(run: seq<Action>, a: Action, b: Action, c: Action)
    ensures Run(run + [a] + [b] + [c]) == Step(Step(Step(Run(run), a), b), c)
  {
    RunNext(run, a);
    RunNext(run + [a], b);
    RunNext(run + [a] + [b], c);
  }

  /** From a claim to a full match and one message of each kind. */
  lemma ClaimedSkillIsMatchedAndTold(user: string, e: Entry, job: string)
    requires Usable(user, e, job)
    ensures var a := M.Announcement(M.MatchKey(job, user), 1.0);
      var s := Run(UpToTheRow(user, e, job) + [SendMatched(false)] + [SendRealtime(false)] + [FinishJob]);
      && s.matches == map[a.key := 1.0] && s.matched == [a] && s.realtime == [a]
      && s.work.Idle? && s.matchPos == |s.posted| == 1
  {
    RowIsThere(user, e, job);
    RunThree(UpToTheRow(user, e, job), SendMatched(false), SendRealtime(false), FinishJob);
    TellsAndFinishes(AfterMatch(user, e, job), M.Announcement(M.MatchKey(job, user), 1.0));
  }

  /** Both publishes lost: the row stays, nobody is told of it, and no record is left to poll. */
  lemma LostMessagesAreNotSentAgain(user: string, e: Entry, job: string)
    requires Usable(user, e, job)
    ensures var s := Run(UpToTheRow(user, e, job) + [SendMatched(true)] + [SendRealtime(true)] + [FinishJob]);
      && s.matches == map[M.MatchKey(job, user) := 1.0] && s.matched == [] && s.realtime == []
      && s.work.Idle? && s.matchPos == |s.posted| == 1
  {
    RowIsThere(user, e, job);
    RunThree(UpToTheRow(user, e, job), SendMatched(true), SendRealtime(true), FinishJob);
    LosesAndFinishes(AfterMatch(user, e, job), M.Announcement(M.MatchKey(job, user), 1.0));
  }

  lemma LosesAndFinishes(s: State, a: M.Announcement)
    requires s.work.Matching? && s.work.todo == map[] && s.work.sending == Both(a)
    ensures Step(Step(Step(s, SendMatched(true)), SendRealtime(true)), FinishJob) == s.(work := Idle)
  {
    assert Step(s, SendMatched(true)) == s.(work := s.work.(sending := Last(a)));
  }

  /** A worker that stops between the row and its messages, restarted at the record, polls it again and tells. */
  lemma SetBackWorkerTells(user: string, e: Entry, job: string)
    requires Usable(user, e, job)
    ensures var a := M.Announcement(M.MatchKey(job, user), 1.0);
      var again := UpToTheRow(user, e, job) + [RestartMatcher(0)] + [StartJob(false)] + [MatchUser(user, false)];
      var s := Run(again + [SendMatched(false)] + [SendRealtime(false)] + [FinishJob]);
      s.matches == map[a.key := 1.0] && s.matched == [a] && s.realtime == [a] && s.work.Idle?
  {
    var run, m := UpToTheRow(user, e, job), map[M.MatchKey(job, user) := 1.0];
    RowIsThere(user, e, job);
    RunThree(run, RestartMatcher(0), StartJob(false), MatchUser(user, false));
    assert Step(AfterMatch(user, e, job), RestartMatcher(0)) == AfterCreate(user, e, job).(matches := m);
    JobIsMatched(user, e, job, m);
    assert m[M.MatchKey(job, user) := 1.0] == m;
    RunThree(run + [RestartMatcher(0)] + [StartJob(false)] + [MatchUser(user, false)], SendMatched(false),
      SendRealtime(false), FinishJob);
    TellsAndFinishes(AfterMatch(user, e, job), M.Announcement(M.MatchKey(job, user), 1.0));
  }
}
