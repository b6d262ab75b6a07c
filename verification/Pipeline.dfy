/** The matching pipeline end to end, every atomic step interleaving with every other. */
module Pipeline {
  // AddUserSkill calls on users-service, the user.skills.updated topic, jobs-service's snapshot
  // consumer, CreateJob calls, the job.posted topic and the matching worker.

  import opened Prelude
  import opened UserSkills
  import Text
  import S = Snapshot
  import M = Matcher

  /** An AddUserSkill call between its upsert and its return. */
  datatype Call = Upserted(user: string) | Listed(user: string, skills: seq<Entry>)

  /** What the worker still has to send about the row it has just upserted: both messages, or the second. */
  datatype Sending = Nothing | Both(a: M.Announcement) | Last(a: M.Announcement)

  /** The matching worker between polling a record and finishing it; `failed` are the users whose upsert failed. */
  datatype Work =
    Idle | Matching(job: string, required: seq<string>, todo: map<string, nat>, sending: Sending, failed: set<string>)

  datatype State = State(
    skills: Table,                        // users.user_skills
    calls: map<nat, Call>,                // AddUserSkill calls in flight
    projection: S.Projection,             // user.skills.updated, its consumer, jobs.user_skill_snapshot
    jobs: map<string, seq<string>>,       // committed jobs with their required skills
    unposted: set<string>,                // CreateJob calls between the commit and the publish
    posted: seq<M.Record>,                // job.posted
    matchPos: nat,                        // the matching worker's position in job.posted
    work: Work,
    matches: M.Matches,                   // jobs.job_matches
    matched: seq<M.Announcement>,         // job.matched messages sent
    realtime: seq<M.Announcement>)        // realtime job_match messages sent

  datatype Action =
    // users-service, AddUserSkill
    | Upsert(call: nat, user: string, skill: string, proficiency: string)
    | Reread(call: nat, listing: seq<Entry>)
    | Abandon(call: nat)                  // the re-read fails, the publisher is off, or the process dies
    | Publish(call: nat, lost: bool)
    // the snapshot consumer: deliveries, rewinds, undecodable records
    | Consume(a: S.Action)
    // jobs-service, CreateJob
    | InsertJob(job: string, requested: seq<string>)
    | PostJob(job: string, lost: bool)
    | StrayPost                           // an undecodable job.posted record
    // the matching worker
    | StartJob(queryFault: bool)
    | MatchUser(user: string, upsertFault: bool)
    | SendMatched(lost: bool)
    | SendRealtime(lost: bool)
    | FinishJob
    | RestartMatcher(to: nat)

  function Init(): State {
    State(map[], map[], S.Empty(), map[], {}, [], 0, Idle, map[], [], [])
  }

  function AfterUpsert(s: State, c: nat, user: string, skill: string, proficiency: string): State {
    if c !in s.calls && user != "" && skill != "" && proficiency != "" then
      s.(skills := UserSkills.Upserted(s.skills, user, skill, proficiency), calls := s.calls[c := Upserted(user)])
    else s
  }

  function AfterReread(s: State, c: nat, listing: seq<Entry>): State {
    if c in s.calls && s.calls[c].Upserted? && Lists(listing, SkillsOf(s.skills, s.calls[c].user)) then
      s.(calls := s.calls[c := Listed(s.calls[c].user, listing)])
    else s
  }

  function AfterPublish(s: State, c: nat, lost: bool): State {
    if c in s.calls && s.calls[c].Listed? then
      var event := S.Event(SkillsUpdated(s.calls[c].user, s.calls[c].skills));
      s.(calls := s.calls - {c}, projection := if lost then s.projection else S.Step(s.projection, S.Append(event)))
    else s
  }

  function AfterInsertJob(s: State, job: string, requested: seq<string>): State {
    if job !in s.jobs && job != "" then
      s.(jobs := s.jobs[job := Text.Deduped(requested)], unposted := s.unposted + {job})
    else s
  }

  function AfterPostJob(s: State, job: string, lost: bool): State {
    if job in s.unposted && job in s.jobs then
      s.(unposted := s.unposted - {job},
         posted := if lost then s.posted else s.posted + [M.JobPosted(job, s.jobs[job])])
    else s
  }

  function AfterStartJob(s: State, queryFault: bool): State {
    if s.work.Idle? && s.matchPos < |s.posted| then
      var r := s.posted[s.matchPos];
      s.(matchPos := s.matchPos + 1,
         work := if !M.Matchable(r) || queryFault then Idle
                 else Matching(r.job, r.required, M.Candidates(s.projection.rows.Keys, r.required), Nothing, {}))
    else s
  }

  /** One candidate: the upsert, which on success leaves two messages to send before the next candidate. */
  function AfterMatchUser(s: State, user: string, upsertFault: bool): State {
    if s.work.Matching? && s.work.sending.Nothing? && user in s.work.todo then
      var w := s.work.(todo := s.work.todo - {user});
      if s.work.todo[user] < M.MATCH_THRESHOLD_OVERLAP || s.work.required == [] then s.(work := w)
      else if upsertFault then s.(work := w.(failed := w.failed + {user}))
      else
        var k := M.MatchKey(s.work.job, user);
        var score := M.Score(s.work.todo[user], s.work.required);
        s.(matches := s.matches[k := score], work := w.(sending := Both(M.Announcement(k, score))))
    else s
  }

  /** The job.matched publish; `lost` stands for a drop or for no publisher. */
  function AfterSendMatched(s: State, lost: bool): State {
    if s.work.Matching? && s.work.sending.Both? then
      var a := s.work.sending.a;
      s.(matched := if lost then s.matched else s.matched + [a], work := s.work.(sending := Last(a)))
    else s
  }

  function AfterSendRealtime(s: State, lost: bool): State {
    if s.work.Matching? && s.work.sending.Last? then
      s.(realtime := if lost then s.realtime else s.realtime + [s.work.sending.a], work := s.work.(sending := Nothing))
    else s
  }

  function AfterFinishJob(s: State): State {
    if s.work.Matching? && s.work.sending.Nothing? && s.work.todo == map[] then s.(work := Idle) else s
  }

  /** An action that is not enabled leaves the state as it is. */
  function Step(s: State, a: Action): State {
    match a
    case Upsert(c, user, skill, proficiency) => AfterUpsert(s, c, user, skill, proficiency)
    case Reread(c, listing) => AfterReread(s, c, listing)
    case Abandon(c) => s.(calls := s.calls - {c})
    case Publish(c, lost) => AfterPublish(s, c, lost)
    case Consume(d) => if d.Append? && d.r.Event? then s else s.(projection := S.Step(s.projection, d))
    case InsertJob(job, requested) => AfterInsertJob(s, job, requested)
    case PostJob(job, lost) => AfterPostJob(s, job, lost)
    case StrayPost => s.(posted := s.posted + [M.Garbage])
    case StartJob(queryFault) => AfterStartJob(s, queryFault)
    case MatchUser(user, upsertFault) => AfterMatchUser(s, user, upsertFault)
    case SendMatched(lost) => AfterSendMatched(s, lost)
    case SendRealtime(lost) => AfterSendRealtime(s, lost)
    case FinishJob => AfterFinishJob(s)
    case RestartMatcher(to) => if to <= s.matchPos then s.(matchPos := to, work := Idle) else s
  }

  function Run(actions: seq<Action>): State {
    if actions == [] then Init() else Step(Run(actions[..|actions| - 1]), actions[|actions| - 1])
  }

  // ---- every match is earned ----

  /** Every listed skill is one the user has claimed. */
  predicate Backed(claimed: set<Key>, user: string, skills: seq<Entry>) {
    forall e :: e in skills ==> Key(user, e.skill) in claimed
  }

  predicate BackedRecord(claimed: set<Key>, r: S.Record) {
    r.Event? ==> Backed(claimed, r.event.user, r.event.skills)
  }

  predicate BackedCall(claimed: set<Key>, c: Call) {
    c.Listed? ==> Backed(claimed, c.user, c.skills)
  }

  /** What users-service and the projection hold is backed by the claims. */
  predicate SkillsBacked(s: State) {
    && (forall c :: c in s.calls ==> BackedCall(s.skills.Keys, s.calls[c]))
    && (forall i :: 0 <= i < |s.projection.topic| ==> BackedRecord(s.skills.Keys, s.projection.topic[i]))
    && s.projection.rows.Keys <= s.skills.Keys
  }

  /** A job.posted record carries its committed job's own list. */
  predicate FaithfulPost(jobs: map<string, seq<string>>, r: M.Record) {
    r.JobPosted? ==> r.job in jobs && jobs[r.job] == r.required
  }

  predicate PostsFaithful(s: State) {
    && (forall j :: j in s.jobs ==> Distinct(s.jobs[j]))
    && (forall i :: 0 <= i < |s.posted| ==> FaithfulPost(s.jobs, s.posted[i]))
  }

  /** An overlap no larger than what the user has claimed of the list. */
  predicate Claimable(claimed: set<Key>, user: string, required: seq<string>, overlap: nat) {
    0 < overlap <= |M.Shared(claimed, user, required)|
  }

  predicate WorkEarned(claimed: set<Key>, jobs: map<string, seq<string>>, w: Work) {
    w.Matching? ==>
      && w.job in jobs && jobs[w.job] == w.required && w.required != []
      && forall u :: u in w.todo ==> Claimable(claimed, u, w.required, w.todo[u])
  }

  predicate RowEarned(claimed: set<Key>, jobs: map<string, seq<string>>, k: M.MatchKey, score: real) {
    && k.job in jobs && 0.0 < score
    && score * |jobs[k.job]| as real <= |M.Shared(claimed, k.user, jobs[k.job])| as real
  }

  predicate SendingStored(w: Work, m: M.Matches) {
    w.Matching? && !w.sending.Nothing? ==> w.sending.a.key in m
  }

  predicate MatchesEarned(s: State) {
    && WorkEarned(s.skills.Keys, s.jobs, s.work)
    && (forall k :: k in s.matches ==> RowEarned(s.skills.Keys, s.jobs, k, s.matches[k]))
    && SendingStored(s.work, s.matches) && M.AllStored(s.matched, s.matches) && M.AllStored(s.realtime, s.matches)
  }

  predicate Earned(s: State) {
    SkillsBacked(s) && PostsFaithful(s) && MatchesEarned(s)
  }

  lemma SharedGrows(claimed: set<Key>, more: set<Key>, user: string, required: seq<string>)
    requires claimed <= more
    ensures |M.Shared(claimed, user, required)| <= |M.Shared(more, user, required)|
  {
    SubsetCardinality(M.Shared(claimed, user, required), M.Shared(more, user, required));
  }

  lemma UpsertKeepsEarned(s: State, c: nat, user: string, skill: string, proficiency: string)
    requires Earned(s)
    ensures Earned(Step(s, Upsert(c, user, skill, proficiency)))
  {
    var s' := Step(s, Upsert(c, user, skill, proficiency));
    assert s.skills.Keys <= s'.skills.Keys;
    forall u, required {
      SharedGrows(s.skills.Keys, s'.skills.Keys, u, required);
    }
  }

  lemma ListingIsBacked(t: Table, user: string, listing: seq<Entry>)
    requires Lists(listing, SkillsOf(t, user))
    ensures Backed(t.Keys, user, listing)
  {
    AsMapKeys(listing);
    forall e | e in listing ensures Key(user, e.skill) in t {
      assert e.skill in Names(listing);
      ClaimedMeansKey(t, user, e.skill);
    }
  }

  lemma RereadKeepsEarned(s: State, c: nat, listing: seq<Entry>)
    requires Earned(s)
    ensures Earned(Step(s, Reread(c, listing)))
  {
    if c in s.calls && Lists(listing, SkillsOf(s.skills, s.calls[c].user)) {
      ListingIsBacked(s.skills, s.calls[c].user, listing);
    }
  }

  lemma PublishKeepsEarned(s: State, c: nat, lost: bool)
    requires Earned(s)
    ensures Earned(Step(s, Publish(c, lost)))
  {
    assert c in s.calls ==> BackedCall(s.skills.Keys, s.calls[c]);
  }

  lemma HandledIsBacked(claimed: set<Key>, rows: Table, r: S.Record)
    requires rows.Keys <= claimed && BackedRecord(claimed, r)
    ensures S.Handled(rows, r).Keys <= claimed
  {
    if r.Event? && r.event.user != "" && DistinctSkills(r.event.skills) {
      AsMapKeys(r.event.skills);
    }
  }

  lemma ConsumeKeepsEarned(s: State, d: S.Action)
    requires Earned(s)
    ensures Earned(Step(s, Consume(d)))
  {
    var p := s.projection;
    if d.Deliver? && p.pos < |p.topic| {
      HandledIsBacked(s.skills.Keys, p.rows, p.topic[p.pos]);
    }
    if d.Overlap? && d.at < |p.topic| {
      HandledIsBacked(s.skills.Keys, p.rows, p.topic[d.at]);
    }
  }

  lemma RowStaysEarned(
      claimed: set<Key>, jobs: map<string, seq<string>>, jobs': map<string, seq<string>>, k: M.MatchKey, score: real)
    requires RowEarned(claimed, jobs, k, score) && k.job in jobs' && jobs'[k.job] == jobs[k.job]
    ensures RowEarned(claimed, jobs', k, score)
  {
  }

  lemma NewJobKeepsPostsFaithful(s: State, s': State, job: string, list: seq<string>)
    requires PostsFaithful(s) && job !in s.jobs && Distinct(list)
    requires s'.jobs == s.jobs[job := list] && s'.posted == s.posted
    ensures PostsFaithful(s')
  {
    forall i | 0 <= i < |s.posted| ensures FaithfulPost(s'.jobs, s.posted[i]) {
      assert FaithfulPost(s.jobs, s.posted[i]);
    }
  }

  lemma InsertJobKeepsEarned(s: State, job: string, requested: seq<string>)
    requires Earned(s)
    ensures Earned(Step(s, InsertJob(job, requested)))
  {
    var s' := Step(s, InsertJob(job, requested));
    if s' != s {
      Text.DedupedKeepsEachOnce(requested);
      NewJobKeepsPostsFaithful(s, s', job, Text.Deduped(requested));
      forall k | k in s.matches ensures RowEarned(s.skills.Keys, s'.jobs, k, s.matches[k]) {
        RowStaysEarned(s.skills.Keys, s.jobs, s'.jobs, k, s.matches[k]);
      }
    }
  }

  lemma PostJobKeepsEarned(s: State, a: Action)
    requires Earned(s) && (a.PostJob? || a.StrayPost?)
    ensures Earned(Step(s, a))
  {
    var s' := Step(s, a);
    assert s'.posted != s.posted ==> FaithfulPost(s.jobs, s'.posted[|s.posted|]);
  }

  lemma StartKeepsEarned(s: State, queryFault: bool)
    requires Earned(s)
    ensures Earned(Step(s, StartJob(queryFault)))
  {
    var rows := s.projection.rows.Keys;
    forall u, required
      ensures u in M.Candidates(rows, required) ==>
        Claimable(s.skills.Keys, u, required, M.Candidates(rows, required)[u])
    {
      SharedGrows(rows, s.skills.Keys, u, required);
      M.CandidatesAreTheOverlapping(rows, required, u);
    }
  }

  lemma ScoreIsEarned(claimed: set<Key>, jobs: map<string, seq<string>>, k: M.MatchKey, overlap: nat)
    requires k.job in jobs && jobs[k.job] != [] && Distinct(jobs[k.job])
    requires Claimable(claimed, k.user, jobs[k.job], overlap)
    ensures RowEarned(claimed, jobs, k, M.Score(overlap, jobs[k.job]))
  {
    SubsetCardinality(M.Shared(claimed, k.user, jobs[k.job]), Elements(jobs[k.job]));
    DistinctExactlyWhenFull(jobs[k.job]);
    M.ScoreBounds(overlap, jobs[k.job]);
  }

  lemma MatchKeepsEarned(s: State, user: string, upsertFault: bool)
    requires Earned(s)
    ensures Earned(Step(s, MatchUser(user, upsertFault)))
  {
    if s.work.Matching? && user in s.work.todo {
      ScoreIsEarned(s.skills.Keys, s.jobs, M.MatchKey(s.work.job, user), s.work.todo[user]);
    }
  }

  /** A message is sent only about a row that is already there, and rows stay. */
  lemma SendKeepsEarned(s: State, a: Action)
    requires Earned(s) && (a.SendMatched? || a.SendRealtime?)
    ensures Earned(Step(s, a))
  {
  }

  lemma StepKeepsEarned(s: State, a: Action)
    requires Earned(s)
    ensures Earned(Step(s, a))
  {
    match a
    case Upsert(c, user, skill, proficiency) => UpsertKeepsEarned(s, c, user, skill, proficiency);
    case Reread(c, listing) => RereadKeepsEarned(s, c, listing);
    case Abandon(_) =>
    case Publish(c, lost) => PublishKeepsEarned(s, c, lost);
    case Consume(d) => ConsumeKeepsEarned(s, d);
    case InsertJob(job, requested) => InsertJobKeepsEarned(s, job, requested);
    case PostJob(_, _) => PostJobKeepsEarned(s, a);
    case StrayPost => PostJobKeepsEarned(s, a);
    case StartJob(queryFault) => StartKeepsEarned(s, queryFault);
    case MatchUser(user, upsertFault) => MatchKeepsEarned(s, user, upsertFault);
    case SendMatched(lost) => SendKeepsEarned(s, a);
    case SendRealtime(lost) => SendKeepsEarned(s, a);
    case FinishJob =>
    case RestartMatcher(_) =>
  }

  lemma {:induction false} RunIsEarned(actions: seq<Action>)
    ensures Earned(Run(actions))
  {
    if actions != [] {
      var n := |actions| - 1;
      RunIsEarned(actions[..n]);
      StepKeepsEarned(Run(actions[..n]), actions[n]);
    }
  }

  /** A score is positive and, times the number of skills required, at most the number of them claimed. */
  predicate Supported(score: real, required: nat, claimed: nat) {
    0.0 < score && score * required as real <= claimed as real
  }

  predicate OnlyEarned(s: State, k: M.MatchKey)
    requires k in s.matches
  {
    && k.job in s.jobs
    && Supported(s.matches[k], |s.jobs[k.job]|, |Claimed(s.skills, k.user) * Elements(s.jobs[k.job])|)
  }

  lemma EarnedRow(s: State, k: M.MatchKey)
    requires k in s.matches && RowEarned(s.skills.Keys, s.jobs, k, s.matches[k])
    ensures OnlyEarned(s, k)
  {
    M.SharedIsIntersection(s.skills, k.user, s.jobs[k.job]);
  }

  /**
   * In every run, with calls overlapping, publishes lost, consumers set back and upserts failing,
   * a match row belongs to a committed job and its score is positive and no more than what
   * users-service's own table supports; and every message sent, of either kind, names a row, even
   * when the worker stopped between its upsert and its messages.
   */
  lemma EveryMatchIsEarned(actions: seq<Action>)
    ensures forall k :: k in Run(actions).matches ==> OnlyEarned(Run(actions), k)
    ensures M.AllStored(Run(actions).matched, Run(actions).matches)
    ensures M.AllStored(Run(actions).realtime, Run(actions).matches)
  {
    RunIsEarned(actions);
    forall k | k in Run(actions).matches ensures OnlyEarned(Run(actions), k) {
      EarnedRow(Run(actions), k);
    }
  }

  lemma RunPrefix(actions: seq<Action>, k: nat)
    requires k < |actions|
    ensures Run(actions[..k + 1]) == Step(Run(actions[..k]), actions[k])
  {
    assert actions[..k + 1][..k] == actions[..k];
  }

  lemma UpsertEffect(s: State, c: nat, user: string, e: Entry)
    requires c !in s.calls && user != "" && e.skill != "" && e.proficiency != ""
    ensures var s' := AfterUpsert(s, c, user, e.skill, e.proficiency);
      && s'.calls == s.calls[c := Upserted(user)] && s'.projection == s.projection
      && SkillsOf(s'.skills, user) == SkillsOf(s.skills, user)[e.skill := e.proficiency]
  {
    UpsertedTouchesOnePair(s.skills, user, e.skill, e.proficiency, user);
  }

  lemma RereadEffect(s: State, c: nat, user: string, listing: seq<Entry>)
    requires c in s.calls && s.calls[c] == Upserted(user) && Lists(listing, SkillsOf(s.skills, user))
    ensures var s' := AfterReread(s, c, listing);
      s'.calls == s.calls[c := Listed(user, listing)] && s'.projection == s.projection && s'.skills == s.skills
  {
  }

  lemma PublishEffect(s: State, c: nat, user: string, listing: seq<Entry>)
    requires c in s.calls && s.calls[c] == Listed(user, listing)
    ensures var s' := AfterPublish(s, c, false);
      && s'.calls == s.calls - {c} && s'.skills == s.skills
      && s'.projection == s.projection.(topic := s.projection.topic + [S.Event(SkillsUpdated(user, listing))])
  {
  }

  lemma WrittenAndListed(s: State, c: nat, user: string, e: Entry, listing: seq<Entry>)
    requires c !in s.calls && user != "" && e.skill != "" && e.proficiency != ""
    requires Lists(listing, SkillsOf(s.skills, user)[e.skill := e.proficiency])
    ensures var s' := AfterReread(AfterUpsert(s, c, user, e.skill, e.proficiency), c, listing);
      && s'.skills == UserSkills.Upserted(s.skills, user, e.skill, e.proficiency) && s'.projection == s.projection
      && c in s'.calls && s'.calls[c] == Listed(user, listing) && s'.calls - {c} == s.calls
  {
    UpsertEffect(s, c, user, e);
    RereadEffect(AfterUpsert(s, c, user, e.skill, e.proficiency), c, user, listing);
  }

  /** An AddUserSkill call nobody interrupts: its three steps add up to the write and one event carrying it. */
  lemma UninterruptedCall(s: State, c: nat, user: string, e: Entry, listing: seq<Entry>)
    requires c !in s.calls && user != "" && e.skill != "" && e.proficiency != ""
    requires Lists(listing, SkillsOf(s.skills, user)[e.skill := e.proficiency])
    ensures var s' := AfterPublish(AfterReread(AfterUpsert(s, c, user, e.skill, e.proficiency), c, listing), c, false);
      && s'.skills == UserSkills.Upserted(s.skills, user, e.skill, e.proficiency) && s'.calls == s.calls
      && s'.projection == s.projection.(topic := s.projection.topic + [S.Event(SkillsUpdated(user, listing))])
  {
    WrittenAndListed(s, c, user, e, listing);
    PublishEffect(AfterReread(AfterUpsert(s, c, user, e.skill, e.proficiency), c, listing), c, user, listing);
  }

  lemma RunNext(run: seq<Action>, a: Action)
    ensures Run(run + [a]) == Step(Run(run), a)
  {
    assert (run + [a])[..|run|] == run;
  }

  lemma Upserting(s: State, c: nat, user: string, e: Entry)
    requires c !in s.calls && user != "" && e.skill != "" && e.proficiency != ""
    ensures Step(s, Upsert(c, user, e.skill, e.proficiency))
         == s.(skills := UserSkills.Upserted(s.skills, user, e.skill, e.proficiency),
               calls := s.calls[c := Upserted(user)])
  {
  }

  lemma GivenUp(s: State, calls: map<nat, Call>, c: nat, call: Call)
    requires c !in calls && s.calls == calls[c := call]
    ensures Step(s, Abandon(c)) == s.(calls := calls)
    ensures call.Listed? ==> Step(s, Publish(c, true)) == s.(calls := calls)
  {
    assert s.calls - {c} == calls;
  }

  lemma WrittenCall(s: State, t: State, c: nat, user: string, e: Entry)
    requires c !in s.calls && user != "" && e.skill != "" && e.proficiency != ""
    requires t == Step(s, Upsert(c, user, e.skill, e.proficiency))
    ensures t == s.(skills := UserSkills.Upserted(s.skills, user, e.skill, e.proficiency), calls := t.calls)
    ensures t.calls == s.calls[c := Upserted(user)]
    ensures SkillsOf(t.skills, user) == SkillsOf(s.skills, user)[e.skill := e.proficiency]
  {
    Upserting(s, c, user, e);
    UpsertedTouchesOnePair(s.skills, user, e.skill, e.proficiency, user);
  }

  /** A call given up between its write and its re-read: the write without an event. */
  lemma CallWithoutEvent(s: State, t: State, c: nat, user: string, e: Entry)
    requires c !in s.calls && user != "" && e.skill != "" && e.proficiency != ""
    requires t == Step(s, Upsert(c, user, e.skill, e.proficiency))
    ensures Step(t, Abandon(c)) == s.(skills := UserSkills.Upserted(s.skills, user, e.skill, e.proficiency))
  {
    WrittenCall(s, t, c, user, e);
    GivenUp(t, s.calls, c, Upserted(user));
  }

  /** Given up between its re-read and its publish, or its publish lost: likewise no event. */
  lemma ListedCallWithoutEvent(s: State, t: State, c: nat, user: string, listing: seq<Entry>)
    requires c !in s.calls && t == s.(calls := s.calls[c := Listed(user, listing)])
    ensures Step(t, Abandon(c)) == s && Step(t, Publish(c, true)) == s
  {
    GivenUp(t, s.calls, c, Listed(user, listing));
  }

  /** A record of either topic that does not decode is passed over. */
  lemma GarbageIsSkipped(s: State)
    requires s.work.Idle? && s.matchPos == |s.posted| && s.projection.pos == |s.projection.topic|
    ensures var t := Step(Step(s, StrayPost), StartJob(false));
      t == s.(posted := s.posted + [M.Garbage], matchPos := s.matchPos + 1)
    ensures var p := Step(Step(s, Consume(S.Append(S.Garbage))), Consume(S.Deliver(false))).projection;
      && p.topic == s.projection.topic + [S.Garbage] && p.pos == |p.topic| && p.rows == s.projection.rows
  {
  }
}
