/**
 * From a CreateJob request to its matches: which list a request commits and posts, that every posted
 * job is taken up and finished, and what the rows of job_matches are in terms of the request and not
 * only of the record.
 */
module PipelineCreates {
  import opened Prelude
  import opened UserSkills
  import opened Pipeline
  import opened PipelineJobs
  import Text
  import M = Matcher

  /** The skills a request names, trimmed, blanks left out. */
  function Wanted(requested: seq<string>): set<string> {
    Text.TrimmedTexts(requested) - {""}
  }

  // ---- one call ----

  /** A create nobody interrupts commits the request's list, posts it once, and does nothing else. */
  lemma UninterruptedCreate(s: State, job: string, requested: seq<string>)
    requires job != "" && job !in s.jobs
    ensures var s' := Step(Step(s, InsertJob(job, requested)), PostJob(job, false));
      && job in s'.jobs && Text.KeptOf(s'.jobs[job], requested)
      && s' == s.(jobs := s.jobs[job := s'.jobs[job]], unposted := s.unposted - {job},
                  posted := s.posted + [M.JobPosted(job, s'.jobs[job])])
  {
    Text.DedupedIsKept(requested);
    assert s.unposted + {job} - {job} == s.unposted - {job};
  }

  /** A create whose publish is lost commits the same and posts nothing; one of a taken id does nothing. */
  lemma UnpostedCreate(s: State, job: string, requested: seq<string>)
    ensures var s' := Step(Step(s, InsertJob(job, requested)), PostJob(job, true));
      if job != "" && job !in s.jobs then
        && job in s'.jobs && Text.KeptOf(s'.jobs[job], requested)
        && s' == s.(jobs := s.jobs[job := s'.jobs[job]], unposted := s.unposted - {job})
      else Step(s, InsertJob(job, requested)) == s
  {
    Text.DedupedIsKept(requested);
    assert s.unposted + {job} - {job} == s.unposted - {job};
  }

  // ---- all runs ----

  /** The step at k inserts the job. */
  predicate InsertsAt(states: seq<State>, actions: seq<Action>, k: nat, job: string)
    requires |states| == |actions| + 1
  {
    k < |actions| && actions[k].InsertJob? && actions[k].job == job && job != "" && job !in states[k].jobs
  }

  /** The step at k inserts the job, and the list is what its request comes to. */
  ghost predicate CreatedAt(states: seq<State>, actions: seq<Action>, k: nat, job: string, list: seq<string>)
    requires |states| == |actions| + 1
  {
    InsertsAt(states, actions, k, job) && Text.KeptOf(list, actions[k].requested)
  }

  predicate JobsStay(jobs: map<string, seq<string>>, jobs': map<string, seq<string>>) {
    forall j :: j in jobs ==> j in jobs' && jobs'[j] == jobs[j]
  }

  lemma StepKeepsJobs(s: State, a: Action, s': State)
    requires s' == Step(s, a)
    ensures JobsStay(s.jobs, s'.jobs)
    ensures !a.InsertJob? ==> s'.jobs == s.jobs
  {
  }

  lemma {:induction false} JobsStayFrom(states: seq<State>, actions: seq<Action>, k: nat, n: nat)
    requires IsTrace(states, actions) && k <= n <= |actions|
    ensures JobsStay(states[k].jobs, states[n].jobs)
    decreases n
  {
    if k < n {
      JobsStayFrom(states, actions, k, n - 1);
      assert StepsAt(states, actions, n - 1);
      StepKeepsJobs(states[n - 1], actions[n - 1], states[n]);
    }
  }

  lemma InsertIsAsRequested(s: State, s': State, job: string, requested: seq<string>)
    requires s' == Step(s, InsertJob(job, requested)) && job != "" && job !in s.jobs
    ensures job in s'.jobs && Text.KeptOf(s'.jobs[job], requested) && s'.jobs == s.jobs[job := s'.jobs[job]]
  {
    Text.DedupedIsKept(requested);
  }

  lemma InsertOfTakenId(s: State, s': State, job: string, requested: seq<string>)
    requires s' == Step(s, InsertJob(job, requested)) && (job == "" || job in s.jobs)
    ensures s' == s
  {
  }

  /** A job that was not there before n and is there after was inserted at n. */
  lemma NewJobWasInserted(states: seq<State>, actions: seq<Action>, n: nat, job: string)
    requires IsTrace(states, actions) && n < |actions| && job in states[n + 1].jobs && job !in states[n].jobs
    ensures CreatedAt(states, actions, n, job, states[n + 1].jobs[job])
  {
    assert StepsAt(states, actions, n);
    StepKeepsJobs(states[n], actions[n], states[n + 1]);
    var a := actions[n];
    if a.job == "" || a.job in states[n].jobs {
      InsertOfTakenId(states[n], states[n + 1], a.job, a.requested);
    } else {
      InsertIsAsRequested(states[n], states[n + 1], a.job, a.requested);
    }
  }

  lemma {:induction false} JobWasCreated(states: seq<State>, actions: seq<Action>, n: nat, job: string)
    returns (k: nat)
    requires IsTrace(states, actions) && n <= |actions| && states[0].jobs == map[] && job in states[n].jobs
    ensures k < n && CreatedAt(states, actions, k, job, states[n].jobs[job])
    decreases n
  {
    k := n - 1;
    if job in states[k].jobs {
      assert StepsAt(states, actions, k);
      StepKeepsJobs(states[k], actions[k], states[k + 1]);
      k := JobWasCreated(states, actions, k, job);
    } else {
      NewJobWasInserted(states, actions, k, job);
    }
  }

  lemma TraceOf(actions: seq<Action>)
    ensures IsTrace(Trace(actions), actions) && Trace(actions)[0] == Init()
    ensures Trace(actions)[|actions|] == Run(actions)
  {
    TraceSteps(actions);
    assert actions[..|actions|] == actions;
  }

  /** Every committed job was inserted by exactly one step of the run, and holds what that step's request comes to. */
  lemma EveryJobIsAsRequested(actions: seq<Action>, job: string) returns (k: nat)
    requires job in Run(actions).jobs
    ensures CreatedAt(Trace(actions), actions, k, job, Run(actions).jobs[job])
    ensures forall i: nat :: InsertsAt(Trace(actions), actions, i, job) ==> i == k
  {
    TraceOf(actions);
    k := JobWasCreated(Trace(actions), actions, |actions|, job);
    forall i: nat | InsertsAt(Trace(actions), actions, i, job) ensures i == k {
      if i != k {
        InsertedOnce(Trace(actions), actions, if i < k then i else k, if i < k then k else i, job);
      }
    }
  }

  lemma InsertedOnce(states: seq<State>, actions: seq<Action>, i: nat, k: nat, job: string)
    requires IsTrace(states, actions) && i < k && InsertsAt(states, actions, i, job)
    ensures !InsertsAt(states, actions, k, job)
  {
    if k < |actions| {
      assert StepsAt(states, actions, i);
      InsertIsAsRequested(states[i], states[i + 1], job, actions[i].requested);
      JobsStayFrom(states, actions, i + 1, k);
    }
  }

  /** And every request that finds its id free is committed for good, with exactly what it comes to. */
  lemma EveryCreateIsKept(actions: seq<Action>, k: nat, job: string)
    requires InsertsAt(Trace(actions), actions, k, job)
    ensures job in Run(actions).jobs && Text.KeptOf(Run(actions).jobs[job], actions[k].requested)
  {
    TraceOf(actions);
    var states := Trace(actions);
    assert StepsAt(states, actions, k);
    InsertIsAsRequested(states[k], states[k + 1], job, actions[k].requested);
    JobsStayFrom(states, actions, k + 1, |actions|);
  }

  // ---- the posts ----

  predicate Posts(r: M.Record, job: string) {
    r.JobPosted? && r.job == job
  }

  /** No job has two records, and a job yet to be posted has none. */
  predicate PostedOnce(s: State) {
    && (forall i, j :: 0 <= i < j < |s.posted| && s.posted[i].JobPosted? ==> !Posts(s.posted[j], s.posted[i].job))
    && (forall i :: 0 <= i < |s.posted| && s.posted[i].JobPosted? ==>
          s.posted[i].job !in s.unposted && s.posted[i].job in s.jobs)
  }

  predicate SamePosts(s: State, s': State) {
    s'.posted == s.posted && s'.unposted == s.unposted && s'.jobs == s.jobs
  }

  lemma OtherStepPostsNothing(s: State, a: Action, s': State)
    requires s' == Step(s, a) && !a.PostJob? && !a.InsertJob? && !a.StrayPost?
    ensures SamePosts(s, s')
  {
    if a.StartJob? || a.MatchUser? || a.SendMatched? || a.SendRealtime? {
      WorkPostsNothing(s, a, s');
    }
  }

  lemma WorkPostsNothing(s: State, a: Action, s': State)
    requires s' == Step(s, a) && (a.StartJob? || a.MatchUser? || a.SendMatched? || a.SendRealtime?)
    ensures SamePosts(s, s')
  {
  }

  lemma StepKeepsPostedOnce(s: State, a: Action)
    requires PostedOnce(s)
    ensures PostedOnce(Step(s, a))
  {
    if a.PostJob? {
      PostKeepsPostedOnce(s, a.job, a.lost);
    } else if a.InsertJob? {
      InsertKeepsPostedOnce(s, a.job, a.requested);
    } else if !a.StrayPost? {
      OtherStepPostsNothing(s, a, Step(s, a));
    }
  }

  lemma PostKeepsPostedOnce(s: State, job: string, lost: bool)
    requires PostedOnce(s)
    ensures PostedOnce(AfterPostJob(s, job, lost))
  {
  }

  lemma InsertKeepsPostedOnce(s: State, job: string, requested: seq<string>)
    requires PostedOnce(s)
    ensures PostedOnce(AfterInsertJob(s, job, requested))
  {
  }

  lemma {:induction false} RunPostsOnce(actions: seq<Action>)
    ensures PostedOnce(Run(actions))
  {
    if actions != [] {
      RunPostsOnce(actions[..|actions| - 1]);
      StepKeepsPostedOnce(Run(actions[..|actions| - 1]), actions[|actions| - 1]);
    }
  }

  /** Every record of job.posted is the only one of a committed job and carries what the job's request comes to. */
  lemma EveryPostIsAsRequested(actions: seq<Action>, i: nat) returns (k: nat)
    requires i < |Run(actions).posted| && Run(actions).posted[i].JobPosted?
    ensures var r := Run(actions).posted[i];
      && CreatedAt(Trace(actions), actions, k, r.job, r.required)
      && forall j :: 0 <= j < |Run(actions).posted| && Posts(Run(actions).posted[j], r.job) ==> j == i
  {
    RunPostsOnce(actions);
    RunIsEarned(actions);
    assert FaithfulPost(Run(actions).jobs, Run(actions).posted[i]);
    k := EveryJobIsAsRequested(actions, Run(actions).posted[i].job);
  }

  /** Committed, and not yet posted, posted with its list, or its post was lost. */
  predicate Accounted(s: State, actions: seq<Action>, job: string) {
    job in s.jobs ==> job in s.unposted || M.JobPosted(job, s.jobs[job]) in s.posted || PostJob(job, true) in actions
  }

  lemma MoreActions(before: seq<Action>, a: Action, x: Action)
    ensures x in before + [a] <==> x in before || x == a
  {
  }

  lemma PostKeepsAccounted(s: State, before: seq<Action>, a: Action, job: string)
    requires Accounted(s, before, job) && a.PostJob?
    ensures Accounted(Step(s, a), before + [a], job)
  {
    MoreActions(before, a, PostJob(job, true));
    var s' := Step(s, a);
    assert s'.posted != s.posted ==> s'.posted == s.posted + [M.JobPosted(a.job, s.jobs[a.job])];
  }

  lemma StepKeepsAccounted(s: State, before: seq<Action>, a: Action, job: string)
    requires Accounted(s, before, job)
    ensures Accounted(Step(s, a), before + [a], job)
  {
    MoreActions(before, a, PostJob(job, true));
    if a.PostJob? {
      PostKeepsAccounted(s, before, a, job);
    } else if !a.InsertJob? && !a.StrayPost? {
      OtherStepPostsNothing(s, a, Step(s, a));
    }
  }

  /** In every run a committed job is posted, on its way to be, or its publish was lost: none is forgotten. */
  lemma {:induction false} EveryJobIsAccountedFor(actions: seq<Action>, job: string)
    ensures Accounted(Run(actions), actions, job)
  {
    if actions != [] {
      var n := |actions| - 1;
      EveryJobIsAccountedFor(actions[..n], job);
      StepKeepsAccounted(Run(actions[..n]), actions[..n], actions[n], job);
      assert actions[..n] + [actions[n]] == actions;
    }
  }

  // ---- the matches, read against the request ----

  lemma KeptCounts(list: seq<string>, requested: seq<string>)
    requires Text.KeptOf(list, requested)
    ensures Elements(list) == Wanted(requested) && |list| == |Wanted(requested)|
  {
    DistinctExactlyWhenFull(list);
  }

  /** The row's score, times the number of wanted skills, is positive and at most those the user has claimed. */
  predicate EarnedOn(s: State, key: M.MatchKey, wanted: set<string>) {
    key in s.matches && Supported(s.matches[key], |wanted|, |Claimed(s.skills, key.user) * wanted|)
  }

  lemma EarnedOnRequest(s: State, key: M.MatchKey, requested: seq<string>)
    requires key in s.matches && OnlyEarned(s, key) && Text.KeptOf(s.jobs[key.job], requested)
    ensures EarnedOn(s, key, Wanted(requested))
  {
    KeptCounts(s.jobs[key.job], requested);
  }

  /** A match row belongs to a create of the run and is earned on what that request wants. */
  lemma EveryMatchIsEarnedOnItsRequest(actions: seq<Action>, key: M.MatchKey) returns (k: nat)
    requires key in Run(actions).matches
    ensures InsertsAt(Trace(actions), actions, k, key.job)
    ensures EarnedOn(Run(actions), key, Wanted(actions[k].requested))
  {
    EveryMatchIsEarned(actions);
    assert OnlyEarned(Run(actions), key);
    k := EveryJobIsAsRequested(actions, key.job);
    EarnedOnRequest(Run(actions), key, actions[k].requested);
  }

  /** The user's row at t is overlap / wanted if there is overlap in the rows at s, and as it was at s otherwise. */
  predicate MatchedOn(s: State, t: State, job: string, user: string, wanted: set<string>) {
    var key, shared := M.MatchKey(job, user), Claimed(s.projection.rows, user) * wanted;
    if shared != {} then key in t.matches && |wanted| > 0 && t.matches[key] == |shared| as real / |wanted| as real
    else (key in t.matches <==> key in s.matches) && (key in s.matches ==> t.matches[key] == s.matches[key])
  }

  lemma MatchedOnRequest(s: State, t: State, r: M.Record, user: string, requested: seq<string>)
    requires M.Matchable(r) && IsMatched(s.matches, t.matches, s.projection.rows, r, user)
    requires Text.KeptOf(r.required, requested)
    ensures MatchedOn(s, t, r.job, user, Wanted(requested))
  {
    KeptCounts(r.required, requested);
  }

  /** Every user at whose upsert the worker does not fail is matched. */
  ghost predicate AllMatchedOn(actions: seq<Action>, j: nat, n: nat, job: string, wanted: set<string>)
    requires j < n < |actions|
  {
    forall user :: !UpsertFailedBetween(actions, j, n, user) ==>
      MatchedOn(Run(actions[..j]), Run(actions[..n + 1]), job, user, wanted)
  }

  lemma FinishedMatchesRequest(actions: seq<Action>, j: nat, n: nat, requested: seq<string>)
    requires JobBetween(actions, j, n)
    requires PolledRecord(Run(actions[..j])).JobPosted?
    requires Text.KeptOf(PolledRecord(Run(actions[..j])).required, requested)
    ensures AllMatchedOn(actions, j, n, PolledRecord(Run(actions[..j])).job, Wanted(requested))
  {
    var s, t := Run(actions[..j]), Run(actions[..n + 1]);
    forall user | !UpsertFailedBetween(actions, j, n, user)
      ensures MatchedOn(s, t, PolledRecord(s).job, user, Wanted(requested))
    {
      FinishedJobMatchesExactly(actions, j, n, user);
      MatchedOnRequest(s, t, PolledRecord(s), user, requested);
    }
  }

  /**
   * A job taken up at j and finished at n was created by a step of the run up to j, and every user
   * whose upsert did not fail is matched on exactly what that step's request wants.
   */
  lemma FinishedJobMatchesItsRequest(actions: seq<Action>, j: nat, n: nat) returns (k: nat)
    requires JobBetween(actions, j, n)
    ensures PolledRecord(Run(actions[..j])).JobPosted?
    ensures var r := PolledRecord(Run(actions[..j]));
      && CreatedAt(Trace(actions[..j]), actions[..j], k, r.job, r.required)
      && AllMatchedOn(actions, j, n, r.job, Wanted(actions[k].requested))
  {
    FinishedJobIsHandled(actions, j, n);
    k := EveryPostIsAsRequested(actions[..j], Run(actions[..j]).matchPos);
    FinishedMatchesRequest(actions, j, n, actions[k].requested);
  }

  // ---- every posted job is taken up ----

  /** The worker takes up the record at position i with the step at j. */
  predicate TakesUp(states: seq<State>, actions: seq<Action>, j: nat, i: nat)
    requires |states| == |actions| + 1
  {
    && j < |actions| && actions[j].StartJob? && states[j].work.Idle? && states[j].matchPos == i
    && i < |states[j].posted| && states[j + 1].matchPos == i + 1
  }

  /** The worker's position moves to the next record by taking this one up, or back. */
  lemma PositionMoves(s: State, a: Action)
    ensures var s' := Step(s, a);
      || s'.matchPos <= s.matchPos
      || (a.StartJob? && s.work.Idle? && s.matchPos < |s.posted| && s'.matchPos == s.matchPos + 1)
  {
  }

  /** From j on, up to n, the worker is past position i. */
  predicate PastBetween(states: seq<State>, j: nat, n: nat, i: nat)
    requires n < |states|
  {
    forall k :: j < k <= n ==> i < states[k].matchPos
  }

  /** No record is skipped: one before the worker's position was taken up, and not left behind again since. */
  lemma {:induction false} NoneIsSkipped(states: seq<State>, actions: seq<Action>, n: nat, i: nat) returns (j: nat)
    requires IsTrace(states, actions) && n <= |actions| && states[0].matchPos == 0 && i < states[n].matchPos
    ensures j < n && TakesUp(states, actions, j, i) && PastBetween(states, j, n, i)
    decreases n
  {
    j := n - 1;
    assert StepsAt(states, actions, j);
    PositionMoves(states[j], actions[j]);
    if i < states[j].matchPos {
      j := NoneIsSkipped(states, actions, j, i);
    }
  }

  /** Every record before the worker's position was taken up at a step of the run. */
  lemma EveryRecordIsTakenUp(actions: seq<Action>, i: nat) returns (j: nat)
    requires i < Run(actions).matchPos
    ensures TakesUp(Trace(actions), actions, j, i) && PastBetween(Trace(actions), j, |actions|, i)
  {
    TraceOf(actions);
    j := NoneIsSkipped(Trace(actions), actions, |actions|, i);
  }

  predicate PostsStay(posted: seq<M.Record>, posted': seq<M.Record>) {
    posted <= posted'
  }

  lemma {:induction false} PostsStayFrom(states: seq<State>, actions: seq<Action>, k: nat, n: nat)
    requires IsTrace(states, actions) && k <= n <= |actions|
    ensures PostsStay(states[k].posted, states[n].posted)
    decreases n
  {
    if k < n {
      PostsStayFrom(states, actions, k, n - 1);
      assert StepsAt(states, actions, n - 1);
      StepKeepsPosts(states[n - 1], actions[n - 1]);
    }
  }

  lemma StepKeepsPosts(s: State, a: Action)
    ensures PostsStay(s.posted, Step(s, a).posted)
  {
  }

  /** The candidate query for record i does not fail, and a worker restarted in the middle of it reads it again. */
  predicate NeverGivenUp(states: seq<State>, actions: seq<Action>, i: nat)
    requires |states| == |actions| + 1
  {
    forall k :: 0 <= k < |actions| ==>
      && (actions[k] == StartJob(true) ==> states[k].matchPos != i)
      && (actions[k].RestartMatcher? && states[k].work.Matching? && states[k].matchPos == i + 1 ==> actions[k].to <= i)
  }

  predicate BusyBetween(states: seq<State>, j: nat, n: nat)
    requires n < |states|
  {
    forall k :: j < k <= n ==> states[k].work.Matching?
  }

  /** A busy worker stays where it is until it finishes or is restarted. */
  lemma BusyStays(s: State, a: Action)
    requires s.work.Matching?
    ensures var s' := Step(s, a);
      if s'.work.Matching? then s'.matchPos == s.matchPos
      else a.FinishJob? || (a.RestartMatcher? && s'.matchPos == a.to)
  {
  }

  /** A worker that is busy on record i up to k, idle at n and past i all the while finishes in between. */
  lemma {:induction false} FinishesBetween(
      states: seq<State>, actions: seq<Action>, j: nat, k: nat, n: nat, i: nat)
    returns (m: nat)
    requires IsTrace(states, actions) && NeverGivenUp(states, actions, i)
    requires j < k <= n <= |actions| && BusyBetween(states, j, k) && states[n].work.Idle?
    requires PastBetween(states, j, n, i) && states[k].matchPos == i + 1
    ensures k <= m < n && actions[m].FinishJob? && states[m + 1].work.Idle? && BusyBetween(states, j, m)
    decreases n - k
  {
    assert k < n;
    m := k;
    assert StepsAt(states, actions, k);
    BusyStays(states[k], actions[k]);
    assert i < states[k + 1].matchPos;
    if states[k + 1].work.Matching? {
      m := FinishesBetween(states, actions, j, k + 1, n, i);
    }
  }

  lemma TakingUpStarts(s: State, s': State, queryFault: bool)
    requires s' == Step(s, StartJob(queryFault)) && s.work.Idle? && s.matchPos < |s.posted|
    requires M.Matchable(s.posted[s.matchPos]) && !queryFault
    ensures s'.work.Matching?
  {
  }

  /** A well-formed record taken up without a fault is finished, once the worker is idle again. */
  lemma TakenUpIsFinished(states: seq<State>, actions: seq<Action>, j: nat, i: nat) returns (n: nat)
    requires IsTrace(states, actions) && NeverGivenUp(states, actions, i)
    requires TakesUp(states, actions, j, i) && M.Matchable(states[j].posted[i])
    requires PastBetween(states, j, |actions|, i)
    requires states[|actions|].work.Idle?
    ensures j < n < |actions| && actions[n].FinishJob? && states[n + 1].work.Idle? && BusyBetween(states, j, n)
  {
    assert StepsAt(states, actions, j);
    TakingUpStarts(states[j], states[j + 1], actions[j].queryFault);
    n := FinishesBetween(states, actions, j, j + 1, |actions|, i);
  }

  lemma BusyIsJobBetween(actions: seq<Action>, j: nat, n: nat)
    requires j < n < |actions| && actions[n].FinishJob? && Trace(actions)[j].work.Idle?
    requires Trace(actions)[n + 1].work.Idle? && BusyBetween(Trace(actions), j, n)
    ensures JobBetween(actions, j, n)
  {
    forall l | j < l <= n ensures BusyAt(actions, l) {
      assert Trace(actions)[l].work.Matching?;
    }
  }

  /** The record at position i is taken up at j, finished at n, and was created by the step at k. */
  ghost predicate HandledBetween(actions: seq<Action>, i: nat, j: nat, n: nat, k: nat) {
    && i < |Run(actions).posted| && Run(actions).posted[i].JobPosted? && JobBetween(actions, j, n)
    && PolledRecord(Run(actions[..j])) == Run(actions).posted[i]
    && CreatedAt(Trace(actions), actions, k, Run(actions).posted[i].job, Run(actions).posted[i].required)
  }

  lemma RecordIsFinished(actions: seq<Action>, i: nat) returns (j: nat, n: nat)
    requires i < Run(actions).matchPos && Run(actions).work.Idle?
    requires NeverGivenUp(Trace(actions), actions, i)
    requires i < |Run(actions).posted| && M.Matchable(Run(actions).posted[i])
    ensures JobBetween(actions, j, n) && PolledRecord(Run(actions[..j])) == Run(actions).posted[i]
  {
    var states := Trace(actions);
    TraceOf(actions);
    j := EveryRecordIsTakenUp(actions, i);
    PostsStayFrom(states, actions, j, |actions|);
    n := TakenUpIsFinished(states, actions, j, i);
    BusyIsJobBetween(actions, j, n);
  }

  /**
   * Once the worker is idle past a well-formed record, that record's candidate query never having
   * failed and any restart in the middle of it having read it again, it has been taken up at some j
   * and finished at some n, and every user whose upsert did not fail was matched on exactly what its
   * request wants.
   */
  lemma EveryPostedJobIsMatched(actions: seq<Action>, i: nat) returns (j: nat, n: nat, k: nat)
    requires i < Run(actions).matchPos && Run(actions).work.Idle?
    requires NeverGivenUp(Trace(actions), actions, i)
    requires i < |Run(actions).posted| && M.Matchable(Run(actions).posted[i])
    ensures HandledBetween(actions, i, j, n, k)
    ensures AllMatchedOn(actions, j, n, Run(actions).posted[i].job, Wanted(actions[k].requested))
  {
    j, n := RecordIsFinished(actions, i);
    k := EveryPostIsAsRequested(actions, i);
    FinishedMatchesRequest(actions, j, n, actions[k].requested);
  }
}
