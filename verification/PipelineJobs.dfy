/**
 * One posted job inside the running pipeline.
 *
 * From the moment the worker polls it to the moment it is done, with everything else going on in
 * between: what rows it leaves, and in which order the rows and the messages about them appear.
 */
module PipelineJobs {
  import opened Prelude
  import opened UserSkills
  import opened Pipeline
  import M = Matcher

  function PolledRecord(s: State): M.Record {
    if s.matchPos < |s.posted| then s.posted[s.matchPos] else M.Garbage
  }

  /** The candidates of the record the worker is about to poll. */
  function PolledCandidates(s: State): map<string, nat> {
    var r := PolledRecord(s);
    if r.JobPosted? then M.Candidates(s.projection.rows.Keys, r.required) else map[]
  }

  function Done(candidates: map<string, nat>, w: Work): map<string, nat>
    requires w.Matching?
  {
    candidates - w.todo.Keys - w.failed
  }

  /** The worker has stored exactly the candidates it has taken and not failed at, and nothing else. */
  predicate Stored(before: M.Matches, candidates: map<string, nat>, now: M.Matches, w: Work) {
    && w.Matching? && w.required != []
    && (forall u :: u in w.todo ==> u in candidates && w.todo[u] == candidates[u])
    && w.failed <= candidates.Keys - w.todo.Keys
    && now == M.Scored(before, w.job, w.required, Done(candidates, w))
  }

  /** At t the worker is still on the job it polled at s. */
  predicate OnJob(s: State, t: State) {
    && M.Matchable(PolledRecord(s)) && t.work.Matching?
    && t.work.job == PolledRecord(s).job && t.work.required == PolledRecord(s).required
    && Stored(s.matches, PolledCandidates(s), t.matches, t.work)
  }

  lemma PollStartsJob(s: State, a: Action)
    requires s.work.Idle? && Step(s, a).work.Matching?
    ensures OnJob(s, Step(s, a)) && Step(s, a).work.failed == {}
  {
    var candidates := PolledCandidates(s);
    assert candidates - candidates.Keys - {} == map[];
    M.NothingScored(s.matches, PolledRecord(s).job, PolledRecord(s).required, candidates);
  }

  /** One candidate's upsert, tried. */
  lemma TakenIsStored(
      before: M.Matches, candidates: map<string, nat>, now: M.Matches, w: Work, user: string, fault: bool)
    requires Stored(before, candidates, now, w) && user in w.todo
    ensures var w' := w.(todo := w.todo - {user});
      if fault then Stored(before, candidates, now, w'.(failed := w.failed + {user}))
      else Stored(before, candidates, now[M.MatchKey(w.job, user) := M.Score(candidates[user], w.required)], w')
  {
    var w' := w.(todo := w.todo - {user});
    if fault {
      assert Done(candidates, w'.(failed := w.failed + {user})) == Done(candidates, w);
    } else {
      assert Done(candidates, w') == Done(candidates, w)[user := candidates[user]];
      M.ScoredNext(before, w.job, w.required, Done(candidates, w), user, candidates[user]);
    }
  }

  lemma MatchUserEffect(t: State, user: string, fault: bool)
    requires t.work.Matching? && t.work.sending.Nothing? && user in t.work.todo && t.work.required != []
    requires t.work.todo[user] >= M.MATCH_THRESHOLD_OVERLAP
    ensures var t' := AfterMatchUser(t, user, fault); var w := t.work.(todo := t.work.todo - {user});
      if fault then t'.work == w.(failed := w.failed + {user}) && t'.matches == t.matches
      else
        && t'.work == w.(sending := t'.work.sending)
        && t'.matches == t.matches[M.MatchKey(w.job, user) := M.Score(t.work.todo[user], w.required)]
  {
  }

  lemma MatchUserKeepsStored(before: M.Matches, candidates: map<string, nat>, t: State, user: string, fault: bool)
    requires Stored(before, candidates, t.matches, t.work) && t.work.sending.Nothing? && user in t.work.todo
    requires candidates[user] >= M.MATCH_THRESHOLD_OVERLAP
    ensures var t' := AfterMatchUser(t, user, fault);
      && Stored(before, candidates, t'.matches, t'.work)
      && t'.work.job == t.work.job && t'.work.required == t.work.required
      && t'.work.failed <= t.work.failed + if fault then {user} else {}
  {
    TakenIsStored(before, candidates, t.matches, t.work, user, fault);
    MatchUserEffect(t, user, fault);
  }

  lemma MatchUserStaysOnJob(s: State, t: State, user: string, fault: bool)
    requires OnJob(s, t)
    ensures var t' := AfterMatchUser(t, user, fault);
      OnJob(s, t') && t'.work.failed <= t.work.failed + if fault then {user} else {}
  {
    if user in t.work.todo && t.work.sending.Nothing? {
      M.CandidatesAreTheOverlapping(s.projection.rows.Keys, PolledRecord(s).required, user);
      MatchUserKeepsStored(s.matches, PolledCandidates(s), t, user, fault);
    }
  }

  /** Between its candidates' upserts the worker's job, its candidates and the table stay. */
  predicate SameJob(t: State, t': State) {
    && t.work.Matching? && t'.work.Matching? && t'.matches == t.matches
    && t'.work == t.work.(sending := t'.work.sending)
  }

  lemma SendStaysOnJob(t: State, a: Action)
    requires t.work.Matching? && (a.SendMatched? || a.SendRealtime?)
    ensures SameJob(t, Step(t, a))
  {
  }

  lemma WorkStepStaysOnJob(t: State, a: Action)
    requires t.work.Matching? && (a.StartJob? || a.FinishJob? || a.RestartMatcher?) && Step(t, a).work.Matching?
    ensures SameJob(t, Step(t, a))
  {
  }

  lemma OutsideStepStaysOnJob(t: State, a: Action)
    requires t.work.Matching? && !a.MatchUser? && !a.SendMatched? && !a.SendRealtime?
    requires !a.StartJob? && !a.FinishJob? && !a.RestartMatcher?
    ensures Step(t, a).matches == t.matches && Step(t, a).work == t.work
  {
  }

  lemma OtherStepStaysOnJob(s: State, t: State, a: Action)
    requires OnJob(s, t) && !a.MatchUser? && Step(t, a).work.Matching?
    ensures OnJob(s, Step(t, a)) && Step(t, a).work.failed == t.work.failed
  {
    if a.SendMatched? || a.SendRealtime? {
      SendStaysOnJob(t, a);
    } else if a.StartJob? || a.FinishJob? || a.RestartMatcher? {
      WorkStepStaysOnJob(t, a);
    } else {
      OutsideStepStaysOnJob(t, a);
    }
    SameJobIsOnJob(s, t, Step(t, a));
  }

  lemma SameJobIsOnJob(s: State, t: State, t': State)
    requires OnJob(s, t) && SameJob(t, t')
    ensures OnJob(s, t')
  {
  }

  lemma StepStaysOnJob(s: State, t: State, a: Action)
    requires OnJob(s, t) && Step(t, a).work.Matching?
    ensures OnJob(s, Step(t, a))
    ensures forall u :: u in Step(t, a).work.failed ==> u in t.work.failed || a == MatchUser(u, true)
  {
    if a.MatchUser? {
      MatchUserStaysOnJob(s, t, a.user, a.upsertFault);
    } else {
      OtherStepStaysOnJob(s, t, a);
    }
  }

  /** Before the action at position k the worker is on a job. */
  predicate BusyAt(actions: seq<Action>, k: nat)
    requires k <= |actions|
  {
    Run(actions[..k]).work.Matching?
  }

  /** The users at whose upsert the worker has failed in its current job. */
  function FailedIn(t: State): set<string> {
    if t.work.Matching? then t.work.failed else {}
  }

  /** The worker takes up a job at j and finishes it at n, whatever else happens in between. */
  predicate JobBetween(actions: seq<Action>, j: nat, n: nat) {
    && j < n < |actions| && actions[n].FinishJob? && !BusyAt(actions, j) && !BusyAt(actions, n + 1)
    && (forall k :: j < k <= n ==> BusyAt(actions, k))
  }

  predicate UpsertFailedBetween(actions: seq<Action>, j: nat, n: nat, user: string)
    requires n <= |actions|
  {
    exists k :: j < k < n && actions[k] == MatchUser(user, true)
  }

  predicate FailedBetween(actions: seq<Action>, j: nat, n: nat, failed: set<string>)
    requires n <= |actions|
  {
    forall u :: u in failed ==> UpsertFailedBetween(actions, j, n, u)
  }

  lemma FailedByNow(actions: seq<Action>, j: nat, n: nat, failed: set<string>, failed': set<string>)
    requires j < n < |actions| && FailedBetween(actions, j, n, failed)
    requires forall u :: u in failed' ==> u in failed || actions[n] == MatchUser(u, true)
    ensures FailedBetween(actions, j, n + 1, failed')
  {
    forall u | u in failed' ensures UpsertFailedBetween(actions, j, n + 1, u) {
      assert u in failed ==> UpsertFailedBetween(actions, j, n, u);
    }
  }

  /** The states before each action of the run, and after the last. */
  function Trace(actions: seq<Action>): seq<State> {
    seq(|actions| + 1, k requires 0 <= k <= |actions| => Run(actions[..k]))
  }

  predicate StepsAt(states: seq<State>, actions: seq<Action>, k: nat)
    requires k < |actions| && |states| == |actions| + 1
  {
    states[k + 1] == Step(states[k], actions[k])
  }

  predicate IsTrace(states: seq<State>, actions: seq<Action>) {
    |states| == |actions| + 1 && forall k :: 0 <= k < |actions| ==> StepsAt(states, actions, k)
  }

  lemma TraceSteps(actions: seq<Action>)
    ensures IsTrace(Trace(actions), actions)
  {
    forall k | 0 <= k < |actions| ensures StepsAt(Trace(actions), actions, k) {
      RunPrefix(actions, k);
    }
  }

  /** The job polled at j, and the users failed at since, as far as the run has come at k. */
  ghost predicate OnJobAt(states: seq<State>, actions: seq<Action>, j: nat, k: nat)
    requires j <= k <= |actions| && |states| == |actions| + 1
  {
    OnJob(states[j], states[k]) && FailedBetween(actions, j, k, FailedIn(states[k]))
  }

  lemma GoesOnAt(states: seq<State>, actions: seq<Action>, j: nat, k: nat)
    requires IsTrace(states, actions) && j < k < |actions|
    requires OnJobAt(states, actions, j, k) && states[k + 1].work.Matching?
    ensures OnJobAt(states, actions, j, k + 1)
  {
    assert StepsAt(states, actions, k);
    StepStaysOnJob(states[j], states[k], actions[k]);
    FailedByNow(actions, j, k, FailedIn(states[k]), FailedIn(states[k + 1]));
  }

  lemma {:induction false} StaysOnJob(states: seq<State>, actions: seq<Action>, j: nat, k: nat)
    requires IsTrace(states, actions) && j < k < |actions| && states[j].work.Idle?
    requires forall i :: j < i <= k ==> states[i].work.Matching?
    ensures OnJobAt(states, actions, j, k)
    decreases k
  {
    if k == j + 1 {
      assert StepsAt(states, actions, j);
      PollStartsJob(states[j], actions[j]);
    } else {
      StaysOnJob(states, actions, j, k - 1);
      GoesOnAt(states, actions, j, k - 1);
    }
  }

  lemma DoneIsHandled(s: State, t: State)
    requires OnJob(s, t) && AfterFinishJob(t).work.Idle?
    ensures t.matches == M.Handled(s.matches, s.projection.rows.Keys, PolledRecord(s), false, t.work.failed)
    ensures AfterFinishJob(t).matches == t.matches
  {
    assert t.work.todo == map[];
    assert Done(PolledCandidates(s), t.work) == PolledCandidates(s) - t.work.failed;
  }

  /**
   * A job taken up and finished is handled as the handler specifies against the snapshot of the
   * moment it was polled, however much the snapshot and everything else moved meanwhile.
   */
  lemma FinishedJobIsHandled(actions: seq<Action>, j: nat, n: nat)
    requires JobBetween(actions, j, n)
    ensures var s, failed := Run(actions[..j]), FailedIn(Run(actions[..n]));
      && M.Matchable(PolledRecord(s))
      && Run(actions[..n + 1]).matches == M.Handled(s.matches, s.projection.rows.Keys, PolledRecord(s), false, failed)
      && FailedBetween(actions, j, n, failed)
  {
    TraceSteps(actions);
    forall k | j < k <= n ensures Trace(actions)[k].work.Matching? {
      assert BusyAt(actions, k);
    }
    StaysOnJob(Trace(actions), actions, j, n);
    RunPrefix(actions, n);
    DoneIsHandled(Run(actions[..j]), Run(actions[..n]));
  }

  /** The row of a user in m' is overlap / length if there is overlap in the rows, and as in m otherwise. */
  predicate IsMatched(m: M.Matches, m': M.Matches, rows: Table, r: M.Record, user: string)
    requires M.Matchable(r)
  {
    var k, shared := M.MatchKey(r.job, user), Claimed(rows, user) * Elements(r.required);
    if shared != {} then k in m' && m'[k] == |shared| as real / |r.required| as real
    else (k in m' <==> k in m) && (k in m ==> m'[k] == m[k])
  }

  lemma HandledExceptFailed(m: M.Matches, rows: Table, r: M.Record, failed: set<string>, user: string)
    requires M.Matchable(r) && user !in failed
    ensures IsMatched(m, M.Handled(m, rows.Keys, r, false, failed), rows, r, user)
  {
    M.SharedIsIntersection(rows, user, r.required);
    M.CandidatesAreTheOverlapping(rows.Keys, r.required, user);
    M.KeysOfMeans(r.job, (M.Candidates(rows.Keys, r.required) - failed).Keys, M.MatchKey(r.job, user));
  }

  /**
   * So every user overlapping at the poll whose upsert did not fail has a row with exactly
   * overlap / length, and a user who does not overlap keeps the old row or none.
   */
  lemma FinishedJobMatchesExactly(actions: seq<Action>, j: nat, n: nat, user: string)
    requires JobBetween(actions, j, n) && !UpsertFailedBetween(actions, j, n, user)
    ensures var s := Run(actions[..j]);
      && M.Matchable(PolledRecord(s))
      && IsMatched(s.matches, Run(actions[..n + 1]).matches, s.projection.rows, PolledRecord(s), user)
  {
    FinishedJobIsHandled(actions, j, n);
    var s := Run(actions[..j]);
    HandledExceptFailed(s.matches, s.projection.rows, PolledRecord(s), FailedIn(Run(actions[..n])), user);
  }

  /** Step by step for one user: polling makes a candidate of exactly the overlapping, who is then stored and told. */
  lemma PolledJobMatchesExactly(s: State, user: string)
    requires s.work.Idle? && M.Matchable(PolledRecord(s))
    ensures var r := PolledRecord(s);
      var shared, k := Claimed(s.projection.rows, user) * Elements(r.required), M.MatchKey(r.job, user);
      var polled := AfterStartJob(s, false);
      && polled.work.Matching? && (user in polled.work.todo <==> shared != {})
      && (shared != {} ==>
            var stored := AfterMatchUser(polled, user, false);
            var score := |shared| as real / |r.required| as real;
            && k in stored.matches && stored.matches[k] == score
            && AfterSendMatched(stored, false).matched == s.matched + [M.Announcement(k, score)]
            && AfterSendRealtime(AfterSendMatched(stored, false), false).realtime
                == s.realtime + [M.Announcement(k, score)])
  {
    var r := PolledRecord(s);
    M.CandidatesAreTheOverlapping(s.projection.rows.Keys, r.required, user);
    M.SharedIsIntersection(s.projection.rows, user, r.required);
  }

  // ---- the order of upsert and messages ----

  /** While messages about a row are still to be sent, the row is there with that score. */
  predicate SendsWhatIsStored(s: State) {
    s.work.Matching? && !s.work.sending.Nothing? ==>
      s.work.sending.a.key in s.matches && s.matches[s.work.sending.a.key] == s.work.sending.a.score
  }

  lemma StepSendsWhatIsStored(s: State, a: Action)
    requires SendsWhatIsStored(s)
    ensures SendsWhatIsStored(Step(s, a))
  {
  }

  lemma {:induction false} RunSendsWhatIsStored(actions: seq<Action>)
    ensures SendsWhatIsStored(Run(actions))
  {
    if actions != [] {
      RunSendsWhatIsStored(actions[..|actions| - 1]);
      StepSendsWhatIsStored(Run(actions[..|actions| - 1]), actions[|actions| - 1]);
    }
  }

  /** At most one message more, and it says what the row it names says. */
  predicate SaysStored(log: seq<M.Announcement>, log': seq<M.Announcement>, m: M.Matches) {
    log' == log || (|log'| == |log| + 1 && log <= log' && log'[|log|].key in m
      && m[log'[|log|].key] == log'[|log|].score)
  }

  lemma SendSaysStored(s: State, a: Action)
    requires SendsWhatIsStored(s) && (a.SendMatched? || a.SendRealtime?)
    ensures var s' := Step(s, a);
      SaysStored(s.matched, s'.matched, s'.matches) && SaysStored(s.realtime, s'.realtime, s'.matches)
  {
  }

  /** A message of either kind says, when it is sent, exactly what the row it names then says. */
  lemma MessagesSayWhatTheRowSays(actions: seq<Action>, a: Action)
    ensures var s, s' := Run(actions), Step(Run(actions), a);
      SaysStored(s.matched, s'.matched, s'.matches) && SaysStored(s.realtime, s'.realtime, s'.matches)
  {
    RunSendsWhatIsStored(actions);
    if a.SendMatched? || a.SendRealtime? {
      SendSaysStored(Run(actions), a);
    }
  }
}
