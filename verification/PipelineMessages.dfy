/**
 * Whom a finished job has told: everyone it matched, once by each kind of message, and nobody else.
 *
 * Like the rows, the messages are read off the whole run, from the poll of the job to its end; a
 * publish that is lost in between is the one thing that leaves somebody untold.
 */
module PipelineMessages {
  import opened Prelude
  import opened UserSkills
  import opened Pipeline
  import opened PipelineJobs
  import M = Matcher

  function Message(job: string, required: seq<string>, user: string, overlap: nat): M.Announcement
    requires required != []
  {
    M.Announcement(M.MatchKey(job, user), M.Score(overlap, required))
  }

  /** The messages sent since: one per user taken so far, except the one still to be sent. */
  ghost predicate Told(
      before: seq<M.Announcement>, log: seq<M.Announcement>, pending: Option<M.Announcement>, done: map<string, nat>,
      job: string, required: seq<string>)
    requires required != []
  {
    && before <= log && |log| - |before| + (if pending.Some? then 1 else 0) == |done|
    && forall u :: u in done ==>
         Message(job, required, u, done[u]) in log[|before|..] || pending == Some(Message(job, required, u, done[u]))
  }

  lemma TakeTells(
      before: seq<M.Announcement>, log: seq<M.Announcement>, done: map<string, nat>, job: string, required: seq<string>,
      user: string, overlap: nat)
    requires required != [] && Told(before, log, None, done, job, required) && user !in done
    ensures Told(before, log, Some(Message(job, required, user, overlap)), done[user := overlap], job, required)
  {
    assert done[user := overlap].Keys == done.Keys + {user};
  }

  lemma SendTells(
      before: seq<M.Announcement>, log: seq<M.Announcement>, a: M.Announcement, done: map<string, nat>, job: string,
      required: seq<string>)
    requires required != [] && Told(before, log, Some(a), done, job, required)
    ensures Told(before, log + [a], None, done, job, required)
  {
    assert (log + [a])[|before|..] == log[|before|..] + [a];
  }

  /** Told, for the candidates the worker has taken so far. */
  ghost predicate Lane(
      before: seq<M.Announcement>, log: seq<M.Announcement>, pending: Option<M.Announcement>,
      candidates: map<string, nat>, w: Work)
    requires w.Matching?
  {
    w.required != [] && Told(before, log, pending, Done(candidates, w), w.job, w.required)
  }

  lemma LaneStarts(log: seq<M.Announcement>, candidates: map<string, nat>, w: Work)
    requires w.Matching? && w.required != [] && w.todo == candidates && w.failed == {}
    ensures Lane(log, log, None, candidates, w)
  {
    assert Done(candidates, w) == map[];
  }

  lemma SameLane(
      before: seq<M.Announcement>, log: seq<M.Announcement>, pending: Option<M.Announcement>,
      candidates: map<string, nat>, w: Work, w': Work)
    requires w.Matching? && w'.Matching? && w'.job == w.job && w'.required == w.required
    requires Lane(before, log, pending, candidates, w) && Done(candidates, w') == Done(candidates, w)
    ensures Lane(before, log, pending, candidates, w')
  {
  }

  lemma FailedIsNotDone(candidates: map<string, nat>, w: Work, user: string, w': Work)
    requires w.Matching? && user in w.todo
    requires w' == w.(todo := w.todo - {user}, failed := w.failed + {user})
    ensures Done(candidates, w') == Done(candidates, w)
  {
    assert w'.todo.Keys == w.todo.Keys - {user};
  }

  lemma LaneFails(
      before: seq<M.Announcement>, log: seq<M.Announcement>, candidates: map<string, nat>, w: Work, user: string,
        w': Work)
    requires w.Matching? && Lane(before, log, None, candidates, w) && user in w.todo
    requires w' == w.(todo := w.todo - {user}, failed := w.failed + {user})
    ensures Lane(before, log, None, candidates, w')
  {
    FailedIsNotDone(candidates, w, user, w');
    SameLane(before, log, None, candidates, w, w');
  }

  lemma LaneTakes(
      before: seq<M.Announcement>, log: seq<M.Announcement>, candidates: map<string, nat>, w: Work, user: string,
        w': Work,
      sending: Sending)
    requires w.Matching? && Lane(before, log, None, candidates, w) && user in w.todo && user in candidates
    requires user !in w.failed && w' == w.(todo := w.todo - {user}, sending := sending)
    ensures Lane(before, log, Some(Message(w.job, w.required, user, candidates[user])), candidates, w')
  {
    assert Done(candidates, w') == Done(candidates, w)[user := candidates[user]];
    TakeTells(before, log, Done(candidates, w), w.job, w.required, user, candidates[user]);
  }

  lemma LaneSends(
      before: seq<M.Announcement>, log: seq<M.Announcement>, a: M.Announcement, candidates: map<string, nat>, w: Work,
      sending: Sending)
    requires w.Matching? && Lane(before, log, Some(a), candidates, w)
    ensures Lane(before, log + [a], None, candidates, w.(sending := sending))
  {
    assert Done(candidates, w.(sending := sending)) == Done(candidates, w);
    SendTells(before, log, a, Done(candidates, w), w.job, w.required);
  }

  lemma LaneWaits(
      before: seq<M.Announcement>, log: seq<M.Announcement>, pending: Option<M.Announcement>,
      candidates: map<string, nat>, w: Work, sending: Sending)
    requires w.Matching? && Lane(before, log, pending, candidates, w)
    ensures Lane(before, log, pending, candidates, w.(sending := sending))
  {
    SameLane(before, log, pending, candidates, w, w.(sending := sending));
  }

  function PendingMatched(w: Work): Option<M.Announcement> {
    if w.Matching? && w.sending.Both? then Some(w.sending.a) else None
  }

  function PendingRealtime(w: Work): Option<M.Announcement> {
    if w.Matching? && !w.sending.Nothing? then Some(w.sending.a) else None
  }

  /** By both kinds of message. */
  ghost predicate Lanes(s: State, candidates: map<string, nat>, t: State)
    requires t.work.Matching?
  {
    && Lane(s.matched, t.matched, PendingMatched(t.work), candidates, t.work)
    && Lane(s.realtime, t.realtime, PendingRealtime(t.work), candidates, t.work)
  }

  /** At t the worker has told whom it has taken of the job it polled at s. */
  ghost predicate ToldAt(s: State, t: State) {
    OnJob(s, t) && Lanes(s, PolledCandidates(s), t)
  }

  /** What polling a job does to the worker and the logs. */
  lemma PollSends(s: State, a: Action, s': State)
    requires s' == Step(s, a) && s.work.Idle? && s'.work.Matching?
    ensures s'.matched == s.matched && s'.realtime == s.realtime
    ensures s'.work.todo == PolledCandidates(s) && s'.work.failed == {} && s'.work.sending.Nothing?
    ensures s'.work.required != []
  {
  }

  lemma PollTells(s: State, a: Action, s': State)
    requires s' == Step(s, a) && s.work.Idle? && s'.work.Matching?
    ensures ToldAt(s, s')
  {
    PollStartsJob(s, a);
    PollSends(s, a, s');
    LaneStarts(s.matched, PolledCandidates(s), s'.work);
    LaneStarts(s.realtime, PolledCandidates(s), s'.work);
  }

  /** What taking one candidate does to the worker and the logs. */
  lemma MatchUserSends(t: State, user: string, fault: bool, t': State)
    requires t' == AfterMatchUser(t, user, fault) && t.work.Matching? && t.work.required != []
    requires t.work.sending.Nothing? && user in t.work.todo && t.work.todo[user] >= M.MATCH_THRESHOLD_OVERLAP
    ensures t'.matched == t.matched && t'.realtime == t.realtime
    ensures t'.work
         == if fault then t.work.(todo := t.work.todo - {user}, failed := t.work.failed + {user})
            else t.work.(todo := t.work.todo - {user},
                         sending := Both(Message(t.work.job, t.work.required, user, t.work.todo[user])))
  {
  }

  lemma TakenLanes(s: State, candidates: map<string, nat>, t: State, user: string, fault: bool, t': State)
    requires t' == AfterMatchUser(t, user, fault) && t.work.Matching? && Lanes(s, candidates, t)
    requires t.work.sending.Nothing? && user in t.work.todo && t.work.todo[user] >= M.MATCH_THRESHOLD_OVERLAP
    requires user in candidates && t.work.todo[user] == candidates[user] && user !in t.work.failed
    ensures t'.work.Matching? && Lanes(s, candidates, t')
  {
    MatchUserSends(t, user, fault, t');
    if fault {
      LaneFails(s.matched, t.matched, candidates, t.work, user, t'.work);
      LaneFails(s.realtime, t.realtime, candidates, t.work, user, t'.work);
    } else {
      LaneTakes(s.matched, t.matched, candidates, t.work, user, t'.work, t'.work.sending);
      LaneTakes(s.realtime, t.realtime, candidates, t.work, user, t'.work, t'.work.sending);
    }
  }

  /** A user still to be taken is a candidate with its overlap, and has not failed. */
  lemma TodoIsCandidate(s: State, t: State, user: string)
    requires OnJob(s, t) && user in t.work.todo
    ensures var candidates := PolledCandidates(s);
      user in candidates && t.work.todo[user] == candidates[user] && user !in t.work.failed
        && candidates[user] >= M.MATCH_THRESHOLD_OVERLAP
  {
    M.CandidatesAreTheOverlapping(s.projection.rows.Keys, PolledRecord(s).required, user);
  }

  lemma TakenTells(s: State, t: State, user: string, fault: bool, t': State)
    requires t' == AfterMatchUser(t, user, fault) && OnJob(s, t) && Lanes(s, PolledCandidates(s), t)
    ensures t'.work.Matching? && Lanes(s, PolledCandidates(s), t')
  {
    if t.work.sending.Nothing? && user in t.work.todo {
      TodoIsCandidate(s, t, user);
      TakenLanes(s, PolledCandidates(s), t, user, fault, t');
    }
  }

  lemma MatchedSent(s: State, candidates: map<string, nat>, t: State, t': State)
    requires t' == AfterSendMatched(t, false) && t.work.Matching? && Lanes(s, candidates, t)
    ensures t'.work.Matching? && Lanes(s, candidates, t')
  {
    if t.work.sending.Both? {
      var a := t.work.sending.a;
      LaneSends(s.matched, t.matched, a, candidates, t.work, Last(a));
      LaneWaits(s.realtime, t.realtime, Some(a), candidates, t.work, Last(a));
    }
  }

  lemma RealtimeSent(s: State, candidates: map<string, nat>, t: State, t': State)
    requires t' == AfterSendRealtime(t, false) && t.work.Matching? && Lanes(s, candidates, t)
    ensures t'.work.Matching? && Lanes(s, candidates, t')
  {
    if t.work.sending.Last? {
      var a := t.work.sending.a;
      LaneSends(s.realtime, t.realtime, a, candidates, t.work, Nothing);
      LaneWaits(s.matched, t.matched, None, candidates, t.work, Nothing);
    }
  }

  lemma OthersSendNothing(t: State, a: Action, t': State)
    requires t' == Step(t, a) && t.work.Matching? && t'.work.Matching?
    requires !a.MatchUser? && !a.SendMatched? && !a.SendRealtime?
    ensures t'.work == t.work && t'.matched == t.matched && t'.realtime == t.realtime
  {
  }

  lemma OtherStepKeepsLanes(s: State, candidates: map<string, nat>, t: State, a: Action, t': State)
    requires t' == Step(t, a) && t.work.Matching? && Lanes(s, candidates, t) && t'.work.Matching?
    requires !a.MatchUser? && a != SendMatched(true) && a != SendRealtime(true)
    ensures Lanes(s, candidates, t')
  {
    if a.SendMatched? {
      MatchedSent(s, candidates, t, t');
    } else if a.SendRealtime? {
      RealtimeSent(s, candidates, t, t');
    } else {
      OthersSendNothing(t, a, t');
    }
  }

  lemma StepTells(s: State, t: State, a: Action, t': State)
    requires t' == Step(t, a) && ToldAt(s, t) && t'.work.Matching? && a != SendMatched(true) && a != SendRealtime(true)
    ensures ToldAt(s, t')
  {
    StepStaysOnJob(s, t, a);
    if a.MatchUser? {
      TakenTells(s, t, a.user, a.upsertFault, t');
    } else {
      OtherStepKeepsLanes(s, PolledCandidates(s), t, a, t');
    }
  }

  /** Neither kind of message is lost between the two positions. */
  predicate NoneLostBetween(actions: seq<Action>, j: nat, n: nat)
    requires n <= |actions|
  {
    forall k :: j < k < n ==> actions[k] != SendMatched(true) && actions[k] != SendRealtime(true)
  }

  lemma {:induction false} TellsAt(states: seq<State>, actions: seq<Action>, j: nat, k: nat)
    requires IsTrace(states, actions) && j < k < |actions| && states[j].work.Idle? && NoneLostBetween(actions, j, k)
    requires forall i :: j < i <= k ==> states[i].work.Matching?
    ensures ToldAt(states[j], states[k])
    decreases k
  {
    assert StepsAt(states, actions, k - 1);
    if k == j + 1 {
      PollTells(states[j], actions[j], states[k]);
    } else {
      TellsAt(states, actions, j, k - 1);
      StepTells(states[j], states[k - 1], actions[k - 1], states[k]);
    }
  }

  /**
   * The log has grown by one message for each of these users, with the user's overlap / length, and
   * by nothing else.
   */
  ghost predicate ToldExactly(
      before: seq<M.Announcement>, log: seq<M.Announcement>, users: map<string, nat>, job: string,
        required: seq<string>)
    requires required != []
  {
    && before <= log && |log| - |before| == |users|
    && forall u :: u in users ==> Message(job, required, u, users[u]) in log[|before|..]
  }

  lemma AllTold(
      before: seq<M.Announcement>, log: seq<M.Announcement>, users: map<string, nat>, job: string,
        required: seq<string>)
    requires required != [] && Told(before, log, None, users, job, required)
    ensures ToldExactly(before, log, users, job, required)
  {
  }

  lemma EverybodyIsDone(s: State, t: State)
    requires OnJob(s, t) && AfterFinishJob(t).work.Idle?
    ensures Done(PolledCandidates(s), t.work) == PolledCandidates(s) - t.work.failed && t.work.sending.Nothing?
    ensures AfterFinishJob(t).matched == t.matched && AfterFinishJob(t).realtime == t.realtime
  {
    assert t.work.todo == map[];
  }

  lemma FinishedHasTold(s: State, t: State, t': State)
    requires ToldAt(s, t) && t' == AfterFinishJob(t) && t'.work.Idle?
    ensures var matched := PolledCandidates(s) - t.work.failed;
      && M.Matchable(PolledRecord(s)) && var r := PolledRecord(s);
      && ToldExactly(s.matched, t'.matched, matched, r.job, r.required)
      && ToldExactly(s.realtime, t'.realtime, matched, r.job, r.required)
  {
    EverybodyIsDone(s, t);
    var r, done := PolledRecord(s), Done(PolledCandidates(s), t.work);
    AllTold(s.matched, t.matched, done, r.job, r.required);
    AllTold(s.realtime, t.realtime, done, r.job, r.required);
  }

  /**
   * Over every run: between the poll and the end of a finished job, none of whose messages is lost,
   * each user it matched is told exactly once by each kind of message, with overlap / length, and
   * nobody else is told anything.
   */
  lemma FinishedJobTellsItsMatches(actions: seq<Action>, j: nat, n: nat)
    requires JobBetween(actions, j, n) && NoneLostBetween(actions, j, n)
    ensures var s, t, failed := Run(actions[..j]), Run(actions[..n + 1]), FailedIn(Run(actions[..n]));
      && FailedBetween(actions, j, n, failed) && M.Matchable(PolledRecord(s)) && var r := PolledRecord(s);
      && ToldExactly(s.matched, t.matched, PolledCandidates(s) - failed, r.job, r.required)
      && ToldExactly(s.realtime, t.realtime, PolledCandidates(s) - failed, r.job, r.required)
  {
    FinishedJobIsHandled(actions, j, n);
    TraceSteps(actions);
    forall k | j < k <= n ensures Trace(actions)[k].work.Matching? {
      assert BusyAt(actions, k);
    }
    TellsAt(Trace(actions), actions, j, n);
    RunPrefix(actions, n);
    FinishedHasTold(Run(actions[..j]), Run(actions[..n]), Run(actions[..n + 1]));
  }

  /**
   * Who that is: exactly the users with a required skill in the snapshot at the poll, less those
   * whose upsert failed.
   */
  lemma WhoIsTold(s: State, failed: set<string>, user: string)
    requires M.Matchable(PolledRecord(s))
    ensures var told, shared := PolledCandidates(s) - failed,
      Claimed(s.projection.rows, user) * Elements(PolledRecord(s).required);
      && (user in told <==> shared != {} && user !in failed)
      && (user in told ==> told[user] == |shared|)
  {
    M.CandidatesAreTheOverlapping(s.projection.rows.Keys, PolledRecord(s).required, user);
    M.SharedIsIntersection(s.projection.rows, user, PolledRecord(s).required);
  }
}
