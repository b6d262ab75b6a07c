/**
 * jobs-service's matching worker (backend/internal/jobs/matcher.go): score every user in the
 * snapshot against a posted job, upsert the matches, announce them.
 */
module Matcher {
  import opened Prelude
  import opened UserSkills

  const MATCH_THRESHOLD_OVERLAP := 1

  /** A record of the job.posted topic; Garbage is a payload that does not decode. */
  datatype Record = Garbage | JobPosted(job: string, required: seq<string>)

  /** The primary key of jobs.job_matches. */
  datatype MatchKey = MatchKey(job: string, user: string)

  type Matches = map<MatchKey, real>

  /** A job.matched event or a realtime job_match notification. */
  datatype Announcement = Announcement(key: MatchKey, score: real)

  /** The required skills the user has a snapshot row for. */
  function Shared(rows: set<Key>, user: string, required: seq<string>): set<string> {
    set s | s in required && Key(user, s) in rows
  }

  lemma SharedIsIntersection(snapshot: Table, user: string, required: seq<string>)
    ensures Shared(snapshot.Keys, user, required) == Claimed(snapshot, user) * Elements(required)
  {
    forall s {
      ClaimedMeansKey(snapshot, user, s);
    }
  }

  function Users(rows: set<Key>): set<string> {
    set k | k in rows :: k.user
  }

  /** SELECT user_id, count(*) .. WHERE skill_id IN required GROUP BY user_id. */
  function Candidates(rows: set<Key>, required: seq<string>): map<string, nat> {
    map u | u in Users(rows) && Shared(rows, u, required) != {} :: |Shared(rows, u, required)|
  }

  function Score(overlap: nat, required: seq<string>): real
    requires required != []
  {
    overlap as real / |required| as real
  }

  /** Exactly the users with a required skill are candidates. */
  lemma CandidatesAreTheOverlapping(rows: set<Key>, required: seq<string>, user: string)
    ensures user in Candidates(rows, required) <==> Shared(rows, user, required) != {}
    ensures user in Candidates(rows, required) ==> Candidates(rows, required)[user] >= MATCH_THRESHOLD_OVERLAP
  {
    if Shared(rows, user, required) != {} {
      var s :| s in Shared(rows, user, required);
      assert Key(user, s).user in Users(rows);
    }
  }

  /**
   * A candidate's score lies in (0,1] and is 1 exactly when the snapshot covers every required
   * skill and the list repeats none: with a repeat, full cover scores below 1.
   */
  lemma ScoreMeansCover(snapshot: Table, user: string, required: seq<string>)
    requires required != [] && user in Candidates(snapshot.Keys, required)
    ensures 0.0 < Score(Candidates(snapshot.Keys, required)[user], required) <= 1.0
    ensures Score(Candidates(snapshot.Keys, required)[user], required) == 1.0
       <==> Elements(required) <= Claimed(snapshot, user) && Distinct(required)
  {
    CandidatesAreTheOverlapping(snapshot.Keys, required, user);
    SharedIsIntersection(snapshot, user, required);
    SubsetCardinality(Shared(snapshot.Keys, user, required), Elements(required));
    DistinctExactlyWhenFull(required);
    ScoreBounds(|Shared(snapshot.Keys, user, required)|, required);
  }

  lemma ScoreBounds(overlap: nat, required: seq<string>)
    requires 0 < overlap <= |required|
    ensures 0.0 < Score(overlap, required) <= 1.0
    ensures Score(overlap, required) == 1.0 <==> overlap == |required|
    ensures Score(overlap, required) * |required| as real == overlap as real
  {
  }

  function KeysOf(job: string, users: set<string>): set<MatchKey> {
    set u | u in users :: MatchKey(job, u)
  }

  lemma KeysOfMeans(job: string, users: set<string>, k: MatchKey)
    ensures k in KeysOf(job, users) <==> k.job == job && k.user in users
  {
    assert k == MatchKey(k.job, k.user);
  }

  /** What upserting these users' overlaps for one job leaves. */
  function Scored(m: Matches, job: string, required: seq<string>, overlaps: map<string, nat>): Matches
    requires required != []
  {
    map k | k in m.Keys + KeysOf(job, overlaps.Keys) ::
      if k.job == job && k.user in overlaps then Score(overlaps[k.user], required) else m[k]
  }

  lemma ScoredNext(m: Matches, job: string, required: seq<string>, overlaps: map<string, nat>, user: string, n: nat)
    requires required != []
    ensures Scored(m, job, required, overlaps[user := n])
         == Scored(m, job, required, overlaps)[MatchKey(job, user) := Score(n, required)]
  {
    var more := overlaps[user := n];
    forall k ensures k in KeysOf(job, more.Keys) <==> k in KeysOf(job, overlaps.Keys) || k == MatchKey(job, user) {
      KeysOfMeans(job, more.Keys, k);
      KeysOfMeans(job, overlaps.Keys, k);
    }
  }

  /** The records that reach the scoring. */
  predicate Matchable(msg: Record) {
    msg.JobPosted? && msg.job != "" && msg.required != []
  }

  /** What handling a record with these failures leaves. */
  function Handled(m: Matches, rows: set<Key>, r: Record, queryFault: bool, failed: set<string>): Matches {
    if Matchable(r) && !queryFault then Scored(m, r.job, r.required, Candidates(rows, r.required) - failed) else m
  }

  /** Row by row: the job's candidates get their own overlap's score; every other row stays. */
  lemma HandledByRow(m: Matches, rows: set<Key>, job: string, required: seq<string>, k: MatchKey)
    requires job != "" && required != []
    ensures var m' := Handled(m, rows, JobPosted(job, required), false, {});
      if k.job == job && Shared(rows, k.user, required) != {} then
        k in m' && m'[k] == |Shared(rows, k.user, required)| as real / |required| as real
      else
        (k in m' <==> k in m) && (k in m ==> m'[k] == m[k])
  {
    CandidatesAreTheOverlapping(rows, required, k.user);
    KeysOfMeans(job, Candidates(rows, required).Keys, k);
  }

  /** Each table is what handling the record leaves of the one before. */
  predicate HandledOver(tables: seq<Matches>, rows: set<Key>, r: Record) {
    forall k :: 0 <= k < |tables| - 1 ==> tables[k + 1] == Handled(tables[k], rows, r, false, {})
  }

  lemma ScoredTwice(m: Matches, job: string, required: seq<string>, overlaps: map<string, nat>)
    requires required != []
    ensures var once := Scored(m, job, required, overlaps); Scored(once, job, required, overlaps) == once
  {
  }

  /** Against an unchanged snapshot, redelivering a job.posted record changes nothing after the first time. */
  lemma {:induction false} RedeliveryIsIdempotent(tables: seq<Matches>, rows: set<Key>, r: Record, n: nat)
    requires HandledOver(tables, rows, r) && 0 < n < |tables|
    ensures tables[n] == tables[1] == Handled(tables[0], rows, r, false, {})
  {
    assert tables[1] == Handled(tables[0], rows, r, false, {});
    if n > 1 {
      RedeliveryIsIdempotent(tables, rows, r, n - 1);
      assert tables[n] == Handled(tables[n - 1], rows, r, false, {});
      if Matchable(r) {
        ScoredTwice(tables[0], r.job, r.required, Candidates(rows, r.required) - {});
      }
    }
  }

  class MatchStore {
    /** jobs.user_skill_snapshot. */
    var snapshot: Table
    /** jobs.job_matches. */
    var matches: Matches
    /** What was handed to the job.matched and realtime publishers, in order. */
    var matched: seq<Announcement>
    var realtime: seq<Announcement>
    const hasPublisher: bool
    const hasRealtime: bool

    constructor (snapshot: Table, hasPublisher: bool, hasRealtime: bool)
      ensures this.snapshot == snapshot && matches == map[] && matched == [] && realtime == []
      ensures this.hasPublisher == hasPublisher && this.hasRealtime == hasRealtime
    {
      this.snapshot := snapshot;
      matches, matched, realtime := map[], [], [];
      this.hasPublisher, this.hasRealtime := hasPublisher, hasRealtime;
    }

    /** None is a failed query. */
    method CandidatesForSkills(required: seq<string>, fault: bool) returns (out: Option<map<string, nat>>)
      ensures out == if fault && required != [] then None else Some(Candidates(snapshot.Keys, required))
    {
      var counts: map<string, nat> := map[];
      if |required| == 0 {
        CountedIsCandidates(counts, snapshot.Keys, required);
        return Some(counts);
      }
      if fault {
        return None;
      }
      var todo := snapshot.Keys;
      ghost var done: set<Key> := {};
      while todo != {}
        invariant done !! todo && done + todo == snapshot.Keys
        invariant Counted(counts, done, required)
        decreases todo
      {
        var k :| k in todo;
        CountRow(counts, done, required, k);
        if k.skill in required {
          counts := counts[k.user := Count(counts, k.user) + 1];
        }
        todo, done := todo - {k}, done + {k};
      }
      assert done == snapshot.Keys;
      CountedIsCandidates(counts, done, required);
      return Some(counts);
    }

    /** INSERT .. ON CONFLICT (job_id, user_id) DO UPDATE. */
    method UpsertMatch(job: string, user: string, score: real, fault: bool) returns (ok: bool)
      modifies this`matches
      ensures ok == !fault
      ensures matches == if fault then old(matches) else old(matches)[MatchKey(job, user) := score]
    {
      if fault {
        return false;
      }
      matches := matches[MatchKey(job, user) := score];
      return true;
    }

    /**
     * The job.posted handler. `failed` are the users whose upsert fails; the loop meets the
     * candidates in any order, as a Go map range does. `notified` are the users it counts as matched.
     */
    method HandleJobPosted(msg: Record, queryFault: bool, failed: set<string>) returns (ok: bool, notified: seq<string>)
      modifies this`matches, this`matched, this`realtime
      ensures old(AllStored(matched, matches)) ==> AllStored(matched, matches)
      ensures old(AllStored(realtime, matches)) ==> AllStored(realtime, matches)
      ensures matches == Handled(old(matches), snapshot.Keys, msg, queryFault, failed)
      ensures !ok <==> Matchable(msg) && queryFault
      ensures Distinct(notified)
      ensures Elements(notified)
        == if Matchable(msg) && ok then Candidates(snapshot.Keys, msg.required).Keys - failed else {}
      ensures Matchable(msg) ==> KeysOf(msg.job, Elements(notified)) <= matches.Keys
      ensures matched
           == old(matched) + if Matchable(msg) && hasPublisher then Announcements(msg.job, notified, matches) else []
      ensures realtime
           == old(realtime) + if Matchable(msg) && hasRealtime then Announcements(msg.job, notified, matches) else []
      // nothing is done about a record that does not decode, names no job or requires nothing
      ensures !(msg.JobPosted? && msg.job != "" && msg.required != []) ==>
        ok && notified == [] && matches == old(matches) && matched == old(matched) && realtime == old(realtime)
    {
      notified := [];
      match msg
      case Garbage =>
        return true, [];
      case JobPosted(job, required) =>
        if job == "" || |required| == 0 {
          return true, [];
        }
        var found := CandidatesForSkills(required, queryFault);
        if found.None? {
          return false, [];
        }
        var candidates := found.value;
        forall u | u in candidates ensures candidates[u] >= MATCH_THRESHOLD_OVERLAP {
          CandidatesAreTheOverlapping(snapshot.Keys, required, u);
        }
        ghost var before := matches;
        notified := UpsertAll(job, required, candidates, failed);
        MessagesCarryStoredScores(before, job, required, notified, candidates, failed);
        StaysStored(old(matched), before, job, notified, matches);
        StaysStored(old(realtime), before, job, notified, matches);
        return true, notified;
    }

    /** The handler's loop over its candidates. */
    method UpsertAll(job: string, required: seq<string>, candidates: map<string, nat>, failed: set<string>)
      returns (notified: seq<string>)
      requires required != []
      requires forall u :: u in candidates ==> candidates[u] >= MATCH_THRESHOLD_OVERLAP
      modifies this`matches, this`matched, this`realtime
      ensures matches == Scored(old(matches), job, required, candidates - failed)
      ensures Distinct(notified) && Elements(notified) == candidates.Keys - failed
      ensures matched == Logged(old(matched), hasPublisher, job, required, notified, candidates)
      ensures realtime == Logged(old(realtime), hasRealtime, job, required, notified, candidates)
    {
      notified := [];
      var todo := candidates.Keys;
      NothingScored(matches, job, required, candidates);
      while todo != {}
        invariant todo <= candidates.Keys
        invariant Distinct(notified) && Elements(notified) == candidates.Keys - todo - failed
        invariant matches == Scored(old(matches), job, required, Among(candidates, notified))
        invariant matched == Logged(old(matched), hasPublisher, job, required, notified, candidates)
        invariant realtime == Logged(old(realtime), hasRealtime, job, required, notified, candidates)
        decreases todo
      {
        var user :| user in todo;
        if candidates[user] < MATCH_THRESHOLD_OVERLAP {
          // the source skips such a user; the query never returns one
          assert false;
        }
        var score := candidates[user] as real / |required| as real;
        Leaving(candidates.Keys, todo, failed, user);
        todo := todo - {user};
        var stored := UpsertMatch(job, user, score, user in failed);
        if !stored {
          continue;
        }
        OneMore(old(matches), job, required, candidates, notified, user);
        LogNext(old(matched), hasPublisher, job, required, notified, candidates, user);
        LogNext(old(realtime), hasRealtime, job, required, notified, candidates, user);
        notified := notified + [user];
        if hasPublisher {
          matched := matched + [Announcement(MatchKey(job, user), score)];
        }
        if hasRealtime {
          realtime := realtime + [Announcement(MatchKey(job, user), score)];
        }
      }
      AmongAll(candidates, notified, failed);
    }
  }

  function Among(candidates: map<string, nat>, users: seq<string>): map<string, nat> {
    map u | u in candidates && u in users :: candidates[u]
  }

  lemma AmongAll(candidates: map<string, nat>, users: seq<string>, failed: set<string>)
    requires Elements(users) == candidates.Keys - failed
    ensures Among(candidates, users) == candidates - failed
  {
    assert forall u :: u in users <==> u in Elements(users);
  }

  lemma NothingScored(m: Matches, job: string, required: seq<string>, candidates: map<string, nat>)
    requires required != []
    ensures Scored(m, job, required, Among(candidates, [])) == m
  {
    assert Among(candidates, []) == map[];
  }

  lemma OneMore(
      m: Matches, job: string, required: seq<string>, candidates: map<string, nat>, users: seq<string>, user: string)
    requires required != [] && user in candidates && Distinct(users) && user !in Elements(users)
    ensures Scored(m, job, required, Among(candidates, users + [user]))
         == Scored(m, job, required, Among(candidates, users))[MatchKey(job, user) := Score(candidates[user], required)]
    ensures Distinct(users + [user]) && Elements(users + [user]) == Elements(users) + {user}
  {
    assert Among(candidates, users + [user]) == Among(candidates, users)[user := candidates[user]];
    ScoredNext(m, job, required, Among(candidates, users), user, candidates[user]);
  }

  lemma Leaving(all: set<string>, todo: set<string>, failed: set<string>, user: string)
    requires user in todo && todo <= all
    ensures all - (todo - {user}) - failed == all - todo - failed + if user in failed then {} else {user}
    ensures user !in all - todo - failed
  {
  }

  /** What a publisher has been handed, if there is one. */
  function Logged(
      before: seq<Announcement>, enabled: bool, job: string, required: seq<string>, users: seq<string>,
      overlaps: map<string, nat>): seq<Announcement>
    requires required != []
  {
    before + if enabled then Messages(job, required, users, overlaps) else []
  }

  lemma LogNext(
      before: seq<Announcement>, enabled: bool, job: string, required: seq<string>, users: seq<string>,
      overlaps: map<string, nat>, user: string)
    requires required != [] && user in overlaps
    ensures Logged(before, enabled, job, required, users + [user], overlaps)
         == if enabled then Logged(before, enabled, job, required, users, overlaps)
           + [Announcement(MatchKey(job, user), Score(overlaps[user], required))]
            else Logged(before, enabled, job, required, users, overlaps)
  {
    assert (users + [user])[..|users|] == users;
  }

  function Messages(
      job: string, required: seq<string>, users: seq<string>, overlaps: map<string, nat>): seq<Announcement>
    requires required != []
  {
    if users == [] then []
    else
      var u := users[|users| - 1];
      Messages(job, required, users[..|users| - 1], overlaps)
      + [Announcement(MatchKey(job, u), if u in overlaps then Score(overlaps[u], required) else 0.0)]
  }

  /** One announcement per user, carrying the score the table holds. */
  function Announcements(job: string, users: seq<string>, m: Matches): seq<Announcement> {
    seq(|users|, i requires 0 <= i < |users| =>
      var k := MatchKey(job, users[i]);
      Announcement(k, if k in m then m[k] else 0.0))
  }

  /** For users with rows: one announcement each, in their order, of exactly their row. */
  lemma AnnouncedEach(job: string, users: seq<string>, m: Matches)
    requires KeysOf(job, Elements(users)) <= m.Keys
    ensures |Announcements(job, users, m)| == |users|
    ensures forall i :: 0 <= i < |users| ==>
      var k := MatchKey(job, users[i]);
      k in m && Announcements(job, users, m)[i] == Announcement(k, m[k])
  {
    forall i | 0 <= i < |users| ensures MatchKey(job, users[i]) in m {
      KeysOfMeans(job, Elements(users), MatchKey(job, users[i]));
    }
  }

  /** Every announcement names a row that exists. */
  predicate AllStored(log: seq<Announcement>, m: Matches) {
    forall i :: 0 <= i < |log| ==> log[i].key in m
  }

  lemma StaysStored(log: seq<Announcement>, m: Matches, job: string, users: seq<string>, m': Matches)
    requires m.Keys <= m'.Keys && KeysOf(job, Elements(users)) <= m'.Keys
    ensures AllStored(log, m) ==> AllStored(log, m') && AllStored(log + Announcements(job, users, m'), m')
  {
    forall u | u in users ensures MatchKey(job, u) in m' {
      KeysOfMeans(job, Elements(users), MatchKey(job, u));
    }
  }

  lemma {:induction false} MessagesCarryStoredScores(
      m: Matches, job: string, required: seq<string>, users: seq<string>, overlaps: map<string, nat>,
      failed: set<string>)
    requires required != [] && Elements(users) <= overlaps.Keys - failed
    ensures var m' := Scored(m, job, required, overlaps - failed);
      && KeysOf(job, Elements(users)) <= m'.Keys
      && Messages(job, required, users, overlaps) == Announcements(job, users, m')
  {
    var m' := Scored(m, job, required, overlaps - failed);
    if users != [] {
      var n := |users| - 1;
      var u := users[n];
      assert users == users[..n] + [u];
      assert Elements(users[..n]) <= Elements(users);
      MessagesCarryStoredScores(m, job, required, users[..n], overlaps, failed);
      assert u in Elements(users);
      KeysOfMeans(job, (overlaps - failed).Keys, MatchKey(job, u));
      assert Announcements(job, users, m')
        == Announcements(job, users[..n], m') + [Announcement(MatchKey(job, u), m'[MatchKey(job, u)])];
    }
  }

  function Count(counts: map<string, nat>, user: string): nat {
    if user in counts then counts[user] else 0
  }

  /** The counts are those of the rows read so far. */
  ghost predicate Counted(counts: map<string, nat>, rows: set<Key>, required: seq<string>) {
    forall u :: Count(counts, u) == |Shared(rows, u, required)| && (u in counts <==> Shared(rows, u, required) != {})
  }

  lemma CountedIsCandidates(counts: map<string, nat>, rows: set<Key>, required: seq<string>)
    requires Counted(counts, rows, required)
    ensures counts == Candidates(rows, required)
  {
    forall u ensures u in counts <==> u in Candidates(rows, required) {
      CandidatesAreTheOverlapping(rows, required, u);
      assert Count(counts, u) == |Shared(rows, u, required)|;
    }
    forall u | u in counts ensures counts[u] == Candidates(rows, required)[u] {
      assert Count(counts, u) == |Shared(rows, u, required)|;
    }
  }

  lemma SharedNext(rows: set<Key>, required: seq<string>, k: Key, u: string)
    requires k !in rows
    ensures Shared(rows + {k}, u, required)
         == Shared(rows, u, required) + if u == k.user && k.skill in required then {k.skill} else {}
    ensures k.skill !in Shared(rows, k.user, required)
  {
    assert k == Key(k.user, k.skill);
  }

  /** Counting one more snapshot row. */
  lemma CountRow(counts: map<string, nat>, rows: set<Key>, required: seq<string>, k: Key)
    requires k !in rows && Counted(counts, rows, required)
    ensures Counted(
      if k.skill in required then counts[k.user := Count(counts, k.user) + 1] else counts, rows + {k}, required)
  {
    var after := if k.skill in required then counts[k.user := Count(counts, k.user) + 1] else counts;
    forall u
      ensures Count(after, u) == |Shared(rows + {k}, u, required)|
      ensures u in after <==> Shared(rows + {k}, u, required) != {}
    {
      SharedNext(rows, required, k, u);
      assert Count(counts, u) == |Shared(rows, u, required)|;
    }
  }
}
