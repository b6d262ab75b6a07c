/**
 * jobs-service's tables: a job and its required skills are inserted in one transaction and never
 * change; the listings read them with two queries and no transaction.
 */
module JobStore {
  import opened Prelude
  import opened Order

  datatype JobRow = JobRow(id: string, title: string, description: string)

  datatype Required = Required(job: string, skill: string)

  datatype Tables = Tables(jobs: seq<JobRow>, required: set<Required>)

  datatype Insert = Insert(job: JobRow, skills: seq<string>)

  datatype JobWithSkills = JobWithSkills(job: JobRow, skills: seq<string>)

  predicate HasJob(t: Tables, id: string) {
    exists i :: 0 <= i < |t.jobs| && t.jobs[i].id == id
  }

  function RequiredOf(t: Tables, id: string): set<string> {
    set r | r in t.required && r.job == id :: r.skill
  }

  /** Both primary keys are enforced, and a violation rolls the whole transaction back. */
  function Inserted(t: Tables, tx: Insert): Tables {
    if HasJob(t, tx.job.id) || !Distinct(tx.skills) then t
    else Tables(t.jobs + [tx.job], t.required + set i | 0 <= i < |tx.skills| :: Required(tx.job.id, tx.skills[i]))
  }

  function InsertedAll(t: Tables, txs: seq<Insert>): Tables {
    if txs == [] then t else Inserted(InsertedAll(t, txs[..|txs| - 1]), txs[|txs| - 1])
  }

  /** The foreign key of required skills, and the primary key of jobs. */
  ghost predicate Consistent(t: Tables) {
    && (forall r :: r in t.required ==> HasJob(t, r.job))
    && (forall i, j :: 0 <= i < j < |t.jobs| ==> t.jobs[i].id != t.jobs[j].id)
  }

  lemma InsertedTables(t: Tables, tx: Insert)
    requires Consistent(t)
    ensures var t' := Inserted(t, tx);
      && Consistent(t') && t.jobs <= t'.jobs
      && (forall id :: HasJob(t, id) ==> HasJob(t', id) && RequiredOf(t', id) == RequiredOf(t, id))
  {
    var t' := Inserted(t, tx);
    if t' != t {
      forall i | 0 <= i < |t.jobs| ensures HasJob(t', t.jobs[i].id) {
        assert t'.jobs[i] == t.jobs[i];
      }
      assert t'.jobs[|t.jobs|] == tx.job;
      assert HasJob(t', tx.job.id);
    }
  }

  /** The transaction takes effect exactly if the id is free and no skill repeats. */
  predicate Commits(t: Tables, tx: Insert) {
    !HasJob(t, tx.job.id) && Distinct(tx.skills)
  }

  /** One that does stores the job with exactly its skills; one that does not changes nothing. */
  lemma InsertedStoresTheJob(t: Tables, tx: Insert)
    requires Consistent(t)
    ensures !Commits(t, tx) ==> Inserted(t, tx) == t
    ensures Commits(t, tx) ==>
      var t' := Inserted(t, tx);
      && t'.jobs == t.jobs + [tx.job] && RequiredOf(t', tx.job.id) == Elements(tx.skills)
      && forall id :: id != tx.job.id ==> RequiredOf(t', id) == RequiredOf(t, id)
  {
    if Commits(t, tx) {
      var t' := Inserted(t, tx);
      forall skill ensures skill in RequiredOf(t', tx.job.id) <==> skill in tx.skills {
        assert Required(tx.job.id, skill) in t.required ==> HasJob(t, tx.job.id);
        if skill in tx.skills {
          var i :| 0 <= i < |tx.skills| && tx.skills[i] == skill;
          assert Required(tx.job.id, tx.skills[i]) in t'.required;
        }
      }
      forall id | id != tx.job.id ensures RequiredOf(t', id) == RequiredOf(t, id) {
        forall skill ensures Required(id, skill) in t'.required <==> Required(id, skill) in t.required {
        }
      }
    }
  }

  /** Whatever is inserted later, a job that exists keeps exactly its required skills. */
  lemma {:induction false} InsertsKeepOldJobs(t: Tables, txs: seq<Insert>)
    requires Consistent(t)
    ensures var t' := InsertedAll(t, txs);
      && Consistent(t') && t.jobs <= t'.jobs
      && (forall id :: HasJob(t, id) ==> HasJob(t', id) && RequiredOf(t', id) == RequiredOf(t, id))
  {
    if txs != [] {
      InsertsKeepOldJobs(t, txs[..|txs| - 1]);
      InsertedTables(InsertedAll(t, txs[..|txs| - 1]), txs[|txs| - 1]);
    }
  }

  lemma {:induction false} InsertedAllInTwo(t: Tables, a: seq<Insert>, b: seq<Insert>)
    ensures InsertedAll(t, a + b) == InsertedAll(InsertedAll(t, a), b)
  {
    if b == [] {
      assert a + b == a;
    } else {
      assert (a + b)[..|a + b| - 1] == a + b[..|b| - 1];
      InsertedAllInTwo(t, a, b[..|b| - 1]);
    }
  }

  /** The transaction at k takes effect after those before it. */
  predicate CommitsAt(t: Tables, txs: seq<Insert>, k: nat) {
    k < |txs| && Commits(InsertedAll(t, txs[..k]), txs[k])
  }

  /** A transaction that takes effect leaves its job, with exactly its own skills, whatever is inserted later. */
  lemma CommittedJobsStay(t: Tables, txs: seq<Insert>, k: nat)
    requires Consistent(t) && CommitsAt(t, txs, k)
    ensures var t' := InsertedAll(t, txs);
      txs[k].job in t'.jobs && RequiredOf(t', txs[k].job.id) == Elements(txs[k].skills)
  {
    var before, tx := InsertedAll(t, txs[..k]), txs[k];
    InsertsKeepOldJobs(t, txs[..k]);
    InsertedStoresTheJob(before, tx);
    InsertedTables(before, tx);
    assert txs[..k + 1][..k] == txs[..k];
    assert txs == txs[..k + 1] + txs[k + 1..];
    InsertedAllInTwo(t, txs[..k + 1], txs[k + 1..]);
    var after := InsertedAll(t, txs[..k + 1]);
    assert after.jobs[|before.jobs|] == tx.job;
    assert HasJob(after, tx.job.id);
    InsertsKeepOldJobs(after, txs[k + 1..]);
    assert InsertedAll(t, txs).jobs[|before.jobs|] == tx.job;
  }

  /** And every job that was not there before is one such transaction's. */
  lemma {:induction false} NewJobsAreCommitted(t: Tables, txs: seq<Insert>, job: JobRow) returns (k: nat)
    requires Consistent(t) && job in InsertedAll(t, txs).jobs && job !in t.jobs
    ensures CommitsAt(t, txs, k) && txs[k].job == job
    ensures RequiredOf(InsertedAll(t, txs), job.id) == Elements(txs[k].skills)
  {
    k := |txs| - 1;
    InsertsKeepOldJobs(t, txs[..k]);
    InsertedStoresTheJob(InsertedAll(t, txs[..k]), txs[k]);
    if job in InsertedAll(t, txs[..k]).jobs {
      var n := k;
      k := NewJobsAreCommitted(t, txs[..n], job);
      assert txs[..n][..k] == txs[..k];
    }
    CommittedJobsStay(t, txs, k);
  }

  // ---- the two queries ----

  /** The second query: the required rows of these jobs, in skill order. */
  ghost predicate IsRequiredRows(rows: seq<Required>, t: Tables, ids: set<string>) {
    && (forall r :: r in rows <==> r in t.required && r.job in ids)
    && (forall i, j :: 0 <= i < j < |rows| ==> rows[i].skill == rows[j].skill || Less(rows[i].skill, rows[j].skill))
    && Distinct(rows)
  }

  /** The job's skills in row order. */
  function SkillsIn(rows: seq<Required>, id: string): seq<string> {
    if rows == [] then []
    else
      var last := rows[|rows| - 1];
      SkillsIn(rows[..|rows| - 1], id) + if last.job == id then [last.skill] else []
  }

  method RequiredSkillsByJobID(rows: seq<Required>) returns (out: map<string, seq<string>>)
    ensures forall id :: SkillsIn(rows, id) == if id in out then out[id] else []
  {
    out := map[];
    for i := 0 to |rows|
      invariant forall id :: SkillsIn(rows[..i], id) == if id in out then out[id] else []
    {
      assert rows[..i + 1][..i] == rows[..i];
      var row := rows[i];
      out := out[row.job := (if row.job in out then out[row.job] else []) + [row.skill]];
    }
    assert rows[..|rows|] == rows;
  }

  lemma {:induction false} SkillsInMeans(rows: seq<Required>, id: string)
    ensures forall skill :: skill in SkillsIn(rows, id) <==> Required(id, skill) in rows
  {
    if rows != [] {
      SkillsInMeans(rows[..|rows| - 1], id);
      assert rows == rows[..|rows| - 1] + [rows[|rows| - 1]];
    }
  }

  lemma {:induction false} SkillsInAscend(rows: seq<Required>, id: string)
    requires forall i, j :: 0 <= i < j < |rows| ==> rows[i].skill == rows[j].skill || Less(rows[i].skill, rows[j].skill)
    requires Distinct(rows)
    ensures Ascending(SkillsIn(rows, id))
  {
    if rows != [] {
      var n := |rows| - 1;
      SkillsInAscend(rows[..n], id);
      SkillsInMeans(rows[..n], id);
      var before := SkillsIn(rows[..n], id);
      if rows[n].job == id {
        forall i | 0 <= i < |before| ensures Less(before[i], rows[n].skill) {
          assert before[i] in before;
          assert Required(id, before[i]) in rows[..n];
          var k :| 0 <= k < n && rows[k] == Required(id, before[i]);
          assert rows[k] != rows[n];
        }
      }
    }
  }

  /** One atomic read: each job of the listing with exactly its required skills, in order. */
  ghost predicate IsAtomicListing(out: seq<JobWithSkills>, listing: seq<JobRow>, t: Tables) {
    && |out| == |listing|
    && (forall i :: 0 <= i < |out| ==>
          out[i].job == listing[i] && Ascending(out[i].skills)
            && Elements(out[i].skills) == RequiredOf(t, listing[i].id))
  }

  lemma AtomicListingIsUnique(a: seq<JobWithSkills>, b: seq<JobWithSkills>, listing: seq<JobRow>, t: Tables)
    requires IsAtomicListing(a, listing, t) && IsAtomicListing(b, listing, t)
    ensures a == b
  {
    forall i | 0 <= i < |a| ensures a[i] == b[i] {
      AscendingIsUnique(a[i].skills, b[i].skills);
    }
  }

  /** The job's grouped rows, read later, are what it required at the first query. */
  lemma LaterRowsAreTheJobs(t: Tables, txs: seq<Insert>, rows: seq<Required>, ids: set<string>, id: string)
    requires Consistent(t) && HasJob(t, id) && id in ids && IsRequiredRows(rows, InsertedAll(t, txs), ids)
    ensures Ascending(SkillsIn(rows, id)) && Elements(SkillsIn(rows, id)) == RequiredOf(t, id)
  {
    InsertsKeepOldJobs(t, txs);
    SkillsInMeans(rows, id);
    SkillsInAscend(rows, id);
    var t' := InsertedAll(t, txs);
    forall skill ensures skill in SkillsIn(rows, id) <==> skill in RequiredOf(t', id) {
      assert Required(id, skill) in t'.required <==> skill in RequiredOf(t', id);
    }
  }

  function JobIds(listing: seq<JobRow>): set<string> {
    set i | 0 <= i < |listing| :: listing[i].id
  }

  /** queryJobByIDFromDB, likewise two queries: the first found the job, the second answered later. */
  method QueryJob(job: JobRow, rows: seq<Required>, ghost t: Tables, ghost txs: seq<Insert>)
    returns (out: JobWithSkills)
    requires Consistent(t) && job in t.jobs && IsRequiredRows(rows, InsertedAll(t, txs), {job.id})
    ensures IsAtomicListing([out], [job], t)
  {
    var skillsByJob := RequiredSkillsByJobID(rows);
    ghost var k :| 0 <= k < |t.jobs| && t.jobs[k] == job;
    LaterRowsAreTheJobs(t, txs, rows, {job.id}, job.id);
    out := JobWithSkills(job, if job.id in skillsByJob then skillsByJob[job.id] else []);
  }

  /**
   * queryAllJobsFromDB: the first query saw `listing` in tables t; the second answered `rows`
   * after any further inserts. The result is one atomic read at the first query.
   */
  method QueryAllJobs(listing: seq<JobRow>, rows: seq<Required>, ghost t: Tables, ghost txs: seq<Insert>)
    returns (out: seq<JobWithSkills>)
    requires Consistent(t) && (forall j :: j in listing ==> j in t.jobs)
    requires IsRequiredRows(rows, InsertedAll(t, txs), JobIds(listing))
    ensures IsAtomicListing(out, listing, t)
  {
    var skillsByJob := RequiredSkillsByJobID(rows);
    out := [];
    for i := 0 to |listing|
      invariant |out| == i
      invariant forall k :: 0 <= k < i ==> out[k] == JobWithSkills(listing[k], SkillsIn(rows, listing[k].id))
    {
      var id := listing[i].id;
      out := out + [JobWithSkills(listing[i], if id in skillsByJob then skillsByJob[id] else [])];
    }
    GroupedRowsAreAtomic(out, listing, rows, t, txs);
  }

  lemma GroupedRowsAreAtomic(
      out: seq<JobWithSkills>, listing: seq<JobRow>, rows: seq<Required>, t: Tables, txs: seq<Insert>)
    requires Consistent(t) && (forall j :: j in listing ==> j in t.jobs)
    requires IsRequiredRows(rows, InsertedAll(t, txs), JobIds(listing))
    requires |out| == |listing|
    requires forall k :: 0 <= k < |out| ==> out[k] == JobWithSkills(listing[k], SkillsIn(rows, listing[k].id))
    ensures IsAtomicListing(out, listing, t)
  {
    forall i | 0 <= i < |listing|
      ensures Ascending(out[i].skills) && Elements(out[i].skills) == RequiredOf(t, listing[i].id)
    {
      ListedJobsExist(listing, t, i);
      LaterRowsAreTheJobs(t, txs, rows, JobIds(listing), listing[i].id);
    }
  }

  lemma ListedJobsExist(listing: seq<JobRow>, t: Tables, i: nat)
    requires i < |listing| && forall j :: j in listing ==> j in t.jobs
    ensures HasJob(t, listing[i].id) && listing[i].id in JobIds(listing)
  {
    assert listing[i] in listing;
    var k :| 0 <= k < |t.jobs| && t.jobs[k] == listing[i];
  }

  /** So a listing after any creates shows each created job with exactly the skills it was created with, in order. */
  lemma CreatedJobsAreListed(
      t: Tables, txs: seq<Insert>, k: nat, out: seq<JobWithSkills>, listing: seq<JobRow>, i: nat)
    requires Consistent(t) && CommitsAt(t, txs, k) && IsAtomicListing(out, listing, InsertedAll(t, txs))
    requires i < |listing| && listing[i] == txs[k].job
    ensures out[i].job == txs[k].job
    ensures Ascending(out[i].skills) && Elements(out[i].skills) == Elements(txs[k].skills)
    ensures |out[i].skills| == |txs[k].skills|
  {
    CommittedJobsStay(t, txs, k);
    forall a, b | 0 <= a < b < |out[i].skills| ensures out[i].skills[a] != out[i].skills[b] {
      LessIsStrict(out[i].skills[a], out[i].skills[b]);
    }
    DistinctExactlyWhenFull(out[i].skills);
    DistinctExactlyWhenFull(txs[k].skills);
  }
}
