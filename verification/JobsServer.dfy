/**
 * jobs-service's CreateJob, GetJob and ListJobs over its table and its cache, one call at a time
 * (CacheAside has the interleavings), with the cache's real keys and documents.
 */
module JobsServer {
  import opened Prelude
  import opened Order
  import opened Json
  import opened JobCodec
  import Text
  import C = TtlCache

  datatype Error = InvalidArgument | Unavailable | Internal | NotFound

  datatype Result<T> = Ok(value: T) | Err(error: Error)

  const ALL_KEY: string := "jobs:all"
  const TTL: real := 30.0

  function JobKey(id: string): string {
    "jobs:" + id
  }

  lemma JobKeyIsInjective(a: string, b: string)
    ensures JobKey(a) == JobKey(b) <==> a == b
    ensures JobKey(a) == ALL_KEY <==> a == "all"
  {
    assert JobKey(a)[5..] == a && JobKey(b)[5..] == b && JobKey("all") == ALL_KEY;
  }

  predicate HasJob(db: seq<Job>, j: Job) {
    exists i :: 0 <= i < |db| && db[i] == j
  }

  predicate HasId(db: seq<Job>, id: string) {
    exists i :: 0 <= i < |db| && db[i].id == id
  }

  predicate OneJobPerId(db: seq<Job>) {
    forall i, j :: 0 <= i < j < |db| ==> db[i].id != db[j].id
  }

  /** What a cached document under a key may say: the job of that id, or an initial part of the table. */
  ghost predicate Tells(key: string, doc: Json, db: seq<Job>) {
    && (key == ALL_KEY && DecodeJobs(doc).Some? ==> DecodeJobs(doc).value <= db)
    && (forall id :: key == JobKey(id) && DecodeJob(doc).Some? ==>
          DecodeJob(doc).value.id == id && HasJob(db, DecodeJob(doc).value))
  }

  ghost predicate CacheTells(entries: C.Entries<Json>, db: seq<Job>) {
    forall key :: key in entries ==> Tells(key, entries[key].value, db)
  }

  /** The list's entry, if it decodes, is the whole table. */
  ghost predicate ListIsCurrent(entries: C.Entries<Json>, db: seq<Job>) {
    ALL_KEY in entries && DecodeJobs(entries[ALL_KEY].value).Some? ==> DecodeJobs(entries[ALL_KEY].value).value == db
  }

  lemma StillTells(entries: C.Entries<Json>, db: seq<Job>, j: Job)
    requires CacheTells(entries, db)
    ensures CacheTells(entries, db + [j])
  {
    forall key | key in entries ensures Tells(key, entries[key].value, db + [j]) {
      assert Tells(key, entries[key].value, db);
      var doc := entries[key].value;
      if DecodeJob(doc).Some? && HasJob(db, DecodeJob(doc).value) {
        var i :| 0 <= i < |db| && db[i] == DecodeJob(doc).value;
        assert (db + [j])[i] == db[i];
      }
    }
  }

  lemma ListTells(db: seq<Job>)
    ensures Tells(ALL_KEY, EncodeJobs(db), db)
  {
    CachedJobsReadBack(Job("", "", "", []), db);
  }

  lemma JobTells(j: Job, db: seq<Job>)
    requires HasJob(db, j)
    ensures Tells(JobKey(j.id), EncodeJob(j), db) && DecodeJobs(EncodeJob(j)) == None
  {
    CachedJobsReadBack(j, []);
    forall id | JobKey(j.id) == JobKey(id) ensures id == j.id {
      JobKeyIsInjective(j.id, id);
    }
  }

  /** What the cache answers for a key: its unexpired entry's value, if it is asked and can be. */
  function CachedDoc(
      entries: C.Entries<Json>, enabled: bool, key: string, now: real, getFault: bool): (doc: Option<Json>)
    ensures doc.Some? <==> enabled && !getFault && key in entries && now < entries[key].expires
    ensures doc.Some? ==> doc.value == entries[key].value
  {
    if enabled && !getFault then C.Found(entries, key, now) else None
  }

  /** A job.posted event. */
  datatype Posted = Posted(job: string, required: seq<string>)

  /** The row as its two queries read it: the same job, its skills in ascending order. */
  predicate ReadsAs(j: Job, row: Job) {
    row == j.(required := row.required) && Ascending(row.required) && Elements(row.required) == Elements(j.required)
  }

  class Server {
    /** Every job in the order of its insertion, each as it reads. */
    var db: seq<Job>
    /** What the broker acknowledged on the job.posted topic. */
    var posted: seq<Posted>
    const hasPublisher: bool
    const hasDB: bool
    const cache: C.Client<Json>

    ghost predicate Valid()
      reads this, cache
    {
      OneJobPerId(db) && CacheTells(cache.entries, db)
    }

    ghost predicate Current()
      reads this, cache
    {
      ListIsCurrent(cache.entries, db)
    }

    constructor (hasDB: bool, hasPublisher: bool, cache: C.Client<Json>)
      requires cache.entries == map[]
      ensures Valid() && Current() && db == [] && posted == []
      ensures this.hasDB == hasDB && this.hasPublisher == hasPublisher && this.cache == cache
    {
      db, posted := [], [];
      this.hasPublisher := hasPublisher;
      this.hasDB := hasDB;
      this.cache := cache;
    }

    /**
     * A create whose delete succeeds leaves no list entry behind. The event carries the job's own
     * skills in the order of the request, and its loss does not fail the call.
     */
    method CreateJob(id: string, title: string, description: string, skillIds: seq<string>,
                     dbFault: bool, delFault: bool, lost: bool)
      returns (r: Result<Job>)
      requires Valid()
      modifies this, cache
      ensures Valid()
      ensures Text.TrimSpace(title) == "" ==> r == Err(InvalidArgument)
      ensures Text.TrimSpace(title) != "" && !hasDB ==> r == Err(Unavailable)
      ensures Text.TrimSpace(title) != "" && hasDB && (dbFault || HasId(old(db), id)) ==> r == Err(Internal)
      ensures Text.TrimSpace(title) != "" && hasDB && !dbFault && !HasId(old(db), id) ==>
        r == Ok(Job(id, Text.TrimSpace(title), Text.TrimSpace(description), Text.Deduped(skillIds)))
      ensures r.Ok? ==> |db| == |old(db)| + 1 && db[..|old(db)|] == old(db) && ReadsAs(r.value, db[|old(db)|])
      ensures r.Err? ==> db == old(db)
      ensures posted == old(posted) + if r.Ok? && hasPublisher && !lost then [Posted(id, r.value.required)] else []
      ensures cache.entries
        == if r.Ok? && cache.enabled && !delFault then old(cache.entries) - {ALL_KEY} else old(cache.entries)
      ensures r.Ok? && cache.enabled && !delFault ==> Current()
    {
      var trimmed := Text.TrimSpace(title);
      if trimmed == "" {
        return Err(InvalidArgument);
      }
      var skills := Text.DedupeNonEmpty(skillIds);
      if !hasDB {
        return Err(Unavailable);
      }
      if dbFault || HasId(db, id) {
        return Err(Internal);
      }
      var job := Job(id, trimmed, Text.TrimSpace(description), skills);
      var ordered := Ordered(Elements(skills));
      StillTells(cache.entries, db, job.(required := ordered));
      db := db + [job.(required := ordered)];
      cache.Del([ALL_KEY], delFault);
      assert Elements([ALL_KEY]) == {ALL_KEY};
      if hasPublisher && !lost {
        posted := posted + [Posted(id, skills)];
      }
      return Ok(job);
    }

    /**
     * Whatever the cache holds and whichever of its commands fail, a found job is the table's, and
     * "not found" is said only of an id the table lacks.
     */
    method GetJob(request: string, now: real, getFault: bool, dbFault: bool, setFault: bool) returns (r: Result<Job>)
      requires Valid()
      modifies cache
      ensures Valid() && (old(Current()) ==> Current())
      ensures r.Ok? ==> r.value.id == Text.TrimSpace(request) && HasJob(db, r.value)
      ensures r == Err(NotFound) ==> !HasId(db, Text.TrimSpace(request)) && Text.TrimSpace(request) != ""
      ensures r == Err(InvalidArgument) <==> Text.TrimSpace(request) == ""
      ensures (r == Err(Unavailable) ==> !hasDB) && (r == Err(Internal) ==> hasDB && dbFault)
      ensures var id := Text.TrimSpace(request);
        var doc := CachedDoc(old(cache.entries), cache.enabled, JobKey(id), now, getFault);
        var hit := doc.Some? && DecodeJob(doc.value).Some?;
        && (r.Ok? <==> id != "" && (hit || (hasDB && !dbFault && HasId(db, id))))
        && (r.Ok? && hit ==> DecodeJob(doc.value) == Some(r.value))
        && cache.entries
           == if r.Ok? && !hit && cache.enabled && !setFault
              then C.Put(old(cache.entries), JobKey(r.value.id), EncodeJob(r.value), 30.0, now)
              else old(cache.entries)
    {
      var id := Text.TrimSpace(request);
      if id == "" {
        return Err(InvalidArgument);
      }
      var cached := cache.Get(JobKey(id), now, getFault);
      if cached.Some? && DecodeJob(cached.value).Some? {
        assert Tells(JobKey(id), cached.value, db);
        return Ok(DecodeJob(cached.value).value);
      }
      if !hasDB {
        return Err(Unavailable);
      }
      if dbFault {
        return Err(Internal);
      }
      if i: nat :| i < |db| && db[i].id == id {
        JobTells(db[i], db);
        cache.Set(JobKey(id), EncodeJob(db[i]), TTL, now, setFault);
        return Ok(db[i]);
      }
      return Err(NotFound);
    }

    /** The list served is an initial part of the table, and all of it unless some earlier delete failed. */
    method ListJobs(now: real, getFault: bool, dbFault: bool, setFault: bool) returns (r: Result<seq<Job>>)
      requires Valid()
      modifies cache
      ensures Valid() && (old(Current()) ==> Current())
      ensures r.Ok? ==> r.value <= db
      ensures r.Ok? && old(Current()) ==> r.value == db
      ensures r.Err? ==> r == (if hasDB then Err(Internal) else Err(Unavailable)) && (!hasDB || dbFault)
      ensures var doc := CachedDoc(old(cache.entries), cache.enabled, ALL_KEY, now, getFault);
        var hit := doc.Some? && DecodeJobs(doc.value).Some?;
        && (r.Ok? <==> hit || (hasDB && !dbFault))
        && (r.Ok? ==> r.value == if hit then DecodeJobs(doc.value).value else db)
        && cache.entries
           == if r.Ok? && !hit && cache.enabled && !setFault then
                C.Put(old(cache.entries), ALL_KEY, EncodeJobs(db), 30.0, now)
              else old(cache.entries)
    {
      var cached := cache.Get(ALL_KEY, now, getFault);
      if cached.Some? && DecodeJobs(cached.value).Some? {
        assert Tells(ALL_KEY, cached.value, db);
        return Ok(DecodeJobs(cached.value).value);
      }
      if !hasDB {
        return Err(Unavailable);
      }
      if dbFault {
        return Err(Internal);
      }
      ListTells(db);
      CachedJobsReadBack(Job("", "", "", []), db);
      cache.Set(ALL_KEY, EncodeJobs(db), TTL, now, setFault);
      return Ok(db);
    }

    /** The skill.updated consumer evicts the list, whatever the skill; an undecodable event is skipped. */
    method HandleSkillUpdated(decodes: bool, fault: bool)
      requires Valid()
      modifies cache
      ensures Valid() && (old(Current()) ==> Current())
      ensures cache.entries
        == if decodes && cache.enabled && !fault then old(cache.entries) - {ALL_KEY} else old(cache.entries)
      ensures decodes && cache.enabled && !fault ==> Current()
    {
      if !decodes {
        return;
      }
      cache.Del([ALL_KEY], fault);
      assert Elements([ALL_KEY]) == {ALL_KEY};
    }
  }
}
