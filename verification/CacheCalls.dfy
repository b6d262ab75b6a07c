/**
 * The cached reads and their writers one whole call at a time.
 *
 * What each call answers, what it leaves in the cache, and what it leaves alone; a call is a few
 * steps of CacheAside's machine with nobody in between.
 */
module CacheCalls {
  import opened Prelude
  import opened CacheAside
  import CacheAnswers

  /** The cache holds an unexpired value of the target's kind under its key. */
  predicate CanHit<D>(s: State<D>, ttl: real, t: Target) {
    var key := CacheKey(t);
    && key in s.cache && s.now < s.cache[key].setAt + ttl
    && if t.All? then s.cache[key].payload.ListOf? else s.cache[key].payload.One?
  }

  /** The call answers, and is over; the tables are as they were. */
  ghost predicate Answers<D>(s: State<D>, s': State<D>, t: Target, result: Result<D>) {
    && s'.db == s.db && s'.writes == s.writes && s'.now == s.now && s'.readers == s.readers
    && |s'.answers| == |s.answers| + 1 && s.answers <= s'.answers
    && s'.answers[|s.answers|].target == t && s'.answers[|s.answers|].result == result
  }

  lemma BeginEffect<D>(s: State<D>, ttl: real, r: nat, t: Target)
    requires r !in s.readers
    ensures Step(s, ttl, Begin(r, t)) == s.(step := s.step + 1, readers := s.readers[r := Reader(t, s.step, Looking)])
  {
  }

  /** A call that finds its value in the cache answers it and changes nothing. */
  lemma CachedCall<D>(s: State<D>, ttl: real, r: nat, t: Target)
    requires r !in s.readers && CanHit(s, ttl, t)
    ensures var s' := Step(Step(s, ttl, Begin(r, t)), ttl, Lookup(r, false));
      Answers(s, s', t, Served(s.cache[CacheKey(t)].payload)) && s'.cache == s.cache
  {
    BeginEffect(s, ttl, r, t);
    assert s.readers[r := Reader(t, s.step, Looking)] - {r} == s.readers;
  }

  /** The call in flight, after its lookup found nothing or failed. */
  ghost predicate HasMissed<D>(s: State<D>, u: State<D>, r: nat, t: Target) {
    && r in u.readers && u.readers[r].target == t && u.readers[r].phase.Missed?
    && u.readers - {r} == s.readers
    && u.db == s.db && u.writes == s.writes && u.now == s.now && u.cache == s.cache && u.answers == s.answers
  }

  lemma LookupMisses<D>(s: State<D>, ttl: real, r: nat, t: Target, getFault: bool)
    requires r !in s.readers && (getFault || !CanHit(s, ttl, t))
    ensures HasMissed(s, Step(Step(s, ttl, Begin(r, t)), ttl, Lookup(r, getFault)), r, t)
  {
    BeginEffect(s, ttl, r, t);
  }

  /** What the database holds for the target. */
  ghost predicate Holds<D>(db: seq<Row<D>>, t: Target, p: Payload<D>) {
    match t
    case All => p == ListOf(db)
    case ById(id) => p.One? && p.row in db && p.row.id == id
  }

  predicate HasNone<D>(db: seq<Row<D>>, id: string) {
    forall i :: 0 <= i < |db| ==> db[i].id != id
  }

  /** The call in flight, after its read found a value. */
  ghost predicate HasFetched<D>(s: State<D>, u: State<D>, r: nat, t: Target) {
    && r in u.readers && u.readers[r].target == t && u.readers[r].phase.Fetched?
    && Holds(s.db, t, u.readers[r].phase.payload) && u.readers - {r} == s.readers
    && u.db == s.db && u.writes == s.writes && u.now == s.now && u.cache == s.cache && u.answers == s.answers
  }

  lemma FetchFinds<D>(s: State<D>, u: State<D>, ttl: real, r: nat, t: Target)
    requires HasMissed(s, u, r, t) && (t.ById? ==> !HasNone(s.db, t.id))
    ensures HasFetched(s, Step(u, ttl, Fetch(r, false)), r, t)
  {
    if t.ById? {
      CacheAnswers.FindMeans(s.db, t.id);
    }
  }

  /** The entry under a key is a fresh one of the value. */
  ghost predicate Fills<D>(
      cache: map<string, Entry<D>>, cache': map<string, Entry<D>>, t: Target, now: real, p: Payload<D>) {
    && CacheKey(t) in cache' && cache'[CacheKey(t)].payload == p && cache'[CacheKey(t)].setAt == now
    && cache' == cache[CacheKey(t) := cache'[CacheKey(t)]]
  }

  lemma StoreAnswers<D>(s: State<D>, u: State<D>, ttl: real, r: nat, t: Target, setFault: bool)
    requires HasFetched(s, u, r, t)
    ensures var s', p := Step(u, ttl, Store(r, setFault)), u.readers[r].phase.payload;
      && Answers(s, s', t, Served(p)) && if setFault then s'.cache == s.cache else Fills(s.cache, s'.cache, t, s.now, p)
  {
  }

  /** A whole call that has to go to the database. */
  function Called<D>(s: State<D>, ttl: real, r: nat, t: Target, getFault: bool, setFault: bool): State<D> {
    Step(Step(Step(Step(s, ttl, Begin(r, t)), ttl, Lookup(r, getFault)), ttl, Fetch(r, false)), ttl, Store(r, setFault))
  }

  /**
   * ListJobs, ListSkills and GetJob without the cache's help: what the table holds is answered, and
   * becomes the entry of its key, dated now, unless the SET fails.
   */
  lemma FillingCall<D>(s: State<D>, ttl: real, r: nat, t: Target, getFault: bool, setFault: bool)
    returns (p: Payload<D>)
    requires r !in s.readers && (getFault || !CanHit(s, ttl, t)) && (t.ById? ==> !HasNone(s.db, t.id))
    ensures Holds(s.db, t, p) && Answers(s, Called(s, ttl, r, t, getFault, setFault), t, Served(p))
    ensures var cache' := Called(s, ttl, r, t, getFault, setFault).cache;
      if setFault then cache' == s.cache else Fills(s.cache, cache', t, s.now, p)
  {
    LookupMisses(s, ttl, r, t, getFault);
    var missed := Step(Step(s, ttl, Begin(r, t)), ttl, Lookup(r, getFault));
    FetchFinds(s, missed, ttl, r, t);
    var fetched := Step(missed, ttl, Fetch(r, false));
    StoreAnswers(s, fetched, ttl, r, t, setFault);
    p := fetched.readers[r].phase.payload;
  }

  lemma FetchFindsNone<D>(s: State<D>, u: State<D>, ttl: real, r: nat, t: Target)
    requires HasMissed(s, u, r, t) && t.ById? && HasNone(s.db, t.id)
    ensures var s' := Step(u, ttl, Fetch(r, false)); Answers(s, s', t, NotFound) && s'.cache == s.cache
  {
    CacheAnswers.FindMeans(s.db, t.id);
  }

  /** GetJob of an id the table lacks: not found, and nothing cached. */
  lemma AbsentCall<D>(s: State<D>, ttl: real, r: nat, id: string, getFault: bool)
    requires r !in s.readers && (getFault || !CanHit(s, ttl, ById(id))) && HasNone(s.db, id)
    ensures var missed := Step(Step(s, ttl, Begin(r, ById(id))), ttl, Lookup(r, getFault));
      var s' := Step(missed, ttl, Fetch(r, false));
      Answers(s, s', ById(id), NotFound) && s'.cache == s.cache
  {
    LookupMisses(s, ttl, r, ById(id), getFault);
    FetchFindsNone(s, Step(Step(s, ttl, Begin(r, ById(id))), ttl, Lookup(r, getFault)), ttl, r, ById(id));
  }

  /** A create: the row at the end of the table, and, unless the delete fails, no list entry; other entries stay. */
  lemma CreateCall<D>(s: State<D>, ttl: real, row: Row<D>, delFault: bool)
    requires HistoryOk(s) && HasNone(s.db, row.id)
    ensures var s' := Step(Step(s, ttl, Insert(row)), ttl, Delete(|s.db|, delFault));
      && s'.db == s.db + [row] && s'.readers == s.readers && s'.answers == s.answers && s'.now == s.now
      && s'.cache == (if delFault then s.cache else s.cache - {"all"})
      && s'.writes == s.writes + [Write(s.step, Some(Del(s.step + 1, !delFault)))]
  {
    CacheAnswers.FindMeans(s.db, row.id);
  }

  /** An insert of a taken id, and the eviction on skill.updated. */
  lemma OtherWrites<D>(s: State<D>, ttl: real, row: Row<D>, fault: bool)
    ensures !HasNone(s.db, row.id) ==> Step(s, ttl, Insert(row)) == s.(step := s.step + 1)
    ensures Step(s, ttl, SkillUpdated(fault))
      == s.(step := s.step + 1, cache := if fault then s.cache else s.cache - {"all"})
  {
    CacheAnswers.FindMeans(s.db, row.id);
  }

  /** A call whose read of the database fails is over without an answer, and nothing is cached. */
  lemma FailedCall<D>(s: State<D>, ttl: real, r: nat, t: Target, getFault: bool)
    requires r !in s.readers && (getFault || !CanHit(s, ttl, t))
    ensures var missed := Step(Step(s, ttl, Begin(r, t)), ttl, Lookup(r, getFault));
      var s' := Step(missed, ttl, Fetch(r, true));
      s' == s.(step := s.step + 3)
  {
    LookupMisses(s, ttl, r, t, getFault);
    var missed := Step(Step(s, ttl, Begin(r, t)), ttl, Lookup(r, getFault));
    assert Step(missed, ttl, Fetch(r, true)) == missed.(step := s.step + 3, readers := missed.readers - {r});
  }

  /** An entry filled now answers calls of its kind exactly until the TTL has passed. */
  lemma EntryLivesForTtl<D>(s: State<D>, ttl: real, t: Target, dt: real)
    requires CacheKey(t) in s.cache && Decodes(t, s.cache[CacheKey(t)].payload) && s.cache[CacheKey(t)].setAt == s.now
    requires dt > 0.0
    ensures var s' := Step(s, ttl, Pass(dt)); s'.cache == s.cache && (CanHit(s', ttl, t) <==> dt < ttl)
  {
  }

  /** A call takes its steps once and in order, and a create deletes once. */
  lemma NothingOutOfTurn<D>(s: State<D>, ttl: real, r: nat, n: nat, fault: bool)
    ensures r in s.readers && !s.readers[r].phase.Looking? ==> Step(s, ttl, Lookup(r, fault)) == s.(step := s.step + 1)
    ensures r in s.readers && !s.readers[r].phase.Missed? ==> Step(s, ttl, Fetch(r, fault)) == s.(step := s.step + 1)
    ensures r in s.readers && !s.readers[r].phase.Fetched? ==> Step(s, ttl, Store(r, fault)) == s.(step := s.step + 1)
    ensures n < |s.writes| && s.writes[n].del.Some? ==> Step(s, ttl, Delete(n, fault)) == s.(step := s.step + 1)
  {
  }
}
