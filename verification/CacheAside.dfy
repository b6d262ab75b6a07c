/** The read path of ListJobs, GetJob and ListSkills against their writers, over a shared cache. */
module CacheAside {
  // A read looks in the cache, else reads the database and fills the cache; a writer inserts, then
  // deletes the list's entry. Every atomic step interleaves with every other, and any cache command
  // may fail. Rows are only ever inserted, so the database at an instant is a prefix of the commit
  // order, and an instant inside a call is a prefix length between the ones at the call's two ends.

  import opened Prelude

  /** A cached value: JobCodec shows that neither kind decodes as the other. */
  datatype Payload<D> = ListOf(rows: seq<Row<D>>) | One(row: Row<D>)

  datatype Target = All | ById(id: string)

  /** What follows "jobs:" in the target's cache key. A job with id "all" shares the list's key. */
  function CacheKey(t: Target): string {
    if t.All? then "all" else t.id
  }

  /**
   * A cache entry with its history: the steps at which the filling call began, read the database
   * (then `seen` rows long) and stored the entry.
   */
  datatype Entry<D> = Entry(payload: Payload<D>, setAt: real, begun: nat, read: nat, seen: nat, stored: nat)

  datatype Phase<D> = Looking | Missed | Fetched(payload: Payload<D>, seen: nat, read: nat)

  /** A call in flight: the step it began at, and how far it is. */
  datatype Reader<D> = Reader(target: Target, start: nat, phase: Phase<D>)

  datatype Del = Del(at: nat, ok: bool)

  /** A create: the step of its commit, and its delete once issued, after which it returns. */
  datatype Write = Write(commit: nat, del: Option<Del>)

  datatype Result<D> = Served(payload: Payload<D>) | NotFound

  datatype Source<D> = Cache(entry: Entry<D>, at: real) | Database(seen: nat, read: nat)

  /** A finished call: the steps it began and ended at, and what it answered from what. */
  datatype Answer<D> = Answer(target: Target, start: nat, end: nat, result: Result<D>, source: Source<D>)

  datatype State<D> = State(
    step: nat, now: real,
    db: seq<Row<D>>, writes: seq<Write>,
    cache: map<string, Entry<D>>,
    readers: map<nat, Reader<D>>,
    answers: seq<Answer<D>>)

  datatype Action<D> =
    | Begin(r: nat, target: Target)
    | Lookup(r: nat, fault: bool)
    | Fetch(r: nat, fault: bool)
    | Store(r: nat, fault: bool)
    | Insert(row: Row<D>)
    | Delete(n: nat, fault: bool)      // the create of row n deletes the list's entry and returns
    | SkillUpdated(fault: bool)        // jobs-service's consumer deletes the list's entry too
    | Pass(dt: real)

  function Init<D>(): State<D> {
    State(0, 0.0, [], [], map[], map[], [])
  }

  function Find<D>(db: seq<Row<D>>, id: string): Option<Row<D>> {
    if db == [] then None else if db[|db| - 1].id == id then Some(db[|db| - 1]) else Find(db[..|db| - 1], id)
  }

  /** A payload of the wrong kind does not decode, and the call falls through to the database. */
  predicate Decodes<D>(t: Target, p: Payload<D>) {
    t.All? <==> p.ListOf?
  }

  function AfterLookup<D>(s: State<D>, ttl: real, r: nat, fault: bool): State<D> {
    if r in s.readers && s.readers[r].phase.Looking? then
      var reader, key := s.readers[r], CacheKey(s.readers[r].target);
      if !fault && key in s.cache && s.now < s.cache[key].setAt + ttl
        && Decodes(reader.target, s.cache[key].payload) then
        s.(readers := s.readers - {r},
           answers := s.answers
             + [Answer(reader.target, reader.start, s.step, Served(s.cache[key].payload), Cache(s.cache[key], s.now))])
      else s.(readers := s.readers[r := reader.(phase := Missed)])
    else s
  }

  function AfterFetch<D>(s: State<D>, r: nat, fault: bool): State<D> {
    if r in s.readers && s.readers[r].phase.Missed? then
      var reader := s.readers[r];
      if fault then s.(readers := s.readers - {r})
      else if reader.target.All? then
        s.(readers := s.readers[r := reader.(phase := Fetched(ListOf(s.db), |s.db|, s.step))])
      else
        match Find(s.db, reader.target.id)
        case Some(row) => s.(readers := s.readers[r := reader.(phase := Fetched(One(row), |s.db|, s.step))])
        case None =>
          s.(readers := s.readers - {r},
             answers := s.answers + [Answer(reader.target, reader.start, s.step, NotFound, Database(|s.db|, s.step))])
    else s
  }

  /** The entry a call's SET stores. */
  function EntryOf<D>(s: State<D>, reader: Reader<D>): Entry<D>
    requires reader.phase.Fetched?
  {
    Entry(reader.phase.payload, s.now, reader.start, reader.phase.read, reader.phase.seen, s.step)
  }

  function AfterStore<D>(s: State<D>, r: nat, fault: bool): State<D> {
    if r in s.readers && s.readers[r].phase.Fetched? then
      var reader := s.readers[r];
      var f := reader.phase;
      s.(readers := s.readers - {r},
         cache := if fault then s.cache
                  else
                    s.cache[CacheKey(reader.target) := EntryOf(s, reader)],
         answers := s.answers
           + [Answer(reader.target, reader.start, s.step, Served(f.payload), Database(f.seen, f.read))])
    else s
  }

  function AfterInsert<D>(s: State<D>, row: Row<D>): State<D> {
    if Find(s.db, row.id).None? then s.(db := s.db + [row], writes := s.writes + [Write(s.step, None)]) else s
  }

  function AfterDelete<D>(s: State<D>, n: nat, fault: bool): State<D> {
    if n < |s.writes| && s.writes[n].del.None? then
      s.(writes := s.writes[n := s.writes[n].(del := Some(Del(s.step, !fault)))],
         cache := if fault then s.cache else s.cache - {CacheKey(All)})
    else s
  }

  /** Every action takes one step; one that is not enabled changes nothing else. */
  function Step<D>(s: State<D>, ttl: real, a: Action<D>): State<D> {
    var s' := match a
      case Begin(r, t) => if r in s.readers then s else s.(readers := s.readers[r := Reader(t, s.step, Looking)])
      case Lookup(r, fault) => AfterLookup(s, ttl, r, fault)
      case Fetch(r, fault) => AfterFetch(s, r, fault)
      case Store(r, fault) => AfterStore(s, r, fault)
      case Insert(row) => AfterInsert(s, row)
      case Delete(n, fault) => AfterDelete(s, n, fault)
      case SkillUpdated(fault) => if fault then s else s.(cache := s.cache - {CacheKey(All)})
      case Pass(dt) => if dt > 0.0 then s.(now := s.now + dt) else s;
    s'.(step := s.step + 1)
  }

  function Run<D>(ttl: real, actions: seq<Action<D>>): State<D> {
    if actions == [] then Init() else Step(Run(ttl, actions[..|actions| - 1]), ttl, actions[|actions| - 1])
  }

  // ---- what every run keeps ----

  /** An instant of step `at` sees exactly the first k writes. */
  predicate Sees(writes: seq<Write>, at: nat, k: nat) {
    && k <= |writes|
    && (forall n :: 0 <= n < k ==> writes[n].commit < at)
    && (forall n :: k <= n < |writes| ==> at < writes[n].commit)
  }

  /** The payload is the target's exact content in a database of these rows. */
  ghost predicate Exact<D>(t: Target, p: Payload<D>, rows: seq<Row<D>>) {
    if t.All? then p == ListOf(rows) else p.One? && p.row.id == t.id && Find(rows, t.id) == Some(p.row)
  }

  /** An entry is what a read inside its filling call saw, and it decodes only for targets of that content. */
  ghost predicate EntryOk<D>(s: State<D>, t: Target, e: Entry<D>) {
    && e.setAt <= s.now && e.begun < e.read < e.stored < s.step && e.seen <= |s.db| && Sees(s.writes, e.read, e.seen)
    && (Decodes(t, e.payload) ==> Exact(t, e.payload, s.db[..e.seen]))
  }

  /** Every successful delete issued before `before` came before this SET. */
  predicate SetAfterDeletes(writes: seq<Write>, stored: nat, before: nat) {
    forall n :: 0 <= n < |writes| && writes[n].del.Some? && writes[n].del.value.ok && writes[n].del.value.at < before
      ==> writes[n].del.value.at < stored
  }

  ghost predicate CacheOk<D>(s: State<D>) {
    && (forall t :: CacheKey(t) in s.cache ==> EntryOk(s, t, s.cache[CacheKey(t)]))
    && (CacheKey(All) in s.cache ==> SetAfterDeletes(s.writes, s.cache[CacheKey(All)].stored, s.step))
  }

  ghost predicate ReaderOk<D>(s: State<D>, r: Reader<D>) {
    && r.start < s.step
    && (r.phase.Fetched? ==>
          && r.start < r.phase.read < s.step && r.phase.seen <= |s.db| && Sees(s.writes, r.phase.read, r.phase.seen)
          && Exact(r.target, r.phase.payload, s.db[..r.phase.seen]))
  }

  ghost predicate AnswerOk<D>(s: State<D>, ttl: real, a: Answer<D>) {
    && a.start < a.end < s.step
    && match a.source
       case Database(seen, read) =>
         && a.start < read <= a.end && seen <= |s.db| && Sees(s.writes, read, seen)
         && (match a.result
             case Served(p) => Exact(a.target, p, s.db[..seen])
             case NotFound => a.target.ById? && Find(s.db[..seen], a.target.id) == None)
       case Cache(e, at) =>
         && a.result == Served(e.payload) && Decodes(a.target, e.payload) && EntryOk(s, a.target, e)
         && e.setAt <= at < e.setAt + ttl && e.stored < a.end
         && (a.target.All? ==> SetAfterDeletes(s.writes, e.stored, a.start))
  }

  predicate HistoryOk<D>(s: State<D>) {
    && |s.writes| == |s.db|
    && (forall n :: 0 <= n < |s.writes| ==> s.writes[n].commit < s.step)
    && (forall n :: 0 <= n < |s.writes| && s.writes[n].del.Some? ==>
          s.writes[n].commit < s.writes[n].del.value.at < s.step)
  }

  ghost predicate Sound<D>(s: State<D>, ttl: real) {
    && HistoryOk(s) && CacheOk(s)
    && (forall r :: r in s.readers ==> ReaderOk(s, s.readers[r]))
    && (forall i :: 0 <= i < |s.answers| ==> AnswerOk(s, ttl, s.answers[i]))
  }

  /** Time has moved on: rows and commits stay, new ones and new deletes carry later step numbers. */
  ghost predicate Later<D>(s: State<D>, s': State<D>) {
    && s.step < s'.step && s.now <= s'.now && HistoryOk(s) && HistoryOk(s')
    && s.db <= s'.db
    && (forall n :: 0 <= n < |s.writes| ==>
          s'.writes[n].commit == s.writes[n].commit
          && (s'.writes[n].del == s.writes[n].del || (s'.writes[n].del.Some? && s'.writes[n].del.value.at >= s.step)))
    && (forall n :: |s.writes| <= n < |s'.writes| ==>
          s'.writes[n] == Write(s'.writes[n].commit, None) && s'.writes[n].commit >= s.step)
  }

  lemma LaterEntry<D>(s: State<D>, s': State<D>, t: Target, e: Entry<D>)
    requires Later(s, s') && EntryOk(s, t, e)
    ensures EntryOk(s', t, e)
  {
    assert s'.db[..e.seen] == s.db[..e.seen];
  }

  lemma LaterReader<D>(s: State<D>, s': State<D>, r: Reader<D>)
    requires Later(s, s') && ReaderOk(s, r)
    ensures ReaderOk(s', r)
  {
    if r.phase.Fetched? {
      assert s'.db[..r.phase.seen] == s.db[..r.phase.seen];
    }
  }

  lemma LaterAnswer<D>(s: State<D>, s': State<D>, ttl: real, a: Answer<D>)
    requires Later(s, s') && AnswerOk(s, ttl, a)
    ensures AnswerOk(s', ttl, a)
  {
    match a.source
    case Database(seen, _) =>
      assert s'.db[..seen] == s.db[..seen];
    case Cache(e, _) =>
      LaterEntry(s, s', a.target, e);
  }

  /** A later state is sound if its new entries, readers and answers are. */
  lemma SoundWhenNewIs<D>(s: State<D>, s': State<D>, ttl: real)
    requires Sound(s, ttl) && Later(s, s')
    requires forall t :: CacheKey(t) in s'.cache ==>
      (CacheKey(t) in s.cache && s'.cache[CacheKey(t)] == s.cache[CacheKey(t)]) || EntryOk(s', t, s'.cache[CacheKey(t)])
    requires CacheKey(All) in s'.cache ==> SetAfterDeletes(s'.writes, s'.cache[CacheKey(All)].stored, s'.step)
    requires forall r :: r in s'.readers ==>
      (r in s.readers && s'.readers[r] == s.readers[r]) || ReaderOk(s', s'.readers[r])
    requires s.answers <= s'.answers
    requires forall i :: |s.answers| <= i < |s'.answers| ==> AnswerOk(s', ttl, s'.answers[i])
    ensures Sound(s', ttl)
  {
    forall t | CacheKey(t) in s'.cache ensures EntryOk(s', t, s'.cache[CacheKey(t)]) {
      if !EntryOk(s', t, s'.cache[CacheKey(t)]) {
        LaterEntry(s, s', t, s.cache[CacheKey(t)]);
      }
    }
    forall r | r in s'.readers ensures ReaderOk(s', s'.readers[r]) {
      if !ReaderOk(s', s'.readers[r]) {
        LaterReader(s, s', s.readers[r]);
      }
    }
    forall i | 0 <= i < |s'.answers| ensures AnswerOk(s', ttl, s'.answers[i]) {
      if i < |s.answers| {
        LaterAnswer(s, s', ttl, s.answers[i]);
      }
    }
  }

  lemma InsertKeepsSound<D>(s: State<D>, ttl: real, row: Row<D>)
    requires Sound(s, ttl)
    ensures Sound(Step(s, ttl, Insert(row)), ttl)
  {
    var s' := Step(s, ttl, Insert(row));
    SoundWhenNewIs(s, s', ttl);
  }

  lemma DeleteKeepsSound<D>(s: State<D>, ttl: real, n: nat, fault: bool)
    requires Sound(s, ttl)
    ensures Sound(Step(s, ttl, Delete(n, fault)), ttl)
  {
    var s' := Step(s, ttl, Delete(n, fault));
    SoundWhenNewIs(s, s', ttl);
  }

  lemma QuietStepKeepsSound<D>(s: State<D>, ttl: real, a: Action<D>)
    requires Sound(s, ttl) && (a.SkillUpdated? || a.Pass?)
    ensures Sound(Step(s, ttl, a), ttl)
  {
    SoundWhenNewIs(s, Step(s, ttl, a), ttl);
  }

  lemma BeginKeepsSound<D>(s: State<D>, ttl: real, r: nat, t: Target)
    requires Sound(s, ttl)
    ensures Sound(Step(s, ttl, Begin(r, t)), ttl)
  {
    var s' := Step(s, ttl, Begin(r, t));
    SoundWhenNewIs(s, s', ttl);
  }

  /** One call moves on; nobody else does. */
  ghost predicate OnlyReader<D>(s: State<D>, s': State<D>, r: nat) {
    && s'.step == s.step + 1 && s'.now == s.now && s'.db == s.db && s'.writes == s.writes
    && (forall q :: q in s'.readers && q != r ==> q in s.readers && s'.readers[q] == s.readers[q])
    && s.answers <= s'.answers
  }

  lemma SoundWhenReaderIs<D>(s: State<D>, s': State<D>, ttl: real, r: nat)
    requires Sound(s, ttl) && OnlyReader(s, s', r) && s'.cache == s.cache
    requires r in s'.readers ==> ReaderOk(s', s'.readers[r])
    requires forall i :: |s.answers| <= i < |s'.answers| ==> AnswerOk(s', ttl, s'.answers[i])
    ensures Sound(s', ttl)
  {
    SoundWhenNewIs(s, s', ttl);
  }

  lemma LookupKeepsSound<D>(s: State<D>, ttl: real, r: nat, fault: bool)
    requires Sound(s, ttl)
    ensures Sound(Step(s, ttl, Lookup(r, fault)), ttl)
  {
    var s' := Step(s, ttl, Lookup(r, fault));
    if r in s.readers && s.readers[r].phase.Looking? {
      var t := s.readers[r].target;
      assert ReaderOk(s, s.readers[r]);
      if CacheKey(t) in s.cache {
        assert EntryOk(s, t, s.cache[CacheKey(t)]);
        LaterEntry(s, s', t, s.cache[CacheKey(t)]);
      }
    }
    SoundWhenReaderIs(s, s', ttl, r);
  }

  lemma {:induction false} FindFindsItsId<D>(db: seq<Row<D>>, t: Target)
    ensures t.ById? && Find(db, t.id).Some? ==> Find(db, t.id).value.id == t.id
  {
    if db != [] {
      FindFindsItsId(db[..|db| - 1], t);
    }
  }

  lemma FetchedIsOk<D>(s: State<D>, s': State<D>, r: Reader<D>, p: Payload<D>)
    requires ReaderOk(s, r) && HistoryOk(s) && Later(s, s') && s'.db == s.db && s'.writes == s.writes
    requires Exact(r.target, p, s.db)
    ensures ReaderOk(s', r.(phase := Fetched(p, |s.db|, s.step)))
  {
    assert s'.db[..|s.db|] == s.db;
    LaterReader(s, s', r.(phase := Missed));
  }

  /** The state after a call's read that found something. */
  function Found<D>(s: State<D>, r: nat, p: Payload<D>): State<D>
    requires r in s.readers
  {
    s.(step := s.step + 1, readers := s.readers[r := s.readers[r].(phase := Fetched(p, |s.db|, s.step))])
  }

  /** The state after a call's read that found nothing, and so answered. */
  function Absent<D>(s: State<D>, r: nat): State<D>
    requires r in s.readers
  {
    var reader := s.readers[r];
    s.(step := s.step + 1, readers := s.readers - {r},
       answers := s.answers + [Answer(reader.target, reader.start, s.step, NotFound, Database(|s.db|, s.step))])
  }

  lemma FoundKeepsSound<D>(s: State<D>, ttl: real, r: nat, p: Payload<D>)
    requires Sound(s, ttl) && r in s.readers && Exact(s.readers[r].target, p, s.db)
    ensures Sound(Found(s, r, p), ttl)
  {
    assert ReaderOk(s, s.readers[r]);
    FetchedIsOk(s, Found(s, r, p), s.readers[r], p);
    SoundWhenReaderIs(s, Found(s, r, p), ttl, r);
  }

  lemma AbsentKeepsSound<D>(s: State<D>, ttl: real, r: nat)
    requires Sound(s, ttl) && r in s.readers
    requires s.readers[r].target.ById? && Find(s.db, s.readers[r].target.id).None?
    ensures Sound(Absent(s, r), ttl)
  {
    assert ReaderOk(s, s.readers[r]);
    assert Absent(s, r).db[..|s.db|] == s.db;
    SoundWhenReaderIs(s, Absent(s, r), ttl, r);
  }

  lemma FetchKeepsSound<D>(s: State<D>, ttl: real, r: nat, fault: bool)
    requires Sound(s, ttl)
    ensures Sound(Step(s, ttl, Fetch(r, fault)), ttl)
  {
    if r in s.readers && s.readers[r].phase.Missed? && !fault {
      var t := s.readers[r].target;
      FindFindsItsId(s.db, t);
      if t.All? {
        FoundKeepsSound(s, ttl, r, ListOf(s.db));
      } else if Find(s.db, t.id).Some? {
        FoundKeepsSound(s, ttl, r, One(Find(s.db, t.id).value));
      } else {
        AbsentKeepsSound(s, ttl, r);
      }
    } else {
      SoundWhenReaderIs(s, Step(s, ttl, Fetch(r, fault)), ttl, r);
    }
  }

  lemma EntryIsOk<D>(s: State<D>, s': State<D>, reader: Reader<D>, t: Target)
    requires ReaderOk(s, reader) && reader.phase.Fetched? && Later(s, s') && s'.step == s.step + 1
    requires CacheKey(t) == CacheKey(reader.target)
    ensures EntryOk(s', t, EntryOf(s, reader))
  {
    LaterReader(s, s', reader);
    assert Decodes(t, reader.phase.payload) ==> t == reader.target;
  }

  lemma StoreKeepsSound<D>(s: State<D>, ttl: real, r: nat, fault: bool)
    requires Sound(s, ttl)
    ensures Sound(Step(s, ttl, Store(r, fault)), ttl)
  {
    var s' := Step(s, ttl, Store(r, fault));
    if r in s.readers && s.readers[r].phase.Fetched? {
      var reader := s.readers[r];
      assert ReaderOk(s, reader);
      assert s'.db[..reader.phase.seen] == s.db[..reader.phase.seen];
      forall t | CacheKey(t) == CacheKey(reader.target) ensures EntryOk(s', t, EntryOf(s, reader)) {
        EntryIsOk(s, s', reader, t);
      }
      SoundWhenNewIs(s, s', ttl);
    } else {
      SoundWhenReaderIs(s, s', ttl, r);
    }
  }

  lemma StepKeepsSound<D>(s: State<D>, ttl: real, a: Action<D>)
    requires Sound(s, ttl)
    ensures Sound(Step(s, ttl, a), ttl)
  {
    match a
    case Begin(r, t) => BeginKeepsSound(s, ttl, r, t);
    case Lookup(r, fault) => LookupKeepsSound(s, ttl, r, fault);
    case Fetch(r, fault) => FetchKeepsSound(s, ttl, r, fault);
    case Store(r, fault) => StoreKeepsSound(s, ttl, r, fault);
    case Insert(row) => InsertKeepsSound(s, ttl, row);
    case Delete(n, fault) => DeleteKeepsSound(s, ttl, n, fault);
    case _ => QuietStepKeepsSound(s, ttl, a);
  }

  lemma {:induction false} RunIsSound<D>(ttl: real, actions: seq<Action<D>>)
    ensures Sound(Run(ttl, actions), ttl)
  {
    if actions != [] {
      RunIsSound(ttl, actions[..|actions| - 1]);
      StepKeepsSound(Run(ttl, actions[..|actions| - 1]), ttl, actions[|actions| - 1]);
    }
  }
}
