/**
 * What callers of the cached reads see: which database a listing shows, exactly when it is stale, and
 * what GetJob answers, over every run of CacheAside's machine.
 */
module CacheAnswers {
  import opened Prelude
  import opened CacheAside

  // ---- what a caller sees ----

  /** The database as it was before the action at position j of the run. */
  function DatabaseAt<D>(ttl: real, actions: seq<Action<D>>, j: nat): seq<Row<D>>
    requires j <= |actions|
  {
    Run(ttl, actions[..j]).db
  }

  /** Reaching a later state keeps the rows and their commits, and dates new commits from here on. */
  ghost predicate Extends<D>(s: State<D>, s': State<D>) {
    && s.db <= s'.db && |s.writes| <= |s'.writes|
    && (forall n :: 0 <= n < |s.writes| ==> s'.writes[n].commit == s.writes[n].commit)
    && (forall n :: |s.writes| <= n < |s'.writes| ==> s'.writes[n].commit >= s.step)
    && s.step <= s'.step
  }

  lemma StepExtends<D>(s: State<D>, ttl: real, a: Action<D>)
    ensures Extends(s, Step(s, ttl, a)) && Step(s, ttl, a).step == s.step + 1
  {
  }

  lemma {:induction false} RunExtends<D>(ttl: real, actions: seq<Action<D>>, j: nat)
    requires j <= |actions|
    ensures Extends(Run(ttl, actions[..j]), Run(ttl, actions)) && Run(ttl, actions[..j]).step == j
  {
    var n := |actions|;
    if j == n {
      assert actions[..j] == actions;
      if n > 0 {
        RunExtends(ttl, actions[..n - 1], n - 1);
        assert actions[..n - 1][..n - 1] == actions[..n - 1];
        StepExtends(Run(ttl, actions[..n - 1]), ttl, actions[n - 1]);
      }
    } else {
      RunExtends(ttl, actions[..n - 1], j);
      assert actions[..n - 1][..j] == actions[..j];
      StepExtends(Run(ttl, actions[..n - 1]), ttl, actions[n - 1]);
    }
  }

  /** The rows seen by a read are the database at the read's own place in the run. */
  lemma SeenIsDatabaseAt<D>(ttl: real, actions: seq<Action<D>>, j: nat, k: nat)
    requires j <= |actions| && Sees(Run(ttl, actions).writes, j, k)
    ensures k <= |Run(ttl, actions).db| && DatabaseAt(ttl, actions, j) == Run(ttl, actions).db[..k]
  {
    var was, now := Run(ttl, actions[..j]), Run(ttl, actions);
    RunExtends(ttl, actions, j);
    RunIsSound(ttl, actions[..j]);
    RunIsSound(ttl, actions);
    var len := |was.db|;
    assert forall n :: 0 <= n < |now.writes| ==> (n < len <==> now.writes[n].commit < j);
    var m := if k < len then k else len;
    if m < |now.writes| {
      assert now.writes[m].commit < j <==> m < k;
    }
  }

  datatype Producer = Producer(begun: nat, read: nat, ended: nat)

  /** The call that produced an answer's value: the answering one, or the one that filled the cache, up to its SET. */
  function ProducerOf<D>(a: Answer<D>): Producer {
    match a.source
    case Database(_, read) => Producer(a.start, read, a.end)
    case Cache(e, _) => Producer(e.begun, e.read, e.stored)
  }

  /** The time at that place in the run. */
  function TimeAt<D>(ttl: real, actions: seq<Action<D>>, j: nat): real
    requires j <= |actions|
  {
    Run(ttl, actions[..j]).now
  }

  /** The times of a run's steps so far. */
  function Times<D>(ttl: real, actions: seq<Action<D>>): seq<real> {
    seq(|actions|, j requires 0 <= j < |actions| => TimeAt(ttl, actions, j))
  }

  predicate StoredInTime<D>(times: seq<real>, e: Entry<D>) {
    e.stored < |times| && e.setAt == times[e.stored]
  }

  predicate AnsweredInTime<D>(times: seq<real>, a: Answer<D>) {
    a.source.Cache? ==> StoredInTime(times, a.source.entry) && a.end < |times| && a.source.at == times[a.end]
  }

  ghost predicate Timed<D>(s: State<D>, times: seq<real>) {
    && |times| == s.step
    && (forall key :: key in s.cache ==> StoredInTime(times, s.cache[key]))
    && (forall i :: 0 <= i < |s.answers| ==> AnsweredInTime(times, s.answers[i]))
  }

  /** What a step adds to the cache and to the answers is dated by that step. */
  lemma StepKeepsTimed<D>(s: State<D>, ttl: real, a: Action<D>, times: seq<real>)
    requires Timed(s, times)
    ensures Timed(Step(s, ttl, a), times + [s.now])
  {
    var s', times' := Step(s, ttl, a), times + [s.now];
    assert times'[s.step] == s.now;
    forall key | key in s'.cache ensures StoredInTime(times', s'.cache[key]) {
      assert key in s.cache ==> StoredInTime(times, s.cache[key]);
    }
    forall i | 0 <= i < |s'.answers| ensures AnsweredInTime(times', s'.answers[i]) {
      assert i < |s.answers| ==> AnsweredInTime(times, s.answers[i]);
    }
  }

  /** Every cached entry carries the time of its SET, every answer from the cache the time of its GET. */
  lemma {:induction false} RunIsTimed<D>(ttl: real, actions: seq<Action<D>>)
    ensures Timed(Run(ttl, actions), Times(ttl, actions))
  {
    if actions != [] {
      var n := |actions| - 1;
      var before := actions[..n];
      RunIsTimed(ttl, before);
      StepKeepsTimed(Run(ttl, before), ttl, actions[n], Times(ttl, before));
      assert Times(ttl, actions) == Times(ttl, before) + [Run(ttl, before).now] by {
        forall j | 0 <= j < n ensures before[..j] == actions[..j] {
        }
      }
    }
  }

  /**
   * Whatever interleaves and whatever cache command fails, a served list is exactly the database
   * at an instant inside the call that produced it; from the cache, its SET is younger than the TTL.
   */
  lemma ListingsAreExact<D>(ttl: real, actions: seq<Action<D>>, i: nat)
    requires i < |Run(ttl, actions).answers| && Run(ttl, actions).answers[i].target.All?
    ensures var a := Run(ttl, actions).answers[i];
      var p := ProducerOf(a);
      && p.begun < p.read <= p.ended <= a.end < |actions|
      && a.result == Served(ListOf(DatabaseAt(ttl, actions, p.read)))
      && (a.source.Cache? ==>
          TimeAt(ttl, actions, p.ended) <= TimeAt(ttl, actions, a.end) < TimeAt(ttl, actions, p.ended) + ttl)
  {
    RunIsTimed(ttl, actions);
    var s := Run(ttl, actions);
    var a := s.answers[i];
    assert AnsweredInTime(Times(ttl, actions), a);
    RunIsSound(ttl, actions);
    RunExtends(ttl, actions, |actions|);
    assert actions[..|actions|] == actions;
    assert AnswerOk(s, ttl, a);
    match a.source
    case Database(seen, read) => SeenIsDatabaseAt(ttl, actions, read, seen);
    case Cache(e, _) => SeenIsDatabaseAt(ttl, actions, e.read, e.seen);
  }

  /** The answer leaves out the row. */
  ghost predicate Misses<D>(a: Answer<D>, row: Row<D>) {
    !(a.result.Served? && a.result.payload.ListOf? && row in a.result.payload.rows)
  }

  lemma RowsAreDistinct<D>(ttl: real, actions: seq<Action<D>>)
    ensures DistinctIds(Run(ttl, actions).db)
  {
    if actions != [] {
      RowsAreDistinct(ttl, actions[..|actions| - 1]);
      var s := Run(ttl, actions[..|actions| - 1]);
      match actions[|actions| - 1]
      case Insert(row) =>
        FindMeans(s.db, row.id);
      case _ =>
    }
  }

  lemma {:induction false} FindMeans<D>(db: seq<Row<D>>, id: string)
    ensures Find(db, id).Some? ==> Find(db, id).value in db && Find(db, id).value.id == id
    ensures Find(db, id).None? <==> forall i :: 0 <= i < |db| ==> db[i].id != id
  {
    if db != [] {
      FindMeans(db[..|db| - 1], id);
    }
  }

  lemma PrefixHoldsItsRows<D>(db: seq<Row<D>>, n: nat, k: nat)
    requires n < |db| && k <= |db| && DistinctIds(db)
    ensures db[n] in db[..k] <==> n < k
  {
    if n < k {
      assert db[..k][n] == db[n];
    } else {
      forall m | 0 <= m < k ensures db[..k][m] != db[n] {
        assert db[m].id != db[n].id;
      }
    }
  }

  /**
   * Staleness, exactly. A list call that starts after row n is committed misses it precisely when
   * it answers from an entry whose fill read the database before that commit. If the create's
   * delete succeeded before the call started, that fill also stored its entry after the delete:
   * it overlapped the whole write.
   */
  lemma StaleExactlyWhenAFillOverlaps<D>(ttl: real, actions: seq<Action<D>>, i: nat, n: nat)
    requires var s := Run(ttl, actions);
      i < |s.answers| && s.answers[i].target.All? && n < |s.writes| && s.writes[n].commit < s.answers[i].start
    ensures var s := Run(ttl, actions); var a, w := s.answers[i], s.writes[n];
      && n < |s.db|
      && (Misses(a, s.db[n]) <==> a.source.Cache? && a.source.entry.read < w.commit)
      && (w.del.Some? && w.del.value.ok && w.del.value.at < a.start ==>
            (Misses(a, s.db[n]) <==>
               a.source.Cache? && a.source.entry.read < w.commit < w.del.value.at < a.source.entry.stored))
  {
    var s := Run(ttl, actions);
    var a := s.answers[i];
    RunIsSound(ttl, actions);
    RowsAreDistinct(ttl, actions);
    assert AnswerOk(s, ttl, a);
    var seen := if a.source.Cache? then a.source.entry.seen else a.source.seen;
    assert a.result == Served(ListOf(s.db[..seen]));
    PrefixHoldsItsRows(s.db, n, seen);
  }

  // ---- no overlap, no staleness ----

  /** The answer of the call that stored the entry. */
  ghost predicate IsFill<D>(f: Answer<D>, key: string, e: Entry<D>) {
    CacheKey(f.target) == key && f.start == e.begun && f.end == e.stored && f.source == Database(e.seen, e.read)
  }

  ghost predicate HasFill<D>(answers: seq<Answer<D>>, key: string, e: Entry<D>) {
    exists i :: 0 <= i < |answers| && IsFill(answers[i], key, e)
  }

  ghost predicate FillsKnown<D>(s: State<D>) {
    && (forall key :: key in s.cache ==> HasFill(s.answers, key, s.cache[key]))
    && (forall i :: 0 <= i < |s.answers| && s.answers[i].source.Cache?
          ==> HasFill(s.answers, CacheKey(s.answers[i].target), s.answers[i].source.entry))
  }

  lemma FillStays<D>(answers: seq<Answer<D>>, a: Answer<D>, key: string, e: Entry<D>)
    requires HasFill(answers, key, e) || IsFill(a, key, e)
    ensures HasFill(answers + [a], key, e)
  {
    if HasFill(answers, key, e) {
      var i :| 0 <= i < |answers| && IsFill(answers[i], key, e);
      assert (answers + [a])[i] == answers[i];
    } else {
      assert (answers + [a])[|answers|] == a;
    }
  }

  /** A call returns, having filled the cache or not. */
  lemma AnswerKeepsFillsKnown<D>(s: State<D>, s': State<D>, a: Answer<D>)
    requires FillsKnown(s) && s'.answers == s.answers + [a]
    requires forall key :: key in s'.cache ==>
      (key in s.cache && s'.cache[key] == s.cache[key]) || IsFill(a, key, s'.cache[key])
    requires a.source.Cache? ==> HasFill(s.answers, CacheKey(a.target), a.source.entry)
    ensures FillsKnown(s')
  {
    forall key | key in s'.cache ensures HasFill(s'.answers, key, s'.cache[key]) {
      FillStays(s.answers, a, key, s'.cache[key]);
    }
    forall i | 0 <= i < |s'.answers| && s'.answers[i].source.Cache?
      ensures HasFill(s'.answers, CacheKey(s'.answers[i].target), s'.answers[i].source.entry)
    {
      FillStays(s.answers, a, CacheKey(s'.answers[i].target), s'.answers[i].source.entry);
    }
  }

  lemma ReaderStepKeepsFillsKnown<D>(s: State<D>, ttl: real, a: Action<D>)
    requires FillsKnown(s) && (a.Lookup? || a.Fetch? || a.Store?)
    ensures FillsKnown(Step(s, ttl, a))
  {
    var s' := Step(s, ttl, a);
    if s'.answers != s.answers {
      AnswerKeepsFillsKnown(s, s', s'.answers[|s.answers|]);
    }
  }

  lemma StepKeepsFillsKnown<D>(s: State<D>, ttl: real, a: Action<D>)
    requires FillsKnown(s)
    ensures FillsKnown(Step(s, ttl, a))
  {
    if a.Lookup? || a.Fetch? || a.Store? {
      ReaderStepKeepsFillsKnown(s, ttl, a);
    }
  }

  lemma {:induction false} RunKnowsFills<D>(ttl: real, actions: seq<Action<D>>)
    ensures FillsKnown(Run(ttl, actions))
  {
    if actions != [] {
      RunKnowsFills(ttl, actions[..|actions| - 1]);
      StepKeepsFillsKnown(Run(ttl, actions[..|actions| - 1]), ttl, actions[|actions| - 1]);
    }
  }

  /** No call that went to the database for the list's key spanned the whole of write n. */
  predicate NoCallSpans<D>(s: State<D>, n: nat)
    requires n < |s.writes|
  {
    s.writes[n].del.Some? ==>
      forall i :: 0 <= i < |s.answers| && s.answers[i].source.Database?
        && CacheKey(s.answers[i].target) == CacheKey(All)
        ==> s.writes[n].commit <= s.answers[i].start || s.answers[i].end <= s.writes[n].del.value.at
  }

  /** Write n is over, its delete having succeeded, before the given step. */
  predicate Settled(writes: seq<Write>, n: nat, before: nat)
    requires n < |writes|
  {
    writes[n].del.Some? && writes[n].del.value.ok && writes[n].del.value.at < before
  }

  /** Then every list answer of a call that starts after the create returned has its row. */
  lemma CurrentUnlessSpanned<D>(ttl: real, actions: seq<Action<D>>, i: nat, n: nat)
    requires var s := Run(ttl, actions);
      && i < |s.answers| && s.answers[i].target.All?
      && n < |s.writes| && Settled(s.writes, n, s.answers[i].start) && NoCallSpans(s, n)
    ensures var s := Run(ttl, actions); n < |s.db| && !Misses(s.answers[i], s.db[n])
  {
    var s := Run(ttl, actions);
    var a := s.answers[i];
    RunIsSound(ttl, actions);
    RunKnowsFills(ttl, actions);
    StaleExactlyWhenAFillOverlaps(ttl, actions, i, n);
    if a.source.Cache? {
      var e := a.source.entry;
      assert AnswerOk(s, ttl, a);
      assert HasFill(s.answers, CacheKey(All), e);
      var f :| 0 <= f < |s.answers| && IsFill(s.answers[f], CacheKey(All), e);
      assert s.answers[f].source.Database?;
    }
  }

  /** If all earlier creates are such, the answer holds the whole database as it was when the call started. */
  lemma AnswersAreCurrentWithoutOverlap<D>(ttl: real, actions: seq<Action<D>>, i: nat)
    requires var s := Run(ttl, actions);
      i < |s.answers| && s.answers[i].target.All? && s.answers[i].start <= |actions|
    requires var s := Run(ttl, actions);
      forall n :: 0 <= n < |s.writes| && s.writes[n].commit < s.answers[i].start ==>
        Settled(s.writes, n, s.answers[i].start) && NoCallSpans(s, n)
    ensures var a := Run(ttl, actions).answers[i];
      a.result.Served? && a.result.payload.ListOf? && DatabaseAt(ttl, actions, a.start) <= a.result.payload.rows
  {
    var s := Run(ttl, actions);
    var a := s.answers[i];
    var before := DatabaseAt(ttl, actions, a.start);
    ListingsAreExact(ttl, actions, i);
    RunExtends(ttl, actions, ProducerOf(a).read);
    RunExtends(ttl, actions, a.start);
    RunIsSound(ttl, actions[..a.start]);
    assert before <= s.db;
    if |a.result.payload.rows| < |before| {
      var n := |before| - 1;
      assert s.writes[n].commit < a.start;
      CurrentUnlessSpanned(ttl, actions, i, n);
      RowsAreDistinct(ttl, actions);
      assert false;
    }
  }

  // ---- one job ----

  lemma FindGrows<D>(db: seq<Row<D>>, k: nat, id: string)
    requires k <= |db| && DistinctIds(db)
    ensures Find(db[..k], id).Some? ==> Find(db, id) == Find(db[..k], id)
  {
    FindMeans(db, id);
    FindMeans(db[..k], id);
  }

  /** What a GetJob call must answer when the database it read is the first `seen` rows. */
  lemma JobAnswerOfPrefix<D>(s: State<D>, ttl: real, a: Answer<D>, seen: nat)
    requires AnswerOk(s, ttl, a) && a.target.ById?
      && seen == (if a.source.Cache? then a.source.entry.seen else a.source.seen)
    requires DistinctIds(s.db)
    ensures seen <= |s.db|
    ensures match Find(s.db[..seen], a.target.id)
      case Some(row) => a.result == Served(One(row)) && Find(s.db, a.target.id) == Some(row)
      case None => a.result == NotFound && a.source.Database?
  {
    FindGrows(s.db, seen, a.target.id);
  }

  /**
   * GetJob answers exactly what the database says of the id at an instant inside the producing
   * call. A row is never changed, so a found job is also what the database says now; absence is
   * never cached.
   */
  lemma JobAnswersAreExact<D>(ttl: real, actions: seq<Action<D>>, i: nat)
    requires i < |Run(ttl, actions).answers| && Run(ttl, actions).answers[i].target.ById?
    ensures var s := Run(ttl, actions); var a := s.answers[i]; var p := ProducerOf(a);
      && p.begun < p.read <= p.ended <= a.end < |actions|
      && (match Find(DatabaseAt(ttl, actions, p.read), a.target.id)
          case Some(row) => a.result == Served(One(row)) && Find(s.db, a.target.id) == Some(row)
          case None => a.result == NotFound && a.source.Database?)
  {
    var s := Run(ttl, actions);
    var a := s.answers[i];
    var seen := if a.source.Cache? then a.source.entry.seen else a.source.seen;
    RunIsSound(ttl, actions);
    RunExtends(ttl, actions, |actions|);
    assert actions[..|actions|] == actions;
    assert AnswerOk(s, ttl, a);
    RowsAreDistinct(ttl, actions);
    JobAnswerOfPrefix(s, ttl, a, seen);
    SeenIsDatabaseAt(ttl, actions, ProducerOf(a).read, seen);
  }

  lemma FoundStays<D>(ttl: real, actions: seq<Action<D>>, i: nat, j: nat, id: string)
    requires i <= j <= |actions|
    ensures var found := Find(DatabaseAt(ttl, actions, i), id);
      found.Some? ==> Find(DatabaseAt(ttl, actions, j), id) == found
  {
    RunExtends(ttl, actions[..j], i);
    assert actions[..j][..i] == actions[..i];
    RowsAreDistinct(ttl, actions[..j]);
    var before, after := DatabaseAt(ttl, actions, i), DatabaseAt(ttl, actions, j);
    assert after[..|before|] == before;
    FindGrows(after, |before|, id);
  }

  /** A call that starts after the commit always finds the job, unchanged, and never says it does not exist. */
  lemma CommittedJobsAreFound<D>(ttl: real, actions: seq<Action<D>>, i: nat)
    requires i < |Run(ttl, actions).answers| && Run(ttl, actions).answers[i].target.ById?
    requires Run(ttl, actions).answers[i].start <= |actions|
    ensures var a := Run(ttl, actions).answers[i];
      var found := Find(DatabaseAt(ttl, actions, a.start), a.target.id);
      found.Some? ==> a.result == Served(One(found.value))
  {
    var a := Run(ttl, actions).answers[i];
    JobAnswersAreExact(ttl, actions, i);
    if a.source.Database? {
      FoundStays(ttl, actions, a.start, ProducerOf(a).read, a.target.id);
    } else {
      FoundStays(ttl, actions, a.start, |actions|, a.target.id);
      assert actions[..|actions|] == actions;
    }
  }

  // ---- the promise that a create's delete ends staleness, and where it breaks ----

  /** A list call reads, a create commits and deletes, the call stores what it read, a later call serves it. */
  function OverlappingFill<D>(row: Row<D>): seq<Action<D>> {
    [Begin(0, All), Lookup(0, false), Fetch(0, false), Insert(row), Delete(0, false), Store(0, false),
     Begin(1, All), Lookup(1, false)]
  }

  lemma RunNext<D>(ttl: real, actions: seq<Action<D>>, a: Action<D>)
    ensures Run(ttl, actions + [a]) == Step(Run(ttl, actions), ttl, a)
  {
    assert (actions + [a])[..|actions|] == actions;
  }

  lemma ReaderHoldsOldList<D>(ttl: real, row: Row<D>)
    ensures Run(ttl, OverlappingFill(row)[..3])
         == State(3, 0.0, [], [], map[], map[0 := Reader(All, 0, Fetched(ListOf([]), 0, 2))], [])
  {
    var run := OverlappingFill(row);
    RunNext(ttl, [], run[0]);
    RunNext(ttl, run[..1], run[1]);
    RunNext(ttl, run[..2], run[2]);
    assert run[..1] == [] + [run[0]] && run[..2] == run[..1] + [run[1]] && run[..3] == run[..2] + [run[2]];
  }

  lemma CreateReturns<D>(ttl: real, row: Row<D>)
    ensures Run(ttl, OverlappingFill(row)[..5])
         == State(5, 0.0, [row], [Write(3, Some(Del(4, true)))], map[],
           map[0 := Reader(All, 0, Fetched(ListOf([]), 0, 2))], [])
  {
    var run := OverlappingFill(row);
    ReaderHoldsOldList(ttl, row);
    RunNext(ttl, run[..3], run[3]);
    RunNext(ttl, run[..4], run[4]);
    assert run[..4] == run[..3] + [run[3]] && run[..5] == run[..4] + [run[4]];
  }

  lemma OldListIsStored<D>(ttl: real, row: Row<D>)
    ensures var s := Run(ttl, OverlappingFill(row)[..6]); var key := CacheKey(All);
      && s.step == 6 && s.now == 0.0 && s.db == [row] && s.writes == [Write(3, Some(Del(4, true)))]
          && s.readers == map[]
      && key in s.cache && s.cache[key] == Entry(ListOf([]), 0.0, 0, 2, 0, 5) && |s.answers| == 1
  {
    var run := OverlappingFill(row);
    CreateReturns(ttl, row);
    RunNext(ttl, run[..5], run[5]);
    assert run[..6] == run[..5] + [run[5]];
  }

  /** A successful delete before the call is not enough: the call still misses the created row. */
  lemma StaleAfterCreateReturned<D>(ttl: real, row: Row<D>)
    requires ttl > 0.0
    ensures var s := Run(ttl, OverlappingFill(row));
      && |s.answers| == 2 && s.answers[1].target.All? && s.db == [row] && |s.writes| == 1
      && Settled(s.writes, 0, s.answers[1].start) && Misses(s.answers[1], row)
  {
    var run := OverlappingFill(row);
    OldListIsStored(ttl, row);
    RunNext(ttl, run[..6], run[6]);
    RunNext(ttl, run[..7], run[7]);
    assert run[..7] == run[..6] + [run[6]] && run == run[..7] + [run[7]];
  }
}
