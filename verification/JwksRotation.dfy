/** How long a key that the server has rotated out can still be answered. */
module JwksRotation {
  // The client dates a document from its installation, so the time a fetch takes comes on top of the
  // refresh interval.

  import opened Prelude
  import opened JwkCodec
  import opened JwksClient

  // ---- the steps at which a document was fetched and installed ----

  /** A call that has fetched, and a document installed, know the steps they did so at. */
  ghost predicate Dated(actions: seq<Action>, s: State) {
    && (forall c :: c in s.calls && s.calls[c].phase.Fetched? ==>
          FetchedAt(actions, c, s.calls[c].phase.doc, s.calls[c].phase.fetchedAt))
    && (forall r :: r in s.served ==> WasFetched(actions, r))
    && (forall k :: 0 <= k < |s.installs| ==> InstalledAsDated(actions, s.installs[k]))
    && (forall i, k :: 0 <= i < k < |s.installs| ==> s.installs[i].installed < s.installs[k].installed)
    && s.step == |actions|
  }

  predicate FetchedAt(actions: seq<Action>, c: nat, doc: Doc, at: nat) {
    at < |actions| && actions[at] == Fetch(c, doc, false)
  }

  ghost predicate WasFetched(actions: seq<Action>, r: Response) {
    exists c :: FetchedAt(actions, c, r.doc, r.at)
  }

  ghost predicate InstalledAsDated(actions: seq<Action>, x: Installed) {
    && x.fetched < x.installed < |actions|
    && exists c :: actions[x.installed] == Install(c) && FetchedAt(actions, c, x.doc, x.fetched)
  }

  lemma StillDated(actions: seq<Action>, s: State, a: Action)
    requires Dated(actions, s)
    ensures Dated(actions + [a], s.(step := s.step + 1))
  {
    forall r | r in s.served ensures WasFetched(actions + [a], r) {
      assert WasFetched(actions, r);
      var c :| FetchedAt(actions, c, r.doc, r.at);
      assert FetchedAt(actions + [a], c, r.doc, r.at);
    }
    forall k | 0 <= k < |s.installs| ensures InstalledAsDated(actions + [a], s.installs[k]) {
      var x := s.installs[k];
      assert InstalledAsDated(actions, x);
      var c :| actions[x.installed] == Install(c) && FetchedAt(actions, c, x.doc, x.fetched);
      assert FetchedAt(actions + [a], c, x.doc, x.fetched) && (actions + [a])[x.installed] == Install(c);
    }
  }

  lemma NextIsDated(actions: seq<Action>, s: State, interval: real, a: Action)
    requires Dated(actions, s)
    ensures Dated(actions + [a], Step(s, interval, a))
  {
    StillDated(actions, s, a);
    var all, s' := actions + [a], Step(s, interval, a);
    match a
    case Fetch(c, doc, fails) => assert !fails ==> FetchedAt(all, c, doc, |actions|);
    case Install(c) =>
      if s'.installs != s.installs {
        var x := s'.installs[|s.installs|];
        assert FetchedAt(all, c, x.doc, x.fetched) && all[x.installed] == Install(c);
        assert InstalledAsDated(all, x);
      }
    case _ =>
  }

  lemma {:induction false} RunIsDated(interval: real, actions: seq<Action>)
    ensures Dated(actions, Run(interval, actions))
  {
    if actions != [] {
      var n := |actions| - 1;
      RunIsDated(interval, actions[..n]);
      NextIsDated(actions[..n], Run(interval, actions[..n]), interval, actions[n]);
      assert actions == actions[..n] + [actions[n]];
    }
  }

  lemma OlderExactlyOnOverlap(actions: seq<Action>, s: State, k: nat)
    requires Dated(actions, s) && k < |s.installs|
    ensures (exists i :: 0 <= i < k && s.installs[k].fetched < s.installs[i].fetched)
       <==> exists i :: 0 <= i < |s.installs| && Overtakes(s.installs[i], s.installs[k])
  {
    var x := s.installs;
    if i :| 0 <= i < k && x[k].fetched < x[i].fetched {
      assert InstalledAsDated(actions, x[i]) && Overtakes(x[i], x[k]);
    }
    if i :| 0 <= i < |x| && Overtakes(x[i], x[k]) {
      assert i < k;
    }
  }

  /** One was both fetched and installed between the other's fetch and its install. */
  predicate Overtakes(x: Installed, other: Installed) {
    other.fetched < x.fetched < x.installed < other.installed
  }

  /**
   * A document replaces one that was fetched later if and only if another call both fetched and
   * installed between its own Fetch and its own Install, which are steps of the run.
   */
  lemma OlderDocumentReturnsExactlyOnOverlap(interval: real, actions: seq<Action>, k: nat)
    requires k < |Run(interval, actions).installs|
    ensures var x := Run(interval, actions).installs;
      && InstalledAsDated(actions, x[k])
      && ((exists i :: 0 <= i < k && x[k].fetched < x[i].fetched)
          <==> exists i :: 0 <= i < |x| && Overtakes(x[i], x[k]))
  {
    RunIsDated(interval, actions);
    OlderExactlyOnOverlap(actions, Run(interval, actions), k);
  }

  lemma RunNext(interval: real, actions: seq<Action>, a: Action)
    ensures Run(interval, actions + [a]) == Step(Run(interval, actions), interval, a)
  {
    assert (actions + [a])[..|actions|] == actions;
  }

  /** GetKey fetches, a Refresh fetches and installs the rotated document, GetKey installs the old one. */
  function Overtaken(kid: string, stale: Doc, rotated: Doc): seq<Action> {
    [Check(0, kid), Fetch(0, stale, false), StartRefresh(1), Fetch(1, rotated, false), Install(1), Install(0),
      Check(2, kid)]
  }

  lemma FetchIsOvertaken(interval: real, kid: string, stale: Doc, rotated: Doc)
    ensures var s := Run(interval, Overtaken(kid, stale, rotated)[..4]);
      var call := Call(Some(kid), 0.0, None, Fetched(stale, 1));
      s == State(4, 0.0, [Response(stale, 1), Response(rotated, 3)], [],
        map[0 := call, 1 := Call(None, 0.0, None, Fetched(rotated, 3))], [])
  {
    var run := Overtaken(kid, stale, rotated);
    RunNext(interval, [], run[0]);
    RunNext(interval, run[..1], run[1]);
    RunNext(interval, run[..2], run[2]);
    RunNext(interval, run[..3], run[3]);
    assert run[..1] == [] + [run[0]] && run[..2] == run[..1] + [run[1]];
    assert run[..3] == run[..2] + [run[2]] && run[..4] == run[..3] + [run[3]];
  }

  lemma OvertakenIsInstalled(interval: real, kid: string, stale: Doc, rotated: Doc)
    ensures var s := Run(interval, Overtaken(kid, stale, rotated)[..6]);
      && s.now == 0.0 && s.installs == [Installed(rotated, 0.0, 3, 4), Installed(stale, 0.0, 1, 5)]
      && s.answers == [] && s.calls.Keys == {0}
  {
    var run := Overtaken(kid, stale, rotated);
    FetchIsOvertaken(interval, kid, stale, rotated);
    RunNext(interval, run[..4], run[4]);
    RunNext(interval, run[..5], run[5]);
    assert run[..5] == run[..4] + [run[4]] && run[..6] == run[..5] + [run[5]];
  }

  /** Whatever the interval: a key that a later fetched and already installed document lacks is served again. */
  lemma RotatedKeyIsServedAgain(interval: real, kid: string, key: Key, stale: Doc, rotated: Doc)
    requires interval > 0.0 && Publishes(stale, kid, key) && kid !in KeysOf(rotated)
    ensures var s := Run(interval, Overtaken(kid, stale, rotated));
      && |s.installs| == 2 && s.installs[0].doc == rotated && s.installs[1].fetched < s.installs[0].fetched
      && |s.answers| == 1 && s.answers[0].kid == kid && s.answers[0].result == Ok(Info(key, 1))
          && !s.answers[0].refreshFailed
  {
    var run := Overtaken(kid, stale, rotated);
    OvertakenIsInstalled(interval, kid, stale, rotated);
    KeysOfMeans(stale, kid, key);
    RunNext(interval, run[..6], run[6]);
    assert run == run[..6] + [run[6]];
    var s := Run(interval, run[..6]);
    assert Cached(s) == KeysOf(stale) && kid in Cached(s);
    assert |Cached(s)| != 0;
  }

  // ---- documents by the time they were fetched ----

  /** The time before the action at position j of the run. */
  function TimeAt(interval: real, actions: seq<Action>, j: nat): real
    requires j <= |actions|
  {
    Run(interval, actions[..j]).now
  }

  /** A document is dated from its installation; this is by how much that is too late. */
  function DelayOf(interval: real, actions: seq<Action>, x: Installed): real
    requires x.fetched <= |actions|
  {
    x.at - TimeAt(interval, actions, x.fetched)
  }

  ghost predicate InstallsTimed(s: State, times: seq<real>) {
    && |times| == s.step
    && (forall k :: 0 <= k < |s.installs| ==>
          s.installs[k].installed < |times| && s.installs[k].at == times[s.installs[k].installed])
  }

  function Times(interval: real, actions: seq<Action>): seq<real> {
    seq(|actions|, j requires 0 <= j < |actions| => TimeAt(interval, actions, j))
  }

  lemma TimesNext(interval: real, actions: seq<Action>)
    requires actions != []
    ensures var before := actions[..|actions| - 1];
      Times(interval, actions) == Times(interval, before) + [Run(interval, before).now]
  {
    var before := actions[..|actions| - 1];
    forall j | 0 <= j < |before| ensures before[..j] == actions[..j] {
    }
  }

  lemma StepKeepsTimed(s: State, interval: real, a: Action, times: seq<real>)
    requires InstallsTimed(s, times)
    ensures InstallsTimed(Step(s, interval, a), times + [s.now])
  {
    assert (times + [s.now])[s.step] == s.now;
  }

  /** An installed document carries the time of its Install step. */
  lemma {:induction false} RunIsTimed(interval: real, actions: seq<Action>)
    ensures InstallsTimed(Run(interval, actions), Times(interval, actions))
  {
    if actions != [] {
      var n := |actions| - 1;
      RunIsTimed(interval, actions[..n]);
      StepKeepsTimed(Run(interval, actions[..n]), interval, actions[n], Times(interval, actions[..n]));
      TimesNext(interval, actions);
    }
  }

  /** Both of a document's steps are the run's own, and its delay is the time between them. */
  lemma DelaysAreOfTheRun(interval: real, actions: seq<Action>, k: nat)
    requires k < |Run(interval, actions).installs|
    ensures var x := Run(interval, actions).installs[k];
      && x.fetched < x.installed < |actions| && actions[x.fetched].Fetch? && actions[x.fetched].doc == x.doc
      && actions[x.installed] == Install(actions[x.fetched].c)
      && DelayOf(interval, actions, x) == TimeAt(interval, actions, x.installed) - TimeAt(interval, actions, x.fetched)
  {
    RunIsDated(interval, actions);
    RunIsTimed(interval, actions);
    assert InstalledAsDated(actions, Run(interval, actions).installs[k]);
  }

  /**
   * A key answered without a failed refresh comes from a document that was fetched no earlier than
   * the refresh interval and that document's own delay before the check.
   */
  lemma KeysAreFetchedRecently(interval: real, actions: seq<Action>, i: nat)
    requires interval > 0.0 && i < |Run(interval, actions).answers|
    requires Run(interval, actions).answers[i].result.Ok? && !Run(interval, actions).answers[i].refreshFailed
    ensures var s := Run(interval, actions); var a := s.answers[i];
      && a.result.info.source < |s.installs|
      && var x := s.installs[a.result.info.source];
      && x.fetched <= |actions|
      && TimeAt(interval, actions, x.fetched) >= a.checkedAt - interval - DelayOf(interval, actions, x)
  {
    KeysAreFresh(interval, actions, i);
    DelaysAreOfTheRun(interval, actions, Run(interval, actions).answers[i].result.info.source);
  }

  /** No document of the run took longer than d from its fetch to its installation. */
  ghost predicate FetchesWithin(interval: real, actions: seq<Action>, d: real) {
    forall x :: x in Run(interval, actions).installs ==>
      x.fetched <= |actions| && DelayOf(interval, actions, x) <= d
  }

  /** So with fetches of at most d, no answered key's document is older than the interval and d. */
  lemma KeysAreNoOlderThanIntervalAndFetch(interval: real, actions: seq<Action>, d: real, i: nat)
    requires interval > 0.0 && i < |Run(interval, actions).answers| && FetchesWithin(interval, actions, d)
    requires Run(interval, actions).answers[i].result.Ok? && !Run(interval, actions).answers[i].refreshFailed
    ensures var s := Run(interval, actions); var a := s.answers[i];
      && a.result.info.source < |s.installs|
      && var x := s.installs[a.result.info.source];
      && x.fetched <= |actions| && TimeAt(interval, actions, x.fetched) >= a.checkedAt - interval - d
  {
    KeysAreFetchedRecently(interval, actions, i);
    var s := Run(interval, actions);
    assert s.installs[s.answers[i].result.info.source] in s.installs;
  }

  // ---- a key rotated out ----

  predicate Has(doc: Doc, kid: string, key: Key) {
    kid in KeysOf(doc) && KeysOf(doc)[kid] == key
  }

  /** The server answers the key in every document before the time, and in none from then on. */
  ghost predicate RotatedOutAt(interval: real, actions: seq<Action>, kid: string, key: Key, time: real) {
    forall r :: r in Run(interval, actions).served ==>
      r.at <= |actions| && (Has(r.doc, kid, key) <==> TimeAt(interval, actions, r.at) < time)
  }

  predicate AnswersKey(a: Answer, key: Key) {
    a.result.Ok? && a.result.info.key == key
  }

  /**
   * Exactly when a rotated-out key is still answered without a failed refresh: the document the call
   * read was fetched before the rotation. However late the call, that document was installed no
   * earlier than the interval before its check.
   */
  lemma RotatedKeyIsAnsweredExactly(
      interval: real, actions: seq<Action>, kid: string, key: Key, time: real, i: nat)
    requires interval > 0.0 && RotatedOutAt(interval, actions, kid, key, time)
    requires i < |Run(interval, actions).answers|
    requires Run(interval, actions).answers[i].kid == kid && !Run(interval, actions).answers[i].refreshFailed
    ensures var s := Run(interval, actions); var a := s.answers[i];
      && a.read.Some? && a.read.value < |s.installs|
      && var x := s.installs[a.read.value];
      && x.fetched <= |actions| && x.at >= a.checkedAt - interval
      && (AnswersKey(a, key) <==> TimeAt(interval, actions, x.fetched) < time)
  {
    RunIsSound(interval, actions);
    var s := Run(interval, actions);
    var a := s.answers[i];
    assert AnswerOk(s, interval, a);
    var x := s.installs[a.read.value];
    assert Response(x.doc, x.fetched) in s.served;
    assert a.result.Ok? ==> InfoOk(s.installs, kid, a.result.info);
  }

  /**
   * So a call that checks later than the interval after the rotation answers the key exactly if its
   * document was on its way at the rotation, and then for longer than the check is late.
   */
  lemma LateAnswersNeedASlowFetch(interval: real, actions: seq<Action>, kid: string, key: Key, time: real, i: nat)
    requires interval > 0.0 && RotatedOutAt(interval, actions, kid, key, time)
    requires i < |Run(interval, actions).answers|
    requires Run(interval, actions).answers[i].kid == kid && !Run(interval, actions).answers[i].refreshFailed
    requires Run(interval, actions).answers[i].checkedAt > time + interval
    ensures var s := Run(interval, actions); var a := s.answers[i];
      && a.read.Some? && a.read.value < |s.installs|
      && var x := s.installs[a.read.value];
      && x.fetched <= |actions|
      && (AnswersKey(a, key) <==> TimeAt(interval, actions, x.fetched) < time < x.at)
      && (AnswersKey(a, key) ==> DelayOf(interval, actions, x) > a.checkedAt - interval - time)
  {
    RotatedKeyIsAnsweredExactly(interval, actions, kid, key, time, i);
  }

  /** With fetches of at most d, a rotation takes effect within the interval and d. */
  lemma RotationTakesEffectWithinIntervalAndFetch(
      interval: real, actions: seq<Action>, kid: string, key: Key, time: real, d: real, i: nat)
    requires interval > 0.0 && RotatedOutAt(interval, actions, kid, key, time) && FetchesWithin(interval, actions, d)
    requires i < |Run(interval, actions).answers|
    requires Run(interval, actions).answers[i].kid == kid && !Run(interval, actions).answers[i].refreshFailed
    requires Run(interval, actions).answers[i].checkedAt >= time + interval + d
    ensures !AnswersKey(Run(interval, actions).answers[i], key)
  {
    RotatedKeyIsAnsweredExactly(interval, actions, kid, key, time, i);
    var s := Run(interval, actions);
    assert s.installs[s.answers[i].read.value] in s.installs;
  }

  // ---- the bound is met ----

  /** A fetch that takes d, and a call just as the interval after its installation ends. */
  function SlowFetch(kid: string, doc: Doc, d: real, interval: real): seq<Action> {
    [Check(0, kid), Fetch(0, doc, false), Pass(d), Install(0), Pass(interval), Check(1, kid)]
  }

  lemma SlowFetchArrives(interval: real, kid: string, doc: Doc, d: real)
    requires d > 0.0
    ensures Run(interval, SlowFetch(kid, doc, d, interval)[..3])
         == State(3, d, [Response(doc, 1)], [], map[0 := Call(Some(kid), 0.0, None, Fetched(doc, 1))], [])
  {
    var run := SlowFetch(kid, doc, d, interval);
    RunNext(interval, [], run[0]);
    RunNext(interval, run[..1], run[1]);
    RunNext(interval, run[..2], run[2]);
    assert run[..1] == [] + [run[0]] && run[..2] == run[..1] + [run[1]] && run[..3] == run[..2] + [run[2]];
  }

  lemma SlowFetchIsInstalled(interval: real, kid: string, doc: Doc, d: real)
    requires d > 0.0 && interval > 0.0
    ensures var s := Run(interval, SlowFetch(kid, doc, d, interval)[..5]);
      && s.now == d + interval && s.installs == [Installed(doc, d, 1, 3)] && s.served == [Response(doc, 1)]
      && s.answers == [] && 1 !in s.calls
  {
    var run := SlowFetch(kid, doc, d, interval);
    SlowFetchArrives(interval, kid, doc, d);
    RunNext(interval, run[..3], run[3]);
    RunNext(interval, run[..4], run[4]);
    assert run[..4] == run[..3] + [run[3]] && run[..5] == run[..4] + [run[4]];
  }

  lemma SlowFetchStartsAtZero(interval: real, kid: string, doc: Doc, d: real)
    ensures TimeAt(interval, SlowFetch(kid, doc, d, interval), 1) == 0.0
  {
    var run := SlowFetch(kid, doc, d, interval);
    RunNext(interval, [], run[0]);
    assert run[..1] == [] + [run[0]];
  }

  /**
   * For every interval and every d a key is answered, as fresh, the interval and d after its document
   * was fetched: whatever time up to d it was rotated out at, that is later than the interval after.
   */
  lemma IntervalAndFetchIsReached(interval: real, kid: string, key: Key, doc: Doc, d: real)
    requires interval > 0.0 && d > 0.0 && Publishes(doc, kid, key)
    ensures var run := SlowFetch(kid, doc, d, interval); var s := Run(interval, run);
      && FetchesWithin(interval, run, d) && |s.answers| == 1 && !s.answers[0].refreshFailed
      && s.answers[0].kid == kid && s.answers[0].result == Ok(Info(key, 0))
      && s.answers[0].checkedAt == d + interval && |s.installs| == 1 && s.installs[0].fetched == 1
      && TimeAt(interval, run, 1) == s.answers[0].checkedAt - interval - d
    ensures forall time :: 0.0 < time <= d ==> RotatedOutAt(interval, SlowFetch(kid, doc, d, interval), kid, key, time)
  {
    var run := SlowFetch(kid, doc, d, interval);
    SlowFetchIsInstalled(interval, kid, doc, d);
    SlowFetchStartsAtZero(interval, kid, doc, d);
    KeysOfMeans(doc, kid, key);
    RunNext(interval, run[..5], run[5]);
    assert run == run[..5] + [run[5]];
    var s := Run(interval, run[..5]);
    assert Cached(s) == KeysOf(doc) && kid in Cached(s);
    assert |Cached(s)| != 0;
  }
}
