/** The JWKS client's cache, any number of whose GetKey and Refresh calls overlap. */
module JwksClient {
  // GetKey checks the cache under a read lock, fetches without a lock, installs under a write lock
  // and reads again.

  import opened Prelude
  import opened JwkCodec

  datatype Key = Key(n: nat, e: int)

  /** One entry of a served document; None stands for text that is not base64url. */
  datatype Jwk = Jwk(kid: string, n: Option<seq<byte>>, e: Option<seq<byte>>)

  type Doc = seq<Jwk>

  // ---- reading a document ----

  predicate Readable(k: Jwk) {
    k.n.Some? && k.e.Some?
  }

  function KeyOf(k: Jwk): Key
    requires Readable(k)
  {
    Key(Value(k.n.value), ToInt64(Value(k.e.value)))
  }

  /** Entries that do not decode are skipped; of several with one kid the last counts. */
  function KeysOf(doc: Doc): map<string, Key> {
    if doc == [] then map[]
    else
      var before, last := KeysOf(doc[..|doc| - 1]), doc[|doc| - 1];
      if Readable(last) then before[last.kid := KeyOf(last)] else before
  }

  /** The document publishes the key under the kid, and nothing readable under it later. */
  ghost predicate Publishes(doc: Doc, kid: string, key: Key) {
    exists i :: 0 <= i < |doc| && PublishesAt(doc, kid, key, i)
  }

  predicate PublishesAt(doc: Doc, kid: string, key: Key, i: nat)
    requires i < |doc|
  {
    && doc[i].kid == kid && Readable(doc[i]) && KeyOf(doc[i]) == key
    && (forall j :: i < j < |doc| ==> !(doc[j].kid == kid && Readable(doc[j])))
  }

  lemma {:induction false} KeysOfMeans(doc: Doc, kid: string, key: Key)
    ensures kid in KeysOf(doc) && KeysOf(doc)[kid] == key <==> Publishes(doc, kid, key)
  {
    if doc != [] {
      var n := |doc| - 1;
      var before := doc[..n];
      KeysOfMeans(before, kid, key);
      if doc[n].kid == kid && Readable(doc[n]) {
        assert KeyOf(doc[n]) == key ==> PublishesAt(doc, kid, key, n);
      } else {
        if Publishes(before, kid, key) {
          var i :| 0 <= i < n && PublishesAt(before, kid, key, i);
          assert forall j :: i < j < n ==> doc[j] == before[j];
          assert PublishesAt(doc, kid, key, i);
        }
        if Publishes(doc, kid, key) {
          var i :| 0 <= i < |doc| && PublishesAt(doc, kid, key, i);
          assert PublishesAt(before, kid, key, i);
        }
      }
    }
  }

  method ReadDocument(doc: Doc) returns (keys: map<string, Key>)
    ensures keys == KeysOf(doc)
  {
    keys := map[];
    for i := 0 to |doc|
      invariant keys == KeysOf(doc[..i])
    {
      assert doc[..i + 1][..i] == doc[..i];
      var k := doc[i];
      if k.n.None? || k.e.None? {
        continue;
      }
      var e := DecodeExponent(k.e.value);
      keys := keys[k.kid := Key(Value(k.n.value), e)];
    }
    assert doc[..|doc|] == doc;
  }

  /** What auth-service serves for its key pair: the modulus as big.Int.Bytes, the exponent as bigEndianBytes. */
  function Served(kid: string, key: Key): Doc {
    [Jwk(kid, Some(Digits(key.n)), Some(Encoded(key.e)))]
  }

  /** The client reads back exactly the server's public key. */
  lemma ServedKeyIsRead(kid: string, key: Key)
    requires 0 <= key.e < TWO_TO_63
    ensures KeysOf(Served(kid, key)) == map[kid := key]
  {
    ValueOfDigits(key.n);
    ExponentRoundTrip(key.e);
    assert Served(kid, key)[..0] == [];
  }

  // ---- the cache under overlapping calls ----

  /** A document as the server answered it at a step. */
  datatype Response = Response(doc: Doc, at: nat)

  /** A document put in the cache, and when; with the steps at which it was fetched and installed. */
  datatype Installed = Installed(doc: Doc, at: real, fetched: nat, installed: nat)

  /** A key with the position in the install history of the document it came from. */
  datatype Info = Info(key: Key, source: nat)

  datatype Phase = Fetching | Fetched(doc: Doc, fetchedAt: nat) | Rereading(own: nat)

  /** A call in flight past its check; kid is None for a plain Refresh. */
  datatype Call = Call(kid: Option<string>, checkedAt: real, had: Option<Info>, phase: Phase)

  datatype Result = Ok(info: Info) | NoSuchKey | FetchError

  /**
   * A finished GetKey: when it checked, what it saw then, whether its own refresh failed, and the
   * installed document it read its result from.
   */
  datatype Answer = Answer(
    kid: string, checkedAt: real, had: Option<Info>, refreshFailed: bool, result: Result, read: Option<nat>)

  datatype State = State(
    step: nat, now: real, served: seq<Response>, installs: seq<Installed>, calls: map<nat, Call>, answers: seq<Answer>)

  datatype Action =
    | Check(c: nat, kid: string)
    | StartRefresh(c: nat)
    | Fetch(c: nat, doc: Doc, fails: bool)
    | Install(c: nat)
    | Reread(c: nat)
    | Pass(dt: real)

  function Init(): State {
    State(0, 0.0, [], [], map[], [])
  }

  function Cached(s: State): map<string, Key> {
    if s.installs == [] then map[] else KeysOf(s.installs[|s.installs| - 1].doc)
  }

  function Lookup(s: State, kid: string): Option<Info> {
    if kid in Cached(s) then Some(Info(Cached(s)[kid], |s.installs| - 1)) else None
  }

  /** The last document installed. */
  function LastInstall(s: State): Option<nat> {
    if s.installs == [] then None else Some(|s.installs| - 1)
  }

  /** Never fetched, fetched too long ago, or empty. */
  predicate Stale(s: State, interval: real) {
    s.installs == [] || s.now - s.installs[|s.installs| - 1].at > interval || |Cached(s)| == 0
  }

  function AfterCheck(s: State, interval: real, c: nat, kid: string): State {
    if c in s.calls then s
    else if Lookup(s, kid).Some? && !Stale(s, interval) then
      s.(answers := s.answers + [Answer(kid, s.now, Lookup(s, kid), false, Ok(Lookup(s, kid).value), LastInstall(s))])
    else s.(calls := s.calls[c := Call(Some(kid), s.now, Lookup(s, kid), Fetching)])
  }

  /** A failed fetch leaves the cache alone: the key seen at the check is served all the same. */
  function AfterFetch(s: State, c: nat, doc: Doc, fails: bool): State {
    if c in s.calls && s.calls[c].phase.Fetching? then
      var call := s.calls[c];
      if !fails then
        s.(served := s.served + [Response(doc, s.step)], calls := s.calls[c := call.(phase := Fetched(doc, s.step))])
      else if call.kid.None? then s.(calls := s.calls - {c})
      else
        s.(calls := s.calls - {c},
           answers := s.answers
             + [Answer(call.kid.value, call.checkedAt, call.had, true,
                       if call.had.Some? then Ok(call.had.value) else FetchError,
                       if call.had.Some? then Some(call.had.value.source) else None)])
    else s
  }

  function AfterInstall(s: State, c: nat): State {
    if c in s.calls && s.calls[c].phase.Fetched? then
      var call := s.calls[c];
      s.(installs := s.installs + [Installed(call.phase.doc, s.now, call.phase.fetchedAt, s.step)],
         calls := if call.kid.None? then s.calls - {c} else s.calls[c := call.(phase := Rereading(|s.installs|))])
    else s
  }

  function AfterReread(s: State, c: nat): State {
    if c in s.calls && s.calls[c].phase.Rereading? && s.calls[c].kid.Some? then
      var call := s.calls[c];
      var found := Lookup(s, call.kid.value);
      s.(calls := s.calls - {c},
         answers := s.answers
           + [Answer(call.kid.value, call.checkedAt, call.had, false,
                     if found.Some? then Ok(found.value) else NoSuchKey, LastInstall(s))])
    else s
  }

  function Effect(s: State, interval: real, a: Action): State {
    match a
    case Check(c, kid) => AfterCheck(s, interval, c, kid)
    case StartRefresh(c) => if c in s.calls then s else s.(calls := s.calls[c := Call(None, s.now, None, Fetching)])
    case Fetch(c, doc, fails) => AfterFetch(s, c, doc, fails)
    case Install(c) => AfterInstall(s, c)
    case Reread(c) => AfterReread(s, c)
    case Pass(dt) => if dt > 0.0 then s.(now := s.now + dt) else s
  }

  /** Every action takes one step; one that is not enabled changes nothing else. */
  function Step(s: State, interval: real, a: Action): State {
    Effect(s, interval, a).(step := s.step + 1)
  }

  function Run(interval: real, actions: seq<Action>): State {
    if actions == [] then Init() else Step(Run(interval, actions[..|actions| - 1]), interval, actions[|actions| - 1])
  }

  // ---- what every run keeps ----

  predicate InstallsOk(installs: seq<Installed>, served: seq<Response>, now: real) {
    && (forall i :: 0 <= i < |installs| ==>
          Response(installs[i].doc, installs[i].fetched) in served && installs[i].at <= now)
    && (forall i, j :: 0 <= i < j < |installs| ==> installs[i].at <= installs[j].at)
  }

  /** The key is the one its installed document has for the kid. */
  predicate InfoOk(installs: seq<Installed>, kid: string, info: Info) {
    info.source < |installs| && kid in KeysOf(installs[info.source].doc)
      && KeysOf(installs[info.source].doc)[kid] == info.key
  }

  /** A document without the key came into the cache at or after the instant. */
  predicate LackedSince(installs: seq<Installed>, kid: string, since: real) {
    exists i :: 0 <= i < |installs| && installs[i].at >= since && kid !in KeysOf(installs[i].doc)
  }

  predicate CallOk(s: State, call: Call) {
    && call.checkedAt <= s.now
    && (call.kid.Some? && call.had.Some? ==> InfoOk(s.installs, call.kid.value, call.had.value))
    && (call.phase.Fetched? ==> Response(call.phase.doc, call.phase.fetchedAt) in s.served)
    && (call.phase.Rereading? ==> call.phase.own < |s.installs| && s.installs[call.phase.own].at >= call.checkedAt)
  }

  /** The result is what the document read says of the kid, and that document is young enough. */
  predicate ReadOk(installs: seq<Installed>, interval: real, a: Answer) {
    && a.read.Some? && a.read.value < |installs| && installs[a.read.value].at >= a.checkedAt - interval
    && match a.result
       case Ok(info) => info.source == a.read.value
       case FetchError => false
       case NoSuchKey => a.kid !in KeysOf(installs[a.read.value].doc) && installs[a.read.value].at >= a.checkedAt
  }

  predicate AnswerOk(s: State, interval: real, a: Answer) {
    && (a.had.Some? ==> InfoOk(s.installs, a.kid, a.had.value))
    && (a.result.Ok? ==> InfoOk(s.installs, a.kid, a.result.info))
    && (if a.refreshFailed then a.result == if a.had.Some? then Ok(a.had.value) else FetchError
        else ReadOk(s.installs, interval, a))
  }

  ghost predicate Sound(s: State, interval: real) {
    && InstallsOk(s.installs, s.served, s.now)
    && (forall c :: c in s.calls ==> CallOk(s, s.calls[c]))
    && (forall i :: 0 <= i < |s.answers| ==> AnswerOk(s, interval, s.answers[i]))
  }

  /** History only grows. */
  predicate Later(s: State, s': State) {
    s.installs <= s'.installs && s.served <= s'.served && s.now <= s'.now
  }

  lemma SoundWhenNewIs(s: State, s': State, interval: real)
    requires Sound(s, interval) && Later(s, s') && InstallsOk(s'.installs, s'.served, s'.now)
    requires forall c :: c in s'.calls ==> (c in s.calls && s'.calls[c] == s.calls[c]) || CallOk(s', s'.calls[c])
    requires s.answers <= s'.answers
    requires forall i :: |s.answers| <= i < |s'.answers| ==> AnswerOk(s', interval, s'.answers[i])
    ensures Sound(s', interval)
  {
    forall c | c in s'.calls ensures CallOk(s', s'.calls[c]) {
      if c in s.calls && s'.calls[c] == s.calls[c] {
        assert CallOk(s, s.calls[c]);
      }
    }
    forall i | 0 <= i < |s'.answers| ensures AnswerOk(s', interval, s'.answers[i]) {
      if i < |s.answers| {
        StillOk(s, s', interval, s.answers[i]);
      }
    }
  }

  lemma StillOk(s: State, s': State, interval: real, a: Answer)
    requires AnswerOk(s, interval, a) && Later(s, s')
    ensures AnswerOk(s', interval, a)
  {
  }

  lemma CheckKeepsSound(s: State, interval: real, c: nat, kid: string)
    requires Sound(s, interval)
    ensures Sound(AfterCheck(s, interval, c, kid), interval)
  {
    SoundWhenNewIs(s, AfterCheck(s, interval, c, kid), interval);
  }

  lemma FetchKeepsSound(s: State, interval: real, c: nat, doc: Doc, fails: bool)
    requires Sound(s, interval)
    ensures Sound(AfterFetch(s, c, doc, fails), interval)
  {
    if c in s.calls && s.calls[c].phase.Fetching? {
      assert CallOk(s, s.calls[c]);
    }
    SoundWhenNewIs(s, AfterFetch(s, c, doc, fails), interval);
  }

  lemma InstallKeepsSound(s: State, interval: real, c: nat)
    requires Sound(s, interval)
    ensures Sound(AfterInstall(s, c), interval)
  {
    if c in s.calls && s.calls[c].phase.Fetched? {
      assert CallOk(s, s.calls[c]);
    }
    SoundWhenNewIs(s, AfterInstall(s, c), interval);
  }

  lemma RereadKeepsSound(s: State, interval: real, c: nat)
    requires Sound(s, interval) && interval > 0.0
    ensures Sound(AfterReread(s, c), interval)
  {
    if c in s.calls && s.calls[c].phase.Rereading? {
      assert CallOk(s, s.calls[c]);
      var last := s.installs[|s.installs| - 1];
      assert s.installs[s.calls[c].phase.own].at <= last.at;
    }
    SoundWhenNewIs(s, AfterReread(s, c), interval);
  }

  lemma StepCountIsSilent(s: State, step: nat, interval: real)
    requires Sound(s, interval)
    ensures Sound(s.(step := step), interval)
  {
  }

  lemma EffectKeepsSound(s: State, interval: real, a: Action)
    requires Sound(s, interval) && interval > 0.0
    ensures Sound(Effect(s, interval, a), interval)
  {
    match a
    case Check(c, kid) => CheckKeepsSound(s, interval, c, kid);
    case Fetch(c, doc, fails) => FetchKeepsSound(s, interval, c, doc, fails);
    case Install(c) => InstallKeepsSound(s, interval, c);
    case Reread(c) => RereadKeepsSound(s, interval, c);
    case StartRefresh(_) => SoundWhenNewIs(s, Effect(s, interval, a), interval);
    case Pass(_) => SoundWhenNewIs(s, Effect(s, interval, a), interval);
  }

  lemma StepKeepsSound(s: State, interval: real, a: Action)
    requires Sound(s, interval) && interval > 0.0
    ensures Sound(Step(s, interval, a), interval)
  {
    EffectKeepsSound(s, interval, a);
    StepCountIsSilent(Effect(s, interval, a), s.step + 1, interval);
  }

  lemma {:induction false} RunIsSound(interval: real, actions: seq<Action>)
    requires interval > 0.0
    ensures Sound(Run(interval, actions), interval)
  {
    if actions != [] {
      RunIsSound(interval, actions[..|actions| - 1]);
      StepKeepsSound(Run(interval, actions[..|actions| - 1]), interval, actions[|actions| - 1]);
    }
  }

  // ---- what callers see ----

  /** A returned key was published under its kid in a document the server served. */
  lemma KeysWerePublished(interval: real, actions: seq<Action>, i: nat)
    requires interval > 0.0 && i < |Run(interval, actions).answers| && Run(interval, actions).answers[i].result.Ok?
    ensures var s := Run(interval, actions); var a := s.answers[i];
      exists r :: r in s.served && Publishes(r.doc, a.kid, a.result.info.key)
  {
    RunIsSound(interval, actions);
    var s := Run(interval, actions);
    var a := s.answers[i];
    assert AnswerOk(s, interval, a);
    var x := s.installs[a.result.info.source];
    KeysOfMeans(x.doc, a.kid, a.result.info.key);
    assert Response(x.doc, x.fetched) in s.served;
  }

  /** Without a failed refresh, the key's document was in the cache no earlier than the interval before the check. */
  lemma KeysAreFresh(interval: real, actions: seq<Action>, i: nat)
    requires interval > 0.0 && i < |Run(interval, actions).answers|
    ensures var s := Run(interval, actions); var a := s.answers[i];
      a.result.Ok? && !a.refreshFailed ==>
        && a.result.info.source < |s.installs|
        && s.installs[a.result.info.source].at >= a.checkedAt - interval
  {
    RunIsSound(interval, actions);
    assert AnswerOk(Run(interval, actions), interval, Run(interval, actions).answers[i]);
  }

  /**
   * A call fails for want of a fetch exactly if its own refresh failed and the cache had no such
   * key at its check; if it had, that key is the answer. "No such key" is said only after a
   * document without the key came in during the call.
   */
  lemma FailedRefreshServesTheCachedKey(interval: real, actions: seq<Action>, i: nat)
    requires interval > 0.0 && i < |Run(interval, actions).answers|
    ensures var a := Run(interval, actions).answers[i];
      && (a.result.FetchError? <==> a.refreshFailed && a.had.None?)
      && (a.refreshFailed && a.had.Some? ==> a.result == Ok(a.had.value))
      && (a.result.NoSuchKey? ==> !a.refreshFailed && LackedSince(Run(interval, actions).installs, a.kid, a.checkedAt))
  {
    RunIsSound(interval, actions);
    assert AnswerOk(Run(interval, actions), interval, Run(interval, actions).answers[i]);
  }

  // ---- an uninterrupted GetKey ----

  /** The steps of one call back to back, with the outcome of its fetch should it make one. */
  function GetKeySteps(s: State, interval: real, c: nat, kid: string, fetched: Option<Doc>): State {
    var doc := if fetched.Some? then fetched.value else [];
    var t := Step(Step(s, interval, Check(c, kid)), interval, Fetch(c, doc, fetched.None?));
    Step(Step(t, interval, Install(c)), interval, Reread(c))
  }

  /** What the cache holds, as the client's two fields. */
  predicate Holds(s: State, keys: map<string, Key>, fetchedAt: Option<real>) {
    keys == Cached(s) && fetchedAt == if s.installs == [] then None else Some(s.installs[|s.installs| - 1].at)
  }

  predicate Recent(fetchedAt: Option<real>, now: real, interval: real) {
    fetchedAt.Some? && now - fetchedAt.value <= interval
  }

  lemma FreshGetKeyIsARun(
      s: State, interval: real, c: nat, kid: string, fetched: Option<Doc>, keys: map<string, Key>, at: Option<real>)
    requires c !in s.calls && Holds(s, keys, at) && kid in keys && Recent(at, s.now, interval)
    ensures var s' := GetKeySteps(s, interval, c, kid, fetched);
      && Holds(s', keys, at) && s'.calls == s.calls && |s'.answers| == |s.answers| + 1
      && s'.answers[|s.answers|].result == Ok(Info(keys[kid], |s.installs| - 1))
  {
    assert |keys| != 0;
    var t := Step(s, interval, Check(c, kid));
    assert t.calls == s.calls && t.installs == s.installs;
  }

  lemma CheckMisses(s: State, interval: real, c: nat, kid: string, keys: map<string, Key>, at: Option<real>)
    requires c !in s.calls && Holds(s, keys, at) && !(kid in keys && Recent(at, s.now, interval))
    ensures Step(s, interval, Check(c, kid))
         == s.(step := s.step + 1, calls := s.calls[c := Call(Some(kid), s.now, Lookup(s, kid), Fetching)])
  {
  }

  lemma FetchFails(s: State, interval: real, c: nat, doc: Doc)
    requires c in s.calls && s.calls[c].phase.Fetching? && s.calls[c].kid.Some?
    ensures var call := s.calls[c];
      Step(s, interval, Fetch(c, doc, true))
      == s.(step := s.step + 1, calls := s.calls - {c},
            answers := s.answers + [Answer(call.kid.value, call.checkedAt, call.had, true,
                                           if call.had.Some? then Ok(call.had.value) else FetchError,
                                           if call.had.Some? then Some(call.had.value.source) else None)])
  {
  }

  lemma FailedGetKeyIsARun(s: State, interval: real, c: nat, kid: string, keys: map<string, Key>, at: Option<real>)
    requires c !in s.calls && Holds(s, keys, at) && !(kid in keys && Recent(at, s.now, interval))
    ensures var s' := GetKeySteps(s, interval, c, kid, None);
      && Holds(s', keys, at) && s'.calls == s.calls && |s'.answers| == |s.answers| + 1
      && s'.answers[|s.answers|].result == if kid in keys then Ok(Info(keys[kid], |s.installs| - 1)) else FetchError
  {
    CheckMisses(s, interval, c, kid, keys, at);
    var t := Step(s, interval, Check(c, kid));
    FetchFails(t, interval, c, []);
    assert t.calls - {c} == s.calls;
  }

  lemma FetchesAndInstalls(s: State, interval: real, c: nat, doc: Doc)
    requires c in s.calls && s.calls[c].phase.Fetching? && s.calls[c].kid.Some?
    ensures var u := Step(Step(s, interval, Fetch(c, doc, false)), interval, Install(c));
      && u.installs == s.installs + [Installed(doc, s.now, s.step, s.step + 1)] && u.answers == s.answers
          && u.now == s.now
      && u.calls == s.calls[c := s.calls[c].(phase := Rereading(|s.installs|))]
  {
  }

  lemma RereadAnswers(s: State, interval: real, c: nat, kid: string, x: Installed, rest: map<nat, Call>)
    requires c in s.calls && s.calls[c].phase.Rereading? && s.calls[c].kid == Some(kid) && s.calls - {c} == rest
    requires s.installs != [] && s.installs[|s.installs| - 1] == x
    ensures var s' := Step(s, interval, Reread(c));
      && Holds(s', KeysOf(x.doc), Some(x.at)) && s'.calls == rest && |s'.answers| == |s.answers| + 1
      && s'.answers[|s.answers|].result
         == if kid in KeysOf(x.doc) then Ok(Info(KeysOf(x.doc)[kid], |s.installs| - 1)) else NoSuchKey
  {
  }

  lemma RefreshingGetKeyIsARun(
      s: State, interval: real, c: nat, kid: string, doc: Doc, keys: map<string, Key>, at: Option<real>)
    requires c !in s.calls && Holds(s, keys, at) && !(kid in keys && Recent(at, s.now, interval))
    ensures var s' := GetKeySteps(s, interval, c, kid, Some(doc));
      && Holds(s', KeysOf(doc), Some(s.now)) && s'.calls == s.calls && |s'.answers| == |s.answers| + 1
      && s'.answers[|s.answers|].result
         == if kid in KeysOf(doc) then Ok(Info(KeysOf(doc)[kid], |s.installs|)) else NoSuchKey
  {
    CheckMisses(s, interval, c, kid, keys, at);
    var t := Step(s, interval, Check(c, kid));
    FetchesAndInstalls(t, interval, c, doc);
    var u := Step(Step(t, interval, Fetch(c, doc, false)), interval, Install(c));
    assert u.calls - {c} == s.calls;
    RereadAnswers(u, interval, c, kid, Installed(doc, s.now, s.step + 1, s.step + 2), s.calls);
  }

  /** A plain Refresh back to back: the fetched document is in the cache, or nothing has changed. */
  lemma RefreshIsARun(s: State, interval: real, c: nat, fetched: Option<Doc>, keys: map<string, Key>, at: Option<real>)
    requires c !in s.calls && Holds(s, keys, at)
    ensures var doc := if fetched.Some? then fetched.value else [];
      var t := Step(Step(s, interval, StartRefresh(c)), interval, Fetch(c, doc, fetched.None?));
      var s' := Step(t, interval, Install(c));
      && s'.calls == s.calls && s'.answers == s.answers && s'.now == s.now
      && if fetched.Some? then Holds(s', KeysOf(fetched.value), Some(s.now)) else Holds(s', keys, at)
  {
    var u := Step(s, interval, StartRefresh(c));
    assert u.calls - {c} == s.calls;
    RefreshEnds(u, interval, c, if fetched.Some? then fetched.value else [], fetched.None?);
  }

  lemma RefreshEnds(u: State, interval: real, c: nat, doc: Doc, fails: bool)
    requires c in u.calls && u.calls[c].phase.Fetching? && u.calls[c].kid.None?
    ensures var s' := Step(Step(u, interval, Fetch(c, doc, fails)), interval, Install(c));
      && s'.calls == u.calls - {c} && s'.answers == u.answers && s'.now == u.now
      && s'.installs == if fails then u.installs
                        else u.installs + [Installed(doc, u.now, u.step, u.step + 1)]
  {
  }

  /** A call fetches once, installs once and re-reads once, in this order. */
  lemma NothingOutOfTurn(s: State, interval: real, c: nat, doc: Doc, fails: bool)
    requires c in s.calls
    ensures !s.calls[c].phase.Fetching? ==> Step(s, interval, Fetch(c, doc, fails)) == s.(step := s.step + 1)
    ensures !s.calls[c].phase.Fetched? ==> Step(s, interval, Install(c)) == s.(step := s.step + 1)
    ensures !s.calls[c].phase.Rereading? ==> Step(s, interval, Reread(c)) == s.(step := s.step + 1)
  {
  }

  // ---- the client's own code, one call at a time ----

  /** A key; no key of that kid in the document; or no document. */
  datatype KeyResult = Found(key: Key) | Unknown | Unfetched

  class Client {
    var keys: map<string, Key>
    var fetchedAt: Option<real>
    const interval: real

    constructor (refreshInterval: real)
      ensures keys == map[] && fetchedAt == None
      ensures interval == (if refreshInterval <= 0.0 then 300.0 else refreshInterval) && interval > 0.0
    {
      keys, fetchedAt := map[], None;
      interval := if refreshInterval <= 0.0 then 300.0 else refreshInterval;
    }

    method Refresh(fetched: Option<Doc>, now: real) returns (ok: bool)
      modifies this
      ensures ok == fetched.Some?
      ensures ok ==> keys == KeysOf(fetched.value) && fetchedAt == Some(now)
      ensures !ok ==> keys == old(keys) && fetchedAt == old(fetchedAt)
    {
      if fetched.None? {
        return false;
      }
      keys := ReadDocument(fetched.value);
      fetchedAt := Some(now);
      return true;
    }

    /** The cached key while recent; else the fetched document's answer; else the old key if there was one. */
    method GetKey(kid: string, fetched: Option<Doc>, now: real) returns (r: KeyResult)
      modifies this
      ensures if kid in old(keys) && Recent(old(fetchedAt), now, interval) then
                r == Found(old(keys)[kid]) && keys == old(keys) && fetchedAt == old(fetchedAt)
              else if fetched.Some? then
                && keys == KeysOf(fetched.value) && fetchedAt == Some(now) && r != Unfetched
                && (forall k :: r == Found(k) <==> Publishes(fetched.value, kid, k))
              else
                && keys == old(keys) && fetchedAt == old(fetchedAt)
                && r == if kid in keys then Found(keys[kid]) else Unfetched
    {
      var stale := fetchedAt.None? || now - fetchedAt.value > interval || keys == map[];
      r := if kid in keys then Found(keys[kid]) else Unknown;
      if r.Unknown? || stale {
        var refreshed := Refresh(fetched, now);
        if !refreshed {
          r := if r.Found? then r else Unfetched;
          return;
        }
        r := if kid in keys then Found(keys[kid]) else Unknown;
        forall k ensures r == Found(k) <==> Publishes(fetched.value, kid, k) {
          KeysOfMeans(fetched.value, kid, k);
        }
      }
    }
  }
}
