/** The notifications.email queue: broker, consumer, dead-letter queue and notification_log. */
module EmailQueue {
  // Any number of deliveries may be in progress, and a crash or a lost channel is possible between
  // any two steps.

  import opened Prelude
  import opened EmailNotification

  datatype Phase = Received | Recorded

  /** One delivery of message m and how far its handler has come. A handler may outlive its channel. */
  datatype Delivery = Delivery(m: nat, phase: Phase)

  /** What one recordWelcomeEmail did: a lost reply is reported as unavailable, but the row is there. */
  datatype Kind = Inserted | Duplicate | Refused | ReplyLost

  datatype Result = WasInserted | WasDuplicate | DbUnavailable

  /** The handling of message m of the published ones, up to its result. */
  datatype Outcome = Outcome(m: nat, id: string, kind: Kind)

  datatype State = State(
    published: seq<Body>,
    queued: seq<nat>, inFlight: map<nat, nat>, acked: seq<nat>, dead: seq<nat>,   // in flight: with its delivery
    deliveries: seq<Delivery>,
    log: seq<Email>,
    outcomes: seq<Outcome>)

  datatype Action =
    | Publish(body: Body)
    | Deliver
    | Record(d: nat, fault: Fault)
    | Ack(d: nat)
    | Reject(d: nat)
    | Requeue(m: nat, at: nat)     // crash, cancelled consumer or lost channel: back to the queue, anywhere in it

  function Init(): State {
    State([], [], map[], [], [], [], [], [])
  }

  predicate WellFormed(b: Body) {
    Parse(b).Ok?
  }

  predicate Logged(log: seq<Email>, id: string) {
    exists i :: 0 <= i < |log| && log[i].messageId == id
  }

  /** The handler of delivery d has its message and has not recorded anything yet. */
  predicate Receiving(s: State, d: nat) {
    d < |s.deliveries| && s.deliveries[d].phase.Received? && s.deliveries[d].m < |s.published|
  }

  /** The broker still waits for delivery d: its message was not requeued or settled since. */
  predicate Open(s: State, d: nat) {
    d < |s.deliveries| && s.deliveries[d].m in s.inFlight && s.inFlight[s.deliveries[d].m] == d
  }

  /** INSERT ... ON CONFLICT (message_id) DO NOTHING, with its reply. */
  function KindOf(log: seq<Email>, id: string, fault: Fault): Kind {
    if fault.Refuse? then Refused
    else if fault.LoseReply? then ReplyLost
    else if Logged(log, id) then Duplicate
    else Inserted
  }

  function LogAfter(log: seq<Email>, e: Email, fault: Fault): seq<Email> {
    if fault.Refuse? || Logged(log, e.messageId) then log else log + [e]
  }

  /** The insert needs no channel: it happens whether or not the broker still waits for the delivery. */
  function AfterRecord(s: State, d: nat, fault: Fault): State {
    if Receiving(s, d) && WellFormed(s.published[s.deliveries[d].m]) then
      var m := s.deliveries[d].m;
      var e := Parse(s.published[m]).email;
      s.(deliveries := s.deliveries[d := Delivery(m, Recorded)],
         log := LogAfter(s.log, e, fault),
         outcomes := s.outcomes + [Outcome(m, e.messageId, KindOf(s.log, e.messageId, fault))])
    else s
  }

  function AfterDeliver(s: State): State {
    if s.queued == [] then s
    else
      s.(queued := s.queued[1..], inFlight := s.inFlight[s.queued[0] := |s.deliveries|],
         deliveries := s.deliveries + [Delivery(s.queued[0], Received)])
  }

  /** An ack or a nack on a channel that is gone does nothing. */
  function AfterAck(s: State, d: nat): State {
    if Open(s, d) && s.deliveries[d].phase.Recorded? then
      s.(inFlight := s.inFlight - {s.deliveries[d].m}, acked := s.acked + [s.deliveries[d].m])
    else s
  }

  function AfterReject(s: State, d: nat): State {
    if Open(s, d) && Receiving(s, d) && !WellFormed(s.published[s.deliveries[d].m]) then
      s.(inFlight := s.inFlight - {s.deliveries[d].m}, dead := s.dead + [s.deliveries[d].m])
    else s
  }

  function AfterRequeue(s: State, m: nat, at: nat): State {
    if m in s.inFlight && at <= |s.queued| then
      s.(inFlight := s.inFlight - {m}, queued := s.queued[..at] + [m] + s.queued[at..])
    else s
  }

  function Step(s: State, a: Action): State {
    match a
    case Publish(b) => s.(published := s.published + [b], queued := s.queued + [|s.published|])
    case Deliver => AfterDeliver(s)
    case Record(d, fault) => AfterRecord(s, d, fault)
    case Ack(d) => AfterAck(s, d)
    case Reject(d) => AfterReject(s, d)
    case Requeue(m, at) => AfterRequeue(s, m, at)
  }

  function Run(actions: seq<Action>): State {
    if actions == [] then Init() else Step(Run(actions[..|actions| - 1]), actions[|actions| - 1])
  }

  // ---- conservation ----

  /** How many places a message is in. */
  function Places(s: State, m: nat): nat {
    multiset(s.queued)[m] + (if m in s.inFlight then 1 else 0) + multiset(s.acked)[m] + multiset(s.dead)[m]
  }

  /** Every published message is in exactly one place, and nothing else is anywhere. */
  ghost predicate Conserved(s: State) {
    forall m: nat :: Places(s, m) == if m < |s.published| then 1 else 0
  }

  /** A message that is in flight moves on: once less there, once more in a list. */
  lemma LeavesFlight(s: State, s': State, m: nat)
    requires Conserved(s) && m in s.inFlight && s'.inFlight == s.inFlight - {m} && s'.published == s.published
    requires multiset(s'.queued) + multiset(s'.acked) + multiset(s'.dead)
          == multiset(s.queued) + multiset(s.acked) + multiset(s.dead) + multiset{m}
    ensures Conserved(s')
  {
    forall k: nat ensures Places(s', k) == Places(s, k) {
      assert (multiset(s'.queued) + multiset(s'.acked) + multiset(s'.dead))[k]
          == (multiset(s.queued) + multiset(s.acked) + multiset(s.dead) + multiset{m})[k];
    }
    assert forall k: nat :: Places(s', k) == if k < |s'.published| then 1 else 0;
  }

  lemma DeliverConserves(s: State)
    requires Conserved(s) && s.queued != []
    ensures Conserved(Step(s, Deliver))
  {
    var s', m := Step(s, Deliver), s.queued[0];
    assert s.queued == [m] + s.queued[1..];
    assert multiset(s.queued) == multiset{m} + multiset(s'.queued);
    assert Places(s, m) <= 1;
    forall k: nat ensures Places(s', k) == Places(s, k) {
      assert multiset(s.queued)[k] == multiset{m}[k] + multiset(s'.queued)[k];
    }
    assert forall k: nat :: Places(s', k) == if k < |s'.published| then 1 else 0;
  }

  lemma PublishConserves(s: State, b: Body)
    requires Conserved(s)
    ensures Conserved(Step(s, Publish(b)))
  {
    var s', m := Step(s, Publish(b)), |s.published|;
    forall k: nat ensures Places(s', k) == Places(s, k) + if k == m then 1 else 0 {
      assert multiset(s'.queued) == multiset(s.queued) + multiset{m};
    }
    assert forall k: nat :: Places(s', k) == if k < |s'.published| then 1 else 0;
  }

  lemma RecordConserves(s: State, d: nat, fault: Fault)
    requires Conserved(s)
    ensures Conserved(Step(s, Record(d, fault)))
  {
    var s' := Step(s, Record(d, fault));
    assert forall k: nat :: Places(s', k) == Places(s, k);
    assert forall k: nat :: Places(s', k) == if k < |s'.published| then 1 else 0;
  }

  lemma HandledConserves(s: State, a: Action)
    requires Conserved(s) && (a.Ack? || a.Reject?)
    ensures Conserved(Step(s, a))
  {
    if Step(s, a) != s {
      LeavesFlight(s, Step(s, a), s.deliveries[a.d].m);
    }
  }

  lemma RequeueConserves(s: State, m: nat, at: nat)
    requires Conserved(s)
    ensures Conserved(Step(s, Requeue(m, at)))
  {
    if m in s.inFlight && at <= |s.queued| {
      assert s.queued == s.queued[..at] + s.queued[at..];
      LeavesFlight(s, Step(s, Requeue(m, at)), m);
    }
  }

  lemma {:induction false} NothingIsLost(actions: seq<Action>)
    ensures Conserved(Run(actions))
  {
    if actions != [] {
      var s := Run(actions[..|actions| - 1]);
      NothingIsLost(actions[..|actions| - 1]);
      match actions[|actions| - 1]
      case Publish(b) => PublishConserves(s, b);
      case Deliver => if s.queued != [] { DeliverConserves(s); }
      case Record(d, fault) => RecordConserves(s, d, fault);
      case Requeue(m, at) => RequeueConserves(s, m, at);
      case _ => HandledConserves(s, actions[|actions| - 1]);
    }
  }

  // ---- what is acknowledged, dead-lettered and logged ----

  predicate HasOutcome(outcomes: seq<Outcome>, m: nat) {
    exists i :: 0 <= i < |outcomes| && outcomes[i].m == m
  }

  /** Some handling of the id reached the table. */
  predicate Written(outcomes: seq<Outcome>, id: string) {
    exists i :: 0 <= i < |outcomes| && outcomes[i].id == id && !outcomes[i].kind.Refused?
  }

  predicate IsPublished(s: State, m: nat, wellFormed: bool) {
    m < |s.published| && WellFormed(s.published[m]) == wellFormed
  }

  /** A handling was of a well-formed message; it inserted exactly if no earlier one of its id had reached the table. */
  predicate OutcomeOk(s: State, i: nat)
    requires i < |s.outcomes|
  {
    var o := s.outcomes[i];
    && IsPublished(s, o.m, true) && o.id == Parse(s.published[o.m]).email.messageId
    && (o.kind.Inserted? ==> !Written(s.outcomes[..i], o.id))
    && (o.kind.Duplicate? ==> Written(s.outcomes[..i], o.id))
  }

  predicate IsRowOf(s: State, e: Email, m: nat) {
    m < |s.published| && Parse(s.published[m]) == Ok(e)
  }

  /** The row is the content of some published message. */
  ghost predicate HasSource(s: State, e: Email) {
    exists m: nat :: IsRowOf(s, e, m)
  }

  ghost predicate LogOk(s: State) {
    && (forall i, j :: 0 <= i < j < |s.log| ==> s.log[i].messageId != s.log[j].messageId)
    && (forall i :: 0 <= i < |s.log| ==> HasSource(s, s.log[i]))
    && (forall id :: Logged(s.log, id) <==> Written(s.outcomes, id))
  }

  /** A well-formed message that was recorded, with whatever result. */
  predicate Handled(s: State, m: nat) {
    IsPublished(s, m, true) && HasOutcome(s.outcomes, m)
  }

  ghost predicate HandledOk(s: State) {
    && (forall i :: 0 <= i < |s.outcomes| ==> OutcomeOk(s, i))
    && (forall m :: m in s.acked ==> Handled(s, m))
    && (forall d :: 0 <= d < |s.deliveries| && s.deliveries[d].phase.Recorded? ==> Handled(s, s.deliveries[d].m))
    && (forall m :: m in s.dead ==> IsPublished(s, m, false))
  }

  lemma WrittenAfter(outcomes: seq<Outcome>, o: Outcome, id: string)
    ensures Written(outcomes + [o], id) <==> Written(outcomes, id) || (o.id == id && !o.kind.Refused?)
  {
    var all := outcomes + [o];
    if Written(outcomes, id) {
      var i :| 0 <= i < |outcomes| && outcomes[i].id == id && !outcomes[i].kind.Refused?;
      assert all[i] == outcomes[i];
    }
    assert all[|outcomes|] == o;
  }

  lemma HasOutcomeAfter(outcomes: seq<Outcome>, o: Outcome, m: nat)
    ensures HasOutcome(outcomes + [o], m) <==> HasOutcome(outcomes, m) || o.m == m
  {
    var all := outcomes + [o];
    if HasOutcome(outcomes, m) {
      var i :| 0 <= i < |outcomes| && outcomes[i].m == m;
      assert all[i] == outcomes[i];
    }
    assert all[|outcomes|] == o;
  }

  lemma LoggedAfter(log: seq<Email>, e: Email, fault: Fault, id: string)
    ensures Logged(LogAfter(log, e, fault), id) <==> Logged(log, id) || (e.messageId == id && !fault.Refuse?)
  {
    var log' := LogAfter(log, e, fault);
    if Logged(log, id) {
      var i :| 0 <= i < |log| && log[i].messageId == id;
      assert log'[i] == log[i];
    }
    if log' != log {
      assert log'[|log|] == e;
    }
  }

  lemma RecordKeepsLogOk(s: State, d: nat, fault: Fault)
    requires LogOk(s) && Receiving(s, d) && WellFormed(s.published[s.deliveries[d].m])
    ensures LogOk(AfterRecord(s, d, fault))
  {
    var s' := AfterRecord(s, d, fault);
    var e := Parse(s.published[s.deliveries[d].m]).email;
    forall id ensures Logged(s'.log, id) <==> Written(s'.outcomes, id) {
      LoggedAfter(s.log, e, fault, id);
      WrittenAfter(s.outcomes, s'.outcomes[|s.outcomes|], id);
    }
    assert IsRowOf(s', e, s.deliveries[d].m);
    forall i | 0 <= i < |s.log| ensures HasSource(s', s.log[i]) {
      var k: nat :| IsRowOf(s, s.log[i], k);
      assert IsRowOf(s', s.log[i], k);
    }
  }

  lemma RecordKeepsHandledOk(s: State, d: nat, fault: Fault)
    requires HandledOk(s) && LogOk(s) && Receiving(s, d) && WellFormed(s.published[s.deliveries[d].m])
    ensures HandledOk(AfterRecord(s, d, fault))
  {
    var s' := AfterRecord(s, d, fault);
    var o := s'.outcomes[|s.outcomes|];
    assert s'.outcomes[..|s.outcomes|] == s.outcomes;
    forall i | 0 <= i < |s'.outcomes| ensures OutcomeOk(s', i) {
      if i < |s.outcomes| {
        assert OutcomeOk(s, i) && s'.outcomes[..i] == s.outcomes[..i];
      }
    }
    forall k: nat ensures HasOutcome(s'.outcomes, k) <==> HasOutcome(s.outcomes, k) || k == s.deliveries[d].m {
      HasOutcomeAfter(s.outcomes, o, k);
    }
    forall m | m in s'.acked ensures Handled(s', m) {
      assert Handled(s, m);
    }
  }

  lemma PublishKeepsOk(s: State, b: Body)
    requires HandledOk(s) && LogOk(s)
    ensures HandledOk(Step(s, Publish(b))) && LogOk(Step(s, Publish(b)))
  {
    var s' := Step(s, Publish(b));
    forall i | 0 <= i < |s.outcomes| ensures OutcomeOk(s', i) {
      assert OutcomeOk(s, i);
    }
    forall i | 0 <= i < |s.log| ensures HasSource(s', s.log[i]) {
      var m: nat :| IsRowOf(s, s.log[i], m);
      assert IsRowOf(s', s.log[i], m);
    }
  }

  /** A step that records nothing and publishes nothing. */
  lemma MoveKeepsOk(s: State, s': State)
    requires HandledOk(s) && LogOk(s)
    requires s'.published == s.published && s'.log == s.log && s'.outcomes == s.outcomes
    requires forall m :: m in s'.acked ==> m in s.acked || Handled(s, m)
    requires s.deliveries <= s'.deliveries && forall d :: |s.deliveries| <= d < |s'.deliveries| ==>
      s'.deliveries[d].phase.Received?
    requires forall m :: m in s'.dead ==> m in s.dead || IsPublished(s, m, false)
    ensures HandledOk(s') && LogOk(s')
  {
    forall i | 0 <= i < |s.outcomes| ensures OutcomeOk(s', i) {
      assert OutcomeOk(s, i);
    }
    forall i | 0 <= i < |s.log| ensures HasSource(s', s.log[i]) {
      var m: nat :| IsRowOf(s, s.log[i], m);
      assert IsRowOf(s', s.log[i], m);
    }
  }

  lemma {:induction false} RunIsOk(actions: seq<Action>)
    ensures HandledOk(Run(actions)) && LogOk(Run(actions))
  {
    if actions != [] {
      var s := Run(actions[..|actions| - 1]);
      RunIsOk(actions[..|actions| - 1]);
      match actions[|actions| - 1]
      case Publish(b) => PublishKeepsOk(s, b);
      case Record(d, fault) =>
        if Receiving(s, d) && WellFormed(s.published[s.deliveries[d].m]) {
          RecordKeepsLogOk(s, d, fault);
          RecordKeepsHandledOk(s, d, fault);
        }
      case _ => MoveKeepsOk(s, Run(actions));
    }
  }

  /**
   * Dead letters are malformed; malformed messages are never acknowledged nor logged; one row and
   * one insert per id.
   */
  lemma EveryRunSortsMessages(actions: seq<Action>)
    ensures var s := Run(actions);
      && (forall m :: m in s.dead ==> IsPublished(s, m, false))
      && (forall m :: m in s.acked ==> IsPublished(s, m, true) && HasOutcome(s.outcomes, m))
      && (forall i :: 0 <= i < |s.log| ==> HasSource(s, s.log[i]))
      && (forall i, j :: 0 <= i < j < |s.log| ==> s.log[i].messageId != s.log[j].messageId)
    ensures var o := Run(actions).outcomes;
      forall i, j :: 0 <= i < j < |o| && o[i].id == o[j].id && !o[i].kind.Refused? ==> !o[j].kind.Inserted?
  {
    RunIsOk(actions);
    var s := Run(actions);
    forall i, j | 0 <= i < j < |s.outcomes| && s.outcomes[i].id == s.outcomes[j].id && !s.outcomes[i].kind.Refused?
      ensures !s.outcomes[j].kind.Inserted?
    {
      assert OutcomeOk(s, j);
      assert s.outcomes[..j][i] == s.outcomes[i];
    }
  }

  predicate Drained(s: State) {
    s.queued == [] && s.inFlight == map[]
  }

  /**
   * Once drained: each well-formed message was acknowledged exactly once, each malformed one
   * dead-lettered exactly once.
   */
  lemma DrainedQueueIsSorted(actions: seq<Action>, m: nat)
    requires var s := Run(actions); Drained(s) && m < |s.published|
    ensures var s := Run(actions);
      && multiset(s.acked)[m] == (if WellFormed(s.published[m]) then 1 else 0)
      && multiset(s.dead)[m] == (if WellFormed(s.published[m]) then 0 else 1)
  {
    NothingIsLost(actions);
    RunIsOk(actions);
    var s := Run(actions);
    assert Places(s, m) == 1;
    assert m in s.acked <==> multiset(s.acked)[m] > 0;
    assert m in s.dead <==> multiset(s.dead)[m] > 0;
  }

  /**
   * Once drained, a well-formed message's id is missing from the log exactly when every one of its
   * handlings (and there was one) was refused by the database; the acknowledgement hides the loss.
   */
  lemma MissingExactlyWhenRefused(actions: seq<Action>, m: nat)
    requires var s := Run(actions); Drained(s) && IsPublished(s, m, true)
    ensures var s := Run(actions); var id := Parse(s.published[m]).email.messageId;
      && (!Logged(s.log, id)
          <==> forall i :: 0 <= i < |s.outcomes| && s.outcomes[i].id == id ==> s.outcomes[i].kind.Refused?)
      && (exists i :: 0 <= i < |s.outcomes| && s.outcomes[i].id == id)
  {
    var s := Run(actions);
    DrainedQueueIsSorted(actions, m);
    RunIsOk(actions);
    assert m in s.acked;
    var i :| 0 <= i < |s.outcomes| && s.outcomes[i].m == m;
    assert OutcomeOk(s, i);
  }

  /** If no insert is refused, the drained log holds exactly the ids of the well-formed messages. */
  lemma DrainedLogIsComplete(actions: seq<Action>, id: string)
    requires var s := Run(actions);
      Drained(s) && forall i :: 0 <= i < |s.outcomes| ==> !s.outcomes[i].kind.Refused?
    ensures var s := Run(actions);
      Logged(s.log, id) <==> exists m: nat :: IsPublished(s, m, true) && Parse(s.published[m]).email.messageId == id
  {
    var s := Run(actions);
    RunIsOk(actions);
    if Logged(s.log, id) {
      var i :| 0 <= i < |s.log| && s.log[i].messageId == id;
      var m: nat :| IsRowOf(s, s.log[i], m);
      assert IsPublished(s, m, true);
    }
    if m: nat :| IsPublished(s, m, true) && Parse(s.published[m]).email.messageId == id {
      MissingExactlyWhenRefused(actions, m);
      var i :| 0 <= i < |s.outcomes| && s.outcomes[i].id == id;
    }
  }

  // ---- each outcome is that of a step ----

  /** What the step from s to t, a Record of delivery d, did to the log, and what it counts as. */
  predicate RecordedAs(s: State, d: nat, fault: Fault, t: State, o: Outcome) {
    && Receiving(s, d) && o.m == s.deliveries[d].m && WellFormed(s.published[o.m])
    && var e := Parse(s.published[o.m]).email;
    && o.id == e.messageId
    && t.log == (if !fault.Refuse? && !Logged(s.log, o.id) then s.log + [e] else s.log)
    && (o.kind.Inserted? <==> fault.NoFault? && t.log == s.log + [e])
    && (o.kind.Duplicate? <==> fault.NoFault? && t.log == s.log)
    && (o.kind.Refused? <==> fault.Refuse?)
    && (o.kind.ReplyLost? <==> fault.LoseReply?)
  }

  lemma NewOutcome(s: State, a: Action, t: State)
    requires t == Step(s, a) && t.outcomes != s.outcomes
    ensures a.Record? && |t.outcomes| == |s.outcomes| + 1 && s.outcomes <= t.outcomes
    ensures RecordedAs(s, a.d, a.fault, t, t.outcomes[|s.outcomes|])
  {
  }

  /** Every outcome is that of one Record step, of the kind the step's effect on the log and its reply make it. */
  lemma {:induction false} EveryOutcomeIsARecords(actions: seq<Action>, i: nat) returns (k: nat)
    requires i < |Run(actions).outcomes|
    ensures k < |actions| && actions[k].Record? && |Run(actions[..k]).outcomes| == i
    ensures RecordedAs(Run(actions[..k]), actions[k].d, actions[k].fault, Run(actions[..k + 1]),
      Run(actions).outcomes[i])
  {
    k := |actions| - 1;
    var s := Run(actions[..k]);
    if Run(actions).outcomes != s.outcomes {
      NewOutcome(s, actions[k], Run(actions));
    }
    if i < |s.outcomes| {
      var n := k;
      k := EveryOutcomeIsARecords(actions[..n], i);
      assert actions[..n][..k] == actions[..k] && actions[..n][..k + 1] == actions[..k + 1];
    } else {
      assert actions[..k + 1] == actions;
    }
  }

  // ---- the consumer, one message at a time ----

  /** One delivery handled without interruption. */
  function HandledDelivery(s: State, d: nat, fault: Fault): State
    requires Receiving(s, d)
  {
    if WellFormed(s.published[s.deliveries[d].m]) then Step(Step(s, Record(d, fault)), Ack(d)) else Step(s, Reject(d))
  }

  /** Message m is settled between s and t, its handler not interrupted: everything else is as it was. */
  predicate Settled(s: State, t: State, m: nat, fault: Fault) {
    && m < |s.published| && t.published == s.published
    && (match Parse(s.published[m])
        case Ok(e) =>
          && t.acked == s.acked + [m] && t.dead == s.dead
          && t.log == if !fault.Refuse? && !Logged(s.log, e.messageId) then s.log + [e] else s.log
        case Bad(_) => t.dead == s.dead + [m] && t.acked == s.acked && t.log == s.log)
  }

  lemma HandledIsSettled(s: State, d: nat, fault: Fault)
    requires Receiving(s, d) && Open(s, d)
    ensures var t := HandledDelivery(s, d, fault);
      Settled(s, t, s.deliveries[d].m, fault) && t.queued == s.queued && t.inFlight == s.inFlight - {s.deliveries[d].m}
  {
  }

  /** The head of the queue, delivered and handled without interruption, is settled by what it says. */
  lemma UninterruptedDelivery(actions: seq<Action>, fault: Fault)
    requires Run(actions).queued != []
    ensures var s := Run(actions); var t, d := Step(s, Deliver), |s.deliveries|;
      && Receiving(t, d) && Open(t, d)
      && var u := HandledDelivery(t, d, fault);
      && Settled(s, u, s.queued[0], fault) && u.queued == s.queued[1..] && u.inFlight == s.inFlight
  {
    var s := Run(actions);
    var t, d, m := Step(s, Deliver), |s.deliveries|, s.queued[0];
    NothingIsLost(actions);
    assert Places(s, m) == if m < |s.published| then 1 else 0;
    assert multiset(s.queued)[m] > 0;
    assert t.inFlight - {m} == s.inFlight;
    HandledIsSettled(t, d, fault);
  }

  /** The consumer dies between the insert and the ack, and the message is delivered again. */
  function Redelivered(s: State, d: nat): State
    requires Receiving(s, d)
  {
    Step(Step(Step(s, Record(d, NoFault)), Requeue(s.deliveries[d].m, 0)), Deliver)
  }

  lemma RedeliveryEffect(s: State, d: nat)
    requires Receiving(s, d) && Open(s, d) && WellFormed(s.published[s.deliveries[d].m])
    ensures var t, u, m := Step(s, Record(d, NoFault)), Redelivered(s, d), s.deliveries[d].m;
      && u.deliveries == t.deliveries + [Delivery(m, Received)] && |t.deliveries| == |s.deliveries|
      && u.inFlight == s.inFlight - {m} + map[m := |s.deliveries|]
      && u.log == t.log && u.queued == s.queued && u.acked == s.acked && u.published == s.published
      && u.outcomes == t.outcomes && Logged(u.log, Parse(s.published[m]).email.messageId)
  {
    var e := Parse(s.published[s.deliveries[d].m]).email;
    LoggedAfter(s.log, e, NoFault, e.messageId);
    var v := Step(Step(s, Record(d, NoFault)), Requeue(s.deliveries[d].m, 0));
    assert v.queued == [s.deliveries[d].m] + s.queued;
  }

  /** Then the first handling has logged it, the second finds it a duplicate, and it is acknowledged once. */
  lemma RedeliveryLogsOnce(s: State, d: nat)
    requires Receiving(s, d) && Open(s, d) && WellFormed(s.published[s.deliveries[d].m])
    ensures var u, d' := Redelivered(s, d), |s.deliveries|;
      && Receiving(u, d') && Open(u, d') && u.deliveries[d'].m == s.deliveries[d].m
      && var v := HandledDelivery(u, d', NoFault);
      && v.log == Step(s, Record(d, NoFault)).log && v.acked == s.acked + [s.deliveries[d].m]
      && |v.outcomes| == |s.outcomes| + 2 && v.outcomes[|s.outcomes| + 1].kind.Duplicate?
  {
    RedeliveryEffect(s, d);
    HandledIsSettled(Redelivered(s, d), |s.deliveries|, NoFault);
  }

  class Consumer {
    var log: seq<Email>
    var acked: seq<nat>
    var dead: seq<nat>
    const hasDB: bool

    constructor (hasDB: bool)
      ensures log == [] && acked == [] && dead == [] && this.hasDB == hasDB
    {
      log, acked, dead := [], [], [];
      this.hasDB := hasDB;
    }

    /** With no database every insert is refused. */
    function Effective(fault: Fault): Fault {
      if hasDB then fault else Refuse
    }

    method RecordWelcomeEmail(e: Email, fault: Fault) returns (r: Result)
      modifies this`log
      ensures log == if hasDB && !fault.Refuse? && !Logged(old(log), e.messageId) then old(log) + [e] else old(log)
      ensures r == WasInserted <==> hasDB && fault.NoFault? && log == old(log) + [e]
      ensures r == WasDuplicate <==> hasDB && fault.NoFault? && log == old(log)
      ensures r == DbUnavailable <==> !hasDB || !fault.NoFault?
    {
      if !hasDB || fault.Refuse? {
        return DbUnavailable;
      }
      var isNew := !Logged(log, e.messageId);
      if isNew {
        log := log + [e];
      }
      if fault.LoseReply? {
        return DbUnavailable;
      }
      return if isNew then WasInserted else WasDuplicate;
    }

    /** Acked whatever the database said, dead-lettered when malformed, left alone without a channel. */
    method HandleMessage(m: nat, body: Body, channelOpen: bool, fault: Fault, ghost s: State, ghost d: nat)
      requires Receiving(s, d) && Open(s, d) && s.deliveries[d].m == m && s.published[m] == body
      requires log == s.log && acked == s.acked && dead == s.dead
      modifies this
      ensures var s' := if channelOpen then HandledDelivery(s, d, Effective(fault)) else s;
        log == s'.log && acked == s'.acked && dead == s'.dead
      ensures channelOpen ==> if WellFormed(body) then acked == old(acked) + [m] && dead == old(dead)
                              else dead == old(dead) + [m] && acked == old(acked) && log == old(log)
    {
      if !channelOpen {
        return;
      }
      var parsed := Parse(body);
      if parsed.Bad? {
        dead := dead + [m];
        return;
      }
      var _ := RecordWelcomeEmail(parsed.email, fault);
      acked := acked + [m];
    }
  }
}
