/**
 * jobs-service's projection of every user's skills (backend/internal/jobs/snapshot.go),
 * driven by an at-least-once consumer (backend/internal/platform/kafka/consumer.go).
 */
module Snapshot {
  import opened Prelude
  import opened UserSkills

  /** A record of the user.skills.updated topic; Garbage is a payload that does not decode. */
  datatype Record = Garbage | Event(event: SkillsUpdated)

  /** The rows an event says a user has. */
  function RowsOf(user: string, skills: map<string, string>): Table {
    map k | k in (set s | s in skills :: Key(user, s)) :: skills[k.skill]
  }

  function Without(t: Table, user: string): Table {
    map k | k in t && k.user != user :: t[k]
  }

  /** Delete-then-insert in one transaction. A repeated skill breaks the primary key and rolls back. */
  function Replaced(t: Table, user: string, skills: seq<Entry>): Table {
    if DistinctSkills(skills) then Without(t, user) + RowsOf(user, AsMap(skills)) else t
  }

  lemma ReplacedClaims(t: Table, user: string, skills: seq<Entry>, other: string)
    requires DistinctSkills(skills)
    ensures Claimed(Replaced(t, user, skills), other)
         == if other == user then AsMap(skills).Keys else Claimed(t, other)
  {
    forall s
      ensures s in Claimed(Replaced(t, user, skills), other)
         <==> s in if other == user then AsMap(skills).Keys else Claimed(t, other)
    {
      ClaimedMeansKey(t, other, s);
      ClaimedMeansKey(Replaced(t, user, skills), other, s);
    }
  }

  lemma ReplacedIsWholeList(t: Table, user: string, skills: seq<Entry>, other: string)
    ensures SkillsOf(Replaced(t, user, skills), other)
         == if other == user && DistinctSkills(skills) then AsMap(skills) else SkillsOf(t, other)
  {
    if DistinctSkills(skills) {
      ReplacedClaims(t, user, skills, other);
      forall s | s in Claimed(t, other) {
        ClaimedMeansKey(t, other, s);
      }
    }
  }

  /** Whether a record says anything: it decodes, names a user, and repeats no skill. */
  predicate Effective(r: Record) {
    r.Event? && r.event.user != "" && DistinctSkills(r.event.skills)
  }

  /** What handling a record leaves when the database does not fail. */
  function Handled(t: Table, r: Record): Table {
    if r.Event? && r.event.user != "" then Replaced(t, r.event.user, r.event.skills) else t
  }

  lemma HandledBySkills(t: Table, r: Record, user: string)
    ensures SkillsOf(Handled(t, r), user)
         == if Effective(r) && r.event.user == user then AsMap(r.event.skills) else SkillsOf(t, user)
  {
    if r.Event? && r.event.user != "" {
      ReplacedIsWholeList(t, r.event.user, r.event.skills, user);
    }
  }

  /** Inserting one more row is inserting into the event's map; the key clashes when the map has it. */
  lemma InsertedRow(t: Table, user: string, m: map<string, string>, skill: string, proficiency: string)
    ensures Without(t, user) + RowsOf(user, m[skill := proficiency])
         == (Without(t, user) + RowsOf(user, m))[Key(user, skill) := proficiency]
    ensures Key(user, skill) in Without(t, user) + RowsOf(user, m) <==> skill in m
  {
    var k := Key(user, skill);
    forall x: Key ensures x in RowsOf(user, m[skill := proficiency]) <==> x in RowsOf(user, m) || x == k {
      assert x in RowsOf(user, m) <==> x == Key(user, x.skill) && x.skill in m;
    }
  }

  lemma NextSkill(skills: seq<Entry>, i: nat)
    requires i < |skills| && DistinctSkills(skills[..i])
    ensures DistinctSkills(skills[..i + 1]) <==> skills[i].skill !in Names(skills[..i])
    ensures AsMap(skills[..i + 1]) == AsMap(skills[..i])[skills[i].skill := skills[i].proficiency]
  {
    var prefix := skills[..i];
    assert skills[..i + 1] == prefix + [skills[i]];
    assert skills[..i + 1][..i] == prefix;
    if skills[i].skill in Names(prefix) {
      var e :| e in prefix && e.skill == skills[i].skill;
      var j :| 0 <= j < i && prefix[j] == e;
      assert skills[..i + 1][j].skill == skills[..i + 1][i].skill;
    } else {
      forall j | 0 <= j < i ensures prefix[j].skill != skills[i].skill {
        assert prefix[j] in prefix;
      }
    }
  }

  /** The transaction after its first i inserts, or None once one broke the primary key. */
  function Staged(t: Table, user: string, skills: seq<Entry>, i: nat): Option<Table>
    requires i <= |skills|
  {
    if i == 0 then Some(Without(t, user))
    else
      var before := Staged(t, user, skills, i - 1);
      var e := skills[i - 1];
      if before.None? || Key(user, e.skill) in before.value then None
      else Some(before.value[Key(user, e.skill) := e.proficiency])
  }

  /** The user's rows replaced by these inserts, unless they repeat a skill. */
  function Inserted(t: Table, user: string, prefix: seq<Entry>): Option<Table> {
    if DistinctSkills(prefix) then Some(Without(t, user) + RowsOf(user, AsMap(prefix))) else None
  }

  lemma InsertedNext(t: Table, user: string, skills: seq<Entry>, i: nat)
    requires i < |skills|
    ensures Inserted(t, user, skills[..i + 1])
         == match Inserted(t, user, skills[..i])
            case None => None
            case Some(before) =>
              if Key(user, skills[i].skill) in before then None
              else Some(before[Key(user, skills[i].skill) := skills[i].proficiency])
  {
    var prefix, e := skills[..i], skills[i];
    assert skills[..i + 1][..i] == prefix;
    if DistinctSkills(prefix) {
      NextSkill(skills, i);
      AsMapKeys(prefix);
      InsertedRow(t, user, AsMap(prefix), e.skill, e.proficiency);
    } else {
      var j, k :| 0 <= j < k < i && prefix[j].skill == prefix[k].skill;
      assert skills[..i + 1][j].skill == skills[..i + 1][k].skill;
    }
  }

  lemma {:induction false} StagedIsPrefix(t: Table, user: string, skills: seq<Entry>, i: nat)
    requires i <= |skills|
    ensures Staged(t, user, skills, i) == Inserted(t, user, skills[..i])
  {
    if i == 0 {
      assert Without(t, user) + RowsOf(user, map[]) == Without(t, user);
    } else {
      StagedIsPrefix(t, user, skills, i - 1);
      InsertedNext(t, user, skills, i - 1);
    }
  }

  lemma {:induction false} ClashIsFinal(t: Table, user: string, skills: seq<Entry>, i: nat, j: nat)
    requires i <= j <= |skills| && Staged(t, user, skills, i) == None
    ensures Staged(t, user, skills, j) == None
  {
    if i < j {
      ClashIsFinal(t, user, skills, i, j - 1);
    }
  }

  /** The staged inserts commit exactly the replacement, or clash. */
  lemma StagedIsReplaced(t: Table, user: string, skills: seq<Entry>)
    ensures Staged(t, user, skills, |skills|)
         == if DistinctSkills(skills) then Some(Replaced(t, user, skills)) else None
  {
    assert skills[..|skills|] == skills;
    StagedIsPrefix(t, user, skills, |skills|);
  }

  class SnapshotStore {
    /** jobs.user_skill_snapshot. */
    var rows: Table

    constructor ()
      ensures rows == map[]
    {
      rows := map[];
    }

    /** The transaction works on its own copy of the rows, which only a commit installs. */
    method ReplaceUserSkills(user: string, skills: seq<Entry>, fault: bool) returns (ok: bool)
      modifies this
      ensures ok <==> !fault && DistinctSkills(skills)
      ensures rows == if ok then Replaced(old(rows), user, skills) else old(rows)
    {
      var tx: Table := Without(rows, user);
      if fault {
        return false;
      }
      StagedIsReplaced(rows, user, skills);
      for i := 0 to |skills|
        invariant rows == old(rows)
        invariant Staged(rows, user, skills, i) == Some(tx)
      {
        if Key(user, skills[i].skill) in tx {
          ClashIsFinal(rows, user, skills, i + 1, |skills|);
          return false;
        }
        tx := tx[Key(user, skills[i].skill) := skills[i].proficiency];
      }
      rows := tx;
      return true;
    }

    /** The kafka handler: nil means handled or skipped, an error is only logged by the consumer. */
    method HandleUserSkillsUpdated(msg: Record, fault: bool) returns (ok: bool)
      modifies this
      ensures rows == if fault then old(rows) else Handled(old(rows), msg)
      ensures var replaced := !fault && msg.Event? && msg.event.user != "" && DistinctSkills(msg.event.skills);
        forall user :: SkillsOf(rows, user) == (if replaced && user == msg.event.user then AsMap(msg.event.skills)
                                                else old(SkillsOf(rows, user)))
      ensures !ok <==> msg.Event? && msg.event.user != "" && (fault || !DistinctSkills(msg.event.skills))
    {
      forall user {
        HandledBySkills(rows, msg, user);
      }
      match msg
      case Garbage =>
        return true;
      case Event(evt) =>
        if evt.user == "" {
          return true;
        }
        var skills: seq<Entry> := [];
        for i := 0 to |evt.skills|
          invariant skills == evt.skills[..i]
        {
          skills := skills + [Entry(evt.skills[i].skill, evt.skills[i].proficiency)];
        }
        assert skills == evt.skills;
        ok := ReplaceUserSkills(evt.user, skills, fault);
    }
  }

  // ---- the consumer over its whole life ----

  /** The topic, the consumer's position and high-water mark in it, and the projection. */
  datatype Projection = Projection(topic: seq<Record>, pos: nat, high: nat, rows: Table)

  /**
   * Append: someone publishes. Deliver: the next record reaches the handler, whose database
   * may fail; the position moves on either way. Rewind: a restart or rebalance resumes at an
   * earlier offset. Overlap: another member of the group, which a rebalance has or has not yet
   * deprived of the partition, handles a record of the batch it holds.
   */
  datatype Action = Append(r: Record) | Deliver(fault: bool) | Rewind(to: nat) | Overlap(at: nat, fault: bool)

  function Empty(): Projection {
    Projection([], 0, 0, map[])
  }

  /** An action that is not enabled leaves the state as it is. */
  function Step(p: Projection, a: Action): Projection {
    match a
    case Append(r) => p.(topic := p.topic + [r])
    case Deliver(fault) =>
      if p.pos < |p.topic| then
        p.(pos := p.pos + 1,
           high := if p.pos + 1 > p.high then p.pos + 1 else p.high,
           rows := if fault then p.rows else Handled(p.rows, p.topic[p.pos]))
      else p
    case Rewind(to) => if to <= p.pos then p.(pos := to) else p
    case Overlap(at, fault) =>
      if at < |p.topic| then
        p.(high := if at + 1 > p.high then at + 1 else p.high,
           rows := if fault then p.rows else Handled(p.rows, p.topic[at]))
      else p
  }

  function RunFrom(p: Projection, actions: seq<Action>): Projection {
    if actions == [] then p else Step(RunFrom(p, actions[..|actions| - 1]), actions[|actions| - 1])
  }

  function Run(actions: seq<Action>): Projection {
    RunFrom(Empty(), actions)
  }

  /** One jobs-service instance's consumer of the topic, dispatching to its store. */
  class Consumer {
    const store: SnapshotStore
    var pos: nat
    ghost var high: nat

    constructor (store: SnapshotStore)
      ensures this.store == store && pos == 0 && high == 0
    {
      this.store := store;
      pos, high := 0, 0;
    }

    ghost function View(topic: seq<Record>): Projection
      reads this, store
    {
      Projection(topic, pos, high, store.rows)
    }

    /** The records of one poll go to the handler in order; a failed handler does not stop the next one. */
    method EachRecord(topic: seq<Record>, faults: seq<bool>)
      requires pos + |faults| <= |topic|
      modifies this, store
      ensures View(topic) == RunFrom(old(View(topic)), Deliveries(faults))
    {
      ghost var before := View(topic);
      for i := 0 to |faults|
        invariant pos == before.pos + i
        invariant View(topic) == RunFrom(before, Deliveries(faults[..i]))
      {
        DeliverOneMore(before, faults, i);
        var _ := store.HandleUserSkillsUpdated(topic[pos], faults[i]);
        pos := pos + 1;
        high := if pos > high then pos else high;
      }
      assert faults[..|faults|] == faults;
    }
  }

  lemma DeliverOneMore(p: Projection, faults: seq<bool>, i: nat)
    requires i < |faults|
    ensures RunFrom(p, Deliveries(faults[..i + 1])) == Step(RunFrom(p, Deliveries(faults[..i])), Deliver(faults[i]))
  {
    var all := Deliveries(faults[..i + 1]);
    assert all[..|all| - 1] == Deliveries(faults[..i]);
    assert all[|all| - 1] == Deliver(faults[i]);
  }

  function Deliveries(faults: seq<bool>): (actions: seq<Action>)
    ensures |actions| == |faults|
  {
    seq(|faults|, i requires 0 <= i < |faults| => Deliver(faults[i]))
  }

  /** The projection that reads each record exactly once, in order. */
  function ExactlyOnce(topic: seq<Record>): Table {
    if topic == [] then map[] else Handled(ExactlyOnce(topic[..|topic| - 1]), topic[|topic| - 1])
  }

  predicate IsEventOf(r: Record, user: string) {
    Effective(r) && r.event.user == user
  }

  /** The user's rows are those of record i, or none and i is -1. */
  predicate CarriesRecord(topic: seq<Record>, rows: Table, user: string, i: int)
    requires -1 <= i < |topic|
  {
    if i == -1 then SkillsOf(rows, user) == map[]
    else IsEventOf(topic[i], user) && SkillsOf(rows, user) == AsMap(topic[i].event.skills)
  }

  /** Some record seen so far accounts for the user's rows, and none of the user's lies between it and the position. */
  predicate Accounted(p: Projection, user: string, i: int) {
    && InBounds(p) && -1 <= i < p.high && CarriesRecord(p.topic, p.rows, user, i)
    && forall j :: i < j < p.pos ==> !IsEventOf(p.topic[j], user)
  }

  predicate InBounds(p: Projection) {
    p.pos <= p.high <= |p.topic|
  }

  ghost predicate HasAccount(p: Projection, user: string) {
    exists i :: Accounted(p, user, i)
  }

  /** The user's rows are one whole event of the user's among those seen, or none. */
  ghost predicate OneWholeEvent(p: Projection, user: string) {
    InBounds(p) && exists i :: -1 <= i < p.high && CarriesRecord(p.topic, p.rows, user, i)
  }

  ghost predicate Consistent(p: Projection) {
    InBounds(p) && forall user :: HasAccount(p, user)
  }

  /** The weaker fact that survives failed replaces. */
  ghost predicate WholeEvents(p: Projection) {
    InBounds(p) && forall user :: OneWholeEvent(p, user)
  }

  /** A replace that fails, or one by an overlapping member, on an event of this user. */
  predicate Upsets(p: Projection, a: Action, user: string) {
    || (a == Deliver(true) && p.pos < |p.topic| && IsEventOf(p.topic[p.pos], user))
    || (a.Overlap? && !a.fault && a.at < |p.topic| && IsEventOf(p.topic[a.at], user))
  }

  /** The steps of one consumer whose replaces succeed. */
  predicate Smooth(a: Action) {
    a != Deliver(true) && !a.Overlap?
  }

  lemma StepKeepsAccount(p: Projection, a: Action, user: string)
    requires HasAccount(p, user) && !Upsets(p, a, user)
    ensures HasAccount(Step(p, a), user)
  {
    var i :| Accounted(p, user, i);
    var delivered := a.Deliver? && p.pos < |p.topic|;
    if delivered {
      HandledBySkills(p.rows, p.topic[p.pos], user);
    }
    if a.Overlap? && a.at < |p.topic| {
      HandledBySkills(p.rows, p.topic[a.at], user);
    }
    assert Accounted(Step(p, a), user, if delivered && IsEventOf(p.topic[p.pos], user) then p.pos else i);
  }

  lemma StepKeepsConsistent(p: Projection, a: Action)
    requires Consistent(p) && Smooth(a)
    ensures Consistent(Step(p, a))
  {
    forall user ensures HasAccount(Step(p, a), user) {
      assert HasAccount(p, user);
      StepKeepsAccount(p, a, user);
    }
  }

  /** The record whose event the user's rows come from after a step, if before it was record i. */
  function AppliedBy(p: Projection, a: Action, user: string, i: int): int {
    match a
    case Deliver(fault) => if !fault && p.pos < |p.topic| && IsEventOf(p.topic[p.pos], user) then p.pos else i
    case Overlap(at, fault) => if !fault && at < |p.topic| && IsEventOf(p.topic[at], user) then at else i
    case _ => i
  }

  lemma StepCarriesApplied(p: Projection, a: Action, user: string, i: int)
    requires -1 <= i < |p.topic| && CarriesRecord(p.topic, p.rows, user, i)
    ensures var p', i' := Step(p, a), AppliedBy(p, a, user, i);
      -1 <= i' < |p'.topic| && CarriesRecord(p'.topic, p'.rows, user, i')
  {
    if a.Deliver? && p.pos < |p.topic| {
      HandledBySkills(p.rows, p.topic[p.pos], user);
    }
    if a.Overlap? && a.at < |p.topic| {
      HandledBySkills(p.rows, p.topic[a.at], user);
    }
  }

  lemma StepKeepsWholeEvents(p: Projection, a: Action)
    requires WholeEvents(p)
    ensures WholeEvents(Step(p, a))
  {
    var p' := Step(p, a);
    forall user ensures OneWholeEvent(p', user) {
      assert OneWholeEvent(p, user);
      var i :| -1 <= i < p.high && CarriesRecord(p.topic, p.rows, user, i);
      StepCarriesApplied(p, a, user, i);
      assert AppliedBy(p, a, user, i) < p'.high;
    }
  }

  lemma EmptyIsConsistent()
    ensures Consistent(Empty()) && WholeEvents(Empty())
  {
    forall user ensures HasAccount(Empty(), user) && OneWholeEvent(Empty(), user) {
      assert SkillsOf(map[], user) == map[];
      assert Accounted(Empty(), user, -1);
    }
  }

  /** Exactly-once reading leaves each user the rows of the user's last event. */
  lemma {:induction false} ExactlyOnceIsLastEvent(topic: seq<Record>, user: string) returns (last: int)
    ensures -1 <= last < |topic| && CarriesRecord(topic, ExactlyOnce(topic), user, last)
    ensures forall j :: last < j < |topic| ==> !IsEventOf(topic[j], user)
  {
    if topic == [] {
      last := -1;
    } else {
      var n := |topic| - 1;
      last := ExactlyOnceIsLastEvent(topic[..n], user);
      HandledBySkills(ExactlyOnce(topic[..n]), topic[n], user);
      assert forall j :: 0 <= j < n ==> topic[..n][j] == topic[j];
      if IsEventOf(topic[n], user) {
        last := n;
      }
    }
  }

  lemma CaughtUpSkills(p: Projection, user: string)
    requires HasAccount(p, user) && p.pos == p.high
    ensures SkillsOf(p.rows, user) == SkillsOf(ExactlyOnce(p.topic[..p.high]), user)
  {
    var i :| Accounted(p, user, i);
    var seen := p.topic[..p.high];
    var last := ExactlyOnceIsLastEvent(seen, user);
    assert last != -1 ==> seen[last] == p.topic[last];
    assert i != -1 ==> seen[i] == p.topic[i];
    assert i == last;
  }

  /**
   * However often the consumer is set back and reads records again, once it has caught up
   * with its own high-water mark the projection is what reading each record once gives.
   */
  lemma {:induction false} RedeliveryIsHarmless(actions: seq<Action>)
    requires forall a :: a in actions ==> Smooth(a)
    ensures Consistent(Run(actions))
    ensures var p := Run(actions); p.pos == p.high ==> p.rows == ExactlyOnce(p.topic[..p.high])
  {
    if actions == [] {
      EmptyIsConsistent();
    } else {
      var n := |actions| - 1;
      assert forall a :: a in actions[..n] ==> a in actions;
      RedeliveryIsHarmless(actions[..n]);
      assert actions[n] in actions;
      StepKeepsConsistent(Run(actions[..n]), actions[n]);
    }
    var p := Run(actions);
    if p.pos == p.high {
      forall u ensures SkillsOf(p.rows, u) == SkillsOf(ExactlyOnce(p.topic[..p.high]), u) {
        assert HasAccount(p, u);
        CaughtUpSkills(p, u);
      }
      SameSkillsSameTable(p.rows, ExactlyOnce(p.topic[..p.high]));
    }
  }

  /** Behind, ahead, or after failed replaces: never a mix of two events of a user. */
  lemma {:induction false} NeverAMix(actions: seq<Action>)
    ensures WholeEvents(Run(actions))
  {
    if actions == [] {
      EmptyIsConsistent();
    } else {
      var n := |actions| - 1;
      NeverAMix(actions[..n]);
      StepKeepsWholeEvents(Run(actions[..n]), actions[n]);
    }
  }

  // ---- with failures and overlapping members ----

  /** The record of the user's that was applied last: a fact about the run, whatever failed in it. */
  function LastApplied(actions: seq<Action>, user: string): int {
    if actions == [] then -1
    else
      var before := actions[..|actions| - 1];
      AppliedBy(Run(before), actions[|actions| - 1], user, LastApplied(before, user))
  }

  /** In every run the user's rows are those of the user's record that was applied last, or none. */
  lemma {:induction false} RowsAreTheLastApplied(actions: seq<Action>, user: string, p: Projection, i: int)
    requires p == Run(actions) && i == LastApplied(actions, user)
    ensures -1 <= i < |p.topic| && CarriesRecord(p.topic, p.rows, user, i)
  {
    if actions == [] {
      assert SkillsOf(map[], user) == map[];
    } else {
      var before := actions[..|actions| - 1];
      RowsAreTheLastApplied(before, user, Run(before), LastApplied(before, user));
      StepCarriesApplied(Run(before), actions[|actions| - 1], user, LastApplied(before, user));
    }
  }

  /** The position of the user's last event, or -1. */
  function LastEvent(topic: seq<Record>, user: string): (last: int)
    ensures -1 <= last < |topic| && (last != -1 ==> IsEventOf(topic[last], user))
  {
    if topic == [] then -1
    else if IsEventOf(topic[|topic| - 1], user) then |topic| - 1
    else LastEvent(topic[..|topic| - 1], user)
  }

  /** What record i says the user has; nothing for -1. */
  function ListedBy(topic: seq<Record>, i: int): map<string, string>
    requires -1 <= i < |topic|
  {
    if i == -1 || !topic[i].Event? then map[] else AsMap(topic[i].event.skills)
  }

  lemma {:induction false} LastEventIsExactlyOnce(topic: seq<Record>, user: string)
    ensures SkillsOf(ExactlyOnce(topic), user) == ListedBy(topic, LastEvent(topic, user))
  {
    if topic == [] {
      assert SkillsOf(map[], user) == map[];
    } else {
      LastEventIsExactlyOnce(topic[..|topic| - 1], user);
      HandledBySkills(ExactlyOnce(topic[..|topic| - 1]), topic[|topic| - 1], user);
    }
  }

  /** The user's rows are what the whole log says. */
  predicate IsCurrent(p: Projection, user: string) {
    SkillsOf(p.rows, user) == SkillsOf(ExactlyOnce(p.topic), user)
  }

  /** Record i says of the user what the user's last event does. */
  predicate SaysTheLastEvent(topic: seq<Record>, user: string, i: int) {
    -1 <= i < |topic| && ListedBy(topic, i) == ListedBy(topic, LastEvent(topic, user))
  }

  lemma CurrentExactly(p: Projection, user: string, i: int)
    requires -1 <= i < |p.topic| && CarriesRecord(p.topic, p.rows, user, i)
    ensures IsCurrent(p, user) <==> SaysTheLastEvent(p.topic, user, i)
  {
    LastEventIsExactlyOnce(p.topic, user);
  }

  /**
   * In every run, failed replaces, skipped records and overlapping members included: the user's rows
   * are what the whole log says if and only if the record applied last says what the last one does.
   */
  lemma CurrentExactlyIfLastAppliedSaysTheLastEvent(actions: seq<Action>, user: string, p: Projection, i: int)
    requires p == Run(actions) && i == LastApplied(actions, user)
    ensures IsCurrent(p, user) <==> SaysTheLastEvent(p.topic, user, i)
  {
    RowsAreTheLastApplied(actions, user, p, i);
    CurrentExactly(p, user, i);
  }

  /** Two events handled in order, then the first once more by a member that still held it. */
  function Overtaken(first: Record, last: Record): seq<Action> {
    [Append(first), Append(last), Deliver(false), Deliver(false), Overlap(0, false)]
  }

  lemma RunFromFive(p: Projection, actions: seq<Action>)
    requires |actions| == 5
    ensures RunFrom(p, actions)
         == Step(Step(Step(Step(Step(p, actions[0]), actions[1]), actions[2]), actions[3]), actions[4])
  {
    forall k | 0 <= k < 5 ensures RunFrom(p, actions[..k + 1]) == Step(RunFrom(p, actions[..k]), actions[k]) {
      assert actions[..k + 1][..k] == actions[..k];
    }
    assert actions[..5] == actions && actions[..0] == [];
  }

  lemma BothAppended(e: Record, f: Record)
    ensures Step(Step(Empty(), Append(e)), Append(f)) == Projection([e, f], 0, 0, map[])
  {
  }

  lemma BothDelivered(e: Record, f: Record)
    ensures Step(Step(Projection([e, f], 0, 0, map[]), Deliver(false)), Deliver(false))
         == Projection([e, f], 2, 2, Handled(Handled(map[], e), f))
  {
  }

  lemma OvertakenRun(e: Record, f: Record)
    ensures Run(Overtaken(e, f)) == Projection([e, f], 2, 2, Handled(Handled(Handled(map[], e), f), e))
  {
    RunFromFive(Empty(), Overtaken(e, f));
    BothAppended(e, f);
    BothDelivered(e, f);
  }

  /** Two events handled in order, then the consumer is set back and reads the first once more. */
  function SetBack(first: Record, last: Record): seq<Action> {
    [Append(first), Append(last), Deliver(false), Deliver(false), Rewind(0), Deliver(false)]
  }

  lemma RunFromSix(p: Projection, actions: seq<Action>)
    requires |actions| == 6
    ensures RunFrom(p, actions)
         == Step(Step(Step(Step(Step(Step(p, actions[0]), actions[1]), actions[2]), actions[3]), actions[4]),
           actions[5])
  {
    assert actions[..5][..5] == actions[..5];
    RunFromFive(p, actions[..5]);
  }

  lemma SetBackRun(e: Record, f: Record)
    ensures Run(SetBack(e, f)) == Projection([e, f], 1, 2, Handled(Handled(Handled(map[], e), f), e))
  {
    var t := Handled(Handled(map[], e), f);
    RunFromSix(Empty(), SetBack(e, f));
    BothAppended(e, f);
    BothDelivered(e, f);
    assert Step(Projection([e, f], 2, 2, t), Rewind(0)) == Projection([e, f], 0, 2, t);
  }

  /** A consumer set back shows the older list for a while, and the last one again once it has caught up. */
  lemma SetBackShowsOlderListForAWhile(user: string, first: seq<Entry>, last: seq<Entry>)
    requires user != "" && DistinctSkills(first) && DistinctSkills(last)
    ensures var run := SetBack(Event(SkillsUpdated(user, first)), Event(SkillsUpdated(user, last)));
      var p, q := Run(run), Step(Run(run), Deliver(false));
      && p.pos == 1 && p.high == |p.topic| == 2 && SkillsOf(p.rows, user) == AsMap(first)
      && q.pos == 2 && SkillsOf(q.rows, user) == AsMap(last)
  {
    var e, f := Event(SkillsUpdated(user, first)), Event(SkillsUpdated(user, last));
    var t := Handled(Handled(map[], e), f);
    SetBackRun(e, f);
    HandledBySkills(t, e, user);
    HandledBySkills(Handled(t, e), f, user);
  }

  /** No replace fails and the topic is drained, and yet the user has the older list again. */
  lemma OverlappingMemberPutsOlderListBack(user: string, first: seq<Entry>, last: seq<Entry>)
    requires user != "" && DistinctSkills(first) && DistinctSkills(last)
    ensures var p := Run(Overtaken(Event(SkillsUpdated(user, first)), Event(SkillsUpdated(user, last))));
      p.pos == |p.topic| == 2 && LastEvent(p.topic, user) == 1 && SkillsOf(p.rows, user) == AsMap(first)
  {
    var e, f := Event(SkillsUpdated(user, first)), Event(SkillsUpdated(user, last));
    var t := Handled(Handled(map[], e), f);
    OvertakenRun(e, f);
    HandledBySkills(t, e, user);
  }
}
