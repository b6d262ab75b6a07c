/**
 * users-service's user_skills table and its AddUserSkill RPC
 * (backend/internal/users/server.go).
 */
module UserSkills {
  import opened Prelude
  import opened Order
  import opened Text

  /** The composite primary key (user_id, skill_id). */
  datatype Key = Key(user: string, skill: string)

  /** Rows of a (user, skill) -> proficiency table: users.user_skills and jobs.user_skill_snapshot. */
  type Table = map<Key, string>

  datatype Entry = Entry(skill: string, proficiency: string)

  /** The user.skills.updated event: a user's entire list. */
  datatype SkillsUpdated = SkillsUpdated(user: string, skills: seq<Entry>)

  datatype Status = OK | InvalidArgument | Unavailable | Internal

  /** The skills a user has rows for. */
  function Claimed(t: Table, user: string): set<string> {
    set k | k in t && k.user == user :: k.skill
  }

  /** A user's rows as a map skill -> proficiency. */
  function SkillsOf(t: Table, user: string): map<string, string> {
    map s | s in Claimed(t, user) :: t[Key(user, s)]
  }

  lemma ClaimedMeansKey(t: Table, user: string, skill: string)
    ensures skill in Claimed(t, user) <==> Key(user, skill) in t
  {
    if Key(user, skill) in t {
      assert Key(user, skill).user == user && Key(user, skill).skill == skill;
    }
  }

  /** INSERT .. ON CONFLICT (user_id, skill_id) DO UPDATE. */
  function Upserted(t: Table, user: string, skill: string, proficiency: string): Table {
    t[Key(user, skill) := proficiency]
  }

  lemma UpsertedTouchesOnePair(t: Table, user: string, skill: string, proficiency: string, other: string)
    ensures SkillsOf(Upserted(t, user, skill, proficiency), other)
         == if other == user then SkillsOf(t, user)[skill := proficiency] else SkillsOf(t, other)
  {
    var t' := Upserted(t, user, skill, proficiency);
    forall s ensures s in Claimed(t', other) <==> s in Claimed(t, other) || (other == user && s == skill) {
      ClaimedMeansKey(t, other, s);
      ClaimedMeansKey(t', other, s);
    }
  }

  /** Two tables in which every user has the same skills are the same table. */
  lemma SameSkillsSameTable(a: Table, b: Table)
    requires forall u :: SkillsOf(a, u) == SkillsOf(b, u)
    ensures a == b
  {
    forall k: Key ensures k in a <==> k in b {
      ClaimedMeansKey(a, k.user, k.skill);
      ClaimedMeansKey(b, k.user, k.skill);
      assert Claimed(a, k.user) == SkillsOf(a, k.user).Keys == SkillsOf(b, k.user).Keys == Claimed(b, k.user);
      assert k == Key(k.user, k.skill);
    }
    forall k: Key | k in a ensures a[k] == b[k] {
      ClaimedMeansKey(a, k.user, k.skill);
      assert a[k] == SkillsOf(a, k.user)[k.skill] == SkillsOf(b, k.user)[k.skill] == b[k];
    }
  }

  // ---- lists of entries ----

  predicate DistinctSkills(skills: seq<Entry>) {
    forall i, j :: 0 <= i < j < |skills| ==> skills[i].skill != skills[j].skill
  }

  function Names(skills: seq<Entry>): set<string> {
    set e | e in skills :: e.skill
  }

  /** A list of entries read as a map, the last entry of a skill winning. */
  function AsMap(skills: seq<Entry>): map<string, string> {
    if skills == [] then map[]
    else
      var last := skills[|skills| - 1];
      AsMap(skills[..|skills| - 1])[last.skill := last.proficiency]
  }

  lemma {:induction false} AsMapKeys(skills: seq<Entry>)
    ensures AsMap(skills).Keys == Names(skills)
  {
    if skills != [] {
      AsMapKeys(skills[..|skills| - 1]);
      assert skills == skills[..|skills| - 1] + [skills[|skills| - 1]];
    }
  }

  function Restrict(m: map<string, string>, keys: set<string>): map<string, string> {
    map s | s in m && s in keys :: m[s]
  }

  /** The list holds exactly the pairs of `all` whose skills are in `done`, each once. */
  predicate Collected(skills: seq<Entry>, all: map<string, string>, done: set<string>) {
    DistinctSkills(skills) && Names(skills) == done && AsMap(skills) == Restrict(all, done)
  }

  lemma CollectOne(skills: seq<Entry>, all: map<string, string>, done: set<string>, s: string)
    requires Collected(skills, all, done) && s in all && s !in done
    ensures Collected(skills + [Entry(s, all[s])], all, done + {s})
  {
    assert (skills + [Entry(s, all[s])])[..|skills|] == skills;
    assert forall i :: 0 <= i < |skills| ==> skills[i].skill in Names(skills);
    assert Names(skills + [Entry(s, all[s])]) == done + {s};
  }

  lemma CollectAll(skills: seq<Entry>, all: map<string, string>)
    requires Collected(skills, all, all.Keys)
    ensures Lists(skills, all)
  {
    assert Restrict(all, all.Keys) == all;
  }

  /** The list holds every pair of the map exactly once. */
  predicate Lists(skills: seq<Entry>, m: map<string, string>) {
    DistinctSkills(skills) && AsMap(skills) == m
  }

  lemma {:induction false} AsMapHasEach(skills: seq<Entry>, e: Entry)
    requires DistinctSkills(skills)
    ensures e in skills <==> e.skill in AsMap(skills) && AsMap(skills)[e.skill] == e.proficiency
  {
    if skills != [] {
      var n := |skills| - 1;
      AsMapHasEach(skills[..n], e);
      assert skills == skills[..n] + [skills[n]];
      AsMapKeys(skills[..n]);
      if e in skills[..n] {
        assert e.skill != skills[n].skill;
      }
      assert e == Entry(e.skill, e.proficiency) && skills[n] == Entry(skills[n].skill, skills[n].proficiency);
    }
  }

  /** Which entries a list of a map's pairs has: exactly those pairs. */
  lemma ListsEachPair(skills: seq<Entry>, m: map<string, string>, e: Entry)
    requires Lists(skills, m)
    ensures e in skills <==> e.skill in m && m[e.skill] == e.proficiency
  {
    AsMapHasEach(skills, e);
  }

  function SkillIds(skills: seq<Entry>): seq<string> {
    seq(|skills|, i requires 0 <= i < |skills| => skills[i].skill)
  }

  lemma NewInOrder(order: seq<string>, i: nat)
    requires Ascending(order) && i < |order|
    ensures order[i] !in Elements(order[..i]) && Elements(order[..i + 1]) == Elements(order[..i]) + {order[i]}
  {
    LessIsStrict(order[i], order[i]);
    assert order[..i + 1] == order[..i] + [order[i]];
  }

  class UsersServer {
    /** users.user_skills. */
    var rows: Table
    /** What the broker acknowledged on the user.skills.updated topic. */
    var topic: seq<SkillsUpdated>
    const hasDB: bool
    const hasPublisher: bool

    constructor (hasDB: bool, hasPublisher: bool)
      ensures rows == map[] && topic == []
      ensures this.hasDB == hasDB && this.hasPublisher == hasPublisher
    {
      rows, topic := map[], [];
      this.hasDB, this.hasPublisher := hasDB, hasPublisher;
    }

    /** A nil error is OK; `fault` is a failure reported by the database. */
    method UpsertSkillRow(user: string, skill: string, proficiency: string, fault: bool) returns (err: Status)
      modifies this`rows
      ensures err == if !hasDB then Unavailable else if fault then Internal else OK
      ensures rows == if err == OK then Upserted(old(rows), user, skill, proficiency) else old(rows)
    {
      if !hasDB {
        return Unavailable;
      }
      if fault {
        return Internal;
      }
      rows := rows[Key(user, skill) := proficiency];
      return OK;
    }

    /** The rows of one user, each once, in the order of their skills. */
    method QueryUserSkillRows(user: string, fault: bool) returns (err: Status, skills: seq<Entry>)
      ensures err == if !hasDB then Unavailable else if fault then Internal else OK
      ensures err == OK ==> Lists(skills, SkillsOf(rows, user)) && Ascending(SkillIds(skills))
      ensures err == OK ==> DistinctSkills(skills)
      ensures err == OK ==>
        forall e :: e in skills <==> Key(user, e.skill) in rows && rows[Key(user, e.skill)] == e.proficiency
    {
      skills := [];
      if !hasDB {
        return Unavailable, [];
      }
      if fault {
        return Internal, [];
      }
      ghost var all := SkillsOf(rows, user);
      var order := Ordered(Claimed(rows, user));
      for i := 0 to |order|
        invariant Collected(skills, all, Elements(order[..i])) && SkillIds(skills) == order[..i]
      {
        var s := order[i];
        assert s in Elements(order);
        ClaimedMeansKey(rows, user, s);
        NewInOrder(order, i);
        CollectOne(skills, all, Elements(order[..i]), s);
        skills := skills + [Entry(s, rows[Key(user, s)])];
      }
      assert order[..|order|] == order;
      CollectAll(skills, all);
      forall e ensures e in skills <==> Key(user, e.skill) in rows && rows[Key(user, e.skill)] == e.proficiency {
        ListsEachPair(skills, all, e);
        ClaimedMeansKey(rows, user, e.skill);
      }
      err := OK;
    }

    /**
     * One un-overlapped AddUserSkill call. `upsertFault`, `listFault` and `lost` are the
     * failures of its three steps: the upsert, the re-read of the whole list, the publish.
     */
    method AddUserSkill(userID: string, skillID: string, prof: string, upsertFault: bool, listFault: bool, lost: bool)
      returns (status: Status)
      modifies this
      ensures status == OK <==>
        TrimSpace(userID) != "" && TrimSpace(skillID) != "" && TrimSpace(prof) != "" && hasDB && !upsertFault
      ensures status == InvalidArgument
        <==> TrimSpace(userID) == "" || TrimSpace(skillID) == "" || TrimSpace(prof) == ""
      ensures status != OK ==> rows == old(rows) && topic == old(topic)
      ensures status == OK ==> rows == Upserted(old(rows), TrimSpace(userID), TrimSpace(skillID), TrimSpace(prof))
      // the event carries the list as it stands after the write, and its loss does not fail the call
      ensures status == OK && hasPublisher && !listFault && !lost ==>
        && |topic| == |old(topic)| + 1 && topic[..|old(topic)|] == old(topic)
        && topic[|old(topic)|].user == TrimSpace(userID)
        && Lists(topic[|old(topic)|].skills, SkillsOf(rows, TrimSpace(userID)))
      ensures status == OK && (!hasPublisher || listFault || lost) ==> topic == old(topic)
    {
      var user, skill, proficiency := TrimSpace(userID), TrimSpace(skillID), TrimSpace(prof);
      if user == "" || skill == "" || proficiency == "" {
        return InvalidArgument;
      }
      var err := UpsertSkillRow(user, skill, proficiency, upsertFault);
      if err != OK {
        return err;
      }
      if hasPublisher {
        var listErr, skills := QueryUserSkillRows(user, listFault);
        if listErr == OK && !lost {
          topic := topic + [SkillsUpdated(user, skills)];
        }
      }
      return OK;
    }
  }
}
