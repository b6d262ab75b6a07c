/** What jobs-service and skills-service store in the cache, and what they read back. */
module JobCodec {
  import opened Prelude
  import opened Json

  datatype Job = Job(id: string, title: string, description: string, required: seq<string>)

  datatype Skill = Skill(id: string, name: string, category: string)

  // ---- what encoding/json makes of a Go value and back ----

  /** A missing field and a null leave Go's zero value; any other kind is an error. */
  function StringField(fields: map<string, Json>, name: string): Option<string> {
    if name !in fields || fields[name].Null? then Some("")
    else if fields[name].Str? then Some(fields[name].s)
    else None
  }

  function Strings(items: seq<Json>): Option<seq<string>> {
    if items == [] then Some([])
    else
      match (Strings(items[..|items| - 1]), items[|items| - 1])
      case (Some(texts), Str(s)) => Some(texts + [s])
      case (Some(texts), Null) => Some(texts + [""])
      case _ => None
  }

  function StringsField(fields: map<string, Json>, name: string): Option<seq<string>> {
    if name !in fields || fields[name].Null? then Some([])
    else if fields[name].Arr? then Strings(fields[name].items)
    else None
  }

  function EncodeStrings(texts: seq<string>): Json {
    if texts == [] then Null else Arr(seq(|texts|, i requires 0 <= i < |texts| => Str(texts[i])))
  }

  // ---- jobs ----

  /** A job without required skills carries a nil slice, which encodes as null. */
  function EncodeJob(j: Job): Json {
    Obj(map["id" := Str(j.id), "title" := Str(j.title), "description" := Str(j.description),
            "required_skill_ids" := EncodeStrings(j.required)])
  }

  /** A null document decodes too, as the zero job. */
  function DecodeJob(doc: Json): Option<Job> {
    if doc.Null? then Some(Job("", "", "", []))
    else if doc.Obj? then
      match (StringField(doc.fields, "id"), StringField(doc.fields, "title"),
             StringField(doc.fields, "description"), StringsField(doc.fields, "required_skill_ids"))
      case (Some(id), Some(title), Some(description), Some(required)) => Some(Job(id, title, description, required))
      case _ => None
    else None
  }

  function EncodeJobs(jobs: seq<Job>): Json {
    Arr(seq(|jobs|, i requires 0 <= i < |jobs| => EncodeJob(jobs[i])))
  }

  function DecodeItems(items: seq<Json>): Option<seq<Job>> {
    if items == [] then Some([])
    else
      match (DecodeItems(items[..|items| - 1]), DecodeJob(items[|items| - 1]))
      case (Some(jobs), Some(j)) => Some(jobs + [j])
      case _ => None
  }

  function DecodeJobs(doc: Json): Option<seq<Job>> {
    if doc.Null? then Some([]) else if doc.Arr? then DecodeItems(doc.items) else None
  }

  lemma {:induction false} StringsRoundTrip(items: seq<Json>, texts: seq<string>)
    requires |items| == |texts| && forall i :: 0 <= i < |texts| ==> items[i] == Str(texts[i])
    ensures Strings(items) == Some(texts)
  {
    if texts != [] {
      var n := |texts| - 1;
      StringsRoundTrip(items[..n], texts[..n]);
      assert texts == texts[..n] + [texts[n]];
    }
  }

  lemma JobRoundTrip(j: Job)
    ensures DecodeJob(EncodeJob(j)) == Some(j)
  {
    if j.required != [] {
      StringsRoundTrip(EncodeStrings(j.required).items, j.required);
    }
  }

  lemma {:induction false} ItemsRoundTrip(items: seq<Json>, jobs: seq<Job>)
    requires |items| == |jobs| && forall i :: 0 <= i < |jobs| ==> items[i] == EncodeJob(jobs[i])
    ensures DecodeItems(items) == Some(jobs)
  {
    if jobs != [] {
      var n := |jobs| - 1;
      ItemsRoundTrip(items[..n], jobs[..n]);
      JobRoundTrip(jobs[n]);
      assert DecodeItems(items[..n]) == Some(jobs[..n]) && DecodeJob(items[n]) == Some(jobs[n]);
      assert jobs == jobs[..n] + [jobs[n]];
    }
  }

  /**
   * Each kind of cache entry reads back as it was written, and neither reads back as the other,
   * so a GetJob of the id "all" and ListJobs can share a key.
   */
  lemma CachedJobsReadBack(j: Job, jobs: seq<Job>)
    ensures DecodeJob(EncodeJob(j)) == Some(j)
    ensures DecodeJobs(EncodeJobs(jobs)) == Some(jobs)
    ensures DecodeJobs(EncodeJob(j)) == None && DecodeJob(EncodeJobs(jobs)) == None
  {
    JobRoundTrip(j);
    ItemsRoundTrip(EncodeJobs(jobs).items, jobs);
  }

  // ---- skills ----

  function EncodeSkill(s: Skill): Json {
    Obj(map["id" := Str(s.id), "name" := Str(s.name), "category" := Str(s.category)])
  }

  function DecodeSkill(doc: Json): Option<Skill> {
    if doc.Null? then Some(Skill("", "", ""))
    else if doc.Obj? then
      match (StringField(doc.fields, "id"), StringField(doc.fields, "name"), StringField(doc.fields, "category"))
      case (Some(id), Some(name), Some(category)) => Some(Skill(id, name, category))
      case _ => None
    else None
  }

  function EncodeSkills(skills: seq<Skill>): Json {
    Arr(seq(|skills|, i requires 0 <= i < |skills| => EncodeSkill(skills[i])))
  }

  function DecodeSkillItems(items: seq<Json>): Option<seq<Skill>> {
    if items == [] then Some([])
    else
      match (DecodeSkillItems(items[..|items| - 1]), DecodeSkill(items[|items| - 1]))
      case (Some(skills), Some(s)) => Some(skills + [s])
      case _ => None
  }

  function DecodeSkills(doc: Json): Option<seq<Skill>> {
    if doc.Null? then Some([]) else if doc.Arr? then DecodeSkillItems(doc.items) else None
  }

  lemma {:induction false} SkillItemsRoundTrip(items: seq<Json>, skills: seq<Skill>)
    requires |items| == |skills| && forall i :: 0 <= i < |skills| ==> items[i] == EncodeSkill(skills[i])
    ensures DecodeSkillItems(items) == Some(skills)
  {
    if skills != [] {
      var n := |skills| - 1;
      SkillItemsRoundTrip(items[..n], skills[..n]);
      assert DecodeSkillItems(items[..n]) == Some(skills[..n]) && DecodeSkill(items[n]) == Some(skills[n]);
      assert skills == skills[..n] + [skills[n]];
    }
  }

  lemma CachedSkillsReadBack(skills: seq<Skill>)
    ensures DecodeSkills(EncodeSkills(skills)) == Some(skills)
  {
    SkillItemsRoundTrip(EncodeSkills(skills).items, skills);
  }
}
