/**
 * The gateway's two ways to turn ids into skills and display names: a scan of the whole taxonomy
 * (or one direct lookup), and a dataloader that batches the ids in any way it likes.
 */
module Loader {
  import opened Prelude
  import Text

  function Index<D>(rows: seq<Row<D>>): map<string, Row<D>> {
    if rows == [] then map[] else Index(rows[..|rows| - 1])[rows[|rows| - 1].id := rows[|rows| - 1]]
  }

  /** With the primary key, the index finds exactly the table's rows. */
  lemma {:induction false} IndexIsTheTable<D>(rows: seq<Row<D>>, row: Row<D>)
    requires DistinctIds(rows)
    ensures row in rows <==> row.id in Index(rows) && Index(rows)[row.id] == row
  {
    if rows != [] {
      var n := |rows| - 1;
      IndexIsTheTable(rows[..n], row);
      assert rows == rows[..n] + [rows[n]];
      if row in rows[..n] {
        assert row.id != rows[n].id;
      }
    }
  }

  /** The last row of the id: the only one, where the id is the primary key. */
  predicate LastAt<D>(rows: seq<Row<D>>, id: string, k: nat) {
    k < |rows| && rows[k].id == id && forall m :: k < m < |rows| ==> rows[m].id != id
  }

  predicate NoRow<D>(rows: seq<Row<D>>, id: string) {
    forall k :: 0 <= k < |rows| ==> rows[k].id != id
  }

  /** Without the key, the index has each id's last row. */
  lemma {:induction false} IndexHasTheLast<D>(rows: seq<Row<D>>, id: string)
    ensures id !in Index(rows) <==> NoRow(rows, id)
    ensures id in Index(rows) ==> exists k: nat :: LastAt(rows, id, k) && rows[k] == Index(rows)[id]
  {
    if rows != [] {
      var n := |rows| - 1;
      if rows[n].id == id {
        assert LastAt(rows, id, n);
      } else {
        IndexHasTheLast(rows[..n], id);
        assert forall m :: 0 <= m < n ==> rows[m] == rows[..n][m];
        if id in Index(rows) {
          var k: nat :| LastAt(rows[..n], id, k) && rows[..n][k] == Index(rows[..n])[id];
          assert LastAt(rows, id, k);
        }
      }
    }
  }

  method IndexRows<D>(rows: seq<Row<D>>) returns (byId: map<string, Row<D>>)
    ensures byId == Index(rows)
  {
    byId := map[];
    for i := 0 to |rows|
      invariant byId == Index(rows[..i])
    {
      assert rows[..i + 1][..i] == rows[..i];
      byId := byId[rows[i].id := rows[i]];
    }
    assert rows[..|rows|] == rows;
  }

  // ---- GetSkillsByIds and GetProfilesByIds ----

  /** WHERE id IN ids. */
  function RowsIn<D>(rows: seq<Row<D>>, ids: set<string>): seq<Row<D>> {
    if rows == [] then []
    else RowsIn(rows[..|rows| - 1], ids) + if rows[|rows| - 1].id in ids then [rows[|rows| - 1]] else []
  }

  /** Each row of a wanted id as often as the table has it, and no other. */
  lemma {:induction false} RowsInAreTheTables<D>(rows: seq<Row<D>>, ids: set<string>, row: Row<D>)
    ensures multiset(RowsIn(rows, ids))[row] == if row.id in ids then multiset(rows)[row] else 0
  {
    if rows != [] {
      var n := |rows| - 1;
      RowsInAreTheTables(rows[..n], ids, row);
      assert rows == rows[..n] + [rows[n]];
    }
  }

  lemma {:induction false} IndexOfRowsIn<D>(rows: seq<Row<D>>, ids: set<string>, id: string)
    ensures id in Index(RowsIn(rows, ids)) <==> id in Index(rows) && id in ids
    ensures id in Index(RowsIn(rows, ids)) ==> Index(RowsIn(rows, ids))[id] == Index(rows)[id]
  {
    if rows != [] {
      IndexOfRowsIn(rows[..|rows| - 1], ids, id);
      var found := RowsIn(rows[..|rows| - 1], ids);
      if rows[|rows| - 1].id in ids {
        assert (found + [rows[|rows| - 1]])[..|found|] == found;
      } else {
        assert RowsIn(rows, ids) == found;
      }
    }
  }

  method GetByIds<D>(rows: seq<Row<D>>, ids: seq<string>) returns (found: seq<Row<D>>)
    ensures found == RowsIn(rows, Elements(Text.Deduped(ids)))
  {
    var wanted := Text.DedupeNonEmpty(ids);
    found := [];
    for i := 0 to |rows|
      invariant found == RowsIn(rows[..i], Elements(wanted))
    {
      assert rows[..i + 1][..i] == rows[..i];
      assert rows[i].id in wanted <==> rows[i].id in Elements(wanted);
      if rows[i].id in wanted {
        found := found + [rows[i]];
      }
    }
    assert rows[..|rows|] == rows;
  }

  // ---- one batch of the loader ----

  predicate CleanId(id: string) {
    id != "" && Text.Trimmed(id)
  }

  /** What a batch answers for an id: the lookup trims it, the answer is matched untrimmed. */
  function Batched<D>(rows: seq<Row<D>>, id: string): Option<Row<D>> {
    if CleanId(id) && id in Index(rows) then Some(Index(rows)[id]) else None
  }

  /** The row answered for an id: its last one, and none if there is none or the id is not clean. */
  ghost predicate IsRowFor<D>(rows: seq<Row<D>>, id: string, r: Option<Row<D>>) {
    match r
    case Some(row) => CleanId(id) && exists k: nat :: LastAt(rows, id, k) && rows[k] == row
    case None => CleanId(id) ==> NoRow(rows, id)
  }

  lemma BatchedIsRowFor<D>(rows: seq<Row<D>>, id: string)
    ensures IsRowFor(rows, id, Batched(rows, id))
  {
    IndexHasTheLast(rows, id);
  }

  lemma WantedExactlyIfClean(ids: seq<string>, id: string)
    requires id in ids
    ensures id in Elements(Text.Deduped(ids)) <==> CleanId(id)
  {
    Text.DedupedKeepsEachOnce(ids);
    Text.DedupedAreTrimmed(ids);
    if CleanId(id) {
      Text.TrimSpaceFixes(id);
      var i :| 0 <= i < |ids| && ids[i] == id;
      assert id in Text.TrimmedTexts(ids);
    }
  }

  method BatchGetById<D>(rows: seq<Row<D>>, ids: seq<string>) returns (results: seq<Option<Row<D>>>)
    ensures |results| == |ids| && forall i :: 0 <= i < |ids| ==> results[i] == Batched(rows, ids[i])
    ensures forall i :: 0 <= i < |ids| ==> IsRowFor(rows, ids[i], results[i])
  {
    var found := GetByIds(rows, ids);
    var byId := IndexRows(found);
    results := [];
    for i := 0 to |ids|
      invariant |results| == i
      invariant forall k :: 0 <= k < i ==> results[k] == Batched(rows, ids[k]) && IsRowFor(rows, ids[k], results[k])
    {
      WantedExactlyIfClean(ids, ids[i]);
      IndexOfRowsIn(rows, Elements(Text.Deduped(ids)), ids[i]);
      BatchedIsRowFor(rows, ids[i]);
      results := results + [if ids[i] in byId then Some(byId[ids[i]]) else None];
    }
  }

  // ---- the loader: any batches, in any order, with any repeats ----

  datatype Batch = Batch(ids: seq<string>, fails: bool)

  ghost predicate Covers(plan: seq<Batch>, ids: seq<string>) {
    forall id :: id in ids ==> exists b :: b in plan && id in b.ids
  }

  /** Some batch that asked for the id failed. */
  ghost predicate FailsFor(plan: seq<Batch>, id: string) {
    exists b :: b in plan && b.fails && id in b.ids
  }

  ghost predicate NoneIn(ids: seq<string>, failed: set<string>) {
    forall id :: id in ids ==> id !in failed
  }

  lemma OneMoreNotIn(ids: seq<string>, i: nat, failed: set<string>)
    requires i < |ids| && NoneIn(ids[..i], failed) && ids[i] !in failed
    ensures NoneIn(ids[..i + 1], failed)
  {
    assert ids[..i + 1] == ids[..i] + [ids[i]];
  }

  ghost predicate AllBatched<D>(rows: seq<Row<D>>, cache: map<string, Option<Row<D>>>) {
    forall id :: id in cache ==> cache[id] == Batched(rows, id)
  }

  method LoadBatch<D>(rows: seq<Row<D>>, ids: seq<string>, before: map<string, Option<Row<D>>>)
    returns (cache: map<string, Option<Row<D>>>)
    requires AllBatched(rows, before)
    ensures AllBatched(rows, cache) && cache.Keys == before.Keys + Elements(ids)
  {
    var results := BatchGetById(rows, ids);
    cache := before;
    for i := 0 to |ids|
      invariant AllBatched(rows, cache) && cache.Keys == before.Keys + Elements(ids[..i])
    {
      assert ids[..i + 1] == ids[..i] + [ids[i]];
      cache := cache[ids[i] := results[i]];
    }
    assert ids[..|ids|] == ids;
  }

  /** The per-request cache after all batches: an answer for every loaded id, or an error. */
  method Load<D>(rows: seq<Row<D>>, plan: seq<Batch>) returns (cache: map<string, Option<Row<D>>>, failed: set<string>)
    ensures AllBatched(rows, cache) && forall id :: id in cache ==> IsRowFor(rows, id, cache[id])
    ensures forall b, id :: b in plan && id in b.ids ==> id in cache || id in failed
    ensures forall id :: id in failed <==> FailsFor(plan, id)
  {
    cache, failed := map[], {};
    assert forall id :: !FailsFor(plan[..0], id);
    for i := 0 to |plan|
      invariant AllBatched(rows, cache)
      invariant forall b, id :: b in plan[..i] && id in b.ids ==> id in cache || id in failed
      invariant forall id :: id in failed <==> FailsFor(plan[..i], id)
    {
      var batch := plan[i];
      forall id ensures FailsFor(plan[..i + 1], id) <==> FailsFor(plan[..i], id) || (batch.fails && id in batch.ids) {
        assert plan[..i + 1] == plan[..i] + [batch];
      }
      if batch.fails {
        failed := failed + Elements(batch.ids);
      } else {
        cache := LoadBatch(rows, batch.ids, cache);
      }
      assert plan[..i + 1] == plan[..i] + [batch];
    }
    assert plan[..|plan|] == plan;
    forall id | id in cache ensures IsRowFor(rows, id, cache[id]) {
      BatchedIsRowFor(rows, id);
    }
  }

  // ---- resolveSkills and resolveSkillsViaLoader ----

  datatype Outcome<T> = Ok(value: T) | Failed

  /** The found rows in the order of the ids, repeats kept, dangling ids left out. */
  function Resolved<D>(rows: seq<Row<D>>, ids: seq<string>): seq<Row<D>> {
    if ids == [] then []
    else
      var id := ids[|ids| - 1];
      Resolved(rows, ids[..|ids| - 1]) + if id in Index(rows) then [Index(rows)[id]] else []
  }

  /** Id by id, in order: the id's last row, or nothing. */
  lemma {:induction false} ResolvedIdById<D>(rows: seq<Row<D>>, before: seq<string>, after: seq<string>)
    ensures Resolved(rows, before + after) == Resolved(rows, before) + Resolved(rows, after)
    ensures forall id :: NoRow(rows, id) ==> Resolved(rows, [id]) == []
    ensures forall id, k: nat :: LastAt(rows, id, k) ==> Resolved(rows, [id]) == [rows[k]]
  {
    if after == [] {
      assert before + after == before;
      forall id ensures NoRow(rows, id) ==> Resolved(rows, [id]) == [] {
        OneResolved(rows, id);
      }
      forall id, k: nat | LastAt(rows, id, k) ensures Resolved(rows, [id]) == [rows[k]] {
        OneResolved(rows, id);
        OnlyLast(rows, id, k);
      }
    } else {
      var n := |after| - 1;
      assert (before + after)[..|before| + n] == before + after[..n];
      ResolvedIdById(rows, before, after[..n]);
    }
  }

  lemma OneResolved<D>(rows: seq<Row<D>>, id: string)
    ensures Resolved(rows, [id]) == if id in Index(rows) then [Index(rows)[id]] else []
    ensures id !in Index(rows) <==> NoRow(rows, id)
  {
    IndexHasTheLast(rows, id);
    assert [id][..0] == [];
  }

  lemma OnlyLast<D>(rows: seq<Row<D>>, id: string, k: nat)
    requires LastAt(rows, id, k)
    ensures id in Index(rows) && Index(rows)[id] == rows[k]
  {
    IndexHasTheLast(rows, id);
  }

  /** The scan: `listed` is what ListSkills answers, from the table or from its cache, if it answers. */
  method ResolveSkills<D>(listed: seq<Row<D>>, ids: seq<string>, fails: bool) returns (out: Outcome<seq<Row<D>>>)
    ensures out == if fails && ids != [] then Failed else Ok(Resolved(listed, ids))
  {
    if ids == [] {
      return Ok([]);
    }
    if fails {
      return Failed;
    }
    var byId := IndexRows(listed);
    var found: seq<Row<D>> := [];
    for i := 0 to |ids|
      invariant found == Resolved(listed, ids[..i])
    {
      assert ids[..i + 1][..i] == ids[..i];
      if ids[i] in byId {
        found := found + [byId[ids[i]]];
      }
    }
    assert ids[..|ids|] == ids;
    return Ok(found);
  }

  function CleanIds(ids: seq<string>): seq<string> {
    if ids == [] then []
    else CleanIds(ids[..|ids| - 1]) + if CleanId(ids[|ids| - 1]) then [ids[|ids| - 1]] else []
  }

  /** Exactly the ids that are not blank and carry no outer white space stay, in their order. */
  lemma {:induction false} CleanIdsIdById(before: seq<string>, after: seq<string>)
    ensures CleanIds(before + after) == CleanIds(before) + CleanIds(after)
    ensures forall id :: CleanIds([id]) == if id != "" && Text.TrimSpace(id) == id then [id] else []
  {
    if after == [] {
      assert before + after == before;
      forall id ensures CleanIds([id]) == if id != "" && Text.TrimSpace(id) == id then [id] else [] {
        Text.TrimSpaceFixes(id);
        assert [id][..0] == [];
      }
    } else {
      var n := |after| - 1;
      assert (before + after)[..|before| + n] == before + after[..n];
      CleanIdsIdById(before, after[..n]);
    }
  }

  /** Whatever the plan, the answer is the scan's answer for the clean ids. */
  method ResolveSkillsViaLoader<D>(rows: seq<Row<D>>, ids: seq<string>, plan: seq<Batch>)
    returns (out: Outcome<seq<Row<D>>>)
    requires Covers(plan, ids)
    ensures out.Ok? ==> out.value == Resolved(rows, CleanIds(ids))
    ensures out.Failed? <==> exists id :: id in ids && FailsFor(plan, id)
  {
    var cache, failed := Load(rows, plan);
    var found: seq<Row<D>> := [];
    for i := 0 to |ids|
      invariant found == Resolved(rows, CleanIds(ids[..i]))
      invariant NoneIn(ids[..i], failed)
    {
      var id := ids[i];
      assert id in ids;
      if id in failed {
        return Failed;
      }
      OneMoreNotIn(ids, i, failed);
      assert ids[..i + 1][..i] == ids[..i];
      ResolvedNext(rows, ids[..i], id);
      if cache[id].Some? {
        found := found + [cache[id].value];
      }
    }
    assert ids[..|ids|] == ids;
    return Ok(found);
  }

  lemma ResolvedNext<D>(rows: seq<Row<D>>, ids: seq<string>, id: string)
    ensures Resolved(rows, CleanIds(ids + [id]))
         == Resolved(rows, CleanIds(ids)) + if Batched(rows, id).Some? then [Batched(rows, id).value] else []
  {
    assert (ids + [id])[..|ids|] == ids;
    var clean := CleanIds(ids);
    if CleanId(id) {
      assert CleanIds(ids + [id]) == clean + [id];
      assert (clean + [id])[..|clean|] == clean;
    } else {
      assert CleanIds(ids + [id]) == clean;
    }
  }

  /** Every id the table holds is clean, as ids that are UUIDs are. */
  ghost predicate HitsAreClean<D>(rows: seq<Row<D>>, ids: seq<string>) {
    forall id :: id in ids && id in Index(rows) ==> CleanId(id)
  }

  lemma {:induction false} ResolvedClean<D>(rows: seq<Row<D>>, ids: seq<string>)
    ensures |Resolved(rows, CleanIds(ids))| <= |Resolved(rows, ids)|
    ensures Resolved(rows, CleanIds(ids)) == Resolved(rows, ids) <==> HitsAreClean(rows, ids)
    ensures |Resolved(rows, CleanIds(ids))| == |Resolved(rows, ids)| ==> HitsAreClean(rows, ids)
  {
    if ids != [] {
      var before, id := ids[..|ids| - 1], ids[|ids| - 1];
      assert ids == before + [id];
      ResolvedClean(rows, before);
      ResolvedNext(rows, before, id);
      assert HitsAreClean(rows, ids) <==> HitsAreClean(rows, before) && (id in Index(rows) ==> CleanId(id));
    }
  }

  /** The loader answers as the scan does exactly if every requested id that the table holds is clean. */
  lemma LoaderAgreesExactlyOnCleanHits<D>(rows: seq<Row<D>>, ids: seq<string>)
    ensures Resolved(rows, CleanIds(ids)) == Resolved(rows, ids) <==> HitsAreClean(rows, ids)
    ensures (forall r :: r in rows ==> CleanId(r.id)) ==> HitsAreClean(rows, ids)
  {
    ResolvedClean(rows, ids);
    forall id | id in Index(rows) ensures exists r :: r in rows && r.id == id {
      IndexedRowsExist(rows, id);
    }
  }

  lemma {:induction false} IndexedRowsExist<D>(rows: seq<Row<D>>, id: string)
    requires id in Index(rows)
    ensures Index(rows)[id] in rows && Index(rows)[id].id == id
  {
    if rows[|rows| - 1].id != id {
      IndexedRowsExist(rows[..|rows| - 1], id);
    }
  }

  // ---- the scan may read an older taxonomy ----

  /** Every requested id of the table is in the answer too. */
  ghost predicate HitsAreListed<D>(listed: seq<Row<D>>, rows: seq<Row<D>>, ids: seq<string>) {
    forall id :: id in ids && id in Index(rows) ==> id in Index(listed)
  }

  lemma {:induction false} FewerRowsResolveFewer<D>(listed: seq<Row<D>>, rows: seq<Row<D>>, ids: seq<string>)
    requires forall id :: id in Index(listed) ==> id in Index(rows) && Index(rows)[id] == Index(listed)[id]
    ensures |Resolved(listed, ids)| <= |Resolved(rows, ids)|
    ensures |Resolved(listed, ids)| == |Resolved(rows, ids)| <==> HitsAreListed(listed, rows, ids)
    ensures |Resolved(listed, ids)| == |Resolved(rows, ids)| ==> Resolved(listed, ids) == Resolved(rows, ids)
  {
    if ids != [] {
      var before, id := ids[..|ids| - 1], ids[|ids| - 1];
      assert ids == before + [id];
      FewerRowsResolveFewer(listed, rows, before);
      assert HitsAreListed(listed, rows, ids)
        <==> HitsAreListed(listed, rows, before) && (id in Index(rows) ==> id in Index(listed));
    }
  }

  /**
   * The scan reads the taxonomy as ListSkills answers it, which may be an earlier state of the
   * table; the loader reads the table. With the table's UUID keys, they agree exactly if every
   * requested skill of the table is in that answer.
   */
  lemma LoaderAgreesExactlyOnListedSkills<D>(listed: seq<Row<D>>, rows: seq<Row<D>>, ids: seq<string>)
    requires DistinctIds(rows) && (forall r :: r in rows ==> CleanId(r.id)) && listed <= rows
    ensures Resolved(listed, ids) == Resolved(rows, CleanIds(ids))
       <==> HitsAreListed(listed, rows, ids)
  {
    LoaderAgreesExactlyOnCleanHits(rows, ids);
    forall id | id in Index(listed) ensures id in Index(rows) && Index(rows)[id] == Index(listed)[id] {
      IndexedRowsExist(listed, id);
      var k :| 0 <= k < |listed| && listed[k] == Index(listed)[id];
      assert rows[k] == listed[k];
      IndexIsTheTable(rows, rows[k]);
    }
    FewerRowsResolveFewer(listed, rows, ids);
  }

  // ---- resolveDisplayNames and resolveDisplayNamesViaLoader ----

  /**
   * The name of the id's profile; or the id, if there is no such profile, or it has no name, or the
   * id is not clean.
   */
  ghost predicate IsNameOf(rows: seq<Row<string>>, id: string, name: string) {
    || (name != "" && CleanId(id) && exists k: nat :: LastAt(rows, id, k) && rows[k].data == name)
    || (name == id && (CleanId(id) ==> forall k: nat :: LastAt(rows, id, k) ==> rows[k].data == ""))
  }

  ghost predicate AreNamesOf(rows: seq<Row<string>>, ids: seq<string>, names: seq<string>) {
    |names| == |ids| && forall i :: 0 <= i < |ids| ==> IsNameOf(rows, ids[i], names[i])
  }

  lemma NameIs(rows: seq<Row<string>>, id: string, r: Option<Row<string>>)
    requires IsRowFor(rows, id, r)
    ensures IsNameOf(rows, id, if r.Some? && r.value.data != "" then r.value.data else id)
  {
  }

  /** With the primary key: any row of a clean id that has a name gives the name, and nothing else does. */
  lemma NamesAreTheProfiles(rows: seq<Row<string>>, id: string, name: string)
    requires DistinctIds(rows) && IsNameOf(rows, id, name)
    ensures forall row :: row in rows && row.id == id && CleanId(id) && row.data != "" ==> name == row.data
    ensures (forall row :: row in rows && row.id == id && CleanId(id) ==> row.data == "") ==> name == id
  {
    forall row | row in rows && row.id == id ensures exists k: nat :: LastAt(rows, id, k) && rows[k] == row {
      var k :| 0 <= k < |rows| && rows[k] == row;
      assert LastAt(rows, id, k);
    }
  }

  method ResolveDisplayNames(rows: seq<Row<string>>, ids: seq<string>, fails: bool) returns (out: Outcome<seq<string>>)
    ensures out.Failed? <==> fails
    ensures out.Ok? ==> AreNamesOf(rows, ids, out.value)
  {
    if fails {
      return Failed;
    }
    var found := GetByIds(rows, ids);
    var byId := IndexRows(found);
    var names: seq<string> := [];
    for i := 0 to |ids|
      invariant |names| == i && forall k :: 0 <= k < i ==> IsNameOf(rows, ids[k], names[k])
    {
      var id := ids[i];
      WantedExactlyIfClean(ids, id);
      IndexOfRowsIn(rows, Elements(Text.Deduped(ids)), id);
      assert Batched(rows, id) == if id in byId then Some(byId[id]) else None;
      BatchedIsRowFor(rows, id);
      NameIs(rows, id, Batched(rows, id));
      names := names + [if id in byId && byId[id].data != "" then byId[id].data else id];
    }
    return Ok(names);
  }

  /** Position by position what the direct lookup answers, whatever the plan. */
  method ResolveDisplayNamesViaLoader(rows: seq<Row<string>>, ids: seq<string>, plan: seq<Batch>)
    returns (out: Outcome<seq<string>>)
    requires Covers(plan, ids)
    ensures out.Ok? ==> AreNamesOf(rows, ids, out.value)
    ensures out.Failed? <==> exists id :: id in ids && FailsFor(plan, id)
  {
    var cache, failed := Load(rows, plan);
    var names: seq<string> := [];
    for i := 0 to |ids|
      invariant |names| == i && forall k :: 0 <= k < i ==> IsNameOf(rows, ids[k], names[k])
      invariant NoneIn(ids[..i], failed)
    {
      var id := ids[i];
      assert id in ids;
      if id in failed {
        return Failed;
      }
      OneMoreNotIn(ids, i, failed);
      NameIs(rows, id, cache[id]);
      var profile := cache[id];
      names := names + [if profile.Some? && profile.value.data != "" then profile.value.data else id];
    }
    assert ids[..|ids|] == ids;
    return Ok(names);
  }

  /** So the two ways cannot differ: a table and the ids determine the names. */
  lemma NamesAreDetermined(rows: seq<Row<string>>, ids: seq<string>, names: seq<string>, names': seq<string>)
    requires AreNamesOf(rows, ids, names) && AreNamesOf(rows, ids, names')
    ensures names == names'
  {
    forall i | 0 <= i < |ids| ensures names[i] == names'[i] {
      OneNameAtMost(rows, ids[i], names[i], names'[i]);
    }
  }

  lemma OneNameAtMost(rows: seq<Row<string>>, id: string, name: string, name': string)
    requires IsNameOf(rows, id, name) && IsNameOf(rows, id, name')
    ensures name == name'
  {
    forall j: nat, k: nat | LastAt(rows, id, j) && LastAt(rows, id, k) ensures j == k {
    }
  }
}
