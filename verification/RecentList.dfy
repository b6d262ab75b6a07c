/**
 * The frontend's two capped most-recent-first lists: recently viewed jobs (cap 5, in session
 * storage) and the notification list (cap 20, backfilled from history).
 */
module RecentList {
  import opened Prelude

  function Without<D>(list: seq<Row<D>>, id: string): seq<Row<D>> {
    if list == [] then []
    else Without(list[..|list| - 1], id) + if list[|list| - 1].id == id then [] else [list[|list| - 1]]
  }

  function Cut<T>(list: seq<T>, cap: nat): seq<T> {
    if |list| <= cap then list else list[..cap]
  }

  /** The list as the code keeps it: the item in front, its older copy gone, cut at the cap. */
  function Pushed<D>(list: seq<Row<D>>, item: Row<D>, cap: nat): seq<Row<D>> {
    Cut([item] + Without(list, item.id), cap)
  }

  function PushedAll<D>(start: seq<Row<D>>, items: seq<Row<D>>, cap: nat): seq<Row<D>> {
    if items == [] then start else Pushed(PushedAll(start, items[..|items| - 1], cap), items[|items| - 1], cap)
  }

  /** The same without a cap. */
  function Recent<D>(start: seq<Row<D>>, items: seq<Row<D>>): seq<Row<D>> {
    if items == [] then start
    else [items[|items| - 1]] + Without(Recent(start, items[..|items| - 1]), items[|items| - 1].id)
  }

  predicate HasId<D>(list: seq<Row<D>>, id: string) {
    exists i :: 0 <= i < |list| && list[i].id == id
  }

  // ---- removal and cutting ----

  predicate Lacks<D>(list: seq<Row<D>>, id: string) {
    forall i :: 0 <= i < |list| ==> list[i].id != id
  }

  lemma {:induction false} WithoutAbsent<D>(list: seq<Row<D>>, id: string)
    requires Lacks(list, id)
    ensures Without(list, id) == list
  {
    if list != [] {
      WithoutAbsent(list[..|list| - 1], id);
      assert list == list[..|list| - 1] + [list[|list| - 1]];
    }
  }

  /** In a list without repeats, removal takes out the one position that has the id. */
  lemma {:induction false} WithoutAt<D>(list: seq<Row<D>>, k: nat)
    requires DistinctIds(list) && k < |list|
    ensures Without(list, list[k].id) == list[..k] + list[k + 1..]
  {
    var n := |list| - 1;
    var before := list[..n];
    if k == n {
      WithoutAbsent(before, list[k].id);
      assert list[..k] + list[k + 1..] == before;
    } else {
      assert DistinctIds(before) && before[k] == list[k];
      WithoutAt(before, k);
      assert list[..k] + list[k + 1..] == before[..k] + before[k + 1..] + [list[n]];
    }
  }

  /** The positions that removal keeps, in order. */
  function Kept<D>(list: seq<Row<D>>, id: string): (at: seq<nat>)
    ensures |at| == |Without(list, id)|
    ensures forall i :: 0 <= i < |at| ==> at[i] < |list|
  {
    if list == [] then []
    else Kept(list[..|list| - 1], id) + if list[|list| - 1].id == id then [] else [|list| - 1]
  }

  lemma {:induction false} KeptItems<D>(list: seq<Row<D>>, id: string)
    ensures var at := Kept(list, id);
      forall i :: 0 <= i < |at| ==> Without(list, id)[i] == list[at[i]] && list[at[i]].id != id
  {
    if list != [] {
      KeptItems(list[..|list| - 1], id);
    }
  }

  predicate Increasing(at: seq<nat>) {
    forall i, j :: 0 <= i < j < |at| ==> at[i] < at[j]
  }

  lemma {:induction false} KeptAscend<D>(list: seq<Row<D>>, id: string)
    ensures Increasing(Kept(list, id))
  {
    if list != [] {
      var n := |list| - 1;
      var before := Kept(list[..n], id);
      KeptAscend(list[..n], id);
      var at := Kept(list, id);
      forall i, j | 0 <= i < j < |at| ensures at[i] < at[j] {
        assert at[i] == before[i];
        assert j < |before| ==> at[j] == before[j];
      }
    }
  }

  lemma {:induction false} KeptPosition<D>(list: seq<Row<D>>, id: string, k: nat)
    requires k < |list| && list[k].id != id
    ensures k in Kept(list, id)
  {
    if k < |list| - 1 {
      KeptPosition(list[..|list| - 1], id, k);
    }
  }

  lemma WithoutKeepsDistinct<D>(list: seq<Row<D>>, id: string)
    requires DistinctIds(list)
    ensures DistinctIds(Without(list, id)) && Lacks(Without(list, id), id)
  {
    KeptItems(list, id);
    KeptAscend(list, id);
  }

  lemma WithoutKeepsOthers<D>(list: seq<Row<D>>, id: string, other: string)
    requires other != id
    ensures HasId(Without(list, id), other) <==> HasId(list, other)
  {
    var at := Kept(list, id);
    KeptItems(list, id);
    if k: nat :| k < |list| && list[k].id == other {
      KeptPosition(list, id, k);
      var i :| 0 <= i < |at| && at[i] == k;
      assert Without(list, id)[i].id == other;
    }
  }

  lemma CutIgnoresTail<T>(list: seq<T>, tail: seq<T>, cap: nat)
    requires |list| >= cap
    ensures Cut(list + tail, cap) == Cut(list, cap)
  {
  }

  lemma CutAfterHit<D>(list: seq<Row<D>>, item: Row<D>, cap: nat, k: nat)
    requires DistinctIds(list) && k < cap < |list| && list[k].id == item.id
    ensures Pushed(list[..cap], item, cap) == Pushed(list, item, cap)
  {
    var cut := list[..cap];
    assert cut[k] == list[k] && DistinctIds(cut);
    WithoutAt(list, k);
    WithoutAt(cut, k);
    assert list[..k] + list[k + 1..] == (cut[..k] + cut[k + 1..]) + list[cap..];
    assert [item] + ((cut[..k] + cut[k + 1..]) + list[cap..]) == ([item] + (cut[..k] + cut[k + 1..])) + list[cap..];
    CutIgnoresTail([item] + (cut[..k] + cut[k + 1..]), list[cap..], cap);
  }

  lemma CutAfterMiss<D>(list: seq<Row<D>>, item: Row<D>, cap: nat, rest: seq<Row<D>>)
    requires cap < |list| && Lacks(list[..cap], item.id) && Without(list, item.id) == list[..cap] + rest
    ensures Pushed(list[..cap], item, cap) == Pushed(list, item, cap)
  {
    WithoutAbsent(list[..cap], item.id);
    assert [item] + (list[..cap] + rest) == ([item] + list[..cap]) + rest;
    CutIgnoresTail([item] + list[..cap], rest, cap);
  }

  lemma CutBeforeHit<D>(list: seq<Row<D>>, item: Row<D>, cap: nat, k: nat)
    requires DistinctIds(list) && cap <= k < |list| && list[k].id == item.id
    ensures Pushed(list[..cap], item, cap) == Pushed(list, item, cap)
  {
    WithoutAt(list, k);
    assert list[..k] == list[..cap] + list[cap..k];
    assert list[..k] + list[k + 1..] == list[..cap] + (list[cap..k] + list[k + 1..]);
    CutAfterMiss(list, item, cap, list[cap..k] + list[k + 1..]);
  }

  /** Cutting before or after removal makes no difference once an item goes in front. */
  lemma CutBeforeOrAfter<D>(list: seq<Row<D>>, item: Row<D>, cap: nat)
    requires DistinctIds(list)
    ensures Pushed(Cut(list, cap), item, cap) == Pushed(list, item, cap)
  {
    if |list| > cap {
      if k: nat :| k < |list| && list[k].id == item.id {
        if k < cap {
          CutAfterHit(list, item, cap, k);
        } else {
          CutBeforeHit(list, item, cap, k);
        }
      } else {
        WithoutAbsent(list, item.id);
        assert list == list[..cap] + list[cap..];
        CutAfterMiss(list, item, cap, list[cap..]);
      }
    }
  }

  lemma {:induction false} RecentIsDistinct<D>(start: seq<Row<D>>, items: seq<Row<D>>)
    requires DistinctIds(start)
    ensures DistinctIds(Recent(start, items))
  {
    if items != [] {
      RecentIsDistinct(start, items[..|items| - 1]);
      WithoutKeepsDistinct(Recent(start, items[..|items| - 1]), items[|items| - 1].id);
    }
  }

  /**
   * Cutting at every step equals cutting the unbounded list once at the end, from any start list
   * without repeats, longer than the cap or not, as soon as something was pushed.
   */
  lemma {:induction false} CuttingOnceIsEnough<D>(start: seq<Row<D>>, items: seq<Row<D>>, cap: nat)
    requires DistinctIds(start) && (items != [] || |start| <= cap)
    ensures PushedAll(start, items, cap) == Cut(Recent(start, items), cap)
  {
    if items != [] {
      var before, last := items[..|items| - 1], items[|items| - 1];
      RecentIsDistinct(start, before);
      if before == [] {
        assert PushedAll(start, before, cap) == start && Recent(start, before) == start;
      } else {
        CuttingOnceIsEnough(start, before, cap);
        CutBeforeOrAfter(Recent(start, before), last, cap);
      }
    }
  }

  // ---- what the unbounded list is ----

  /** The position of the id's last push, or -1. */
  function LastPush<D>(items: seq<Row<D>>, id: string): int {
    if items == [] then -1
    else if items[|items| - 1].id == id then |items| - 1
    else LastPush(items[..|items| - 1], id)
  }

  lemma {:induction false} LastPushMeans<D>(items: seq<Row<D>>, id: string)
    ensures -1 <= LastPush(items, id) < |items|
    ensures LastPush(items, id) >= 0 ==> items[LastPush(items, id)].id == id
    ensures forall i :: LastPush(items, id) < i < |items| ==> items[i].id != id
  {
    if items != [] {
      LastPushMeans(items[..|items| - 1], id);
    }
  }

  /** The item is what was last pushed under its id. */
  ghost predicate IsLatest<D>(items: seq<Row<D>>, item: Row<D>) {
    var p := LastPush(items, item.id);
    0 <= p < |items| && items[p] == item
  }

  ghost predicate InOrder<D>(list: seq<Row<D>>, items: seq<Row<D>>) {
    forall i, j :: 0 <= i < j < |list| ==> LastPush(items, list[i].id) > LastPush(items, list[j].id)
  }

  /** Most recent first, each pushed id once and nothing else, with the data it was last pushed with. */
  ghost predicate IsMostRecentFirst<D>(list: seq<Row<D>>, items: seq<Row<D>>) {
    && (forall i :: 0 <= i < |list| ==> IsLatest(items, list[i]))
    && InOrder(list, items)
    && (forall id :: HasId(list, id) <==> HasId(items, id))
  }

  /** Removal keeps the others, in their order. */
  lemma WithoutKeepsOrder<D>(list: seq<Row<D>>, items: seq<Row<D>>, id: string)
    requires InOrder(list, items) && forall i :: 0 <= i < |list| ==> IsLatest(items, list[i])
    ensures var rest := Without(list, id);
      InOrder(rest, items) && Lacks(rest, id) && forall i :: 0 <= i < |rest| ==> IsLatest(items, rest[i])
  {
    KeptItems(list, id);
    KeptAscend(list, id);
  }

  lemma LastPushAfter<D>(items: seq<Row<D>>, item: Row<D>, id: string)
    ensures LastPush(items + [item], id) == if id == item.id then |items| else LastPush(items, id)
  {
    assert (items + [item])[..|items|] == items;
  }

  lemma PushKeepsLatest<D>(rest: seq<Row<D>>, items: seq<Row<D>>, item: Row<D>)
    requires InOrder(rest, items) && Lacks(rest, item.id) && forall i :: 0 <= i < |rest| ==> IsLatest(items, rest[i])
    ensures InOrder([item] + rest, items + [item])
    ensures forall i :: 0 <= i < |[item] + rest| ==> IsLatest(items + [item], ([item] + rest)[i])
  {
    var list := [item] + rest;
    LastPushAfter(items, item, item.id);
    forall i | 0 < i < |list|
      ensures list[i] == rest[i - 1]
        && LastPush(items + [item], list[i].id) == LastPush(items, rest[i - 1].id) < |items|
    {
      LastPushAfter(items, item, list[i].id);
      LastPushMeans(items, list[i].id);
    }
  }

  lemma HasIdAfterPush<D>(list: seq<Row<D>>, items: seq<Row<D>>, item: Row<D>, id: string)
    requires HasId(list, id) <==> HasId(items, id)
    ensures HasId([item] + Without(list, item.id), id) <==> HasId(items + [item], id)
  {
    if id != item.id {
      WithoutKeepsOthers(list, item.id, id);
    }
    HasIdOfConcat([item], Without(list, item.id), id);
    HasIdOfConcat(items, [item], id);
    assert [item][0] == item;
  }

  lemma PushStaysMostRecentFirst<D>(list: seq<Row<D>>, items: seq<Row<D>>, item: Row<D>)
    requires IsMostRecentFirst(list, items)
    ensures IsMostRecentFirst([item] + Without(list, item.id), items + [item])
  {
    WithoutKeepsOrder(list, items, item.id);
    PushKeepsLatest(Without(list, item.id), items, item);
    forall id ensures HasId([item] + Without(list, item.id), id) <==> HasId(items + [item], id) {
      HasIdAfterPush(list, items, item, id);
    }
  }

  lemma HasIdOfConcat<D>(a: seq<Row<D>>, b: seq<Row<D>>, id: string)
    ensures HasId(a + b, id) <==> HasId(a, id) || HasId(b, id)
  {
    var all := a + b;
    if i :| 0 <= i < |a| && a[i].id == id {
      assert all[i].id == id;
    }
    if i :| 0 <= i < |b| && b[i].id == id {
      assert all[|a| + i].id == id;
    }
  }

  /** From an empty start: exactly the pushed ids, each once with its latest data, latest first. */
  lemma {:induction false} RecentIsMostRecentFirst<D>(items: seq<Row<D>>)
    ensures IsMostRecentFirst(Recent([], items), items) && DistinctIds(Recent([], items))
  {
    RecentIsDistinct([], items);
    if items != [] {
      var before, last := items[..|items| - 1], items[|items| - 1];
      RecentIsMostRecentFirst(before);
      PushStaysMostRecentFirst(Recent([], before), before, last);
      assert items == before + [last];
    }
  }

  // ---- the notification list: live pushes, and one history that replaces the list when it arrives ----

  const MAX_NOTIFICATIONS: nat := 20

  datatype Event<D> = Live(item: Row<D>) | History(items: seq<Row<D>>)

  function Shown<D>(events: seq<Event<D>>): seq<Row<D>> {
    if events == [] then []
    else
      match events[|events| - 1]
      case Live(item) => Pushed(Shown(events[..|events| - 1]), item, MAX_NOTIFICATIONS)
      case History(items) => items
  }

  function Lives<D>(items: seq<Row<D>>): seq<Event<D>> {
    seq(|items|, i requires 0 <= i < |items| => Live(items[i]))
  }

  lemma {:induction false} ShownAfterHistory<D>(before: seq<Event<D>>, history: seq<Row<D>>, items: seq<Row<D>>)
    ensures Shown(before + [History(history)] + Lives(items)) == PushedAll(history, items, MAX_NOTIFICATIONS)
  {
    var events := before + [History(history)] + Lives(items);
    if items != [] {
      var n := |items| - 1;
      assert Lives(items) == Lives(items[..n]) + [Live(items[n])];
      assert events[..|events| - 1] == before + [History(history)] + Lives(items[..n]);
      ShownAfterHistory(before, history, items[..n]);
    } else {
      assert events == before + [History(history)];
    }
  }

  /** As much of the list as the cap allows, from its front. */
  predicate FirstOf<D(==)>(list: seq<Row<D>>, all: seq<Row<D>>, cap: nat) {
    list <= all && (list == all || |list| == cap) && |list| <= cap
  }

  lemma FirstOfCut<D>(all: seq<Row<D>>, cap: nat)
    ensures FirstOf(Cut(all, cap), all, cap)
  {
  }

  /** The rows whose ids were not pushed, in their order. */
  function Unpushed<D>(start: seq<Row<D>>, items: seq<Row<D>>): seq<Row<D>> {
    if start == [] then []
    else
      Unpushed(start[..|start| - 1], items) + if HasId(items, start[|start| - 1].id) then [] else [start[|start| - 1]]
  }

  lemma {:induction false} WithoutOfConcat<D>(a: seq<Row<D>>, b: seq<Row<D>>, id: string)
    ensures Without(a + b, id) == Without(a, id) + Without(b, id)
  {
    if b == [] {
      assert a + b == a;
    } else {
      assert (a + b)[..|a + b| - 1] == a + b[..|b| - 1];
      WithoutOfConcat(a, b[..|b| - 1], id);
    }
  }

  lemma {:induction false} WithoutUnpushed<D>(start: seq<Row<D>>, before: seq<Row<D>>, last: Row<D>)
    ensures Without(Unpushed(start, before), last.id) == Unpushed(start, before + [last])
  {
    if start != [] {
      var n := |start| - 1;
      WithoutUnpushed(start[..n], before, last);
      HasIdOfConcat(before, [last], start[n].id);
      assert [last][0] == last;
      var kept := if HasId(before, start[n].id) then [] else [start[n]];
      WithoutOfConcat(Unpushed(start[..n], before), kept, last.id);
      assert [start[n]][..0] == [];
    }
  }

  lemma {:induction false} NothingUnpushed<D>(start: seq<Row<D>>)
    ensures Unpushed(start, []) == start
  {
    if start != [] {
      NothingUnpushed(start[..|start| - 1]);
      assert start == start[..|start| - 1] + [start[|start| - 1]];
    }
  }

  lemma PushInFrontOfBoth<D>(front: seq<Row<D>>, rest: seq<Row<D>>, item: Row<D>)
    ensures [item] + Without(front + rest, item.id) == [item] + Without(front, item.id) + Without(rest, item.id)
  {
    WithoutOfConcat(front, rest, item.id);
  }

  /** The pushes, most recent first, and behind them what the list began with and nobody has pushed again. */
  lemma {:induction false} PushesComeFirst<D>(start: seq<Row<D>>, items: seq<Row<D>>)
    ensures Recent(start, items) == Recent([], items) + Unpushed(start, items)
  {
    if items == [] {
      NothingUnpushed(start);
    } else {
      var before, last := items[..|items| - 1], items[|items| - 1];
      PushesComeFirst(start, before);
      PushInFrontOfBoth(Recent([], before), Unpushed(start, before), last);
      WithoutUnpushed(start, before, last);
      assert items == before + [last];
    }
  }

  /** The list after the history and the pushes since: cut at twenty as soon as something was pushed. */
  function Law<D>(history: seq<Row<D>>, since: seq<Row<D>>): seq<Row<D>> {
    if since == [] then history else Cut(Recent(history, since), MAX_NOTIFICATIONS)
  }

  /**
   * Once the history is in, the list is the first twenty of the pushes since then, latest first,
   * in front of the history; what was pushed before the history arrived makes no difference.
   */
  lemma ShownIsHistoryAndLaterPushes<D>(before: seq<Event<D>>, history: seq<Row<D>>, items: seq<Row<D>>)
    requires DistinctIds(history)
    ensures var shown := Shown(before + [History(history)] + Lives(items));
      && shown == Law(history, items)
      && (items == [] ==> shown == history)
      && (items != [] ==> FirstOf(shown, Recent(history, items), 20))
    ensures forall id :: HasId(Recent(history, items), id) <==> HasId(history, id) || HasId(items, id)
  {
    ShownAfterHistory(before, history, items);
    if items != [] {
      CuttingOnceIsEnough(history, items, MAX_NOTIFICATIONS);
    }
    forall id ensures HasId(Recent(history, items), id) <==> HasId(history, id) || HasId(items, id) {
      RecentHasBoth(history, items, id);
    }
  }

  /** Exactly when a notification is shown then, one pushed before the history included. */
  lemma ShownExactlyIfInHistoryOrPushedSince<D>(
      before: seq<Event<D>>, history: seq<Row<D>>, items: seq<Row<D>>, id: string)
    requires DistinctIds(history)
    ensures HasId(Shown(before + [History(history)] + Lives(items)), id)
       <==> if items == [] then HasId(history, id)
            else HasIdWithin(Recent(history, items), MAX_NOTIFICATIONS, id)
  {
    ShownIsHistoryAndLaterPushes(before, history, items);
    if items != [] {
      HasIdInCut(Recent(history, items), MAX_NOTIFICATIONS, id);
    }
  }

  predicate HasIdWithin<D>(list: seq<Row<D>>, cap: nat, id: string) {
    exists p :: 0 <= p < |list| && p < cap && list[p].id == id
  }

  lemma HasIdInCut<D>(list: seq<Row<D>>, cap: nat, id: string)
    ensures HasId(Cut(list, cap), id) <==> HasIdWithin(list, cap, id)
  {
    if p :| 0 <= p < |list| && p < cap && list[p].id == id {
      assert Cut(list, cap)[p].id == id;
    }
    if p :| 0 <= p < |Cut(list, cap)| && Cut(list, cap)[p].id == id {
      assert list[p].id == id;
    }
  }

  /** A notification pushed before a history that was read without it is gone. */
  lemma PushBeforeHistoryIsLost<D>(item: Row<D>)
    ensures Shown([Live(item)]) == [item] && Shown([Live(item), History([])]) == []
  {
    assert [Live(item), History([])][..1] == [Live(item)] && [Live(item)][..0] == [];
  }

  lemma {:induction false} RecentHasBoth<D>(start: seq<Row<D>>, items: seq<Row<D>>, id: string)
    ensures HasId(Recent(start, items), id) <==> HasId(start, id) || HasId(items, id)
  {
    if items != [] {
      var before, last := items[..|items| - 1], items[|items| - 1];
      RecentHasBoth(start, before, id);
      assert items == before + [last];
      HasIdOfConcat(before, [last], id);
      HasIdOfConcat([last], Without(Recent(start, before), last.id), id);
      assert [last][0] == last;
      if id != last.id {
        WithoutKeepsOthers(Recent(start, before), last.id, id);
      }
    }
  }

  class Notifications<D> {
    var list: seq<Row<D>>
    var cancelled: bool
    /** The last history received, and every push since. */
    ghost var history: seq<Row<D>>
    ghost var since: seq<Row<D>>

    /** The first twenty of the pushes since the last history, in front of it, if the history repeats nothing. */
    ghost predicate Valid()
      reads this
    {
      list == PushedAll(history, since, MAX_NOTIFICATIONS) && (DistinctIds(history) ==> list == Law(history, since))
    }

    constructor ()
      ensures Valid() && history == [] && since == [] && !cancelled
    {
      list, cancelled, history, since := [], false, [], [];
    }

    method Backfill(items: seq<Row<D>>)
      requires Valid()
      modifies this
      ensures Valid() && cancelled == old(cancelled)
      ensures if cancelled then history == old(history) && since == old(since) && list == old(list)
              else history == items && since == []
    {
      if !cancelled {
        list, history, since := items, items, [];
      }
    }

    method Push(item: Row<D>)
      requires Valid()
      modifies this
      ensures Valid() && cancelled == old(cancelled) && history == old(history) && since == old(since) + [item]
      ensures DistinctIds(history) ==> FirstOf(list, Recent(history, since), 20)
    {
      list := Cut([item] + Without(list, item.id), MAX_NOTIFICATIONS);
      since := since + [item];
      assert since[..|since| - 1] == old(since);
      if DistinctIds(history) {
        CuttingOnceIsEnough(history, since, MAX_NOTIFICATIONS);
        FirstOfCut(Recent(history, since), MAX_NOTIFICATIONS);
      }
    }

    method Unmount()
      modifies this
      ensures cancelled && list == old(list) && history == old(history) && since == old(since)
    {
      cancelled := true;
    }
  }

  // ---- the tab's session storage ----

  const MAX_ENTRIES: nat := 5

  class RecentlyViewed {
    /** The stored list; unreadable or missing text reads as the empty list. */
    var stored: Option<seq<Row<string>>>
    /** Every view recorded since the list last started anew, first to last. */
    ghost var views: seq<Row<string>>

    constructor ()
      ensures stored == None && views == [] && Valid()
    {
      stored, views := None, [];
    }

    function Viewed(): seq<Row<string>>
      reads this
    {
      if stored.Some? then stored.value else []
    }

    /** The stored list is the first five of the whole history, most recent first. */
    ghost predicate Valid()
      reads this
    {
      Viewed() == Cut(Recent([], views), MAX_ENTRIES)
    }

    /** A write that fails leaves the list as it was; a read that fails alone makes it start anew. */
    method RecordJobView(job: Row<string>, readFails: bool, writeFails: bool)
      requires Valid()
      modifies this
      ensures Valid()
      ensures views == if writeFails then old(views) else if readFails then [job] else old(views) + [job]
      ensures FirstOf(Viewed(), Recent([], views), 5) && (writeFails ==> Viewed() == old(Viewed()))
      ensures Viewed() == if writeFails then old(Viewed())
                          else Pushed(if readFails then [] else old(Viewed()), job, MAX_ENTRIES)
    {
      var existing: seq<Row<string>> := [];
      var list := if readFails then [] else Viewed();
      for i := 0 to |list|
        invariant existing == Without(list[..i], job.id)
        invariant stored == old(stored) && views == old(views)
      {
        assert list[..i + 1][..i] == list[..i];
        if list[i].id != job.id {
          existing := existing + [list[i]];
        }
      }
      assert list[..|list|] == list;
      var next := [job] + existing;
      if !writeFails {
        ghost var before := if readFails then [] else views;
        RecentIsDistinct([], before);
        CutBeforeOrAfter(Recent([], before), job, MAX_ENTRIES);
        assert (before + [job])[..|before|] == before;
        stored, views := Some(if |next| <= MAX_ENTRIES then next else next[..MAX_ENTRIES]), before + [job];
      }
    }
  }
}
