/**
 * strings.TrimSpace and the dedupeNonEmpty helper that jobs-service,
 * skills-service and users-service each keep a copy of.
 */
module Text {
  import opened Prelude

  /** unicode.IsSpace. */
  predicate IsSpace(c: char) {
    var n := c as int;
    || 0x09 <= n <= 0x0D || n == 0x20 || n == 0x85 || n == 0xA0 || n == 0x1680
    || 0x2000 <= n <= 0x200A || n == 0x2028 || n == 0x2029 || n == 0x202F || n == 0x205F || n == 0x3000
  }

  function TrimLeft(s: string): string {
    if s != "" && IsSpace(s[0]) then TrimLeft(s[1..]) else s
  }

  function TrimRight(s: string): string {
    if s != "" && IsSpace(s[|s| - 1]) then TrimRight(s[..|s| - 1]) else s
  }

  function TrimSpace(s: string): string {
    TrimRight(TrimLeft(s))
  }

  /** Neither end is white space. */
  predicate Trimmed(s: string) {
    s != "" ==> !IsSpace(s[0]) && !IsSpace(s[|s| - 1])
  }

  lemma {:induction false} TrimLeftCuts(s: string) returns (n: nat)
    ensures n <= |s| && TrimLeft(s) == s[n..]
    ensures forall i :: 0 <= i < n ==> IsSpace(s[i])
    ensures n < |s| ==> !IsSpace(s[n])
  {
    if s != "" && IsSpace(s[0]) {
      var m := TrimLeftCuts(s[1..]);
      n := m + 1;
      assert s[1..][m..] == s[n..];
      forall i | 0 <= i < n ensures IsSpace(s[i]) {
        if i > 0 {
          assert s[i] == s[1..][i - 1];
        }
      }
    } else {
      n := 0;
    }
  }

  lemma {:induction false} TrimRightCuts(s: string) returns (n: nat)
    ensures n <= |s| && TrimRight(s) == s[..n]
    ensures forall i :: n <= i < |s| ==> IsSpace(s[i])
    ensures n > 0 ==> !IsSpace(s[n - 1])
  {
    if s != "" && IsSpace(s[|s| - 1]) {
      n := TrimRightCuts(s[..|s| - 1]);
      assert s[..|s| - 1][..n] == s[..n];
    } else {
      n := |s|;
    }
  }

  /** The cut is one slice of the text: white space before it, white space after it, none at its ends. */
  lemma TrimSpaceCuts(s: string) returns (lo: nat, hi: nat)
    ensures lo <= hi <= |s| && TrimSpace(s) == s[lo..hi] && Trimmed(s[lo..hi])
    ensures forall i :: 0 <= i < lo || hi <= i < |s| ==> IsSpace(s[i])
  {
    lo := TrimLeftCuts(s);
    var n := TrimRightCuts(s[lo..]);
    hi := lo + n;
    assert s[lo..][..n] == s[lo..hi];
    forall i | hi <= i < |s| ensures IsSpace(s[i]) {
      assert s[i] == s[lo..][i - lo];
    }
  }

  /** Trimming changes exactly the texts that are not trimmed already. */
  lemma TrimSpaceFixes(s: string)
    ensures Trimmed(TrimSpace(s))
    ensures TrimSpace(s) == s <==> Trimmed(s)
  {
    var _, _ := TrimSpaceCuts(s);
  }

  /** What dedupeNonEmpty keeps: each non-blank trimmed id at its first occurrence. */
  function Deduped(ids: seq<string>): seq<string> {
    if ids == [] then []
    else
      var kept := Deduped(ids[..|ids| - 1]);
      var id := TrimSpace(ids[|ids| - 1]);
      if id == "" || id in kept then kept else kept + [id]
  }

  method DedupeNonEmpty(ids: seq<string>) returns (out: seq<string>)
    ensures out == Deduped(ids)
  {
    var seen: set<string> := {};
    out := [];
    for i := 0 to |ids|
      invariant out == Deduped(ids[..i])
      invariant seen == Elements(out)
    {
      assert ids[..i + 1][..i] == ids[..i];
      var id := TrimSpace(ids[i]);
      if id == "" || id in seen {
        continue;
      }
      seen := seen + {id};
      out := out + [id];
    }
    assert ids[..|ids|] == ids;
  }

  /** The distinct trimmed texts of a request. */
  function TrimmedTexts(ids: seq<string>): set<string> {
    set i | 0 <= i < |ids| :: TrimSpace(ids[i])
  }

  lemma TrimmedTextsGrow(ids: seq<string>)
    requires ids != []
    ensures TrimmedTexts(ids) == TrimmedTexts(ids[..|ids| - 1]) + {TrimSpace(ids[|ids| - 1])}
  {
    var n := |ids| - 1;
    assert forall i :: 0 <= i < n ==> ids[..n][i] == ids[i];
    forall id | id in TrimmedTexts(ids)
      ensures id in TrimmedTexts(ids[..n]) + {TrimSpace(ids[n])}
    {
      var i :| 0 <= i < |ids| && id == TrimSpace(ids[i]);
      if i < n {
        assert id == TrimSpace(ids[..n][i]);
      }
    }
    forall id | id in TrimmedTexts(ids[..n]) ensures id in TrimmedTexts(ids) {
      var i :| 0 <= i < n && id == TrimSpace(ids[..n][i]);
      assert id == TrimSpace(ids[i]);
    }
  }

  /** No blanks, no repeats, and exactly the non-blank ids of the request. */
  lemma {:induction false} DedupedKeepsEachOnce(ids: seq<string>)
    ensures Distinct(Deduped(ids))
    ensures Elements(Deduped(ids)) == TrimmedTexts(ids) - {""}
  {
    if ids != [] {
      var kept, id := Deduped(ids[..|ids| - 1]), TrimSpace(ids[|ids| - 1]);
      DedupedKeepsEachOnce(ids[..|ids| - 1]);
      TrimmedTextsGrow(ids);
      assert Elements(kept + [id]) == Elements(kept) + {id};
      assert id in kept <==> id in Elements(kept);
    }
  }

  /** The first position at which the request names the id, once trimmed. */
  predicate FirstAt(ids: seq<string>, id: string, k: nat) {
    k < |ids| && TrimSpace(ids[k]) == id && forall m :: 0 <= m < k ==> TrimSpace(ids[m]) != id
  }

  /** The list has the request's non-blank trimmed ids, each once, in the order in which it first names them. */
  ghost predicate KeptOf(list: seq<string>, ids: seq<string>) {
    && Distinct(list) && Elements(list) == TrimmedTexts(ids) - {""}
    && (forall i, j, a, b :: 0 <= i < j < |list| && FirstAt(ids, list[i], a) && FirstAt(ids, list[j], b) ==> a < b)
  }

  lemma KeptAreNamed(ids: seq<string>, id: string)
    requires id in Deduped(ids)
    ensures exists k: nat :: k < |ids| && TrimSpace(ids[k]) == id
  {
    DedupedKeepsEachOnce(ids);
    assert id in Elements(Deduped(ids));
    var k :| 0 <= k < |ids| && id == TrimSpace(ids[k]);
  }

  /** An id kept so far is first named within what has been read so far. */
  lemma FirstAtSoFar(ids: seq<string>, n: nat, id: string, a: nat)
    requires n <= |ids| && id in Deduped(ids[..n]) && FirstAt(ids, id, a)
    ensures a < n && FirstAt(ids[..n], id, a)
  {
    KeptAreNamed(ids[..n], id);
    var k: nat :| k < n && TrimSpace(ids[..n][k]) == id;
    assert ids[k] == ids[..n][k];
  }

  lemma NewIsNamedLast(ids: seq<string>, n: nat, id: string, a: nat)
    requires n <= |ids| && id != "" && id !in Deduped(ids[..n]) && FirstAt(ids, id, a)
    ensures n <= a
  {
    DedupedKeepsEachOnce(ids[..n]);
    assert id !in Elements(Deduped(ids[..n]));
    forall m | 0 <= m < n ensures TrimSpace(ids[m]) != id {
      assert ids[..n][m] == ids[m];
      assert TrimSpace(ids[..n][m]) in TrimmedTexts(ids[..n]);
    }
  }

  lemma {:induction false} DedupedInFirstOrder(ids: seq<string>, i: nat, j: nat, a: nat, b: nat)
    requires i < j < |Deduped(ids)| && FirstAt(ids, Deduped(ids)[i], a) && FirstAt(ids, Deduped(ids)[j], b)
    ensures a < b
  {
    var n := |ids| - 1;
    var before, list := Deduped(ids[..n]), Deduped(ids);
    assert list[i] == before[i];
    FirstAtSoFar(ids, n, list[i], a);
    if j < |before| {
      FirstAtSoFar(ids, n, list[j], b);
      DedupedInFirstOrder(ids[..n], i, j, a, b);
    } else {
      NewIsNamedLast(ids, n, list[j], b);
    }
  }

  /** What dedupeNonEmpty returns, said of the request alone. */
  lemma DedupedIsKept(ids: seq<string>)
    ensures KeptOf(Deduped(ids), ids)
  {
    DedupedKeepsEachOnce(ids);
    var list := Deduped(ids);
    forall i, j, a, b | 0 <= i < j < |list| && FirstAt(ids, list[i], a) && FirstAt(ids, list[j], b) ensures a < b {
      DedupedInFirstOrder(ids, i, j, a, b);
    }
  }

  lemma DedupedAreTrimmed(ids: seq<string>)
    ensures forall id :: id in Deduped(ids) ==> id != "" && Trimmed(id)
  {
    DedupedKeepsEachOnce(ids);
    forall id | id in Deduped(ids) ensures id != "" && Trimmed(id) {
      assert id in Elements(Deduped(ids));
      var i :| 0 <= i < |ids| && id == TrimSpace(ids[i]);
      TrimSpaceFixes(ids[i]);
    }
  }

  predicate Clean(ids: seq<string>) {
    Distinct(ids) && forall id :: id in ids ==> id != "" && Trimmed(id)
  }

  lemma {:induction false} CleanListsStay(ids: seq<string>)
    requires Clean(ids)
    ensures Deduped(ids) == ids
  {
    if ids != [] {
      var n := |ids| - 1;
      assert ids == ids[..n] + [ids[n]];
      CleanListsStay(ids[..n]);
      TrimSpaceFixes(ids[n]);
    }
  }

  /** The lists that pass through unchanged, in their own order, are exactly the clean ones. */
  lemma DedupedFixesCleanLists(ids: seq<string>)
    ensures Deduped(ids) == ids <==> Clean(ids)
  {
    DedupedKeepsEachOnce(ids);
    DedupedAreTrimmed(ids);
    if Clean(ids) {
      CleanListsStay(ids);
    }
  }
}
