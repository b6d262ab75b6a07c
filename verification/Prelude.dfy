/** Small vocabulary shared by every component of the platform model. */
module Prelude {

  datatype Option<+T> = None | Some(value: T)

  /** A table row or list item, by its id. */
  datatype Row<+D> = Row(id: string, data: D)

  /** How a store command ends: as asked, not at all, or with its effect but without its reply. */
  datatype Fault = NoFault | Refuse | LoseReply

  predicate DistinctIds<D>(rows: seq<Row<D>>) {
    forall i, j :: 0 <= i < j < |rows| ==> rows[i].id != rows[j].id
  }

  /** No element occurs at two positions. */
  predicate Distinct<T(==)>(s: seq<T>) {
    forall i, j :: 0 <= i < j < |s| ==> s[i] != s[j]
  }

  function Elements<T>(s: seq<T>): set<T> {
    set x | x in s
  }

  /** A list never has fewer positions than elements, and as many exactly when nothing repeats. */
  lemma {:induction false} DistinctExactlyWhenFull<T>(s: seq<T>)
    ensures |Elements(s)| <= |s|
    ensures |Elements(s)| == |s| <==> Distinct(s)
  {
    if s == [] {
      assert Elements(s) == {};
    } else {
      var n := |s| - 1;
      DistinctExactlyWhenFull(s[..n]);
      assert s == s[..n] + [s[n]];
      assert Elements(s) == Elements(s[..n]) + {s[n]};
      if s[n] in s[..n] {
        var i :| 0 <= i < n && s[i] == s[n];
        assert Elements(s) == Elements(s[..n]);
      }
    }
  }

  /** A subset is no larger, and is as large only when it is the whole. */
  lemma SubsetCardinality<T>(a: set<T>, b: set<T>)
    requires a <= b
    ensures |a| <= |b|
    ensures |a| == |b| <==> a == b
  {
    assert b == a + (b - a);
    assert |b| == |a| + |b - a|;
  }
}
