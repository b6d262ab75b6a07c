/** ORDER BY over ids: the order of texts, and lists in it. */
module Order {
  import opened Prelude

  predicate Less(a: string, b: string) {
    b != "" && (a == "" || a[0] < b[0] || (a[0] == b[0] && Less(a[1..], b[1..])))
  }

  lemma {:induction false} LessIsStrict(a: string, b: string)
    ensures !(Less(a, b) && Less(b, a))
  {
    if a != "" && b != "" {
      LessIsStrict(a[1..], b[1..]);
    }
  }

  /** The texts first differ at k, where a's character is the smaller. */
  predicate SmallerAt(a: string, b: string, k: nat) {
    k < |a| && k < |b| && a[..k] == b[..k] && a[k] < b[k]
  }

  lemma AgreeBefore(a: string, b: string, k: nat)
    requires SmallerAt(a, b, k) && k > 0
    ensures a[0] == b[0]
  {
    assert a[..k][0] == b[..k][0];
  }

  /** The order is by first difference, a proper beginning before what it begins. */
  lemma {:induction false} LessIsLexicographic(a: string, b: string)
    ensures Less(a, b) <==> a < b || exists k: nat :: SmallerAt(a, b, k)
  {
    if a == "" || b == "" {
    } else if a[0] == b[0] {
      LessIsLexicographic(a[1..], b[1..]);
      assert a == [a[0]] + a[1..] && b == [a[0]] + b[1..];
      assert a < b <==> a[1..] < b[1..];
      if k: nat :| SmallerAt(a, b, k) {
        assert a[..k] == [a[0]] + a[1..][..k - 1] && b[..k] == [a[0]] + b[1..][..k - 1];
        assert SmallerAt(a[1..], b[1..], k - 1);
      }
      if k: nat :| SmallerAt(a[1..], b[1..], k) {
        assert a[..k + 1] == [a[0]] + a[1..][..k] && b[..k + 1] == [a[0]] + b[1..][..k];
        assert SmallerAt(a, b, k + 1);
      }
    } else {
      assert a[0] < b[0] ==> SmallerAt(a, b, 0);
      forall k: nat | SmallerAt(a, b, k) ensures k == 0 {
        if k > 0 {
          AgreeBefore(a, b, k);
        }
      }
    }
  }

  predicate Ascending(s: seq<string>) {
    forall i, j :: 0 <= i < j < |s| ==> Less(s[i], s[j])
  }

  /** An ascending list is determined by its elements. */
  lemma {:induction false} AscendingIsUnique(a: seq<string>, b: seq<string>)
    requires Ascending(a) && Ascending(b) && Elements(a) == Elements(b)
    ensures a == b
  {
    if b != [] {
      assert b[0] in Elements(b);
    }
    if a != [] {
      assert a[0] in Elements(b) && b != [];
      FirstIsLeast(a, b);
      assert a == [a[0]] + a[1..] && b == [a[0]] + b[1..];
      TailElements(a);
      TailElements(b);
      AscendingIsUnique(a[1..], b[1..]);
    }
  }

  lemma FirstIsLeast(a: seq<string>, b: seq<string>)
    requires Ascending(a) && Ascending(b) && Elements(a) == Elements(b) && a != [] && b != []
    ensures a[0] == b[0]
  {
    assert a[0] in Elements(b) && b[0] in Elements(a);
    var i, j :| 0 <= i < |b| && b[i] == a[0] && 0 <= j < |a| && a[j] == b[0];
    LessIsStrict(a[0], b[0]);
    if i > 0 && j > 0 {
      assert false;
    }
  }

  lemma TailElements(s: seq<string>)
    requires s != [] && Ascending(s)
    ensures Elements(s[1..]) == Elements(s) - {s[0]}
  {
    LessIsStrict(s[0], s[0]);
    assert s == [s[0]] + s[1..];
  }

  lemma {:induction false} LessIsTotal(a: string, b: string)
    ensures a == b || Less(a, b) || Less(b, a)
  {
    if a != "" && b != "" && a[0] == b[0] {
      LessIsTotal(a[1..], b[1..]);
      assert a == [a[0]] + a[1..] && b == [b[0]] + b[1..];
    }
  }

  lemma {:induction false} LessIsTransitive(a: string, b: string, c: string)
    requires Less(a, b) && Less(b, c)
    ensures Less(a, c)
  {
    if a != "" && a[0] == b[0] == c[0] {
      LessIsTransitive(a[1..], b[1..], c[1..]);
    }
  }

  /** A finite set of ids has a least one. */
  lemma {:induction false} LeastExists(ids: set<string>) returns (least: string)
    requires ids != {}
    ensures least in ids && forall id :: id in ids ==> id == least || Less(least, id)
    decreases |ids|
  {
    var some :| some in ids;
    least := some;
    if ids != {some} {
      least := LeastExists(ids - {some});
      LessIsTotal(some, least);
      if Less(some, least) {
        forall id | id in ids ensures id == some || Less(some, id) {
          if id != some && id != least {
            LessIsTransitive(some, least, id);
          }
        }
        least := some;
      }
    }
  }

  /** The ids of a set in ascending order, as a query returns them. */
  method Ordered(ids: set<string>) returns (list: seq<string>)
    ensures Ascending(list) && Elements(list) == ids
  {
    list := [];
    var todo := ids;
    while todo != {}
      invariant Ascending(list) && Elements(list) !! todo && Elements(list) + todo == ids
      invariant forall a, b :: a in list && b in todo ==> Less(a, b)
      decreases todo
    {
      ghost var _ := LeastExists(todo);
      var least :| least in todo && forall id :: id in todo ==> id == least || Less(least, id);
      assert Elements(list + [least]) == Elements(list) + {least};
      list, todo := list + [least], todo - {least};
    }
  }
}
