/** `ORDER BY <column> DESC`, the order in which the server's queries return
    photo, report and ban rows. SQL leaves the order of equal keys open; the
    model fixes one (insertion order) and states only what SQL promises:
    the result is the input rearranged, with keys non-increasing. */
module Ordering {

  predicate SortedDesc<T>(s: seq<T>, key: T -> int) {
    forall i, j :: 0 <= i < j < |s| ==> key(s[i]) >= key(s[j])
  }

  function InsertDesc<T>(x: T, s: seq<T>, key: T -> int): (r: seq<T>)
    ensures multiset(r) == multiset(s) + multiset{x}
    ensures |r| == |s| + 1
  {
    if |s| == 0 then [x]
    else if key(x) >= key(s[0]) then [x] + s
    else
      var r := [s[0]] + InsertDesc(x, s[1..], key);
      assert s == [s[0]] + s[1..];
      r
  }

  function SortDesc<T>(s: seq<T>, key: T -> int): (r: seq<T>)
    ensures multiset(r) == multiset(s)
    ensures |r| == |s|
  {
    if |s| == 0 then []
    else
      var r := InsertDesc(s[0], SortDesc(s[1..], key), key);
      assert s == [s[0]] + s[1..];
      r
  }

  /** Inserting into a descending sequence keeps it descending. */
  lemma {:induction false} InsertDescSorted<T>(x: T, s: seq<T>, key: T -> int)
    requires SortedDesc(s, key)
    ensures SortedDesc(InsertDesc(x, s, key), key)
  {
    if |s| > 0 && key(x) < key(s[0]) {
      InsertDescSorted(x, s[1..], key);
      var tail := InsertDesc(x, s[1..], key);
      assert forall k :: 0 <= k < |tail| ==> tail[k] in multiset(s[1..]) + multiset{x};
      forall k | 0 <= k < |tail| ensures key(s[0]) >= key(tail[k]) {
        var e := tail[k];
        assert e in multiset(s[1..]) + multiset{x};
        if e != x {
          assert e in s[1..];
          var m :| 0 <= m < |s[1..]| && s[1..][m] == e;
          assert s[m + 1] == e;
        }
      }
    }
  }

  /** The order the database returns rows in: newest (largest key) first. */
  lemma {:induction false} SortDescSorted<T>(s: seq<T>, key: T -> int)
    ensures SortedDesc(SortDesc(s, key), key)
  {
    if |s| > 0 {
      SortDescSorted(s[1..], key);
      InsertDescSorted(s[0], SortDesc(s[1..], key), key);
    }
  }

  /** No two rows share a key. */
  predicate KeysDistinct<T>(s: seq<T>, key: T -> nat) {
    forall i, j :: 0 <= i < j < |s| ==> key(s[i]) != key(s[j])
  }

  /** With distinct keys, no row occurs twice. */
  lemma {:induction false} KeysDistinctOnce<T>(s: seq<T>, key: T -> nat, x: T)
    requires KeysDistinct(s, key)
    ensures multiset(s)[x] <= 1
  {
    if |s| > 0 {
      var tail := s[1..];
      assert s == [s[0]] + tail;
      assert KeysDistinct(tail, key) by {
        forall a, b | 0 <= a < b < |tail| ensures key(tail[a]) != key(tail[b]) {
          assert tail[a] == s[a + 1] && tail[b] == s[b + 1];
        }
      }
      KeysDistinctOnce(tail, key, x);
      if s[0] == x {
        forall k | 0 <= k < |tail| ensures tail[k] != x {
          assert tail[k] == s[k + 1];
        }
        assert multiset(tail)[x] == 0;
      }
    }
  }

  /** A row that sits at two positions occurs twice. */
  lemma TwoPositions<T>(s: seq<T>, i: nat, j: nat)
    requires i < j < |s|
    ensures s[i] == s[j] ==> multiset(s)[s[i]] >= 2
  {
    if s[i] == s[j] {
      assert s == s[..j] + [s[j]] + s[j + 1..];
      assert s[i] in s[..j];
    }
  }

  /** Rearranging rows keeps their keys distinct. */
  lemma SameElementsKeepKeysDistinct<T>(a: seq<T>, b: seq<T>, key: T -> nat)
    requires multiset(a) == multiset(b) && KeysDistinct(a, key)
    ensures KeysDistinct(b, key)
  {
    forall i, j | 0 <= i < j < |b| ensures key(b[i]) != key(b[j]) {
      TwoPositions(b, i, j);
      KeysDistinctOnce(a, key, b[i]);
      assert b[i] in multiset(a) && b[j] in multiset(a);
      var p :| 0 <= p < |a| && a[p] == b[i];
      var q :| 0 <= q < |a| && a[q] == b[j];
    }
  }

  /** Each row of the result is a row of the input and vice versa. */
  lemma SortDescSameElements<T>(s: seq<T>, key: T -> int, x: T)
    ensures x in SortDesc(s, key) <==> x in s
  {
    assert x in multiset(SortDesc(s, key)) <==> x in multiset(s);
  }
}
