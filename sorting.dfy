// Every sort in the analytics code is `Array.prototype.sort` with a comparator
// of the form `(a, b) => key(a) - key(b)`: the quartile computation, the
// time ordering of a series, the top-value frequencies, the AutoML ranking and
// the merged forecast output. The engine's sort is stable, so for such a
// comparator its result is the one a stable insertion sort produces; that is
// the model below.

module Sorting {

  ghost predicate SortedBy<T>(s: seq<T>, key: T -> real)
  {
    forall i, j :: 0 <= i < j < |s| ==> key(s[i]) <= key(s[j])
  }

  /** Sorted by `key`, and elements with equal keys ordered by `pos`. */
  ghost predicate SortedThenBy<T>(s: seq<T>, key: T -> real, pos: T -> int)
  {
    forall i, j :: 0 <= i < j < |s| ==>
      key(s[i]) < key(s[j]) || (key(s[i]) == key(s[j]) && pos(s[i]) < pos(s[j]))
  }

  /** Inserts `x` after every element whose key is not greater than its own. */
  function InsertBy<T>(x: T, s: seq<T>, key: T -> real): (r: seq<T>)
    ensures |r| == |s| + 1
    ensures multiset(r) == multiset(s) + multiset{x}
  {
    if s == [] then [x]
    else if key(x) < key(s[0]) then [x] + s
    else
      assert s == [s[0]] + s[1..];
      [s[0]] + InsertBy(x, s[1..], key)
  }

  /** Stable insertion sort, taking the elements from left to right. */
  function SortBy<T>(s: seq<T>, key: T -> real): (r: seq<T>)
    ensures |r| == |s|
    ensures multiset(r) == multiset(s)
  {
    if s == [] then []
    else
      assert s == s[..|s| - 1] + [s[|s| - 1]];
      InsertBy(s[|s| - 1], SortBy(s[..|s| - 1], key), key)
  }

  lemma {:induction false} InsertBySorted<T>(x: T, s: seq<T>, key: T -> real)
    requires SortedBy(s, key)
    ensures SortedBy(InsertBy(x, s, key), key)
  {
    if s != [] && key(s[0]) <= key(x) {
      InsertBySorted(x, s[1..], key);
      var r := InsertBy(x, s[1..], key);
      BoundKept(key(s[0]), x, s[1..], r, key);
      SortedCons(s[0], r, key);
      assert [s[0]] + r == InsertBy(x, s, key);
    }
  }

  /** A lower bound of `x` and of every element of `s` bounds every element of a permutation of both. */
  lemma BoundKept<T>(b: real, x: T, s: seq<T>, r: seq<T>, key: T -> real)
    requires multiset(r) == multiset(s) + multiset{x}
    requires b <= key(x) && forall k :: 0 <= k < |s| ==> b <= key(s[k])
    ensures forall k :: 0 <= k < |r| ==> b <= key(r[k])
  {
    forall k | 0 <= k < |r| ensures b <= key(r[k]) {
      assert r[k] in multiset(r);
      if r[k] in multiset(s) {
        var m :| 0 <= m < |s| && s[m] == r[k];
      }
    }
  }

  lemma SortedCons<T>(y: T, r: seq<T>, key: T -> real)
    requires SortedBy(r, key) && forall k :: 0 <= k < |r| ==> key(y) <= key(r[k])
    ensures SortedBy([y] + r, key)
  {
    var t := [y] + r;
    forall i, j | 0 <= i < j < |t| ensures key(t[i]) <= key(t[j]) {
      if i > 0 {
        assert t[i] == r[i - 1] && t[j] == r[j - 1];
      } else {
        assert t[j] == r[j - 1];
      }
    }
  }

  lemma {:induction false} SortBySorted<T>(s: seq<T>, key: T -> real)
    ensures SortedBy(SortBy(s, key), key)
  {
    if s != [] {
      SortBySorted(s[..|s| - 1], key);
      InsertBySorted(s[|s| - 1], SortBy(s[..|s| - 1], key), key);
    }
  }

  lemma {:induction false} InsertByStable<T>(x: T, s: seq<T>, key: T -> real, pos: T -> int)
    requires SortedThenBy(s, key, pos)
    requires forall k :: 0 <= k < |s| ==> pos(s[k]) < pos(x)
    ensures SortedThenBy(InsertBy(x, s, key), key, pos)
  {
    if s != [] && key(s[0]) <= key(x) {
      InsertByStable(x, s[1..], key, pos);
      var r := InsertBy(x, s[1..], key);
      PrecedenceKept(s[0], x, s[1..], r, key, pos);
      SortedThenCons(s[0], r, key, pos);
      assert [s[0]] + r == InsertBy(x, s, key);
    }
  }

  /** An element ahead of `x` and of every element of `s` is ahead of every element of a permutation of both. */
  lemma PrecedenceKept<T>(y: T, x: T, s: seq<T>, r: seq<T>, key: T -> real, pos: T -> int)
    requires multiset(r) == multiset(s) + multiset{x}
    requires key(y) < key(x) || (key(y) == key(x) && pos(y) < pos(x))
    requires forall k :: 0 <= k < |s| ==> key(y) < key(s[k]) || (key(y) == key(s[k]) && pos(y) < pos(s[k]))
    ensures forall k :: 0 <= k < |r| ==> key(y) < key(r[k]) || (key(y) == key(r[k]) && pos(y) < pos(r[k]))
  {
    forall k | 0 <= k < |r| ensures key(y) < key(r[k]) || (key(y) == key(r[k]) && pos(y) < pos(r[k])) {
      assert r[k] in multiset(r);
      if r[k] in multiset(s) {
        var m :| 0 <= m < |s| && s[m] == r[k];
      }
    }
  }

  lemma SortedThenCons<T>(y: T, r: seq<T>, key: T -> real, pos: T -> int)
    requires SortedThenBy(r, key, pos)
    requires forall k :: 0 <= k < |r| ==> key(y) < key(r[k]) || (key(y) == key(r[k]) && pos(y) < pos(r[k]))
    ensures SortedThenBy([y] + r, key, pos)
  {
    var t := [y] + r;
    forall i, j | 0 <= i < j < |t| ensures key(t[i]) < key(t[j]) || (key(t[i]) == key(t[j]) && pos(t[i]) < pos(t[j])) {
      if i > 0 {
        assert t[i] == r[i - 1] && t[j] == r[j - 1];
      } else {
        assert t[j] == r[j - 1];
      }
    }
  }

  /**
   * Stability: when the input is in increasing `pos` order, equal keys come
   * out in that order.
   */
  lemma {:induction false} SortByStable<T>(s: seq<T>, key: T -> real, pos: T -> int)
    requires forall i, j :: 0 <= i < j < |s| ==> pos(s[i]) < pos(s[j])
    ensures SortedThenBy(SortBy(s, key), key, pos)
  {
    if s != [] {
      var init := s[..|s| - 1];
      var x := s[|s| - 1];
      SortByStable(init, key, pos);
      var r := SortBy(init, key);
      forall k | 0 <= k < |r| ensures pos(r[k]) < pos(x) {
        assert r[k] in multiset(r);
        var m :| 0 <= m < |init| && init[m] == r[k];
      }
      InsertByStable(x, r, key, pos);
    }
  }

  lemma SortedThenByIsSorted<T>(s: seq<T>, key: T -> real, pos: T -> int)
    requires SortedThenBy(s, key, pos)
    ensures SortedBy(s, key)
  {
  }

  /** The first element of the sorted sequence has the smallest key. */
  lemma SortByFirstIsLeast<T>(s: seq<T>, key: T -> real)
    requires |s| > 0
    ensures forall k :: 0 <= k < |s| ==> key(SortBy(s, key)[0]) <= key(s[k])
  {
    var r := SortBy(s, key);
    SortBySorted(s, key);
    forall k | 0 <= k < |s| ensures key(r[0]) <= key(s[k]) {
      assert s[k] in multiset(r);
      var j :| 0 <= j < |r| && r[j] == s[k];
    }
  }

  /** An element that starts first with the smallest key stays first. */
  lemma {:induction false} LeastFirstStaysFirst<T>(s: seq<T>, key: T -> real)
    requires |s| > 0
    requires forall k :: 0 <= k < |s| ==> key(s[0]) <= key(s[k])
    ensures SortBy(s, key)[0] == s[0]
  {
    if |s| > 1 {
      var init := s[..|s| - 1];
      LeastFirstStaysFirst(init, key);
    }
  }

  /** Sorting changes the order of the elements, never the elements. */
  lemma SortByMembers<T>(s: seq<T>, key: T -> real, y: T)
    ensures y in SortBy(s, key) <==> y in s
  {
    var r := SortBy(s, key);
    assert y in r <==> y in multiset(r);
    assert y in s <==> y in multiset(s);
  }
}
