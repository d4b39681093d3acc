// `Array.prototype.filter` and `map` over sequences, and what every filter of
// the engine keeps: the passing elements, each as often as it occurs, in
// their original order, and nothing else.

module Filters {

  /** `filter`: the elements that pass `keep`, in their order. */
  function Where<T>(s: seq<T>, keep: T -> bool): (r: seq<T>)
    ensures |r| <= |s|
    ensures forall k :: 0 <= k < |r| ==> r[k] in s && keep(r[k])
    ensures forall k :: 0 <= k < |s| && keep(s[k]) ==> s[k] in r
  {
    if s == [] then []
    else
      var init := Where(s[..|s| - 1], keep);
      var x := s[|s| - 1];
      assert s == s[..|s| - 1] + [x];
      if keep(x) then init + [x] else init
  }

  /** `map`: `f` applied to every element. */
  function Project<T, U>(s: seq<T>, f: T -> U): (r: seq<U>)
    ensures |r| == |s| && forall k :: 0 <= k < |s| ==> r[k] == f(s[k])
  {
    seq(|s|, k requires 0 <= k < |s| => f(s[k]))
  }

  /** The test `keep` applied after `f`. */
  function Through<T, U>(f: T -> U, keep: U -> bool): T -> bool
  {
    x => keep(f(x))
  }

  /** The positions of `s` whose element passes `keep`. */
  function Passing<T>(s: seq<T>, keep: T -> bool): set<int>
  {
    set i | 0 <= i < |s| && keep(s[i])
  }

  /** `r` is `s` read at the strictly increasing positions `idx`. */
  ghost predicate Picks<T>(r: seq<T>, s: seq<T>, idx: seq<int>)
  {
    && |idx| == |r|
    && (forall k :: 0 <= k < |idx| ==> 0 <= idx[k] < |s| && r[k] == s[idx[k]])
    && (forall k, l :: 0 <= k < l < |idx| ==> idx[k] < idx[l])
  }

  /** A filter applied only when `on` is set. */
  function WhereIf<T>(on: bool, s: seq<T>, keep: T -> bool): seq<T>
  {
    if on then Where(s, keep) else s
  }

  // ---------------------------------------------------------------- what a filter keeps

  lemma WhereLast<T>(s: seq<T>, keep: T -> bool)
    requires s != []
    ensures var init, x := s[..|s| - 1], s[|s| - 1];
      Where(s, keep) == if keep(x) then Where(init, keep) + [x] else Where(init, keep)
  {
  }

  lemma WhereMembers<T>(s: seq<T>, keep: T -> bool, y: T)
    ensures y in Where(s, keep) <==> y in s && keep(y)
  {
    var r := Where(s, keep);
    if y in r {
      var k :| 0 <= k < |r| && r[k] == y;
    }
    if y in s && keep(y) {
      var k :| 0 <= k < |s| && s[k] == y;
    }
  }

  /**
   * A filter keeps an order-preserving subsequence: its elements sit at
   * increasing positions of the input, and every position that passes is
   * one of them.
   */
  lemma {:induction false} WherePicks<T>(s: seq<T>, keep: T -> bool) returns (idx: seq<int>)
    ensures Picks(Where(s, keep), s, idx)
    ensures forall i :: 0 <= i < |s| && keep(s[i]) ==> i in idx
  {
    if s == [] {
      idx := [];
    } else {
      var n := |s| - 1;
      var init := s[..n];
      var prev := WherePicks(init, keep);
      assert s == init + [s[n]];
      WhereLast(s, keep);
      PicksSnoc(Where(init, keep), init, s[n], prev);
      if keep(s[n]) {
        idx := prev + [n];
      } else {
        idx := prev;
      }
      forall i | 0 <= i < |s| && keep(s[i]) ensures i in idx {
        if i < n {
          assert init[i] == s[i];
        }
      }
    }
  }

  /** A filter keeps each passing element exactly as often as it occurs, and no other. */
  lemma WhereMultiset<T>(s: seq<T>, keep: T -> bool)
    ensures forall x :: multiset(Where(s, keep))[x] == if keep(x) then multiset(s)[x] else 0
  {
    forall x ensures multiset(Where(s, keep))[x] == if keep(x) then multiset(s)[x] else 0 {
      WhereOccurrences(s, keep, x);
    }
  }

  lemma {:induction false} WhereOccurrences<T>(s: seq<T>, keep: T -> bool, x: T)
    ensures multiset(Where(s, keep))[x] == if keep(x) then multiset(s)[x] else 0
  {
    if s != [] {
      var n := |s| - 1;
      var init := s[..n];
      WhereOccurrences(init, keep, x);
      WhereLast(s, keep);
      assert s == init + [s[n]];
    }
  }

  /** A filter keeps one element per passing position. */
  lemma {:induction false} WhereCount<T>(s: seq<T>, keep: T -> bool)
    ensures |Where(s, keep)| == |Passing(s, keep)|
  {
    if s != [] {
      var n := |s| - 1;
      WhereCount(s[..n], keep);
      WhereLast(s, keep);
      PassingLast(s, keep);
    }
  }

  /** The passing positions of `s` are those of all but its last element, and the last one if it passes. */
  lemma PassingLast<T>(s: seq<T>, keep: T -> bool)
    requires s != []
    ensures var n := |s| - 1;
      && n !in Passing(s[..n], keep)
      && Passing(s, keep) == Passing(s[..n], keep) + if keep(s[n]) then {n} else {}
  {
    var n := |s| - 1;
    var init := s[..n];
    forall i | 0 <= i < n ensures keep(init[i]) == keep(s[i]) {
      assert init[i] == s[i];
    }
  }

  /** A weaker test keeps at least as many elements. */
  lemma {:induction false} WhereWeaker<T>(s: seq<T>, strong: T -> bool, weak: T -> bool)
    requires forall x :: strong(x) ==> weak(x)
    ensures |Where(s, strong)| <= |Where(s, weak)|
  {
    if s != [] {
      WhereWeaker(s[..|s| - 1], strong, weak);
      WhereLast(s, strong);
      WhereLast(s, weak);
    }
  }

  /** Two optional filters in a row keep each element that passes both as often as it occurs. */
  lemma WhereIfTwiceMultiset<T>(s: seq<T>, on1: bool, keep1: T -> bool, on2: bool, keep2: T -> bool)
    ensures forall x ::
      multiset(WhereIf(on2, WhereIf(on1, s, keep1), keep2))[x] ==
        if (on1 ==> keep1(x)) && (on2 ==> keep2(x)) then multiset(s)[x] else 0
  {
    var mid := WhereIf(on1, s, keep1);
    if on1 {
      WhereMultiset(s, keep1);
    }
    if on2 {
      WhereMultiset(mid, keep2);
    }
  }

  /** An optional filter keeps an order-preserving subsequence holding every passing position. */
  lemma WhereIfPicks<T>(on: bool, s: seq<T>, keep: T -> bool) returns (idx: seq<int>)
    ensures Picks(WhereIf(on, s, keep), s, idx)
    ensures forall i :: 0 <= i < |s| && (on ==> keep(s[i])) ==> i in idx
  {
    if on {
      idx := WherePicks(s, keep);
    } else {
      idx := seq(|s|, k requires 0 <= k < |s| => k);
      forall i | 0 <= i < |s| ensures i in idx {
        assert idx[i] == i;
      }
    }
  }

  /**
   * Two optional filters in a row keep an order-preserving subsequence that
   * holds every position passing both.
   */
  lemma WhereIfTwicePicks<T>(s: seq<T>, on1: bool, keep1: T -> bool, on2: bool, keep2: T -> bool)
    returns (idx: seq<int>)
    ensures Picks(WhereIf(on2, WhereIf(on1, s, keep1), keep2), s, idx)
    ensures forall i :: 0 <= i < |s| && (on1 ==> keep1(s[i])) && (on2 ==> keep2(s[i])) ==> i in idx
  {
    var mid := WhereIf(on1, s, keep1);
    var a := WhereIfPicks(on1, s, keep1);
    var b := WhereIfPicks(on2, mid, keep2);
    idx := ComposeKept(s, mid, WhereIf(on2, mid, keep2), a, b, i => on1 ==> keep1(i), i => on2 ==> keep2(i));
  }

  /**
   * Composing two subsequences, each holding every element its test passes:
   * the composition holds every element passing both.
   */
  lemma ComposeKept<T>(s: seq<T>, mid: seq<T>, r: seq<T>, a: seq<int>, b: seq<int>, first: T -> bool, second: T -> bool)
    returns (idx: seq<int>)
    requires Picks(mid, s, a) && forall i :: 0 <= i < |s| && first(s[i]) ==> i in a
    requires Picks(r, mid, b) && forall j :: 0 <= j < |mid| && second(mid[j]) ==> j in b
    ensures Picks(r, s, idx)
    ensures forall i :: 0 <= i < |s| && first(s[i]) && second(s[i]) ==> i in idx
  {
    idx := ComposePicks(r, mid, s, b, a);
    forall i | 0 <= i < |s| && first(s[i]) && second(s[i]) ensures i in idx {
      var j :| 0 <= j < |a| && a[j] == i;
      assert mid[j] == s[i];
      var k :| 0 <= k < |b| && b[k] == j;
      assert idx[k] == i;
    }
  }

  // ---------------------------------------------------------------- order-preserving subsequences

  /** A subsequence survives an element added to the end of its source, and extends by it. */
  lemma PicksSnoc<T>(r: seq<T>, init: seq<T>, x: T, idx: seq<int>)
    requires Picks(r, init, idx)
    ensures Picks(r, init + [x], idx)
    ensures Picks(r + [x], init + [x], idx + [|init|])
  {
  }

  /** Order-preserving subsequences compose. */
  lemma ComposePicks<T>(a: seq<T>, b: seq<T>, c: seq<T>, ab: seq<int>, bc: seq<int>) returns (ac: seq<int>)
    requires Picks(a, b, ab) && Picks(b, c, bc)
    ensures Picks(a, c, ac)
    ensures forall k :: 0 <= k < |ab| ==> ac[k] == bc[ab[k]]
  {
    ac := seq(|ab|, k requires 0 <= k < |ab| => bc[ab[k]]);
  }

  /**
   * Two selections in a row: positions `a` of a sequence of length `n`, then
   * positions `b` of that selection. A position the first keeps and whose
   * element the second keeps survives both.
   */
  lemma ComposeSelections(n: nat, a: seq<int>, b: seq<int>, first: int -> bool, second: int -> bool)
    returns (ab: seq<int>)
    requires forall k :: 0 <= k < |a| ==> 0 <= a[k] < n
    requires forall k, l :: 0 <= k < l < |a| ==> a[k] < a[l]
    requires forall k :: 0 <= k < |b| ==> 0 <= b[k] < |a|
    requires forall k, l :: 0 <= k < l < |b| ==> b[k] < b[l]
    requires forall i :: 0 <= i < n && first(i) ==> i in a
    requires forall j :: 0 <= j < |a| && second(a[j]) ==> j in b
    ensures |ab| == |b| && forall k :: 0 <= k < |b| ==> ab[k] == a[b[k]]
    ensures forall k, l :: 0 <= k < l < |ab| ==> ab[k] < ab[l]
    ensures forall i :: 0 <= i < n && first(i) && second(i) ==> i in ab
  {
    ab := seq(|b|, k requires 0 <= k < |b| => a[b[k]]);
    forall i | 0 <= i < n && first(i) && second(i) ensures i in ab {
      var j :| 0 <= j < |a| && a[j] == i;
      var k :| 0 <= k < |b| && b[k] == j;
      assert ab[k] == i;
    }
  }

  // ---------------------------------------------------------------- map

  lemma ProjectLast<T, U>(s: seq<T>, x: T, f: T -> U)
    ensures Project(s + [x], f) == Project(s, f) + [f(x)]
  {
  }

  lemma ProjectConcat<T, U>(a: seq<T>, b: seq<T>, f: T -> U)
    ensures Project(a + b, f) == Project(a, f) + Project(b, f)
  {
  }

  lemma ProjectTail<T, U>(s: seq<T>, f: T -> U)
    requires s != []
    ensures Project(s, f)[1..] == Project(s[1..], f)
  {
  }
}
