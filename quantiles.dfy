// Order statistics of a numeric column as mathjs computes them: `min`, `max`,
// `median`, and `quantileSeq(values, p)`, which sorts the values and
// interpolates linearly at position p*(n-1). The analytics code only asks for
// p = 0.25 and p = 0.75, so positions are counted here in quarters.

module Quantiles {
  import opened Sorting

  function Id(x: real): real { x }

  ghost predicate Ascending(t: seq<real>)
  {
    forall i, j :: 0 <= i < j < |t| ==> t[i] <= t[j]
  }

  /** The values in ascending order. */
  function Sorted(s: seq<real>): (t: seq<real>)
    ensures |t| == |s| && multiset(t) == multiset(s)
    ensures Ascending(t)
  {
    SortBySorted(s, Id);
    SortBy(s, Id)
  }

  function Min(s: seq<real>): (m: real)
    requires |s| > 0
    ensures m in s
    ensures forall i :: 0 <= i < |s| ==> m <= s[i]
  {
    if |s| == 1 then s[0]
    else
      var m' := Min(s[..|s| - 1]);
      assert forall i :: 0 <= i < |s| - 1 ==> s[..|s| - 1][i] == s[i];
      if s[|s| - 1] < m' then s[|s| - 1] else m'
  }

  function Max(s: seq<real>): (m: real)
    requires |s| > 0
    ensures m in s
    ensures forall i :: 0 <= i < |s| ==> s[i] <= m
  {
    if |s| == 1 then s[0]
    else
      var m' := Max(s[..|s| - 1]);
      assert forall i :: 0 <= i < |s| - 1 ==> s[..|s| - 1][i] == s[i];
      if s[|s| - 1] > m' then s[|s| - 1] else m'
  }

  /**
   * The value at position a/4 of an ascending sequence, interpolating
   * linearly between the two neighbouring elements.
   */
  function Interpolate(t: seq<real>, a: nat): real
    requires a <= 4 * (|t| - 1)
  {
    var k := a / 4;
    var f := (a % 4) as real / 4.0;
    if a % 4 == 0 then t[k] else t[k] * (1.0 - f) + t[k + 1] * f
  }

  /** The position q*(n-1), counted in quarters, of the q/4 quantile among n values. */
  function Position(n: nat, q: nat): nat
    requires n > 0 && q <= 4
  {
    if q == 0 then 0 else Position(n, q - 1) + (n - 1)
  }

  lemma PositionBound(n: nat, q: nat)
    requires n > 0 && q <= 4
    ensures Position(n, q) <= Position(n, 4) == 4 * (n - 1)
  {
    PositionMonotone(n, q, 4);
    assert Position(n, 2) == 2 * (n - 1);
    assert Position(n, 4) == Position(n, 2) + 2 * (n - 1);
  }

  /** `quantileSeq(s, q / 4)`. */
  function Quantile(s: seq<real>, q: nat): real
    requires |s| > 0 && q <= 4
  {
    PositionBound(|s|, q);
    Interpolate(Sorted(s), Position(|s|, q))
  }

  /** `median(s)`: the middle element, or the mean of the two middle elements. */
  function Median(s: seq<real>): real
    requires |s| > 0
  {
    var t := Sorted(s);
    var mid := |s| / 2;
    if |s| % 2 == 0 then (t[mid - 1] + t[mid]) / 2.0 else t[mid]
  }

  /** An interpolated value lies between the element at the floor of its position and the next one. */
  lemma InterpolateBetween(t: seq<real>, a: nat)
    requires Ascending(t)
    requires a <= 4 * (|t| - 1)
    ensures t[a / 4] <= Interpolate(t, a)
    ensures a % 4 != 0 ==> a / 4 + 1 < |t| && Interpolate(t, a) <= t[a / 4 + 1]
  {
    var k := a / 4;
    if a % 4 != 0 {
      InterpolateOffset(t, a);
      var d := t[k + 1] - t[k];
      assert d >= 0.0;
      if a % 4 == 1 {
        assert Interpolate(t, a) == t[k] + 0.25 * d;
      } else if a % 4 == 2 {
        assert Interpolate(t, a) == t[k] + 0.5 * d;
      } else {
        assert a % 4 == 3;
        assert Interpolate(t, a) == t[k] + 0.75 * d;
      }
    }
  }

  /** Between two elements the interpolation walks the gap proportionally. */
  lemma InterpolateOffset(t: seq<real>, a: nat)
    requires a <= 4 * (|t| - 1) && a % 4 != 0
    ensures a / 4 + 1 < |t|
    ensures Interpolate(t, a) == t[a / 4] + ((a % 4) as real / 4.0) * (t[a / 4 + 1] - t[a / 4])
  {
  }

  /** Interpolation is monotone in the position. */
  lemma InterpolateMonotone(t: seq<real>, a: nat, b: nat)
    requires Ascending(t)
    requires a <= b <= 4 * (|t| - 1)
    ensures Interpolate(t, a) <= Interpolate(t, b)
  {
    InterpolateBetween(t, a);
    InterpolateBetween(t, b);
    var ka, kb := a / 4, b / 4;
    if ka == kb {
      if a % 4 != 0 {
        assert b % 4 != 0 && a % 4 <= b % 4;
        InterpolateOffset(t, a);
        InterpolateOffset(t, b);
        var d := t[ka + 1] - t[ka];
        assert d >= 0.0;
        assert Interpolate(t, b) - Interpolate(t, a) == ((b % 4 - a % 4) as real / 4.0) * d;
        if b % 4 - a % 4 == 1 {
        } else if b % 4 - a % 4 == 2 {
        } else if b % 4 - a % 4 == 3 {
        }
      }
    } else {
      assert ka < kb;
      if a % 4 != 0 {
        assert t[ka + 1] <= t[kb];
      } else {
        assert t[ka] <= t[kb];
      }
    }
  }

  /** mathjs's median coincides with the 0.5 quantile. */
  lemma MedianIsMiddleQuantile(s: seq<real>)
    requires |s| > 0
    ensures Median(s) == Quantile(s, 2)
  {
    var n := |s|;
    var a := Position(n, 2);
    assert Position(n, 1) == n - 1;
    assert a == 2 * (n - 1);
    if n % 2 == 0 {
      assert a / 4 == n / 2 - 1 && a % 4 == 2;
    } else {
      assert a / 4 == n / 2 && a % 4 == 0;
    }
  }

  /** Quantiles are ordered as their probabilities are. */
  lemma QuantileMonotone(s: seq<real>, p: nat, q: nat)
    requires |s| > 0 && p <= q <= 4
    ensures Quantile(s, p) <= Quantile(s, q)
  {
    PositionMonotone(|s|, p, q);
    PositionBound(|s|, q);
    InterpolateMonotone(Sorted(s), Position(|s|, p), Position(|s|, q));
  }

  lemma {:induction false} PositionMonotone(n: nat, p: nat, q: nat)
    requires n > 0 && p <= q <= 4
    ensures Position(n, p) <= Position(n, q)
  {
    if p < q {
      PositionMonotone(n, p, q - 1);
    }
  }

  /** Every quantile lies between the minimum and the maximum. */
  lemma QuantileWithinRange(s: seq<real>, q: nat)
    requires |s| > 0 && q <= 4
    ensures Min(s) <= Quantile(s, q) <= Max(s)
  {
    var t := Sorted(s);
    var n := |s|;
    var a := Position(n, q);
    PositionBound(n, q);
    InterpolateMonotone(t, 0, a);
    InterpolateMonotone(t, a, 4 * (n - 1));
    SortedEnds(s);
  }

  /** The first and last sorted elements are the minimum and the maximum. */
  lemma SortedEnds(s: seq<real>)
    requires |s| > 0
    ensures Interpolate(Sorted(s), 0) == Min(s)
    ensures Interpolate(Sorted(s), 4 * (|s| - 1)) == Max(s)
  {
    var t := Sorted(s);
    LastPosition(t);
    SortedFirstIsMin(s, t);
    SortedLastIsMax(s, t);
  }

  lemma SortedFirstIsMin(s: seq<real>, t: seq<real>)
    requires |s| > 0 && |t| == |s| && multiset(t) == multiset(s) && Ascending(t)
    ensures t[0] == Min(s)
  {
    var i := SameElementAt(t, s, t[0]);
    var k := SameElementAt(s, t, Min(s));
    assert t[0] <= t[k];
  }

  lemma SortedLastIsMax(s: seq<real>, t: seq<real>)
    requires |s| > 0 && |t| == |s| && multiset(t) == multiset(s) && Ascending(t)
    ensures t[|t| - 1] == Max(s)
  {
    var j := SameElementAt(t, s, t[|t| - 1]);
    var l := SameElementAt(s, t, Max(s));
    assert t[l] <= t[|t| - 1];
  }

  lemma LastPosition(t: seq<real>)
    requires |t| > 0
    ensures Interpolate(t, 4 * (|t| - 1)) == t[|t| - 1]
  {
    var m := |t| - 1;
    assert (4 * m) / 4 == m && (4 * m) % 4 == 0;
  }

  /** An element of one sequence sits at some index of any permutation of it. */
  lemma SameElementAt(a: seq<real>, b: seq<real>, x: real) returns (i: nat)
    requires multiset(a) == multiset(b) && x in a
    ensures i < |b| && b[i] == x
  {
    assert x in multiset(a);
    assert x in multiset(b);
    i :| 0 <= i < |b| && b[i] == x;
  }

  /** The summary ordering: min <= Q1 <= median <= Q3 <= max. */
  lemma FiveNumberOrder(s: seq<real>)
    requires |s| > 0
    ensures Min(s) <= Quantile(s, 1) <= Median(s) <= Quantile(s, 3) <= Max(s)
  {
    MedianIsMiddleQuantile(s);
    QuantileMonotone(s, 1, 2);
    QuantileMonotone(s, 2, 3);
    QuantileWithinRange(s, 1);
    QuantileWithinRange(s, 3);
  }
}
