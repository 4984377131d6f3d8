/**
 * The descriptive statistics the book analyzer takes from pandas, on exact reals:
 * missing values skipped, the mean, and `Series.quantile` with its default linear
 * interpolation between the order statistics.
 */
module Statistics {
  import opened Wrappers

  /** The present values of a column, in order (`NaN` is skipped). */
  function Present(xs: seq<Option<real>>): (r: seq<real>)
    ensures |r| <= |xs|
    decreases |xs|
  {
    if xs == [] then []
    else
      var n := |xs| - 1;
      Present(xs[..n]) + (if xs[n].Some? then [xs[n].value] else [])
  }

  /** Exactly the values that are not missing are present. */
  lemma {:induction false} PresentValues(xs: seq<Option<real>>)
    ensures forall x :: x in Present(xs) <==> Some(x) in xs
    decreases |xs|
  {
    if xs != [] {
      var n := |xs| - 1;
      PresentValues(xs[..n]);
      assert xs == xs[..n] + [xs[n]];
    }
  }

  function Sum(xs: seq<real>): real
    decreases |xs|
  {
    if xs == [] then 0.0 else Sum(xs[..|xs| - 1]) + xs[|xs| - 1]
  }

  /** `Series.mean()`: `None` (NaN) when no value is present. */
  function Mean(xs: seq<Option<real>>): (r: Option<real>)
    ensures r.None? <==> Present(xs) == []
  {
    var p := Present(xs);
    if p == [] then None else Some(Sum(p) / |p| as real)
  }

  /** The mean lies between the smallest and the largest value. */
  lemma {:induction false} SumBounds(xs: seq<real>, lo: real, hi: real)
    requires forall x :: x in xs ==> lo <= x <= hi
    ensures |xs| as real * lo <= Sum(xs) <= |xs| as real * hi
    decreases |xs|
  {
    if xs != [] {
      var n := |xs| - 1;
      assert forall x :: x in xs[..n] ==> x in xs;
      SumBounds(xs[..n], lo, hi);
      assert xs[n] in xs;
    }
  }

  // ---------------------------------------------------------------------------
  // Sorting
  // ---------------------------------------------------------------------------

  predicate Sorted(s: seq<real>) {
    forall i, j :: 0 <= i < j < |s| ==> s[i] <= s[j]
  }

  /** `x` inserted into sorted `s` before the first larger-or-equal element. */
  function Insert(x: real, s: seq<real>): (r: seq<real>)
    ensures |r| == |s| + 1
    decreases |s|
  {
    if s == [] then [x]
    else if x <= s[0] then [x] + s
    else [s[0]] + Insert(x, s[1..])
  }

  /** The values in ascending order (insertion sort). */
  function Sort(xs: seq<real>): (r: seq<real>)
    ensures |r| == |xs|
    decreases |xs|
  {
    if xs == [] then [] else Insert(xs[|xs| - 1], Sort(xs[..|xs| - 1]))
  }

  /** A sorted sequence stays sorted under a smaller-or-equal head. */
  lemma ConsSorted(b: real, s: seq<real>)
    requires Sorted(s) && forall i :: 0 <= i < |s| ==> b <= s[i]
    ensures Sorted([b] + s)
  {
  }

  lemma {:induction false} InsertSorted(x: real, s: seq<real>)
    requires Sorted(s)
    ensures Sorted(Insert(x, s))
    decreases |s|
  {
    if s != [] {
      if x <= s[0] {
        ConsSorted(x, s);
      } else {
        InsertSorted(x, s[1..]);
        InsertAbove(x, s[1..], s[0]);
        ConsSorted(s[0], Insert(x, s[1..]));
      }
    }
  }

  lemma {:induction false} InsertMultiset(x: real, s: seq<real>)
    ensures multiset(Insert(x, s)) == multiset(s) + multiset{x}
    decreases |s|
  {
    if s != [] && x > s[0] {
      InsertMultiset(x, s[1..]);
      assert s == [s[0]] + s[1..];
    }
  }


  /** A lower bound of `x` and of `s` bounds `Insert(x, s)` too. */
  lemma {:induction false} InsertAbove(x: real, s: seq<real>, b: real)
    requires b <= x && forall i :: 0 <= i < |s| ==> b <= s[i]
    ensures forall i :: 0 <= i < |Insert(x, s)| ==> b <= Insert(x, s)[i]
    decreases |s|
  {
    if s != [] && x > s[0] {
      InsertAbove(x, s[1..], b);
    }
  }

  /** Sorting yields an ascending permutation. */
  lemma {:induction false} SortSpec(xs: seq<real>)
    ensures Sorted(Sort(xs)) && multiset(Sort(xs)) == multiset(xs)
    decreases |xs|
  {
    if xs != [] {
      var n := |xs| - 1;
      SortSpec(xs[..n]);
      InsertSorted(xs[n], Sort(xs[..n]));
      InsertMultiset(xs[n], Sort(xs[..n]));
      assert xs == xs[..n] + [xs[n]];
    }
  }

  // ---------------------------------------------------------------------------
  // Quantile
  // ---------------------------------------------------------------------------

  /** `0 <= q * d <= d` for a fraction `q`. */
  lemma ScaleByFraction(d: real, q: real)
    requires 0.0 <= d && 0.0 <= q <= 1.0
    ensures 0.0 <= q * d <= d
  {
    assert d - q * d == (1.0 - q) * d;
  }

  /** Scaling by a fraction is monotone in the fraction. */
  lemma ScaleMonotone(d: real, q1: real, q2: real)
    requires 0.0 <= d && q1 <= q2
    ensures q1 * d <= q2 * d && d * q1 <= d * q2
  {
    assert q2 * d - q1 * d == (q2 - q1) * d;
    assert d * q1 == q1 * d && d * q2 == q2 * d;
  }

  /** The point a fraction `f` of the way from `a` to `b`. */
  function Lerp(a: real, b: real, f: real): real {
    a + f * (b - a)
  }

  lemma LerpBounds(a: real, b: real, f: real)
    requires a <= b && 0.0 <= f <= 1.0
    ensures a <= Lerp(a, b, f) <= b
  {
    var d := b - a;
    ScaleByFraction(d, f);
    var p := f * d;
    assert Lerp(a, b, f) == a + p;
  }

  lemma LerpMonotone(a: real, b: real, f1: real, f2: real)
    requires a <= b && f1 <= f2
    ensures Lerp(a, b, f1) <= Lerp(a, b, f2)
  {
    var d := b - a;
    ScaleMonotone(d, f1, f2);
    var p1, p2 := f1 * d, f2 * d;
    assert Lerp(a, b, f1) == a + p1 && Lerp(a, b, f2) == a + p2;
  }

  /** The value at fractional position `lo + f` (0 <= f < 1) of the sorted values. */
  function Between(v: seq<real>, lo: nat, f: real): real
    requires lo < |v|
  {
    if lo + 1 < |v| then Lerp(v[lo], v[lo + 1], f) else v[lo]
  }

  /** The integer and fractional parts of the position `n * q`. */
  function Position(n: nat, q: real): (r: (nat, real))
    requires 0.0 <= q <= 1.0
    ensures r.0 <= n && 0.0 <= r.1 < 1.0 && r.0 as real + r.1 == n as real * q
  {
    ScaleByFraction(n as real, q);
    var h := n as real * q;
    (h.Floor, h - h.Floor as real)
  }

  /**
   * `Series.quantile(q)` with linear interpolation: position `(n - 1) * q` in the
   * sorted present values; `None` (NaN) when no value is present.
   */
  function Quantile(xs: seq<Option<real>>, q: real): (r: Option<real>)
    requires 0.0 <= q <= 1.0
    ensures r.None? <==> Present(xs) == []
  {
    var v := Sort(Present(xs));
    if v == [] then None
    else
      var pos := Position(|v| - 1, q);
      Some(Between(v, pos.0, pos.1))
  }

  /** Interpolation between sorted values stays between the two neighbours. */
  lemma {:induction false} BetweenBounds(v: seq<real>, lo: nat, f: real)
    requires lo < |v| && Sorted(v) && 0.0 <= f <= 1.0
    ensures v[lo] <= Between(v, lo, f)
    ensures lo + 1 < |v| ==> Between(v, lo, f) <= v[lo + 1]
  {
    if lo + 1 < |v| {
      LerpBounds(v[lo], v[lo + 1], f);
    }
  }

  /** Interpolation is monotone in the position. */
  lemma {:induction false} BetweenMonotone(v: seq<real>, lo1: nat, f1: real, lo2: nat, f2: real)
    requires lo1 <= lo2 < |v| && Sorted(v)
    requires 0.0 <= f1 < 1.0 && 0.0 <= f2 < 1.0
    requires lo1 == lo2 ==> f1 <= f2
    ensures Between(v, lo1, f1) <= Between(v, lo2, f2)
  {
    if lo1 == lo2 {
      if lo1 + 1 < |v| {
        LerpMonotone(v[lo1], v[lo1 + 1], f1, f2);
      }
    } else {
      BetweenBounds(v, lo1, f1);
      BetweenBounds(v, lo2, f2);
      assert v[lo1 + 1] <= v[lo2];
    }
  }

  /** Sorting keeps every value. */
  lemma InSort(xs: seq<real>, x: real)
    requires x in xs
    ensures x in Sort(xs)
  {
    SortSpec(xs);
    assert x in multiset(xs);
    assert x in multiset(Sort(xs));
  }

  /** Every value lies between the first and the last of a sorted sequence. */
  lemma SortedEnds(v: seq<real>, x: real)
    requires Sorted(v) && x in v
    ensures v[0] <= x <= v[|v| - 1]
  {
    var i :| 0 <= i < |v| && v[i] == x;
  }

  /** The 0-quantile sits at the first value and the 1-quantile at the last. */
  lemma PositionEnds(n: nat)
    ensures Position(n, 0.0) == (0, 0.0) && Position(n, 1.0) == (n, 0.0)
  {
    assert n as real * 0.0 == 0.0 && n as real * 1.0 == n as real;
  }

  lemma FloorMonotone(lo1: nat, f1: real, lo2: nat, f2: real)
    requires 0.0 <= f1 < 1.0 && 0.0 <= f2 < 1.0
    requires lo1 as real + f1 <= lo2 as real + f2
    ensures lo1 <= lo2 && (lo1 == lo2 ==> f1 <= f2)
  {
    assert lo1 as real < lo2 as real + 1.0;
  }

  lemma ScaledOrder(x1: real, x2: real, d: real, q1: real, q2: real)
    requires 0.0 <= d && q1 <= q2 && x1 == d * q1 && x2 == d * q2
    ensures x1 <= x2
  {
    ScaleMonotone(d, q1, q2);
  }

  /** A higher fraction gives a position no earlier. */
  lemma PositionMonotone(n: nat, q1: real, q2: real)
    requires 0.0 <= q1 <= q2 <= 1.0
    ensures Position(n, q1).0 <= Position(n, q2).0
    ensures Position(n, q1).0 == Position(n, q2).0 ==> Position(n, q1).1 <= Position(n, q2).1
  {
    var p1, p2 := Position(n, q1), Position(n, q2);
    ScaledOrder(p1.0 as real + p1.1, p2.0 as real + p2.1, n as real, q1, q2);
    FloorMonotone(p1.0, p1.1, p2.0, p2.1);
  }

  /** The minimum and maximum present values are the 0- and 1-quantiles. */
  /** The 0- and 1-quantiles are the first and the last sorted value. */
  lemma QuantileEndsSorted(xs: seq<Option<real>>)
    requires Present(xs) != []
    ensures var v := Sort(Present(xs));
      Quantile(xs, 0.0) == Some(v[0]) && Quantile(xs, 1.0) == Some(v[|v| - 1])
  {
    var v := Sort(Present(xs));
    var n := |v| - 1;
    PositionEnds(n);
    BetweenAtStart(v, 0);
    BetweenAtStart(v, n);
  }

  /** With no fraction, interpolation returns the value itself. */
  lemma BetweenAtStart(v: seq<real>, lo: nat)
    requires lo < |v|
    ensures Between(v, lo, 0.0) == v[lo]
  {
    if lo + 1 < |v| {
      var d := v[lo + 1] - v[lo];
      assert 0.0 * d == 0.0;
    }
  }

  /** Sorting invents no value. */
  lemma FromSort(xs: seq<real>, i: nat)
    requires i < |xs|
    ensures Sort(xs)[i] in xs
  {
    var v := Sort(xs);
    SortSpec(xs);
    assert v[i] in multiset(v);
  }

  lemma {:induction false} QuantileExtremes(xs: seq<Option<real>>)
    requires Present(xs) != []
    ensures forall x :: x in Present(xs) ==> Quantile(xs, 0.0).value <= x
    ensures forall x :: x in Present(xs) ==> x <= Quantile(xs, 1.0).value
    ensures Quantile(xs, 0.0).value in Present(xs) && Quantile(xs, 1.0).value in Present(xs)
  {
    var p := Present(xs);
    var v := Sort(p);
    var n := |v| - 1;
    QuantileEndsSorted(xs);
    SortSpec(p);
    forall x | x in p ensures v[0] <= x <= v[n] {
      InSort(p, x);
      SortedEnds(v, x);
    }
    FromSort(p, 0);
    FromSort(p, n);
  }


  /** A quantile lies between the smallest and the largest present value. */
  lemma {:induction false} QuantileBounds(xs: seq<Option<real>>, q: real)
    requires 0.0 <= q <= 1.0 && Present(xs) != []
    ensures Quantile(xs, 0.0).value <= Quantile(xs, q).value <= Quantile(xs, 1.0).value
  {
    QuantileMonotone(xs, 0.0, q);
    QuantileMonotone(xs, q, 1.0);
  }

  /** A higher quantile is never smaller: in particular Q1 <= Q3. */
  lemma {:induction false} QuantileMonotone(xs: seq<Option<real>>, q1: real, q2: real)
    requires 0.0 <= q1 <= q2 <= 1.0 && Present(xs) != []
    ensures Quantile(xs, q1).value <= Quantile(xs, q2).value
  {
    var v := Sort(Present(xs));
    var n := |v| - 1;
    var p1, p2 := Position(n, q1), Position(n, q2);
    PositionMonotone(n, q1, q2);
    SortSpec(Present(xs));
    BetweenMonotone(v, p1.0, p1.1, p2.0, p2.1);
  }

  lemma DivideBounds(total: real, n: real, lo: real, hi: real)
    requires n > 0.0 && n * lo <= total <= n * hi
    ensures lo <= total / n <= hi
  {
    var m := total / n;
    assert total == n * m;
    assert n * (m - lo) >= 0.0 && n * (hi - m) >= 0.0;
  }

  /** The mean respects any bounds of the present values. */
  lemma {:induction false} MeanBounds(xs: seq<Option<real>>, lo: real, hi: real)
    requires Present(xs) != [] && forall x :: x in Present(xs) ==> lo <= x <= hi
    ensures lo <= Mean(xs).value <= hi
  {
    var p := Present(xs);
    var n := |p| as real;
    assert n * lo <= Sum(p) <= n * hi by {
      SumBounds(p, lo, hi);
    }
    DivideBounds(Sum(p), n, lo, hi);
  }

  /** The mean lies between the smallest and the largest present value. */
  lemma {:induction false} MeanBetween(xs: seq<Option<real>>)
    requires Present(xs) != []
    ensures Quantile(xs, 0.0).value <= Mean(xs).value <= Quantile(xs, 1.0).value
  {
    QuantileExtremes(xs);
    MeanBounds(xs, Quantile(xs, 0.0).value, Quantile(xs, 1.0).value);
  }

  /** Concrete check of the interpolation: the median of 1, 2, 3, 10 is 2.5. */
  lemma MedianExample()
    ensures Quantile([Some(10.0), Some(1.0), None, Some(3.0), Some(2.0)], 0.5) == Some(2.5)
  {
    PresentExample();
    var v := SortExample();
    assert Position(3, 0.5) == (1, 0.5);
    assert Between(v, 1, 0.5) == Lerp(2.0, 3.0, 0.5) == 2.5;
  }

  lemma PresentExample()
    ensures Present([Some(10.0), Some(1.0), None, Some(3.0), Some(2.0)]) == [10.0, 1.0, 3.0, 2.0]
  {
    var xs := [Some(10.0), Some(1.0), None, Some(3.0), Some(2.0)];
    var x1, x2, x3 := [Some(10.0)], [Some(10.0), Some(1.0)], [Some(10.0), Some(1.0), None];
    var x4 := [Some(10.0), Some(1.0), None, Some(3.0)];
    assert x1[..0] == [] && x2[..1] == x1 && x3[..2] == x2 && x4[..3] == x3 && xs[..4] == x4;
    assert Present(x1) == [10.0];
    assert Present(x2) == [10.0, 1.0];
    assert Present(x3) == [10.0, 1.0];
    assert Present(x4) == [10.0, 1.0, 3.0];
  }

  lemma SortExample() returns (v: seq<real>)
    ensures v == Sort([10.0, 1.0, 3.0, 2.0]) == [1.0, 2.0, 3.0, 10.0]
  {
    var xs := [10.0, 1.0, 3.0, 2.0];
    assert xs[..3] == [10.0, 1.0, 3.0] && xs[..3][..2] == [10.0, 1.0] && xs[..3][..2][..1] == [10.0];
    assert Sort([10.0]) == [10.0];
    assert Insert(1.0, [10.0]) == [1.0, 10.0];
    assert Insert(3.0, [10.0]) == [3.0, 10.0];
    assert Insert(3.0, [1.0, 10.0]) == [1.0, 3.0, 10.0];
    assert Insert(2.0, [3.0, 10.0]) == [2.0, 3.0, 10.0];
    assert Insert(2.0, [1.0, 3.0, 10.0]) == [1.0, 2.0, 3.0, 10.0];
    v := [1.0, 2.0, 3.0, 10.0];
  }

}
