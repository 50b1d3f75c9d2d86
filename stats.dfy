/** The per-group reductions of the aggregation: the mean, the 95th percentile
    with linear interpolation between the two nearest ranks, and the count of
    values strictly above a threshold. Values are exact reals here. */
module Stats {

  function Sum(xs: seq<real>): real
  {
    if xs == [] then 0.0 else xs[0] + Sum(xs[1..])
  }

  /** The arithmetic mean, the sum divided by the number of values. */
  function Mean(xs: seq<real>): real
    requires xs != []
  {
    Sum(xs) / |xs| as real
  }

  function Min(xs: seq<real>): (m: real)
    requires xs != []
    ensures m in xs
    ensures forall i :: 0 <= i < |xs| ==> m <= xs[i]
  {
    if |xs| == 1 then xs[0]
    else
      var rest := Min(xs[1..]);
      if xs[0] <= rest then xs[0] else rest
  }

  function Max(xs: seq<real>): (m: real)
    requires xs != []
    ensures m in xs
    ensures forall i :: 0 <= i < |xs| ==> xs[i] <= m
  {
    if |xs| == 1 then xs[0]
    else
      var rest := Max(xs[1..]);
      if rest <= xs[0] then xs[0] else rest
  }

  lemma {:induction false} SumBounds(xs: seq<real>, lo: real, hi: real)
    requires forall i :: 0 <= i < |xs| ==> lo <= xs[i] <= hi
    ensures |xs| as real * lo <= Sum(xs) <= |xs| as real * hi
  {
    if xs != [] {
      SumBounds(xs[1..], lo, hi);
      assert |xs| as real * lo == lo + |xs[1..]| as real * lo;
      assert |xs| as real * hi == hi + |xs[1..]| as real * hi;
    }
  }

  lemma QuotientBounds(s: real, n: real, lo: real, hi: real)
    requires n > 0.0 && n * lo <= s <= n * hi
    ensures lo <= s / n <= hi
  {
    var q := s / n;
    assert (q - lo) * n == s - n * lo;
    assert (hi - q) * n == n * hi - s;
  }

  /** The mean lies within any bounds on all the values. */
  lemma MeanBounds(xs: seq<real>, lo: real, hi: real)
    requires xs != []
    requires forall i :: 0 <= i < |xs| ==> lo <= xs[i] <= hi
    ensures lo <= Mean(xs) <= hi
  {
    SumBounds(xs, lo, hi);
    QuotientBounds(Sum(xs), |xs| as real, lo, hi);
  }

  /** The mean lies between the smallest and the largest value. */
  lemma MeanWithinRange(xs: seq<real>)
    requires xs != []
    ensures Min(xs) <= Mean(xs) <= Max(xs)
  {
    MeanBounds(xs, Min(xs), Max(xs));
  }

  /** The mean of a single value is that value. */
  lemma MeanSingle(x: real)
    ensures Mean([x]) == x
  {
    assert Sum([x]) == x + Sum([]);
  }

  ghost predicate Sorted(xs: seq<real>)
  {
    forall i, j :: 0 <= i <= j < |xs| ==> xs[i] <= xs[j]
  }

  /** Places `x` before the first value it does not exceed. */
  function Insert(x: real, xs: seq<real>): seq<real>
  {
    if xs == [] || x <= xs[0] then [x] + xs
    else [xs[0]] + Insert(x, xs[1..])
  }

  /** A value no greater than any value of `m` stays below every value of a
      sequence holding the values of `m`. */
  lemma LowerBoundOf(h: real, s: seq<real>, m: multiset<real>)
    requires multiset(s) == m
    requires forall y :: y in m ==> h <= y
    ensures forall i :: 0 <= i < |s| ==> h <= s[i]
  {
    forall i | 0 <= i < |s|
      ensures h <= s[i]
    {
      assert s[i] in multiset(s);
    }
  }

  lemma ConsSorted(h: real, s: seq<real>)
    requires Sorted(s)
    requires forall i :: 0 <= i < |s| ==> h <= s[i]
    ensures Sorted([h] + s)
  {
  }

  /** Inserting adds `x` once and keeps every other value. */
  lemma {:induction false} InsertMultiset(x: real, xs: seq<real>)
    ensures multiset(Insert(x, xs)) == multiset(xs) + multiset{x}
  {
    if xs != [] && x > xs[0] {
      InsertMultiset(x, xs[1..]);
      assert xs == [xs[0]] + xs[1..];
    }
  }

  /** Inserting into a sorted sequence keeps it sorted and adds `x` once. */
  lemma {:induction false} InsertSorted(x: real, xs: seq<real>)
    requires Sorted(xs)
    ensures Sorted(Insert(x, xs))
    ensures multiset(Insert(x, xs)) == multiset(xs) + multiset{x}
  {
    InsertMultiset(x, xs);
    if xs == [] || x <= xs[0] {
      ConsSorted(x, xs);
    } else {
      var tail := xs[1..];
      var rest := Insert(x, tail);
      InsertSorted(x, tail);
      assert Sorted(tail);
      forall y | y in multiset(tail) + multiset{x}
        ensures xs[0] <= y
      {
        if y != x {
          assert y in tail;
        }
      }
      LowerBoundOf(xs[0], rest, multiset(tail) + multiset{x});
      ConsSorted(xs[0], rest);
    }
  }

  /** The values in ascending order, by insertion. */
  function Sort(xs: seq<real>): seq<real>
  {
    if xs == [] then [] else Insert(xs[0], Sort(xs[1..]))
  }

  /** Sorting keeps every value exactly as often as the input has it. */
  lemma {:induction false} SortMultiset(xs: seq<real>)
    ensures multiset(Sort(xs)) == multiset(xs)
  {
    if xs != [] {
      SortMultiset(xs[1..]);
      InsertMultiset(xs[0], Sort(xs[1..]));
      assert xs == [xs[0]] + xs[1..];
    }
  }

  /** Sorting gives a sorted sequence holding every value as often as the input. */
  lemma {:induction false} SortSorted(xs: seq<real>)
    ensures Sorted(Sort(xs))
    ensures multiset(Sort(xs)) == multiset(xs)
    ensures |Sort(xs)| == |xs|
  {
    SortMultiset(xs);
    if xs != [] {
      SortSorted(xs[1..]);
      InsertSorted(xs[0], Sort(xs[1..]));
    }
    assert |Sort(xs)| == |multiset(Sort(xs))|;
  }

  lemma SortedHeadIsLeast(a: seq<real>, x: real)
    requires Sorted(a) && x in multiset(a)
    ensures a != [] && a[0] <= x
  {
    var i :| 0 <= i < |a| && a[i] == x;
  }

  lemma MultisetTail(a: seq<real>)
    requires a != []
    ensures multiset(a[1..]) == multiset(a) - multiset{a[0]}
  {
    assert a == [a[0]] + a[1..];
  }

  /** Two sorted arrangements of the same values start with the same value,
      and what follows holds the same values. */
  lemma SortedSameHead(a: seq<real>, b: seq<real>)
    requires Sorted(a) && Sorted(b) && multiset(a) == multiset(b) && a != []
    ensures b != [] && a[0] == b[0]
    ensures multiset(a[1..]) == multiset(b[1..])
    ensures Sorted(a[1..]) && Sorted(b[1..])
  {
    assert a[0] in multiset(b);
    SortedHeadIsLeast(b, a[0]);
    assert b[0] in multiset(a);
    SortedHeadIsLeast(a, b[0]);
    MultisetTail(a);
    MultisetTail(b);
  }

  /** Two sorted sequences holding the same values equally often are equal:
      the sorted order of a group is unique. */
  lemma {:induction false} SortedUnique(a: seq<real>, b: seq<real>)
    requires Sorted(a) && Sorted(b)
    requires multiset(a) == multiset(b)
    ensures a == b
  {
    if a == [] {
      assert |b| == |multiset(b)| == 0;
    } else {
      SortedSameHead(a, b);
      SortedUnique(a[1..], b[1..]);
      assert a == [a[0]] + a[1..] && b == [b[0]] + b[1..];
    }
  }

  /** Sorting gives the one sorted arrangement of the values. */
  lemma SortIsUnique(xs: seq<real>, v: seq<real>)
    requires Sorted(v) && multiset(v) == multiset(xs)
    ensures Sort(xs) == v
  {
    SortSorted(xs);
    SortedUnique(Sort(xs), v);
  }

  lemma TwiceInMultiset(s: seq<real>, i: nat, j: nat)
    requires i < j < |s| && s[i] == s[j]
    ensures multiset(s)[s[i]] >= 2
  {
    assert s == s[..j] + [s[j]] + s[j + 1..];
    assert s[i] in s[..j];
  }

  lemma OnceInMultiset(s: seq<real>, k: nat)
    requires k < |s|
    requires forall i :: 0 <= i < |s| && i != k ==> s[i] != s[k]
    ensures multiset(s)[s[k]] == 1
  {
    assert s == s[..k] + [s[k]] + s[k + 1..];
    assert s[k] !in s[..k] && s[k] !in s[k + 1..];
  }

  /** When the value at position `k` is `b` and every other value is at most
      `a` < `b`, the sorted arrangement ends with `a` and then `b`. */
  lemma TopTwoOfSorted(xs: seq<real>, v: seq<real>, k: nat, a: real, b: real)
    requires Sorted(v) && multiset(v) == multiset(xs) && |v| >= 2
    requires k < |xs| && xs[k] == b && a in xs && a < b
    requires forall i :: 0 <= i < |xs| && i != k ==> xs[i] <= a
    ensures v[|v| - 2] == a && v[|v| - 1] == b
  {
    var n := |v|;
    OnceInMultiset(xs, k);
    assert b in multiset(xs) && a in multiset(xs);
    var ia :| 0 <= ia < n && v[ia] == a;
    var ib :| 0 <= ib < n && v[ib] == b;
    assert v[n - 1] in multiset(xs) && v[n - 2] in multiset(xs);
    assert v[n - 1] in xs && v[n - 2] in xs;
    assert v[n - 1] == b;
    if v[n - 2] == b {
      TwiceInMultiset(v, n - 2, n - 1);
    }
    assert v[n - 2] <= a;
    assert ia != n - 1;
  }

  /** The position p = 0.95 * (n - 1) among n sorted values, split as the ranks
      floor(p) and ceil(p) and the fraction p - floor(p). */
  datatype Rank = Rank(lo: nat, hi: nat, frac: real)

  function P95Rank(n: nat): (k: Rank)
    requires n > 0
    ensures k.lo as real + k.frac == 0.95 * (n - 1) as real
    ensures 0.0 <= k.frac < 1.0
    ensures k.hi as real - 1.0 < k.lo as real + k.frac <= k.hi as real
    ensures k.lo <= k.hi < n
  {
    var m := 19 * (n - 1);
    var lo := m / 20;
    var rem := m % 20;
    assert m as real == 20.0 * lo as real + rem as real;
    assert rem > 0 ==> lo + 1 < n;
    Rank(lo, if rem == 0 then lo else lo + 1, rem as real / 20.0)
  }

  lemma FracScale(f: real, d: real)
    requires 0.0 <= f <= 1.0 && 0.0 <= d
    ensures 0.0 <= f * d <= d
  {
  }

  /** The 95th percentile of sorted values by linear interpolation between the
      values at ranks floor(p) and ceil(p). */
  function LinearP95(v: seq<real>): (q: real)
    requires v != [] && Sorted(v)
    ensures v[P95Rank(|v|).lo] <= q <= v[P95Rank(|v|).hi]
    ensures v[0] <= q <= v[|v| - 1]
    ensures |v| == 1 ==> q == v[0]
  {
    var k := P95Rank(|v|);
    FracScale(k.frac, v[k.hi] - v[k.lo]);
    v[k.lo] + k.frac * (v[k.hi] - v[k.lo])
  }

  /** The 95th percentile of values in any order: that of their sorted order. */
  function P95(xs: seq<real>): real
    requires xs != []
  {
    SortSorted(xs);
    LinearP95(Sort(xs))
  }

  /** The percentile lies between the smallest and the largest value, and is
      the value itself when there is only one. */
  lemma P95WithinRange(xs: seq<real>)
    requires xs != []
    ensures Min(xs) <= P95(xs) <= Max(xs)
    ensures |xs| == 1 ==> P95(xs) == xs[0]
  {
    var v := Sort(xs);
    SortSorted(xs);
    assert v[0] in multiset(v) && v[|v| - 1] in multiset(v);
    assert |xs| == 1 ==> xs == [xs[0]] && multiset(v) == multiset{xs[0]};
  }

  /** Among twelve values p = 0.95 * 11 = 10.45, so the percentile lies 0.45 of
      the way from the second largest value to the largest. */
  lemma P95OfTwelve(xs: seq<real>, k: nat, a: real, b: real)
    requires |xs| == 12
    requires k < |xs| && xs[k] == b && a in xs && a < b
    requires forall i :: 0 <= i < |xs| && i != k ==> xs[i] <= a
    ensures P95(xs) == a + 0.45 * (b - a)
  {
    var v := Sort(xs);
    SortSorted(xs);
    TopTwoOfSorted(xs, v, k, a, b);
    assert P95Rank(12) == Rank(10, 11, 0.45);
  }

  /** The percentile does not depend on the order of the values. */
  lemma P95IgnoresOrder(xs: seq<real>, ys: seq<real>)
    requires xs != [] && multiset(xs) == multiset(ys)
    ensures ys != [] && P95(xs) == P95(ys)
  {
    assert |xs| == |multiset(xs)| == |multiset(ys)| == |ys|;
    SortSorted(xs);
    SortSorted(ys);
    SortedUnique(Sort(xs), Sort(ys));
  }

  /** The number of values strictly greater than the integer threshold. */
  function Breaches(xs: seq<real>, threshold: int): (n: nat)
    ensures n <= |xs|
  {
    if xs == [] then 0
    else (if xs[0] > threshold as real then 1 else 0) + Breaches(xs[1..], threshold)
  }

  /** Raising the threshold never raises the count. */
  lemma {:induction false} BreachesAntitone(xs: seq<real>, t1: int, t2: int)
    requires t1 <= t2
    ensures Breaches(xs, t2) <= Breaches(xs, t1)
  {
    if xs != [] {
      BreachesAntitone(xs[1..], t1, t2);
    }
  }

  /** Every value counts exactly when every value is above the threshold. */
  lemma {:induction false} BreachesAll(xs: seq<real>, t: int)
    ensures Breaches(xs, t) == |xs| <==> forall i :: 0 <= i < |xs| ==> xs[i] > t as real
  {
    if xs != [] {
      BreachesAll(xs[1..], t);
      assert forall i :: 1 <= i < |xs| ==> xs[i] == xs[1..][i - 1];
    }
  }

  /** No value counts exactly when no value is above the threshold. */
  lemma {:induction false} BreachesNone(xs: seq<real>, t: int)
    ensures Breaches(xs, t) == 0 <==> forall i :: 0 <= i < |xs| ==> xs[i] <= t as real
  {
    if xs != [] {
      BreachesNone(xs[1..], t);
      assert forall i :: 1 <= i < |xs| ==> xs[i] == xs[1..][i - 1];
    }
  }
}
