/** The order in which grouped regions are emitted. Python compares strings
    code point by code point from the left, and a proper prefix sorts first;
    pandas' groupby sorts its keys in that order. */
module RegionOrder {

  /** `a` sorts strictly before `b` in Python's string order. */
  predicate Before(a: string, b: string)
  {
    if a == [] then b != []
    else if b == [] then false
    else if a[0] == b[0] then Before(a[1..], b[1..])
    else a[0] < b[0]
  }

  lemma {:induction false} BeforeIrreflexive(a: string)
    ensures !Before(a, a)
  {
    if a != [] {
      BeforeIrreflexive(a[1..]);
    }
  }

  lemma {:induction false} BeforeTransitive(a: string, b: string, c: string)
    requires Before(a, b) && Before(b, c)
    ensures Before(a, c)
  {
    if a != [] && b != [] && c != [] && a[0] == b[0] && b[0] == c[0] {
      BeforeTransitive(a[1..], b[1..], c[1..]);
    }
  }

  lemma {:induction false} BeforeTotal(a: string, b: string)
    ensures a == b || Before(a, b) || Before(b, a)
  {
    if a != [] && b != [] && a[0] == b[0] {
      BeforeTotal(a[1..], b[1..]);
      assert a == [a[0]] + a[1..] && b == [b[0]] + b[1..];
    }
  }

  lemma BeforeAsymmetric(a: string, b: string)
    requires Before(a, b)
    ensures !Before(b, a)
  {
    if Before(b, a) {
      BeforeTransitive(a, b, a);
      BeforeIrreflexive(a);
    }
  }

  /** Every key sorts strictly before every later key. */
  ghost predicate StrictlyAscending(ks: seq<string>)
  {
    forall i, j :: 0 <= i < j < |ks| ==> Before(ks[i], ks[j])
  }

  /** A strictly ascending key list holds no key twice. */
  lemma AscendingIsDistinct(ks: seq<string>)
    requires StrictlyAscending(ks)
    ensures forall i, j :: 0 <= i < j < |ks| ==> ks[i] != ks[j]
  {
    forall i, j | 0 <= i < j < |ks|
      ensures ks[i] != ks[j]
    {
      BeforeIrreflexive(ks[i]);
    }
  }

  lemma AscendingCons(k: string, ks: seq<string>)
    requires StrictlyAscending(ks)
    requires ks != [] ==> Before(k, ks[0])
    ensures StrictlyAscending([k] + ks)
  {
    var r := [k] + ks;
    forall i, j | 0 <= i < j < |r|
      ensures Before(r[i], r[j])
    {
      if i == 0 && j > 1 {
        BeforeTransitive(k, ks[0], ks[j - 1]);
      }
    }
  }

  /** Adds `k` to a strictly ascending key list, unless it is already there. */
  function InsertKey(k: string, ks: seq<string>): (r: seq<string>)
    requires StrictlyAscending(ks)
    ensures StrictlyAscending(r)
    ensures forall x :: x in r <==> x == k || x in ks
  {
    if ks == [] then [k]
    else if k == ks[0] then ks
    else if Before(k, ks[0]) then
      AscendingCons(k, ks);
      [k] + ks
    else
      BeforeTotal(k, ks[0]);
      var rest := InsertKey(k, ks[1..]);
      assert rest[0] == k || rest[0] in ks[1..];
      AscendingCons(ks[0], rest);
      [ks[0]] + rest
  }

  /** Two strictly ascending key lists with the same keys are the same list:
      the sorted order of a set of regions is unique. */
  lemma {:induction false} AscendingUnique(a: seq<string>, b: seq<string>)
    requires StrictlyAscending(a) && StrictlyAscending(b)
    requires forall x :: x in a <==> x in b
    ensures a == b
  {
    if a != [] {
      assert a[0] in b;
    }
    if b != [] {
      assert b[0] in a;
    }
    if a != [] && b != [] {
      assert a == [a[0]] + a[1..] && b == [b[0]] + b[1..];
      assert a[0] == b[0] by {
        if a[0] != b[0] {
          assert a[0] in b && b[0] in a;
          var i :| 0 <= i < |b| && b[i] == a[0];
          var j :| 0 <= j < |a| && a[j] == b[0];
          assert i > 0 && j > 0;
          BeforeAsymmetric(a[0], a[j]);
        }
      }
      AscendingIsDistinct(a);
      AscendingIsDistinct(b);
      forall x
        ensures x in a[1..] <==> x in b[1..]
      {
        if x in a[1..] {
          var k :| 0 <= k < |a[1..]| && a[1..][k] == x;
          assert a[k + 1] == x && x != a[0] && x in b;
          var m :| 0 <= m < |b| && b[m] == x;
          assert m > 0 && b[1..][m - 1] == x;
        }
        if x in b[1..] {
          var k :| 0 <= k < |b[1..]| && b[1..][k] == x;
          assert b[k + 1] == x && x != b[0] && x in a;
          var m :| 0 <= m < |a| && a[m] == x;
          assert m > 0 && a[1..][m - 1] == x;
        }
      }
      AscendingUnique(a[1..], b[1..]);
    }
  }
}
