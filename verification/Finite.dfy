/** Counting facts about finite sets of thread numbers, shared by the protocol proofs. */
module Finite {

  /** The thread numbers below n. */
  function Below(n: nat): (r: set<nat>)
    ensures forall i: nat :: i in r <==> i < n
  {
    if n == 0 then {} else Below(n - 1) + {n - 1}
  }

  lemma {:induction false} BelowSize(n: nat)
    ensures |Below(n)| == n
  {
    if n > 0 {
      BelowSize(n - 1);
    }
  }

  lemma {:induction false} SubsetSize<T>(a: set<T>, b: set<T>)
    requires a <= b
    ensures |a| <= |b|
    ensures |a| == |b| ==> a == b
  {
    if x :| x in a {
      SubsetSize(a - {x}, b - {x});
    }
  }

  /** A set of thread numbers below n holds at most n of them, and all of them when it holds n. */
  lemma SizeBelow(a: set<nat>, n: nat)
    requires forall i <- a :: i < n
    ensures |a| <= n
    ensures |a| == n <==> a == Below(n)
  {
    BelowSize(n);
    SubsetSize(a, Below(n));
  }

  ghost predicate Distinct<T>(s: seq<T>)
  {
    forall i, j :: 0 <= i < j < |s| ==> s[i] != s[j]
  }

  function Elements<T>(s: seq<T>): (r: set<T>)
  {
    set x <- s
  }

  lemma {:induction false} DistinctSize<T>(s: seq<T>)
    requires Distinct(s)
    ensures |Elements(s)| == |s|
  {
    if s != [] {
      var k := |s| - 1;
      DistinctSize(s[..k]);
      assert s == s[..k] + [s[k]];
      assert Elements(s) == Elements(s[..k]) + {s[k]};
    }
  }

  /** Pigeonhole: n distinct numbers below n are all the numbers below n. */
  lemma DistinctCovers(s: seq<nat>, n: nat)
    requires Distinct(s)
    requires forall i :: 0 <= i < |s| ==> s[i] < n
    ensures |s| <= n
    ensures |s| == n ==> forall w: nat :: w < n ==> w in s
    ensures |s| < n ==> exists w: nat :: w < n && w !in s
  {
    DistinctSize(s);
    SizeBelow(Elements(s), n);
    if |s| == n {
      forall w: nat | w < n ensures w in s {
        assert w in Below(n);
      }
    } else {
      assert !(Below(n) <= Elements(s)) by {
        assert Elements(s) <= Below(n) && Elements(s) != Below(n);
      }
      var w :| w in Below(n) && w !in Elements(s);
      assert w < n && w !in s;
    }
  }

  function Sum(a: seq<nat>): nat
  {
    if a == [] then 0 else Sum(a[..|a| - 1]) + a[|a| - 1]
  }

  lemma {:induction false} SumUpdate(a: seq<nat>, i: nat, x: nat)
    requires i < |a|
    ensures Sum(a[i := x]) == Sum(a) - a[i] + x
  {
    var k := |a| - 1;
    if i < k {
      SumUpdate(a[..k], i, x);
      assert a[i := x][..k] == a[..k][i := x];
    } else {
      assert a[i := x][..k] == a[..k];
    }
  }

  lemma {:induction false} SumBound(a: seq<nat>, x: nat)
    requires forall i :: 0 <= i < |a| ==> a[i] <= x
    ensures Sum(a) <= |a| * x
    ensures (forall i :: 0 <= i < |a| ==> a[i] == x) ==> Sum(a) == |a| * x
  {
    if a != [] {
      var k := |a| - 1;
      SumBound(a[..k], x);
      assert |a| * x == k * x + x;
    }
  }

  lemma {:induction false} SumMonotone(a: seq<nat>, b: seq<nat>)
    requires |a| == |b| && forall i :: 0 <= i < |a| ==> a[i] <= b[i]
    ensures Sum(a) <= Sum(b)
    ensures (exists i :: 0 <= i < |a| && a[i] < b[i]) ==> Sum(a) < Sum(b)
  {
    if a != [] { SumMonotone(a[..|a| - 1], b[..|a| - 1]); }
  }
}
