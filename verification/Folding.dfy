/** The plain fold of a non-empty sequence, which the parallel reduction has to agree with. */
module Folding {

  predicate AssociativeAt<T(==)>(f: (T, T) -> T, a: T, b: T, c: T)
  {
    f(f(a, b), c) == f(a, f(b, c))
  }

  predicate CommutativeAt<T(==)>(f: (T, T) -> T, a: T, b: T)
  {
    f(a, b) == f(b, a)
  }

  ghost predicate Associative<T(!new)>(f: (T, T) -> T)
  {
    forall a, b, c :: AssociativeAt(f, a, b, c)
  }

  ghost predicate Commutative<T(!new)>(f: (T, T) -> T)
  {
    forall a, b :: CommutativeAt(f, a, b)
  }

  function Fold<T>(f: (T, T) -> T, s: seq<T>): T
    requires |s| > 0
  {
    if |s| == 1 then s[0] else f(Fold(f, s[..|s| - 1]), s[|s| - 1])
  }

  lemma {:induction false} FoldConcat<T(!new)>(f: (T, T) -> T, a: seq<T>, b: seq<T>)
    requires Associative(f) && |a| > 0 && |b| > 0
    ensures Fold(f, a + b) == f(Fold(f, a), Fold(f, b))
  {
    var k := |b| - 1;
    if k == 0 {
      assert (a + b)[..|a|] == a;
    } else {
      FoldConcat(f, a, b[..k]);
      assert (a + b)[..|a| + k] == a + b[..k];
      assert AssociativeAt(f, Fold(f, a), Fold(f, b[..k]), b[k]);
    }
  }

  /** Combining x into any one element combines it into the fold. */
  lemma {:induction false} FoldUpdate<T(!new)>(f: (T, T) -> T, s: seq<T>, i: nat, x: T)
    requires Associative(f) && Commutative(f) && i < |s|
    ensures Fold(f, s[i := f(s[i], x)]) == f(Fold(f, s), x)
  {
    var k := |s| - 1;
    var s' := s[i := f(s[i], x)];
    if k > 0 {
      var rest := Fold(f, s[..k]);
      if i == k {
        assert s'[..k] == s[..k];
        assert AssociativeAt(f, rest, s[k], x);
      } else {
        FoldUpdate(f, s[..k], i, x);
        assert s'[..k] == s[..k][i := f(s[i], x)];
        assert AssociativeAt(f, rest, x, s[k]) && CommutativeAt(f, x, s[k]) && AssociativeAt(f, rest, s[k], x);
      }
    }
  }

  /** The first |b| elements of a combined with those of b, one by one. */
  function Zip<T>(f: (T, T) -> T, a: seq<T>, b: seq<T>): (r: seq<T>)
    requires |b| <= |a|
    ensures |r| == |a|
    ensures forall i :: 0 <= i < |a| ==> r[i] == if i < |b| then f(a[i], b[i]) else a[i]
  {
    seq(|a|, i requires 0 <= i < |a| => if i < |b| then f(a[i], b[i]) else a[i])
  }

  lemma {:induction false} FoldZip<T(!new)>(f: (T, T) -> T, a: seq<T>, b: seq<T>)
    requires Associative(f) && Commutative(f) && 0 < |b| <= |a|
    ensures Fold(f, Zip(f, a, b)) == Fold(f, a + b)
  {
    var k := |b| - 1;
    if k == 0 {
      assert Zip(f, a, b) == a[0 := f(a[0], b[0])];
      FoldUpdate(f, a, 0, b[0]);
      assert (a + b)[..|a|] == a;
    } else {
      var z := Zip(f, a, b[..k]);
      FoldZip(f, a, b[..k]);
      assert Zip(f, a, b) == z[k := f(z[k], b[k])];
      FoldUpdate(f, z, k, b[k]);
      assert (a + b)[..|a| + k] == a + b[..k];
    }
  }
}
