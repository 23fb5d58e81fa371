/**
The maps between linear and multi-dimensional indices (include/alpaka/idx/MapIdx.hpp). Indices and
extents are sequences whose last component is the fast one. Index arithmetic is modulo `m`, the
number of values of the unsigned element type.
*/
module IndexMaps {
  import opened Arithmetic
  import opened Options

  /** All extents but the slow one, which no map divides by, are positive. */
  predicate Positive(v: seq<nat>)
  {
    forall d :: 1 <= d < |v| ==> v[d] > 0
  }

  /** The index lies in the box [0, extent). */
  predicate InBox(idx: seq<nat>, extent: seq<nat>)
  {
    |idx| == |extent| && forall d :: 0 <= d < |idx| ==> idx[d] < extent[d]
  }

  function Product(v: seq<nat>): nat
  {
    if v == [] then 1 else Product(v[..|v| - 1]) * v[|v| - 1]
  }

  lemma {:induction false} ProductFront(v: seq<nat>)
    requires v != []
    ensures Product(v) == v[0] * Product(v[1..])
  {
    var n := |v| - 1;
    if n > 0 {
      ProductFront(v[..n]);
      assert v[..n][1..] == v[1..][..n - 1];
    }
  }

  lemma {:induction false} ProductPositive(v: seq<nat>)
    requires forall d :: 0 <= d < |v| ==> v[d] > 0
    ensures Product(v) > 0
  {
    if v != [] {
      ProductPositive(v[..|v| - 1]);
      MulMonotone(Product(v[..|v| - 1]), 1, v[|v| - 1]);
    }
  }

  /** The products of the trailing extents: positive, and one factor more each time. */
  lemma TailProduct(v: seq<nat>, d: nat)
    requires 0 < d < |v| && Positive(v)
    ensures Product(v[d..]) == Product(v[d + 1..]) * v[d] > 0
  {
    ProductFront(v[d..]);
    assert v[d..][1..] == v[d + 1..];
    ProductPositive(v[d..]);
  }

  lemma {:induction false} TailBound(v: seq<nat>, d: nat)
    requires 0 < d <= |v| && Positive(v)
    ensures Product(v[d..]) <= Product(v[1..])
    decreases d
  {
    if d > 1 {
      TailBound(v, d - 1);
      TailProduct(v, d - 1);
      MulMonotone(Product(v[d..]), 1, v[d - 1]);
    }
  }

  // ---------- linear index <-> index in a box

  /** The linear index; the first extent does not matter. */
  function Linear(idx: seq<nat>, extent: seq<nat>): nat
    requires |idx| == |extent|
  {
    if idx == [] then 0
    else Linear(idx[..|idx| - 1], extent[..|idx| - 1]) * extent[|idx| - 1] + idx[|idx| - 1]
  }

  /** The index of the i-th cell; everything beyond the box goes into the slow dimension. */
  function Delinear(i: nat, extent: seq<nat>): (idx: seq<nat>)
    requires extent != [] && Positive(extent)
    ensures |idx| == |extent|
    decreases |extent|
  {
    var n := |extent| - 1;
    if n == 0 then [i] else Delinear(i / extent[n], extent[..n]) + [i % extent[n]]
  }

  /** One Horner step in the element type. */
  function Append(a: nat, extent: nat, x: nat, m: nat): nat
    requires m > 0
  {
    (a * extent + x) % m
  }

  /** The value of the element type that represents x. */
  function Wrapped(x: nat, m: nat): nat
    requires m > 0
  {
    if x < m then x else x % m
  }

  lemma AppendIsLinear(idx: seq<nat>, extent: seq<nat>, d: nat, m: nat)
    requires d < |idx| == |extent| && m > 0
    ensures Append(Wrapped(Linear(idx[..d], extent[..d]), m), extent[d], idx[d], m)
         == Wrapped(Linear(idx[..d + 1], extent[..d + 1]), m)
  {
    var a := Linear(idx[..d], extent[..d]);
    ModSmall(a, m);
    ModSmall(a * extent[d] + idx[d], m);
    ModStep(a, extent[d], idx[d], m);
    assert idx[..d + 1][..d] == idx[..d] && extent[..d + 1][..d] == extent[..d];
  }

  method MapIdxTo1d(idx: seq<nat>, extent: seq<nat>, m: nat) returns (idx1d: nat)
    requires |idx| == |extent| > 0 && idx[0] < m
    ensures idx1d == Wrapped(Linear(idx, extent), m)
  {
    idx1d := idx[0];
    assert idx[..1] == [idx[0]] && Linear(idx[..1], extent[..1]) == idx[0];
    for d := 1 to |idx|
      invariant idx1d == Wrapped(Linear(idx[..d], extent[..d]), m)
    {
      AppendIsLinear(idx, extent, d, m);
      idx1d := Append(idx1d, extent[d], idx[d], m);
    }
    assert idx[..|idx|] == idx && extent[..|idx|] == extent;
  }

  function Digit(idx: nat, planes: nat, extent: nat): nat
    requires planes > 0 && extent > 0
  {
    idx / planes % extent
  }

  function Slow(idx: nat, planes: nat): nat
    requires planes > 0
  {
    idx / planes
  }

  /** The element type's product of two values. */
  function Times(a: nat, b: nat, m: nat): nat
    requires m > 0
  {
    a * b % m
  }

  /** The product of the extents from k on, as the element type computes it. */
  function Planes(extent: seq<nat>, k: nat, m: nat): nat
    requires k < |extent| && m > 0
    decreases |extent| - k
  {
    if k == |extent| - 1 then extent[k] else Times(Planes(extent, k + 1, m), extent[k], m)
  }

  /** None of the products that the loop divides by wraps to zero. */
  ghost predicate Divisible(extent: seq<nat>, m: nat)
    requires m > 0
  {
    forall k :: 1 <= k < |extent| ==> Planes(extent, k, m) != 0
  }

  function Component(idx: nat, extent: seq<nat>, d: nat, m: nat): nat
    requires m > 0 && d < |extent| && Positive(extent) && (d + 1 < |extent| ==> Planes(extent, d + 1, m) != 0)
  {
    var planes := if d + 1 < |extent| then Planes(extent, d + 1, m) else 1;
    if d == 0 then Slow(idx, planes) else Digit(idx, planes, extent[d])
  }

  /** The loop, for extents of any size; None stands for a division by zero. */
  method MapIdxToNd(idx: nat, extent: seq<nat>, m: nat) returns (r: Option<seq<nat>>)
    requires |extent| > 1 && Positive(extent) && m > 0
    ensures r.Some? <==> Divisible(extent, m)
    ensures r.Some? ==> |r.value| == |extent|
    ensures r.Some? ==> forall d :: 0 <= d < |extent| ==> r.value[d] == Component(idx, extent, d, m)
  {
    var lastIdx := |extent| - 1;
    var idxNd := seq(|extent|, _ => 0);
    idxNd := idxNd[lastIdx := Digit(idx, 1, extent[lastIdx])];
    var hyperPlanesBefore := extent[lastIdx];
    for r := 1 to lastIdx
      invariant |idxNd| == |extent|
      invariant hyperPlanesBefore == Planes(extent, lastIdx - r + 1, m)
      invariant forall k :: lastIdx - r + 1 < k < |extent| ==> Planes(extent, k, m) != 0
      invariant forall d :: lastIdx - r + 1 <= d < |extent| ==> idxNd[d] == Component(idx, extent, d, m)
    {
      var d := lastIdx - r;
      if hyperPlanesBefore == 0 { return None; }
      idxNd := idxNd[d := Digit(idx, hyperPlanesBefore, extent[d])];
      hyperPlanesBefore := Times(hyperPlanesBefore, extent[d], m);
    }
    if hyperPlanesBefore == 0 { return None; }
    idxNd := idxNd[0 := Slow(idx, hyperPlanesBefore)];
    r := Some(idxNd);
  }

  lemma OnePlaneMore(i: nat, e: nat, planes: nat, extent: nat, both: nat)
    requires e > 0 && planes > 0 && extent > 0 && both == planes * e
    ensures both > 0 && Slow(i / e, planes) == Slow(i, both) && Digit(i / e, planes, extent) == Digit(i, both, extent)
  {
    assert both == e * planes;
    DivDiv(i, e, planes);
    assert i / e / planes == i / both;
  }

  lemma FastProduct(extent: seq<nat>, d: nat)
    requires d + 1 < |extent| && Positive(extent)
    ensures var n := |extent| - 1;
            Product(extent[..n][d + 1..]) > 0 && Product(extent[d + 1..]) == Product(extent[..n][d + 1..]) * extent[n]
  {
    var n := |extent| - 1;
    ProductPositive(extent[..n][d + 1..]);
    assert extent[d + 1..][..n - d - 1] == extent[..n][d + 1..];
  }

  /** The components of the i-th cell, without wrapping. */
  lemma {:induction false} DelinearAt(i: nat, extent: seq<nat>, d: nat)
    requires d < |extent| && Positive(extent)
    ensures Product(extent[d + 1..]) > 0
    ensures Delinear(i, extent)[d]
         == if d == 0 then Slow(i, Product(extent[d + 1..])) else Digit(i, Product(extent[d + 1..]), extent[d])
    decreases |extent|
  {
    var n := |extent| - 1;
    if d < n {
      DelinearAt(i / extent[n], extent[..n], d);
      FastProduct(extent, d);
      var size := if d == 0 then 1 else extent[d];
      OnePlaneMore(i, extent[n], Product(extent[..n][d + 1..]), size, Product(extent[d + 1..]));
    } else {
      assert extent[d + 1..] == [];
    }
  }

  lemma {:induction false} PlanesExact(extent: seq<nat>, k: nat, m: nat)
    requires 0 < k < |extent| && Positive(extent) && Product(extent[1..]) < m
    ensures Planes(extent, k, m) == Product(extent[k..]) > 0
    decreases |extent| - k
  {
    TailProduct(extent, k);
    TailBound(extent, k);
    if k + 1 < |extent| {
      PlanesExact(extent, k + 1, m);
      ModSmall(Product(extent[k..]), m);
    }
  }

  /** Extents whose trailing product fits the element type give the inverse of the linear index. */
  lemma ComponentIsDelinear(idx: nat, extent: seq<nat>, d: nat, m: nat)
    requires d < |extent| && Positive(extent) && Product(extent[1..]) < m
    ensures d + 1 < |extent| ==> Planes(extent, d + 1, m) != 0
    ensures Component(idx, extent, d, m) == Delinear(idx, extent)[d]
  {
    DelinearAt(idx, extent, d);
    if d + 1 < |extent| { PlanesExact(extent, d + 1, m); } else { assert extent[d + 1..] == []; }
  }

  /** The loop is right for every index of the element type exactly when the product of all extents
      but the slow one fits the type: otherwise it divides by zero, or the slow component of the
      largest index, which ought to be zero, is not. */
  lemma ToNdRightIffFits(extent: seq<nat>, m: nat)
    requires |extent| > 1 && Positive(extent) && m > 0 && forall d :: 0 <= d < |extent| ==> extent[d] < m
    ensures (Divisible(extent, m) && forall idx: nat, d: nat :: idx < m && d < |extent| ==> RightAt(idx, extent, d, m))
       <==> Product(extent[1..]) < m
  {
    if Product(extent[1..]) < m {
      forall k | 1 <= k < |extent| ensures Planes(extent, k, m) != 0 { PlanesExact(extent, k, m); }
      forall idx: nat, d: nat | idx < m && d < |extent| ensures RightAt(idx, extent, d, m) {
        ComponentIsDelinear(idx, extent, d, m);
      }
    } else if Divisible(extent, m) {
      LargestIndexWrong(extent, m);
    }
  }

  ghost predicate RightAt(idx: nat, extent: seq<nat>, d: nat, m: nat)
    requires m > 0 && d < |extent| && Positive(extent)
  {
    (d + 1 < |extent| ==> Planes(extent, d + 1, m) != 0) && Component(idx, extent, d, m) == Delinear(idx, extent)[d]
  }

  lemma LargestIndexWrong(extent: seq<nat>, m: nat)
    requires |extent| > 1 && Positive(extent) && forall d :: 0 <= d < |extent| ==> extent[d] < m
    requires Product(extent[1..]) >= m > 0 && Planes(extent, 1, m) != 0
    ensures !RightAt(m - 1, extent, 0, m)
  {
    DelinearAt(m - 1, extent, 0);
    DivModUnique(m - 1, Product(extent[1..]), 0, m - 1);
    var planes := Planes(extent, 1, m);
    assert planes < m;
    assert m - 1 == planes * Slow(m - 1, planes) + (m - 1) % planes;
  }

  // ---------- the two maps are inverse order isomorphisms

  /** All components but the slow one lie inside the extent. */
  predicate InTail(idx: seq<nat>, extent: seq<nat>)
  {
    |idx| == |extent| && forall d :: 1 <= d < |idx| ==> idx[d] < extent[d]
  }

  /** a comes before b in lexicographic order. */
  ghost predicate LexLess(a: seq<nat>, b: seq<nat>)
  {
    |a| == |b| && exists k :: 0 <= k < |a| && a[..k] == b[..k] && a[k] < b[k]
  }

  /** Every linear index survives the round trip, whether or not it lies in the box. */
  lemma {:induction false} LinearOfDelinear(i: nat, extent: seq<nat>)
    requires extent != [] && Positive(extent)
    ensures Linear(Delinear(i, extent), extent) == i && InTail(Delinear(i, extent), extent)
    decreases |extent|
  {
    var n := |extent| - 1;
    var idx := Delinear(i, extent);
    if n > 0 {
      LinearOfDelinear(i / extent[n], extent[..n]);
      DivModBack(i, extent[n]);
      assert idx[..n] == Delinear(i / extent[n], extent[..n]);
    } else {
      assert idx[..0] == [];
    }
  }

  lemma {:induction false} DelinearOfLinear(idx: seq<nat>, extent: seq<nat>)
    requires extent != [] && InTail(idx, extent)
    ensures Delinear(Linear(idx, extent), extent) == idx
    decreases |extent|
  {
    var n := |extent| - 1;
    if n > 0 {
      DelinearOfLinear(idx[..n], extent[..n]);
      DivModUnique(Linear(idx, extent), extent[n], Linear(idx[..n], extent[..n]), idx[n]);
    }
  }

  lemma Horner(a: nat, b: nat, e: nat, x: nat, y: nat)
    requires x < e && y < e
    ensures a * e + x < b * e + y <==> a < b || (a == b && x < y)
    ensures a * e + x < b * e <==> a < b
  {
    if a < b { MulMonotone(e, a + 1, b); }
    if b < a { MulMonotone(e, b + 1, a); }
  }

  lemma {:induction false} LinearBelowProduct(idx: seq<nat>, extent: seq<nat>)
    requires InTail(idx, extent)
    ensures InBox(idx, extent) <==> Linear(idx, extent) < Product(extent)
    decreases |extent|
  {
    if extent != [] {
      var n := |extent| - 1;
      LinearBelowProduct(idx[..n], extent[..n]);
      if n > 0 {
        Horner(Linear(idx[..n], extent[..n]), Product(extent[..n]), extent[n], idx[n], 0);
        assert InBox(idx, extent) <==> InBox(idx[..n], extent[..n]);
      }
    }
  }

  /** The cells of a box and the numbers below its volume: the maps are mutual inverses. */
  lemma Bijection(extent: seq<nat>)
    requires extent != [] && Positive(extent)
    ensures forall i: nat :: i < Product(extent) ==>
                               InBox(Delinear(i, extent), extent) && Linear(Delinear(i, extent), extent) == i
    ensures forall idx: seq<nat> :: InBox(idx, extent) ==> Linear(idx, extent) < Product(extent)
    ensures forall idx: seq<nat> :: InBox(idx, extent) ==> Delinear(Linear(idx, extent), extent) == idx
  {
    forall i: nat | i < Product(extent)
      ensures InBox(Delinear(i, extent), extent) && Linear(Delinear(i, extent), extent) == i
    {
      LinearOfDelinear(i, extent);
      LinearBelowProduct(Delinear(i, extent), extent);
    }
    forall idx: seq<nat> | InBox(idx, extent)
      ensures Linear(idx, extent) < Product(extent) && Delinear(Linear(idx, extent), extent) == idx
    {
      DelinearOfLinear(idx, extent);
      LinearBelowProduct(idx, extent);
    }
  }

  lemma LexLast(a: seq<nat>, b: seq<nat>)
    requires |a| == |b| > 0
    ensures var n := |a| - 1; LexLess(a, b) <==> LexLess(a[..n], b[..n]) || (a[..n] == b[..n] && a[n] < b[n])
  {
    var n := |a| - 1;
    if LexLess(a, b) {
      var k :| 0 <= k < |a| && a[..k] == b[..k] && a[k] < b[k];
      assert k < n ==> a[..n][..k] == b[..n][..k];
    }
    if LexLess(a[..n], b[..n]) {
      var k :| 0 <= k < n && a[..n][..k] == b[..n][..k] && a[..n][k] < b[..n][k];
      assert a[..k] == a[..n][..k] && b[..k] == b[..n][..k];
    }
  }

  /** The linear order of the cells is the lexicographic order of their indices. */
  lemma {:induction false} LinearIsLexicographic(a: seq<nat>, b: seq<nat>, extent: seq<nat>)
    requires extent != [] && InTail(a, extent) && InTail(b, extent)
    ensures Linear(a, extent) < Linear(b, extent) <==> LexLess(a, b)
    decreases |extent|
  {
    var n := |extent| - 1;
    LexLast(a, b);
    if n > 0 {
      LinearIsLexicographic(a[..n], b[..n], extent[..n]);
      DelinearOfLinear(a[..n], extent[..n]);
      DelinearOfLinear(b[..n], extent[..n]);
      Horner(Linear(a[..n], extent[..n]), Linear(b[..n], extent[..n]), extent[n], a[n], b[n]);
    } else {
      assert a[..0] == b[..0];
    }
  }

  /** Counting up visits the indices in lexicographic order. */
  lemma CountingIsLexicographic(i: nat, j: nat, extent: seq<nat>)
    requires extent != [] && Positive(extent)
    ensures i < j <==> LexLess(Delinear(i, extent), Delinear(j, extent))
  {
    LinearOfDelinear(i, extent);
    LinearOfDelinear(j, extent);
    LinearIsLexicographic(Delinear(i, extent), Delinear(j, extent), extent);
  }

  // ---------- pitch maps; the pitch of the slow dimension is never used

  function PitchLinear(idx: seq<nat>, pitch: seq<nat>): nat
    requires |idx| == |pitch| > 0
  {
    if |idx| == 1 then idx[0] else pitch[1] * idx[0] + PitchLinear(idx[1..], pitch[1..])
  }

  function PitchNd(i: nat, pitch: seq<nat>): (idx: seq<nat>)
    requires pitch != [] && Positive(pitch)
    ensures |idx| == |pitch|
    decreases |pitch|
  {
    if |pitch| == 1 then [i] else [i / pitch[1]] + PitchNd(i % pitch[1], pitch[1..])
  }

  method MapIdxPitchBytesToNd(idx: nat, pitch: seq<nat>) returns (idxNd: seq<nat>)
    requires |pitch| > 1 && Positive(pitch)
    ensures idxNd == PitchNd(idx, pitch)
  {
    var lastIdx := |pitch| - 1;
    idxNd := seq(|pitch|, _ => 0);
    var tmp := idx;
    for d := 0 to lastIdx
      invariant |idxNd| == |pitch|
      invariant PitchNd(idx, pitch) == idxNd[..d] + PitchNd(tmp, pitch[d..])
    {
      assert pitch[d..][1..] == pitch[d + 1..];
      idxNd := idxNd[d := tmp / pitch[d + 1]];
      tmp := tmp % pitch[d + 1];
    }
    idxNd := idxNd[lastIdx := tmp];
  }

  method MapIdxPitchBytesTo1d(idx: seq<nat>, pitch: seq<nat>, m: nat) returns (idx1d: nat)
    requires |idx| == |pitch| > 1 && idx[|idx| - 1] < m
    ensures idx1d == Wrapped(PitchLinear(idx, pitch), m)
  {
    var lastDim := |idx| - 1;
    idx1d := idx[lastDim];
    ghost var exact: nat := idx1d;
    for d := 0 to lastDim
      invariant idx1d == Wrapped(exact, m)
      invariant PitchLinear(idx, pitch) + idx[lastDim] == exact + PitchLinear(idx[d..], pitch[d..])
    {
      assert idx[d..][1..] == idx[d + 1..] && pitch[d..][1..] == pitch[d + 1..];
      var step := pitch[d + 1] * idx[d];
      AddWrapped(exact, step, m);
      exact := exact + step;
      idx1d := Append(idx1d, 1, step, m);
    }
  }

  lemma AddWrapped(exact: nat, step: nat, m: nat)
    requires m > 0
    ensures Append(Wrapped(exact, m), 1, step, m) == Wrapped(exact + step, m)
  {
    ModSmall(exact, m);
    ModSmall(exact + step, m);
    ModStep(exact, 1, step, m);
  }

  lemma {:induction false} PitchLinearOfNd(i: nat, pitch: seq<nat>)
    requires pitch != [] && Positive(pitch)
    ensures PitchLinear(PitchNd(i, pitch), pitch) == i
    decreases |pitch|
  {
    if |pitch| > 1 {
      PitchLinearOfNd(i % pitch[1], pitch[1..]);
      assert PitchNd(i, pitch)[1..] == PitchNd(i % pitch[1], pitch[1..]);
    }
  }

  /** No trailing part of the index reaches over the pitch of the dimension before it. */
  predicate Nested(idx: seq<nat>, pitch: seq<nat>)
    requires |idx| == |pitch| > 0
  {
    |idx| == 1 || (PitchLinear(idx[1..], pitch[1..]) < pitch[1] && Nested(idx[1..], pitch[1..]))
  }

  /** Exactly the nested indices survive the round trip over a pitched buffer. */
  lemma {:induction false} PitchNdOfLinear(idx: seq<nat>, pitch: seq<nat>)
    requires |idx| == |pitch| > 0 && Positive(pitch)
    ensures PitchNd(PitchLinear(idx, pitch), pitch) == idx <==> Nested(idx, pitch)
    decreases |pitch|
  {
    if |pitch| > 1 {
      var i, rest := PitchLinear(idx, pitch), PitchLinear(idx[1..], pitch[1..]);
      PitchNdOfLinear(idx[1..], pitch[1..]);
      if rest < pitch[1] {
        DivModUnique(i, pitch[1], idx[0], rest);
        assert PitchNd(i, pitch)[1..] == PitchNd(rest, pitch[1..]);
        assert idx == [idx[0]] + idx[1..];
      } else if PitchNd(i, pitch) == idx {
        assert idx[1..] == PitchNd(i % pitch[1], pitch[1..]);
        PitchLinearOfNd(i % pitch[1], pitch[1..]);
      }
    }
  }

  /** Every pitch is at least its extent times the next pitch; an element's own pitch is one. */
  predicate PitchesFit(extent: seq<nat>, pitch: seq<nat>)
  {
    |extent| == |pitch| && forall d :: 1 <= d < |pitch| ==> pitch[d] >= PitchBound(extent, pitch, d)
  }

  function PitchBound(extent: seq<nat>, pitch: seq<nat>, d: nat): nat
    requires d < |extent| == |pitch|
  {
    extent[d] * if d + 1 < |pitch| then pitch[d + 1] else 1
  }

  lemma BelowPitch(x: nat, rest: nat, extent: nat, next: nat, pitch: nat)
    requires x < extent && rest < next && pitch >= extent * next
    ensures next * x + rest < pitch
  {
    MulMonotone(next, x + 1, extent);
  }

  lemma {:induction false} InExtentIsNested(idx: seq<nat>, extent: seq<nat>, pitch: seq<nat>)
    requires pitch != [] && PitchesFit(extent, pitch) && InTail(idx, extent)
    ensures Nested(idx, pitch)
    decreases |pitch|
  {
    if |pitch| > 1 {
      var idx', extent', pitch' := idx[1..], extent[1..], pitch[1..];
      forall d | 1 <= d < |pitch'| ensures pitch'[d] >= PitchBound(extent', pitch', d) {
        assert pitch[d + 1] >= PitchBound(extent, pitch, d + 1);
      }
      InExtentIsNested(idx', extent', pitch');
      assert pitch[1] >= PitchBound(extent, pitch, 1);
      if |pitch| > 2 { BelowPitch(idx[1], PitchLinear(idx'[1..], pitch'[1..]), extent[1], pitch[2], pitch[1]); }
    }
  }

  /** In-extent indices survive the round trip over any padded buffer. */
  lemma PaddedRoundTrip(idx: seq<nat>, extent: seq<nat>, pitch: seq<nat>)
    requires pitch != [] && Positive(pitch) && PitchesFit(extent, pitch) && InTail(idx, extent)
    ensures PitchNd(PitchLinear(idx, pitch), pitch) == idx
  {
    InExtentIsNested(idx, extent, pitch);
    PitchNdOfLinear(idx, pitch);
  }

  /** The pitches of a buffer without padding. */
  function DensePitch(extent: seq<nat>): (pitch: seq<nat>)
    ensures |pitch| == |extent|
  {
    seq(|extent|, d requires 0 <= d < |extent| => Product(extent[d..]))
  }

  lemma {:induction false} LinearFront(idx: seq<nat>, extent: seq<nat>)
    requires |idx| == |extent| > 0
    ensures Linear(idx, extent) == Product(extent[1..]) * idx[0] + Linear(idx[1..], extent[1..])
    decreases |extent|
  {
    var n := |extent| - 1;
    if n > 0 {
      LinearFront(idx[..n], extent[..n]);
      assert idx[..n][1..] == idx[1..][..n - 1] && extent[..n][1..] == extent[1..][..n - 1];
      var p, l := Product(extent[1..n]), Linear(idx[1..n], extent[1..n]);
      Distribute(p, idx[0], l, extent[n]);
    }
  }

  lemma {:induction false} DensePitchLinear(idx: seq<nat>, extent: seq<nat>)
    requires |idx| == |extent| > 0
    ensures PitchLinear(idx, DensePitch(extent)) == Linear(idx, extent)
    decreases |extent|
  {
    if |extent| > 1 {
      DensePitchLinear(idx[1..], extent[1..]);
      assert DensePitch(extent)[1..] == DensePitch(extent[1..]) by {
        forall d | 0 <= d < |extent| - 1 ensures extent[1..][d..] == extent[d + 1..] {}
      }
      LinearFront(idx, extent);
    } else {
      assert idx[..0] == [] && extent[..0] == [];
    }
  }

  lemma DensePitchFits(extent: seq<nat>)
    requires extent != [] && Positive(extent)
    ensures Positive(DensePitch(extent)) && PitchesFit(extent, DensePitch(extent))
  {
    var pitch := DensePitch(extent);
    forall d | 1 <= d < |extent| ensures pitch[d] > 0 && pitch[d] >= PitchBound(extent, pitch, d) {
      TailProduct(extent, d);
      assert d + 1 == |extent| ==> extent[d + 1..] == [];
    }
  }

  /** Without padding the pitch maps are the plain index maps. */
  lemma DensePitchAgrees(extent: seq<nat>)
    requires extent != [] && Positive(extent)
    ensures Positive(DensePitch(extent))
    ensures forall idx: seq<nat> :: |idx| == |extent| ==> PitchLinear(idx, DensePitch(extent)) == Linear(idx, extent)
    ensures forall i: nat :: PitchNd(i, DensePitch(extent)) == Delinear(i, extent)
  {
    DensePitchFits(extent);
    forall idx: seq<nat> | |idx| == |extent| ensures PitchLinear(idx, DensePitch(extent)) == Linear(idx, extent) {
      DensePitchLinear(idx, extent);
    }
    forall i: nat ensures PitchNd(i, DensePitch(extent)) == Delinear(i, extent) {
      var idx := Delinear(i, extent);
      LinearOfDelinear(i, extent);
      DensePitchLinear(idx, extent);
      PaddedRoundTrip(idx, extent, DensePitch(extent));
    }
  }
}
