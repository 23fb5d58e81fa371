/**
The parallel reduction of example/reduce: the partitioning iterators (iterator.hpp), the two-level
reduction kernel (kernel.hpp) and the two chained kernels (reduce.cpp).
*/
module Reduce {
  import opened Arithmetic
  import opened Folding

  // ---------- iterators

  const TWO_32: nat := 0x1_0000_0000
  const TWO_64: nat := 0x1_0000_0000_0000_0000

  function U32(x: nat): nat { x % TWO_32 }
  function U64(x: nat): nat { x % TWO_64 }

  function Min(a: nat, b: nat): nat { if a < b then a else b }

  /** Which iterator the accelerator uses: contiguous ranges or the grid stride. */
  datatype Kind = Cpu | Gpu

  /** The first index of grid thread l, the first index outside its memory, and its stride. */
  function Begin(kind: Kind, l: nat, grid: nat, n: nat): nat
    requires grid > 0 && n > 0
  {
    if kind.Cpu? then U32(U64(n * l) / Min(grid, n)) else l
  }

  function End(kind: Kind, l: nat, grid: nat, n: nat): nat
    requires grid > 0 && n > 0
  {
    if kind.Cpu? then U32(U64(n * (l + 1)) / Min(grid, n)) else n
  }

  function Stride(kind: Kind, grid: nat): nat
  {
    if kind.Cpu? then 1 else grid
  }

  /** A memory iterator; its operators move the index in place. */
  class Iterator<T> {
    const data: array<T>
    const maximum: nat
    const stride: nat
    var index: nat

    constructor (kind: Kind, data: array<T>, l: nat, grid: nat, n: nat)
      requires grid > 0 && n > 0
      ensures this.data == data && index == Begin(kind, l, grid, n)
      ensures maximum == End(kind, l, grid, n) && stride == Stride(kind, grid)
    {
      this.data := data;
      index := Begin(kind, l, grid, n);
      maximum := End(kind, l, grid, n);
      stride := Stride(kind, grid);
    }

    /** `*(it++)` */
    method Next() returns (x: T)
      requires index < data.Length
      modifies this
      ensures x == data[old(index)] && index == old(index) + stride
    {
      x := data[index];
      index := index + stride;
    }

    /** `*(it + k)` */
    method Peek(k: nat) returns (x: T)
      requires index + k * stride < data.Length
      ensures x == data[index + k * stride]
    {
      x := data[index + k * stride];
    }

    /** `it += k` */
    method Advance(k: nat)
      modifies this
      ensures index == old(index) + k * stride
    {
      index := index + k * stride;
    }
  }

  // ---------- level 1: the accumulation of one thread

  /** acc combined with s[i], s[i + stride], ... below max, from left to right. */
  function FoldFrom<T>(f: (T, T) -> T, acc: T, s: seq<T>, i: nat, stride: nat, max: nat): T
    requires stride > 0 && max <= |s|
    decreases max - i
  {
    if i < max then FoldFrom(f, f(acc, s[i]), s, i + stride, stride, max) else acc
  }

  /** What the thread that starts at `first` accumulates. */
  function ThreadValue<T>(f: (T, T) -> T, s: seq<T>, first: nat, stride: nat, max: nat): T
    requires stride > 0 && first < max <= |s|
  {
    FoldFrom(f, s[first], s, first + stride, stride, max)
  }

  /** The accumulating part of the kernel: a first element, then four at a time, then one at a time. */
  method Accumulate<T(!new)>(f: (T, T) -> T, it: Iterator<T>, threadIndex: nat, n: nat, zero: T) returns (result: T)
    requires Associative(f)
    requires it.stride > 0 && it.maximum <= it.data.Length
    requires threadIndex < n <==> it.index < it.maximum
    modifies it
    ensures threadIndex < n ==> result == ThreadValue(f, it.data[..], old(it.index), it.stride, it.maximum)
  {
    ghost var s, first := it.data[..], it.index;
    result := zero;
    if threadIndex < n {
      result := it.Next();
    }
    while it.index + 3 * it.stride < it.maximum
      invariant threadIndex < n ==>
                  FoldFrom(f, result, s, it.index, it.stride, it.maximum)
                  == ThreadValue(f, s, first, it.stride, it.maximum)
      decreases it.maximum - it.index
    {
      var a := it.Peek(0);
      var b := it.Peek(1);
      var c := it.Peek(2);
      var d := it.Peek(3);
      Unrolled(f, result, s, it.index, it.stride, it.maximum);
      result := f(f(f(result, f(a, b)), c), d);
      it.Advance(4);
    }
    while it.index < it.maximum
      invariant threadIndex < n ==>
                  FoldFrom(f, result, s, it.index, it.stride, it.maximum)
                  == ThreadValue(f, s, first, it.stride, it.maximum)
      decreases it.maximum - it.index
    {
      var x := it.Next();
      result := f(result, x);
    }
  }

  /** One pass of the unrolled loop is four passes of the plain one. */
  lemma Unrolled<T(!new)>(f: (T, T) -> T, acc: T, s: seq<T>, i: nat, stride: nat, max: nat)
    requires Associative(f) && stride > 0 && max <= |s| && i + 3 * stride < max
    ensures FoldFrom(f, acc, s, i, stride, max)
         == FoldFrom(f, f(f(f(acc, f(s[i], s[i + stride])), s[i + 2 * stride]), s[i + 3 * stride]),
                     s, i + 4 * stride, stride, max)
  {
    var j, k, l := i + stride, i + 2 * stride, i + 3 * stride;
    assert AssociativeAt(f, acc, s[i], s[j]);
    assert FoldFrom(f, acc, s, i, stride, max) == FoldFrom(f, f(f(acc, s[i]), s[j]), s, k, stride, max);
    assert FoldFrom(f, f(f(acc, s[i]), s[j]), s, k, stride, max)
        == FoldFrom(f, f(f(f(f(acc, s[i]), s[j]), s[k]), s[l]), s, l + stride, stride, max);
  }

  // ---------- level 2: the tree over the shared memory of a block

  /** One halving step: each thread t < up combines the cell t + up into its own, if that cell is live. */
  function Level<T>(f: (T, T) -> T, sdata: seq<T>, up: nat, live: nat): (r: seq<T>)
    requires live <= |sdata|
    ensures |r| == |sdata|
    ensures forall t :: 0 <= t < |sdata| ==>
                          r[t] == if t < up && t + up < live then f(sdata[t], sdata[t + up]) else sdata[t]
  {
    seq(|sdata|, t requires 0 <= t < |sdata| =>
      if t < up && t + up < live then f(sdata[t], sdata[t + up]) else sdata[t])
  }

  /** All halving steps from the current block size down to one. */
  function Tree<T>(f: (T, T) -> T, sdata: seq<T>, current: nat, live: nat): (r: seq<T>)
    requires live <= |sdata|
    ensures |r| == |sdata|
    decreases current
  {
    if current <= 1 then sdata
    else Tree(f, Level(f, sdata, (current + 1) / 2, live), current / 2, live)
  }

  /** The live cells of the shared memory of the block whose first grid thread is `firstIndex`. */
  function Live(firstIndex: nat, blockSize: nat, n: nat): nat
    requires firstIndex <= n
  {
    Min(blockSize, n - firstIndex)
  }

  /** The halving loop; `firstIndex` is blockIndex * TBlockSize. */
  method TreeReduce<T(!new)>(f: (T, T) -> T, sdata: array<T>, firstIndex: nat, n: nat)
    requires firstIndex <= n
    modifies sdata
    ensures sdata[..] == Tree(f, old(sdata[..]), sdata.Length, Live(firstIndex, sdata.Length, n))
  {
    ghost var live := Live(firstIndex, sdata.Length, n);
    var current: nat, up: nat := sdata.Length, (sdata.Length + 1) / 2;
    while current > 1
      invariant up == (current + 1) / 2
      invariant Tree(f, sdata[..], current, live) == Tree(f, old(sdata[..]), sdata.Length, live)
    {
      ghost var before := sdata[..];
      ghost var after := Level(f, before, up, live);
      for t := 0 to sdata.Length
        invariant forall u :: 0 <= u < sdata.Length ==> sdata[u] == if u < t then after[u] else before[u]
      {
        var cond := t < up && t + up < sdata.Length && firstIndex + t + up < n && t < n;
        if cond {
          sdata[t] := f(sdata[t], sdata[t + up]);
        }
      }
      assert sdata[..] == after;
      current := current / 2;
      up := (current + 1) / 2;
    }
  }

  predicate PowerOfTwo(b: nat)
  {
    b == 1 || (b > 1 && b % 2 == 0 && PowerOfTwo(b / 2))
  }

  lemma LevelIsZip<T>(f: (T, T) -> T, sdata: seq<T>, up: nat, last: nat)
    requires up < last <= 2 * up && last <= |sdata|
    ensures Level(f, sdata, up, last)[..up] == Zip(f, sdata[..up], sdata[up..last])
  {
  }

  /** A halving step keeps the fold of the live prefix. */
  lemma LevelKeepsFold<T(!new)>(f: (T, T) -> T, sdata: seq<T>, up: nat, live: nat)
    requires Associative(f) && Commutative(f) && up > 0 && 0 < live <= |sdata|
    ensures Fold(f, Level(f, sdata, up, Min(2 * up, live))[..Min(up, live)]) == Fold(f, sdata[..Min(2 * up, live)])
  {
    var last := Min(2 * up, live);
    if live <= up {
      assert Level(f, sdata, up, live)[..live] == sdata[..live];
    } else {
      LevelIsZip(f, sdata, up, last);
      FoldZip(f, sdata[..up], sdata[up..last]);
      assert sdata[..up] + sdata[up..last] == sdata[..last];
    }
  }

  /** For a power-of-two block size the first cell ends up with the fold of all live cells. */
  lemma {:induction false} TreeIsFold<T(!new)>(f: (T, T) -> T, sdata: seq<T>, current: nat, live: nat)
    requires Associative(f) && Commutative(f) && PowerOfTwo(current) && 0 < live <= |sdata| && current <= |sdata|
    ensures Tree(f, sdata, current, live)[0] == Fold(f, sdata[..Min(current, live)])
    decreases current
  {
    if current > 1 {
      var up := current / 2;
      assert (current + 1) / 2 == up && 2 * up == current;
      LevelOfPrefix(f, sdata, up, live);
      TreeIsFold(f, Level(f, sdata, up, live), up, live);
      LevelKeepsFold(f, sdata, up, live);
    }
  }

  lemma LevelOfPrefix<T>(f: (T, T) -> T, sdata: seq<T>, up: nat, live: nat)
    requires live <= |sdata|
    ensures Level(f, sdata, up, live) == Level(f, sdata, up, Min(2 * up, live))
  {
  }

  /** The largest power of two that is at most b. */
  function Top(b: nat): (r: nat)
    ensures b >= 1 ==> 1 <= r <= b && (r == b <==> PowerOfTwo(b))
  {
    if b <= 1 then 1 else 2 * Top(b / 2)
  }

  const ADD: (int, int) -> int := (a: int, b: int) => a + b

  /** A halving step at most doubles the largest cell, and there are only log2 of them. */
  lemma {:induction false} TreeBound(sdata: seq<int>, current: nat, live: nat, m: nat)
    requires live <= |sdata| && forall t :: 0 <= t < |sdata| ==> 0 <= sdata[t] <= m
    ensures forall t :: 0 <= t < |sdata| ==> Tree(ADD, sdata, current, live)[t] <= Top(current) * m
    decreases current
  {
    if current > 1 {
      TreeBound(Level(ADD, sdata, (current + 1) / 2, live), current / 2, live, 2 * m);
      assert Top(current / 2) * (2 * m) == Top(current) * m;
    }
  }

  lemma {:induction false} FoldOnes(n: nat)
    requires n > 0
    ensures Fold(ADD, seq(n, _ => 1)) == n
  {
    if n > 1 {
      FoldOnes(n - 1);
      assert seq(n, _ => 1)[..n - 1] == seq(n - 1, _ => 1);
    }
  }

  /** Power-of-two block sizes are exactly those for which the tree over a full block is right: for
      any other size it loses count already when it sums ones. */
  lemma TreeRightIffPowerOfTwo(b: nat)
    requires b > 0
    ensures PowerOfTwo(b) <==> Tree(ADD, seq(b, _ => 1), b, b)[0] == Fold(ADD, seq(b, _ => 1))
  {
    var ones := seq(b, _ => 1);
    FoldOnes(b);
    if PowerOfTwo(b) {
      TreeIsFold(ADD, ones, b, b);
      assert ones[..b] == ones;
    } else {
      TreeBound(ones, b, b, 1);
    }
  }

  // ---------- the halving step under every interleaving

  /** A thread's progress through `sdata[t] = func(sdata[t], sdata[t + up])`. */
  datatype Access<T> = Start | ReadOwn(own: T) | ReadBoth(own: T, other: T) | Done

  datatype LevelState<T> = LevelState(sdata: seq<T>, threads: seq<Access<T>>)

  /** One load or store of thread t. */
  function AccessStep<T>(f: (T, T) -> T, up: nat, live: nat, s: LevelState<T>, t: nat): (s': LevelState<T>)
    requires live <= |s.sdata| == |s.threads|
    ensures |s'.sdata| == |s'.threads| == |s.sdata|
  {
    if t >= |s.threads| then s else
      match s.threads[t]
      case Start => s.(threads := s.threads[t := if t < up && t + up < live then ReadOwn(s.sdata[t]) else Done])
      case ReadOwn(a) =>
        if t + up < live then s.(threads := s.threads[t := ReadBoth(a, s.sdata[t + up])]) else s
      case ReadBoth(a, b) => LevelState(s.sdata[t := f(a, b)], s.threads[t := Done])
      case Done => s
  }

  function RunLevel<T>(f: (T, T) -> T, up: nat, live: nat, sdata: seq<T>, schedule: seq<nat>): (s: LevelState<T>)
    requires live <= |sdata|
    ensures |s.sdata| == |s.threads| == |sdata|
  {
    if schedule == [] then LevelState(sdata, seq(|sdata|, _ => Start))
    else AccessStep(f, up, live, RunLevel(f, up, live, sdata, schedule[..|schedule| - 1]), schedule[|schedule| - 1])
  }

  /** Thread t has only seen values from before the step, and only it has touched its own cell. */
  ghost predicate RaceFree<T>(f: (T, T) -> T, up: nat, live: nat, sdata: seq<T>, s: LevelState<T>, t: nat)
    requires t < live <= |sdata| == |s.sdata| == |s.threads|
  {
    match s.threads[t]
    case Start => s.sdata[t] == sdata[t]
    case ReadOwn(a) => a == s.sdata[t] == sdata[t] && t < up && t + up < live
    case ReadBoth(a, b) => a == s.sdata[t] == sdata[t] && t < up && t + up < live && b == sdata[t + up]
    case Done => s.sdata[t] == Level(f, sdata, up, live)[t]
  }

  lemma AccessKeepsRaceFree<T>(f: (T, T) -> T, up: nat, live: nat, sdata: seq<T>, s: LevelState<T>, t: nat, u: nat)
    requires u < live <= |sdata| == |s.sdata| == |s.threads|
    requires forall v: nat :: v < live ==> RaceFree(f, up, live, sdata, s, v)
    ensures RaceFree(f, up, live, sdata, AccessStep(f, up, live, s, t), u)
  {
    assert RaceFree(f, up, live, sdata, s, u);
    if t == u && s.threads[t].ReadOwn? {
      assert RaceFree(f, up, live, sdata, s, t + up);
    }
  }

  /** In every interleaving of the loads and stores of a halving step no thread sees another's store,
      so when all threads are done the live cells are those of the parallel step. */
  lemma {:induction false} AnyInterleaving<T>(f: (T, T) -> T, up: nat, live: nat, sdata: seq<T>, schedule: seq<nat>)
    requires live <= |sdata|
    ensures var s := RunLevel(f, up, live, sdata, schedule);
            && (forall t: nat :: t < live ==> RaceFree(f, up, live, sdata, s, t))
            && ((forall t :: 0 <= t < live ==> s.threads[t].Done?) ==>
                  s.sdata[..live] == Level(f, sdata, up, live)[..live])
  {
    var s := RunLevel(f, up, live, sdata, schedule);
    if schedule != [] {
      var before, t := schedule[..|schedule| - 1], schedule[|schedule| - 1];
      AnyInterleaving(f, up, live, sdata, before);
      forall u: nat | u < live ensures RaceFree(f, up, live, sdata, s, u) {
        AccessKeepsRaceFree(f, up, live, sdata, RunLevel(f, up, live, sdata, before), t, u);
      }
    }
    if forall t :: 0 <= t < live ==> s.threads[t].Done? {
      forall t: nat | t < live ensures s.sdata[t] == Level(f, sdata, up, live)[t] {
        assert RaceFree(f, up, live, sdata, s, t);
      }
    }
  }

  /** How often thread t is scheduled. */
  function Occurs(t: nat, schedule: seq<nat>): nat
  {
    if schedule == [] then 0
    else Occurs(t, schedule[..|schedule| - 1]) + if schedule[|schedule| - 1] == t then 1 else 0
  }

  /** The accesses a thread has made; a thread without a partner is done after the first look. */
  function Accesses<T>(th: Access<T>): nat
  {
    match th
    case Start => 0
    case ReadOwn(_) => 1
    case ReadBoth(_, _) => 2
    case Done => 3
  }

  lemma {:induction false} EveryAccessCounts<T>(f: (T, T) -> T, up: nat, live: nat, sdata: seq<T>, schedule: seq<nat>,
                                                t: nat)
    requires t < live <= |sdata|
    ensures var done := Accesses(RunLevel(f, up, live, sdata, schedule).threads[t]);
            done >= Occurs(t, schedule) || done == 3
  {
    if schedule != [] {
      var before := schedule[..|schedule| - 1];
      EveryAccessCounts(f, up, live, sdata, before, t);
      AnyInterleaving(f, up, live, sdata, before);
      assert RaceFree(f, up, live, sdata, RunLevel(f, up, live, sdata, before), t);
    }
  }

  /** After three accesses of every live thread, in whatever order, the step is complete. */
  lemma LevelCompletes<T>(f: (T, T) -> T, up: nat, live: nat, sdata: seq<T>, schedule: seq<nat>)
    requires live <= |sdata| && forall t: nat :: t < live ==> Occurs(t, schedule) >= 3
    ensures RunLevel(f, up, live, sdata, schedule).sdata[..live] == Level(f, sdata, up, live)[..live]
  {
    AnyInterleaving(f, up, live, sdata, schedule);
    forall t: nat | t < live ensures RunLevel(f, up, live, sdata, schedule).threads[t].Done? {
      EveryAccessCounts(f, up, live, sdata, schedule, t);
    }
  }

  // ---------- partition of the input over the threads of the grid

  /** Sizes for which no cast truncates and every thread that reads starts inside the input. */
  predicate Fits(kind: Kind, grid: nat, n: nat)
  {
    0 < n < TWO_32 && 0 < grid < TWO_32 && (kind.Cpu? ==> grid <= n)
  }

  /** Where the contiguous range of grid thread l starts. */
  function Boundary(n: nat, l: nat, grid: nat): nat
    requires grid > 0
  {
    n * l / grid
  }

  lemma Product(a: nat, b: nat)
    requires a < TWO_32 && b < TWO_32
    ensures a * b < TWO_64
  {
    MulMonotone(a, b, TWO_32);
  }

  lemma Unwrapped(x: nat)
    requires x < TWO_32
    ensures U32(x) == x
  {
  }

  lemma Unwrapped64(x: nat)
    requires x < TWO_64
    ensures U64(x) == x
  {
  }

  lemma QuotientFits(x: nat, n: nat, grid: nat)
    requires x < TWO_64 && n < TWO_32 && grid > 0 && x <= n * grid
    ensures U32(U64(x) / grid) == x / grid <= n
  {
    DivBound(x, n, grid);
    Unwrapped64(x);
    Unwrapped(x / grid);
  }

  lemma NoTruncation(n: nat, l: nat, grid: nat)
    requires 0 < n < TWO_32 && 0 < grid < TWO_32 && l <= grid
    ensures U32(U64(n * l) / grid) == Boundary(n, l, grid) <= n
  {
    Product(n, l);
    MulMonotone(n, l, grid);
    QuotientFits(n * l, n, grid);
  }

  lemma CpuRange(l: nat, grid: nat, n: nat)
    requires Fits(Cpu, grid, n) && l < grid
    ensures Begin(Cpu, l, grid, n) == Boundary(n, l, grid)
    ensures End(Cpu, l, grid, n) == Boundary(n, l + 1, grid)
    ensures Boundary(n, l, grid) < Boundary(n, l + 1, grid) <= n
  {
    NoTruncation(n, l, grid);
    NoTruncation(n, l + 1, grid);
    assert n * (l + 1) == n * l + n;
    DivStep(n * l, n, grid);
  }

  lemma DivStep(a: nat, b: nat, d: nat)
    requires 0 < d <= b
    ensures a / d < (a + b) / d
  {
    var q := (a + b) / d;
    assert a + b < d * q + d;
    if q <= a / d {
      MulMonotone(d, q, a / d);
      assert false;
    }
  }

  lemma DivBound(a: nat, b: nat, d: nat)
    requires 0 < d && a <= b * d
    ensures a / d <= b
  {
    if a / d >= b + 1 {
      MulMonotone(d, b + 1, a / d);
      assert false;
    }
  }

  lemma GridRange(kind: Kind, l: nat, grid: nat, n: nat)
    requires Fits(kind, grid, n) && l < Min(grid, n)
    ensures Begin(kind, l, grid, n) < End(kind, l, grid, n) <= n
  {
    if kind.Cpu? { CpuRange(l, grid, n); }
  }

  /** The accumulated values of the grid threads that have any input. */
  function Values<T>(f: (T, T) -> T, kind: Kind, s: seq<T>, grid: nat): (r: seq<T>)
    requires Fits(kind, grid, |s|)
    ensures |r| == Min(grid, |s|)
  {
    seq(Min(grid, |s|), l requires 0 <= l < Min(grid, |s|) =>
      GridRange(kind, l, grid, |s|);
      ThreadValue(f, s, Begin(kind, l, grid, |s|), Stride(kind, grid), End(kind, l, grid, |s|)))
  }

  lemma {:induction false} ContiguousIsFold<T>(f: (T, T) -> T, s: seq<T>, first: nat, i: nat, max: nat)
    requires first < i <= max <= |s|
    ensures FoldFrom(f, Fold(f, s[first..i]), s, i, 1, max) == Fold(f, s[first..max])
    decreases max - i
  {
    if i < max {
      assert s[first..i + 1][..i - first] == s[first..i];
      ContiguousIsFold(f, s, first, i + 1, max);
    }
  }

  /** Contiguous ranges keep the order of the input, so associativity suffices. */
  lemma CpuThread<T(!new)>(f: (T, T) -> T, s: seq<T>, grid: nat, l: nat)
    requires Fits(Cpu, grid, |s|) && l < grid
    ensures Boundary(|s|, l, grid) < Boundary(|s|, l + 1, grid) <= |s|
    ensures Values(f, Cpu, s, grid)[l] == Fold(f, s[Boundary(|s|, l, grid)..Boundary(|s|, l + 1, grid)])
  {
    CpuRange(l, grid, |s|);
    var first, last := Boundary(|s|, l, grid), Boundary(|s|, l + 1, grid);
    assert s[first..first + 1] == [s[first]];
    ContiguousIsFold(f, s, first, first + 1, last);
  }

  lemma {:induction false} CpuPartition<T(!new)>(f: (T, T) -> T, s: seq<T>, grid: nat, l: nat)
    requires Associative(f) && Fits(Cpu, grid, |s|) && l < grid
    ensures 0 < Boundary(|s|, l + 1, grid) <= |s|
    ensures Fold(f, Values(f, Cpu, s, grid)[..l + 1]) == Fold(f, s[..Boundary(|s|, l + 1, grid)])
  {
    var v := Values(f, Cpu, s, grid);
    var first, last := Boundary(|s|, l, grid), Boundary(|s|, l + 1, grid);
    CpuThread(f, s, grid, l);
    if l == 0 {
      assert v[..1] == [v[0]] && first == 0;
    } else {
      CpuPartition(f, s, grid, l - 1);
      AppendRange(f, s, v, l, first, last);
    }
  }

  lemma AppendRange<T(!new)>(f: (T, T) -> T, s: seq<T>, v: seq<T>, l: nat, first: nat, last: nat)
    requires Associative(f) && 0 < l < |v| && 0 < first < last <= |s|
    requires Fold(f, v[..l]) == Fold(f, s[..first]) && v[l] == Fold(f, s[first..last])
    ensures Fold(f, v[..l + 1]) == Fold(f, s[..last])
  {
    FoldConcat(f, s[..first], s[first..last]);
    assert s[..first] + s[first..last] == s[..last];
    assert v[..l + 1][..l] == v[..l];
  }

  /** The values of the lanes of a strided grid after the first k inputs. */
  function Lanes<T>(f: (T, T) -> T, s: seq<T>, grid: nat, k: nat): (r: seq<T>)
    requires grid > 0 && k <= |s|
    ensures |r| == Min(grid, k)
  {
    if k <= grid then s[..k]
    else
      var lanes := Lanes(f, s, grid, k - 1);
      var l := (k - 1) % grid;
      lanes[l := f(lanes[l], s[k - 1])]
  }

  /** The lanes together hold all the inputs: this is where commutativity is needed. */
  lemma {:induction false} LanesFold<T(!new)>(f: (T, T) -> T, s: seq<T>, grid: nat, k: nat)
    requires Associative(f) && Commutative(f) && grid > 0 && 0 < k <= |s|
    ensures Fold(f, Lanes(f, s, grid, k)) == Fold(f, s[..k])
  {
    if k > grid {
      LanesFold(f, s, grid, k - 1);
      FoldUpdate(f, Lanes(f, s, grid, k - 1), (k - 1) % grid, s[k - 1]);
      assert s[..k][..k - 1] == s[..k - 1];
    }
  }

  /** One more input reaches exactly the threads whose index is congruent to its own. */
  lemma {:induction false} FoldFromExtend<T>(f: (T, T) -> T, acc: T, s: seq<T>, i: nat, grid: nat, k: nat)
    requires grid > 0 && k < |s|
    ensures FoldFrom(f, acc, s, i, grid, k + 1)
         == if i <= k && (k - i) % grid == 0 then f(FoldFrom(f, acc, s, i, grid, k), s[k])
            else FoldFrom(f, acc, s, i, grid, k)
    decreases k + 1 - i
  {
    if i < k {
      FoldFromExtend(f, f(acc, s[i]), s, i + grid, grid, k);
      ModSkip(k - i, grid);
    }
  }

  lemma ModSkip(a: nat, d: nat)
    requires d > 0
    ensures a >= d ==> (a - d) % d == a % d
    ensures a < d ==> a % d == a
  {
    if a >= d {
      var q := (a - d) / d;
      assert a == d * (q + 1) + (a - d) % d;
      DivModUnique(a, d, q + 1, (a - d) % d);
    } else {
      DivModUnique(a, d, 0, a);
    }
  }

  lemma {:induction false} LaneIsThread<T>(f: (T, T) -> T, s: seq<T>, grid: nat, k: nat, l: nat)
    requires grid > 0 && k <= |s| && l < Min(grid, k)
    ensures Lanes(f, s, grid, k)[l] == ThreadValue(f, s, l, grid, k)
  {
    if k > grid {
      LaneIsThread(f, s, grid, k - 1, l);
      FoldFromExtend(f, s[l], s, l + grid, grid, k - 1);
      LaneOf(k - 1, l, grid);
    }
  }

  lemma LaneOf(k: nat, l: nat, grid: nat)
    requires grid > 0 && l < grid <= k
    ensures (l + grid <= k && (k - l - grid) % grid == 0) <==> k % grid == l
  {
    var q, x := k / grid, k % grid;
    assert k == grid * q + x;
    if x == l {
      assert q >= 1;
      assert k - l - grid == grid * (q - 1) + 0;
      DivModUnique(k - l - grid, grid, q - 1, 0);
    }
    if l + grid <= k && (k - l - grid) % grid == 0 {
      var p := (k - l - grid) / grid;
      assert k == grid * (p + 1) + l;
      DivModUnique(k, grid, p + 1, l);
    }
  }

  lemma GpuPartition<T(!new)>(f: (T, T) -> T, s: seq<T>, grid: nat)
    requires Associative(f) && Commutative(f) && Fits(Gpu, grid, |s|)
    ensures Fold(f, Values(f, Gpu, s, grid)) == Fold(f, s)
  {
    var v, lanes := Values(f, Gpu, s, grid), Lanes(f, s, grid, |s|);
    forall l: nat | l < |v| ensures v[l] == lanes[l] { LaneIsThread(f, s, grid, |s|, l); }
    assert v == lanes;
    LanesFold(f, s, grid, |s|);
    assert s[..|s|] == s;
  }

  lemma BoundaryLast(n: nat, grid: nat)
    requires grid > 0
    ensures Boundary(n, grid, grid) == n
  {
    DivModUnique(n * grid, grid, n, 0);
  }

  lemma CpuWhole<T(!new)>(f: (T, T) -> T, s: seq<T>, grid: nat)
    requires Associative(f) && Fits(Cpu, grid, |s|)
    ensures Fold(f, Values(f, Cpu, s, grid)) == Fold(f, s)
  {
    var v := Values(f, Cpu, s, grid);
    CpuPartition(f, s, grid, grid - 1);
    BoundaryLast(|s|, grid);
    assert v[..grid] == v;
    assert s[..|s|] == s;
  }

  /** The threads of the grid together accumulate the fold of the whole input. */
  lemma ValuesFold<T(!new)>(f: (T, T) -> T, kind: Kind, s: seq<T>, grid: nat)
    requires Associative(f) && (kind.Gpu? ==> Commutative(f)) && Fits(kind, grid, |s|)
    ensures Fold(f, Values(f, kind, s, grid)) == Fold(f, s)
  {
    match kind
    case Cpu => CpuWhole(f, s, grid);
    case Gpu => GpuPartition(f, s, grid);
  }

  // ---------- the kernel

  /** The share of v that the block whose first thread is `first` reduces. */
  function Chunk<T>(v: seq<T>, first: nat, blockSize: nat): seq<T>
    requires first <= |v|
  {
    v[first..Min(first + blockSize, |v|)]
  }

  ghost predicate IsChunkFold<T>(f: (T, T) -> T, x: T, v: seq<T>, first: nat, blockSize: nat)
  {
    first < |v| && blockSize > 0 && x == Fold(f, Chunk(v, first, blockSize))
  }

  /** Either every grid thread has input, or there is a single, possibly partly filled, block. */
  predicate Covered(first: nat, blockSize: nat, grid: nat, n: nat)
  {
    first + blockSize <= grid && (grid <= n || (first == 0 && grid == blockSize))
  }

  /** Level 1: every thread of the block stores its accumulated value, if it has one. */
  method GridReduce<T(!new)>(f: (T, T) -> T, source: array<T>, sdata: array<T>, kind: Kind,
                             first: nat, grid: nat, n: nat, zero: T)
    requires source != sdata && source.Length == n
    requires Associative(f) && Fits(kind, grid, n) && Covered(first, sdata.Length, grid, n)
    modifies sdata
    ensures first <= Min(grid, n)
    ensures sdata[..Live(first, sdata.Length, n)] == Chunk(Values(f, kind, source[..], grid), first, sdata.Length)
  {
    ghost var live, v := Live(first, sdata.Length, n), Values(f, kind, source[..], grid);
    for threadIndex := 0 to sdata.Length
      invariant forall t :: 0 <= t < threadIndex && t < live ==> sdata[t] == v[first + t]
    {
      var l := first + threadIndex;
      if l < n { GridRange(kind, l, grid, n); }
      var it := new Iterator(kind, source, l, grid, n);
      var result := Accumulate(f, it, threadIndex, n, zero);
      if threadIndex < n {
        sdata[threadIndex] := result;
      }
    }
    ChunkOfLive(sdata[..], v, first, grid, n);
  }

  lemma ChunkOfLive<T>(sdata: seq<T>, v: seq<T>, first: nat, grid: nat, n: nat)
    requires Covered(first, |sdata|, grid, n) && first <= n && |v| == Min(grid, n)
    requires forall t :: 0 <= t < Live(first, |sdata|, n) ==> sdata[t] == v[first + t]
    ensures sdata[..Live(first, |sdata|, n)] == Chunk(v, first, |sdata|)
  {
    assert Min(first + |sdata|, |v|) == first + Live(first, |sdata|, n);
  }

  /** A block of one thread needs no tree, so only larger ones need commutativity. */
  lemma TreeOfBlock<T(!new)>(f: (T, T) -> T, kind: Kind, sdata: seq<T>, live: nat)
    requires Associative(f) && PowerOfTwo(|sdata|) && 0 < live <= |sdata|
    requires if kind.Gpu? then Commutative(f) else |sdata| == 1
    ensures Tree(f, sdata, |sdata|, live)[0] == Fold(f, sdata[..live])
  {
    if kind.Gpu? { TreeIsFold(f, sdata, |sdata|, live); }
  }

  /** Both levels for one block; `first` is blockIndex * TBlockSize. */
  method Block<T(!new)>(f: (T, T) -> T, source: array<T>, kind: Kind,
                        first: nat, blockSize: nat, grid: nat, n: nat, zero: T)
    returns (r: T)
    requires source.Length == n && first < n
    requires Associative(f) && Fits(kind, grid, n) && Covered(first, blockSize, grid, n)
    requires PowerOfTwo(blockSize) && if kind.Gpu? then Commutative(f) else blockSize == 1
    ensures IsChunkFold(f, r, Values(f, kind, source[..], grid), first, blockSize)
  {
    var sdata := new T[blockSize](_ => zero);
    GridReduce(f, source, sdata, kind, first, grid, n, zero);
    ghost var live := Live(first, blockSize, n);
    TreeOfBlock(f, kind, sdata[..], live);
    TreeReduce(f, sdata, first, n);
    r := sdata[0];
  }

  /** The first grid thread of block b: b * blockSize, by repeated addition. */
  function FirstThread(b: nat, blockSize: nat): nat
  {
    if b == 0 then 0 else FirstThread(b - 1, blockSize) + blockSize
  }

  lemma {:induction false} FirstThreadIsProduct(b: nat, blockSize: nat)
    ensures FirstThread(b, blockSize) == b * blockSize
  {
    if b > 0 {
      FirstThreadIsProduct(b - 1, blockSize);
      assert b * blockSize == (b - 1) * blockSize + blockSize;
    }
  }

  lemma {:induction false} NextBlock(b: nat, count: nat, blockSize: nat)
    requires b < count
    ensures FirstThread(b, blockSize) + blockSize <= FirstThread(count, blockSize)
    decreases count
  {
    if b + 1 < count { NextBlock(b, count - 1, blockSize); }
  }

  lemma PrefixChunk<T>(f: (T, T) -> T, x: T, v: seq<T>, first: nat, end: nat, blockSize: nat)
    requires IsChunkFold(f, x, v, first, blockSize) && first + blockSize <= end <= |v|
    ensures IsChunkFold(f, x, v[..end], first, blockSize)
  {
    assert Chunk(v[..end], first, blockSize) == Chunk(v, first, blockSize);
  }

  lemma LastChunk<T>(v: seq<T>, first: nat, blockSize: nat)
    requires first <= |v| <= first + blockSize
    ensures Chunk(v, first, blockSize) == v[first..] && v[..first] + v[first..] == v
  {
  }

  /** Each block's fold is that of its own share of v. */
  ghost predicate Shares<T>(f: (T, T) -> T, folds: seq<T>, v: seq<T>, blockSize: nat)
  {
    forall b: nat :: b < |folds| ==> IsChunkFold(f, folds[b], v, FirstThread(b, blockSize), blockSize)
  }

  /** The fold of the blocks' folds is the fold of everything they share out, in order. */
  lemma {:induction false} BlocksFold<T(!new)>(f: (T, T) -> T, v: seq<T>, folds: seq<T>, blockSize: nat)
    requires Associative(f) && |folds| > 0 && 0 < |v| <= FirstThread(|folds|, blockSize)
    requires Shares(f, folds, v, blockSize)
    ensures Fold(f, folds) == Fold(f, v)
  {
    var k := |folds| - 1;
    var first := FirstThread(k, blockSize);
    assert IsChunkFold(f, folds[k], v, first, blockSize);
    LastChunk(v, first, blockSize);
    if k > 0 {
      NextBlock(0, k, blockSize);
      forall b: nat | b < k ensures IsChunkFold(f, folds[..k][b], v[..first], FirstThread(b, blockSize), blockSize) {
        NextBlock(b, k, blockSize);
        PrefixChunk(f, folds[b], v, FirstThread(b, blockSize), first, blockSize);
      }
      BlocksFold(f, v[..first], folds[..k], blockSize);
      FoldConcat(f, v[..first], v[first..]);
    }
  }

  /** All blocks of a grid of `grid` threads, one after the other: blocks share no memory they write. */
  method Blocks<T(!new)>(f: (T, T) -> T, source: array<T>, destination: array<T>, kind: Kind,
                         gridDimension: nat, blockSize: nat, grid: nat, n: nat, zero: T)
    requires source.Length == n && gridDimension <= destination.Length
    requires grid == FirstThread(gridDimension, blockSize)
    requires gridDimension == 1 || (source != destination && grid <= n)
    requires Associative(f) && Fits(kind, grid, n)
    requires PowerOfTwo(blockSize) && if kind.Gpu? then Commutative(f) else blockSize == 1
    modifies destination
    ensures destination[gridDimension..] == old(destination[gridDimension..])
    ensures Shares(f, destination[..gridDimension], Values(f, kind, old(source[..]), grid), blockSize)
  {
    ghost var v := Values(f, kind, source[..], grid);
    var first := 0;
    for blockIndex := 0 to gridDimension
      invariant first == FirstThread(blockIndex, blockSize)
      invariant source != destination || blockIndex == 0 ==> source[..] == old(source[..])
      invariant Shares(f, destination[..blockIndex], v, blockSize)
      invariant destination[blockIndex..] == old(destination[blockIndex..])
    {
      NextBlock(blockIndex, gridDimension, blockSize);
      var r := Block(f, source, kind, first, blockSize, grid, n, zero);
      ghost var before := destination[..blockIndex];
      destination[blockIndex] := r;
      assert destination[..blockIndex + 1] == before + [r];
      first := first + blockSize;
    }
  }

  /** The kernel over its whole grid. A single block may reduce in place. */
  method Kernel<T(!new)>(f: (T, T) -> T, source: array<T>, destination: array<T>, kind: Kind,
                         gridDimension: nat, blockSize: nat, n: nat, zero: T)
    requires source.Length == n && gridDimension <= destination.Length
    requires gridDimension == 1 || (source != destination && gridDimension * blockSize <= n)
    requires Associative(f) && Fits(kind, gridDimension * blockSize, n)
    requires PowerOfTwo(blockSize) && if kind.Gpu? then Commutative(f) else blockSize == 1
    modifies destination
    ensures destination[gridDimension..] == old(destination[gridDimension..])
    ensures gridDimension > 0 && Fold(f, destination[..gridDimension]) == Fold(f, old(source[..]))
  {
    var grid := gridDimension * blockSize;
    FirstThreadIsProduct(gridDimension, blockSize);
    Blocks(f, source, destination, kind, gridDimension, blockSize, grid, n, zero);
    ghost var v := Values(f, kind, old(source[..]), grid);
    BlocksFold(f, v, destination[..gridDimension], blockSize);
    ValuesFold(f, kind, old(source[..]), grid);
  }

  // ---------- the two chained kernels

  /** The most blocks that still give every grid thread something to do. */
  function MaxBlockCount(n: nat, blockSize: nat): nat
    requires n > 0 && blockSize > 0
  {
    U32(((n + 1) / 2 - 1) / blockSize + 1)
  }

  /** It is half of n divided by the block size, both rounded up. */
  lemma MaxBlockCountBound(n: nat, blockSize: nat)
    requires 0 < n < TWO_32 && blockSize > 0
    ensures 0 < MaxBlockCount(n, blockSize) <= n
    ensures (MaxBlockCount(n, blockSize) - 1) * blockSize < (n + 1) / 2 <= MaxBlockCount(n, blockSize) * blockSize
  {
    var half := (n + 1) / 2 - 1;
    MulMonotone(half, 1, blockSize);
    DivBound(half, half, blockSize);
    Unwrapped(half / blockSize + 1);
    DivModBack(half, blockSize);
    assert (half / blockSize + 1) * blockSize == half / blockSize * blockSize + blockSize;
  }

  /** A smaller block count is as good, and it never leaves a grid thread without input unless there
      is only one block. */
  lemma BlockCountFits(kind: Kind, count: nat, n: nat, blockSize: nat)
    requires 0 < n < TWO_32 && 0 < blockSize < TWO_32 && (kind.Cpu? ==> blockSize == 1)
    requires 0 < count <= MaxBlockCount(n, blockSize)
    ensures count <= n && (count == 1 || count * blockSize <= n)
    ensures Fits(kind, count * blockSize, n) && Fits(kind, blockSize, count)
  {
    MaxBlockCountBound(n, blockSize);
    AtMostHalf(count, MaxBlockCount(n, blockSize), n, blockSize);
  }

  lemma AtMostHalf(count: nat, most: nat, n: nat, blockSize: nat)
    requires 0 < count <= most && (most - 1) * blockSize < (n + 1) / 2
    ensures count == 1 || count * blockSize <= n
  {
    if count > 1 {
      MulMonotone(blockSize, count - 1, most - 1);
      MulMonotone(blockSize, count, 2 * (count - 1));
    }
  }

  /** Both kernels: the second reduces the first one's block results in place with a single block. */
  method Reduce<T(!new)>(f: (T, T) -> T, hostMemory: array<T>, kind: Kind,
                         multiProcessorCount: nat, blockSize: nat, zero: T)
    returns (result: T)
    requires 0 < hostMemory.Length < TWO_32 && 0 < multiProcessorCount * 8 < TWO_32 && blockSize < TWO_32
    requires Associative(f)
    requires PowerOfTwo(blockSize) && if kind.Gpu? then Commutative(f) else blockSize == 1
    ensures result == Fold(f, hostMemory[..])
  {
    var n := hostMemory.Length;
    var blockCount, maxBlockCount := U32(multiProcessorCount * 8), MaxBlockCount(n, blockSize);
    if blockCount > maxBlockCount {
      blockCount := maxBlockCount;
    }
    Unwrapped(multiProcessorCount * 8);
    MaxBlockCountBound(n, blockSize);
    BlockCountFits(kind, blockCount, n, blockSize);
    var source := new T[n](i requires 0 <= i < n reads hostMemory => hostMemory[i]);
    var destination := new T[blockCount](_ => zero);
    assert source[..] == hostMemory[..];
    Kernel(f, source, destination, kind, blockCount, blockSize, n, zero);
    assert destination[..blockCount] == destination[..];
    Kernel(f, destination, destination, kind, 1, blockSize, blockCount, zero);
    result := destination[0];
  }
}
