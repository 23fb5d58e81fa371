/**
The element loop of the counter-based random number kernel (example/counterBasedRng) and the grid of
threads that runs it (include/alpaka/idx/Accessors.hpp).
*/
module ElemLoop {
  import opened Arithmetic
  import opened IndexMaps

  const TWO_32: nat := 0x1_0000_0000

  /** The four-word counter a cell's value is generated from: its index, padded with zeros. */
  function Counter(idx: seq<nat>): (c: seq<nat>)
    ensures |c| == 4
  {
    [Word(idx, 0), Word(idx, 1), Word(idx, 2), Word(idx, 3)]
  }

  function Word(idx: seq<nat>, i: nat): nat
  {
    if i < |idx| then idx[i] % TWO_32 else 0
  }

  /** The first words are those of the index, cut to 32 bits; the others are zero. */
  lemma CounterIsPadded(idx: seq<nat>, j: nat)
    requires |idx| <= 4 && j < 4
    ensures Counter(idx)[j] == if j < |idx| then idx[j] % 0x1_0000_0000 else 0
  {
  }

  /** Different cells of a buffer whose extents fit 32 bits have different counters, so no value of the
      generator's sequence is used twice. */
  lemma CountersDiffer(a: seq<nat>, b: seq<nat>, extents: seq<nat>)
    requires |extents| <= 4 && InBox(a, extents) && InBox(b, extents)
    requires forall d :: 0 <= d < |extents| ==> extents[d] <= 0x1_0000_0000
    ensures Counter(a) == Counter(b) <==> a == b
  {
    if Counter(a) == Counter(b) {
      forall d | 0 <= d < |extents| ensures a[d] == b[d] {
        assert Counter(a)[d] == Counter(b)[d];
        ModSmall(a[d], TWO_32);
        ModSmall(b[d], TWO_32);
      }
    }
  }

  /** The cells of a buffer and how often each has been written. */
  datatype Contents<T> = Contents(cells: map<seq<nat>, T>, writes: map<seq<nat>, nat>)

  /** The cells of a buffer are those of the box of its extents. */
  ghost predicate CellsOf<T>(s: Contents<T>, extents: seq<nat>)
  {
    && |extents| <= 4 && s.writes.Keys == s.cells.Keys
    && forall idx: seq<nat> :: idx in s.cells.Keys <==> InBox(idx, extents)
  }

  ghost function WithCell<T>(s: Contents<T>, idx: seq<nat>, x: T): Contents<T>
    requires idx in s.writes
  {
    Contents(s.cells[idx := x], s.writes[idx := s.writes[idx] + 1])
  }

  /** The contents after every cell of a region has been written once, with the value of its own index. */
  ghost function Written<T>(gen: seq<nat> -> T, region: iset<seq<nat>>, s: Contents<T>): Contents<T>
  {
    Contents(map idx | idx in s.cells :: if idx in region then gen(Counter(idx)) else s.cells[idx],
             map idx | idx in s.writes :: s.writes[idx] + if idx in region then 1 else 0)
  }

  /** A buffer of any dimension up to four. */
  class BufferAccessor<T> {
    const extents: seq<nat>
    var cells: map<seq<nat>, T>
    ghost var writes: map<seq<nat>, nat>

    ghost function State(): Contents<T>
      reads this
    {
      Contents(cells, writes)
    }

    ghost predicate Valid()
      reads this
    {
      CellsOf(State(), extents)
    }

    constructor (extents: seq<nat>, cells: map<seq<nat>, T>, ghost writes: map<seq<nat>, nat>)
      requires CellsOf(Contents(cells, writes), extents)
      ensures Valid() && this.extents == extents && State() == Contents(cells, writes)
    {
      this.extents := extents;
      this.cells := cells;
      this.writes := writes;
    }

    method Write(idx: seq<nat>, x: T)
      requires Valid() && InBox(idx, extents)
      modifies this
      ensures Valid() && State() == WithCell(old(State()), idx, x)
    {
      assert cells[idx := x].Keys == cells.Keys && writes[idx := writes[idx] + 1].Keys == writes.Keys;
      cells := cells[idx := x];
      writes := writes[idx := writes[idx] + 1];
    }
  }

  // ---------- one thread

  /** Where the elements of a thread end in one dimension: at its extent or at that of the buffer. */
  function ClippedEnd(extent: nat, count: nat, first: nat): nat
  {
    if extent > first + count then first + count else extent
  }

  /** Cell idx is among those elemLoop<I> writes while its own component runs from first[I] up to last:
      the components before I are fixed, those after it run over the whole share of the thread. */
  ghost predicate InRange(idx: seq<nat>, extents: seq<nat>, count: seq<nat>, first: seq<nat>, I: nat, last: nat)
    requires I < |extents| == |count| == |first|
  {
    && |idx| == |extents|
    && (forall d :: 0 <= d < I ==> idx[d] == first[d])
    && first[I] <= idx[I] < last
    && (forall d :: I < d < |idx| ==> first[d] <= idx[d] < ClippedEnd(extents[d], count[d], first[d]))
  }

  ghost function Range(extents: seq<nat>, count: seq<nat>, first: seq<nat>, I: nat, last: nat): iset<seq<nat>>
    requires I < |extents| == |count| == |first|
  {
    iset idx | InRange(idx, extents, count, first, I, last)
  }

  /** All that elemLoop<I> writes. */
  ghost function Share(extents: seq<nat>, count: seq<nat>, first: seq<nat>, I: nat): iset<seq<nat>>
    requires I < |extents| == |count| == |first|
  {
    Range(extents, count, first, I, ClippedEnd(extents[I], count[I], first[I]))
  }

  /** Disjoint regions written one after the other. */
  lemma WrittenBoth<T>(gen: seq<nat> -> T, a: iset<seq<nat>>, b: iset<seq<nat>>, s: Contents<T>)
    requires a !! b
    ensures Written(gen, b, Written(gen, a, s)) == Written(gen, a + b, s)
  {
  }

  /** An index vector passed by reference. */
  class Vec {
    var v: seq<nat>

    constructor (v: seq<nat>)
      ensures this.v == v
    {
      this.v := v;
    }
  }

  /** elemLoop<I>: it advances component I of the index in place and restores it. */
  method ElemLoop<T>(dst: BufferAccessor<T>, gen: seq<nat> -> T, threadElemExtent: seq<nat>, threadFirstElemIdx: Vec,
                     I: nat)
    requires dst.Valid() && I < |threadFirstElemIdx.v| == |threadElemExtent| == |dst.extents|
    requires forall d :: 0 <= d < I ==> threadFirstElemIdx.v[d] < dst.extents[d]
    modifies dst, threadFirstElemIdx
    ensures dst.Valid() && threadFirstElemIdx.v == old(threadFirstElemIdx.v)
    ensures dst.State() == Written(gen, Share(dst.extents, threadElemExtent, threadFirstElemIdx.v, I), old(dst.State()))
    decreases |dst.extents| - I, 1
  {
    var threadLastElemIdx := threadFirstElemIdx.v[I] + threadElemExtent[I];
    var threadLastElemIdxClipped := if dst.extents[I] > threadLastElemIdx then threadLastElemIdx else dst.extents[I];
    var firstElem := threadFirstElemIdx.v[I];
    assert threadLastElemIdxClipped == ClippedEnd(dst.extents[I], threadElemExtent[I], firstElem);
    if I < |threadFirstElemIdx.v| - 1 {
      Rows(dst, gen, threadElemExtent, threadFirstElemIdx, I, threadLastElemIdxClipped);
    } else {
      Cells(dst, gen, threadElemExtent, threadFirstElemIdx, I, threadLastElemIdxClipped);
    }
    SetTwice(old(threadFirstElemIdx.v), I, threadFirstElemIdx.v[I], firstElem);
    SetSame(old(threadFirstElemIdx.v), I);
    threadFirstElemIdx.v := threadFirstElemIdx.v[I := firstElem];
  }

  /** The loop over a dimension that is not the last one. */
  method Rows<T>(dst: BufferAccessor<T>, gen: seq<nat> -> T, threadElemExtent: seq<nat>, threadFirstElemIdx: Vec,
                 I: nat, last: nat)
    requires dst.Valid() && I + 1 < |threadFirstElemIdx.v| == |threadElemExtent| == |dst.extents|
    requires last <= dst.extents[I]
    requires forall d :: 0 <= d < I ==> threadFirstElemIdx.v[d] < dst.extents[d]
    modifies dst, threadFirstElemIdx
    ensures dst.Valid() && |threadFirstElemIdx.v| == |dst.extents|
    ensures threadFirstElemIdx.v == old(threadFirstElemIdx.v)[I := threadFirstElemIdx.v[I]]
    ensures dst.State() == Written(gen, Range(dst.extents, threadElemExtent, old(threadFirstElemIdx.v), I, last),
                                   old(dst.State()))
    decreases |dst.extents| - I, 0
  {
    ghost var first, start := threadFirstElemIdx.v, dst.State();
    ghost var cur := first[I];
    EmptyRange(gen, dst.extents, threadElemExtent, first, I, start);
    while threadFirstElemIdx.v[I] < last
      invariant dst.Valid() && threadFirstElemIdx.v == first[I := cur] && (first[I] == cur || first[I] < cur <= last)
      invariant dst.State() == Written(gen, Range(dst.extents, threadElemExtent, first, I, cur), start)
      decreases last as int - cur
    {
      ElemLoop(dst, gen, threadElemExtent, threadFirstElemIdx, I + 1);
      var next := threadFirstElemIdx.v[I] + 1;
      NextRow(gen, dst.extents, threadElemExtent, first, I, cur, next, start);
      SetTwice(first, I, cur, next);
      threadFirstElemIdx.v := threadFirstElemIdx.v[I := next];
      cur := next;
    }
    BeyondLast(dst.extents, threadElemExtent, first, I, cur, last);
  }

  /** The loop over the last dimension: the counter follows its last component. */
  method Cells<T>(dst: BufferAccessor<T>, gen: seq<nat> -> T, threadElemExtent: seq<nat>, threadFirstElemIdx: Vec,
                  I: nat, last: nat)
    requires dst.Valid() && I + 1 == |threadFirstElemIdx.v| == |threadElemExtent| == |dst.extents|
    requires last <= dst.extents[I]
    requires forall d :: 0 <= d < I ==> threadFirstElemIdx.v[d] < dst.extents[d]
    modifies dst, threadFirstElemIdx
    ensures dst.Valid() && |threadFirstElemIdx.v| == |dst.extents|
    ensures threadFirstElemIdx.v == old(threadFirstElemIdx.v)[I := threadFirstElemIdx.v[I]]
    ensures dst.State() == Written(gen, Range(dst.extents, threadElemExtent, old(threadFirstElemIdx.v), I, last),
                                   old(dst.State()))
  {
    ghost var first, start := threadFirstElemIdx.v, dst.State();
    ghost var cur := first[I];
    EmptyRange(gen, dst.extents, threadElemExtent, first, I, start);
    var c: seq<nat> := FirstCounter(threadFirstElemIdx.v);
    while threadFirstElemIdx.v[I] < last
      invariant dst.Valid() && threadFirstElemIdx.v == first[I := cur] && (first[I] == cur || first[I] < cur <= last)
      invariant SameButOne(c, Counter(first), I)
      invariant dst.State() == Written(gen, Range(dst.extents, threadElemExtent, first, I, cur), start)
      decreases last as int - cur
    {
      c := Generate(dst, gen, c, threadFirstElemIdx.v, first, I);
      var next := threadFirstElemIdx.v[I] + 1;
      NextRow(gen, dst.extents, threadElemExtent, first, I, cur, next, start);
      SetTwice(first, I, cur, next);
      threadFirstElemIdx.v := threadFirstElemIdx.v[I := next];
      cur := next;
    }
    BeyondLast(dst.extents, threadElemExtent, first, I, cur, last);
  }

  /** One pass of that loop: only the last word of the counter is set anew. */
  method Generate<T>(dst: BufferAccessor<T>, gen: seq<nat> -> T, c: seq<nat>, idx: seq<nat>, ghost first: seq<nat>,
                     I: nat)
    returns (c': seq<nat>)
    requires dst.Valid() && InBox(idx, dst.extents) && I + 1 == |idx| == |first| && idx == first[I := idx[I]]
    requires SameButOne(c, Counter(first), I)
    modifies dst
    ensures dst.Valid() && dst.State() == Written(gen, iset{idx}, old(dst.State()))
    ensures SameButOne(c', Counter(first), I)
  {
    CounterStep(c, first, I, idx[I]);
    c' := c[I := idx[I] % TWO_32];
    WrittenCell(gen, idx, dst.State());
    dst.Write(idx, gen(c'));
  }

  lemma SetSame(s: seq<nat>, I: nat)
    requires I < |s|
    ensures s[I := s[I]] == s
  {
  }

  lemma SetTwice(s: seq<nat>, I: nat, x: nat, y: nat)
    requires I < |s|
    ensures s[I := x][I] == x && s[I := x][I := y] == s[I := y]
  {
  }

  method FirstCounter(idx: seq<nat>) returns (c: seq<nat>)
    requires |idx| <= 4
    ensures c == Counter(idx)
    ensures |c| == 4 && forall j :: 0 <= j < 4 ==> c[j] == if j < |idx| then idx[j] % 0x1_0000_0000 else 0
  {
    c := [0, 0, 0, 0];
    for i := 0 to |idx|
      invariant |c| == 4 && forall j :: 0 <= j < 4 ==> c[j] == if j < i then Word(idx, j) else 0
    {
      c := c[i := idx[i] % TWO_32];
    }
  }

  predicate SameButOne(c: seq<nat>, c0: seq<nat>, I: nat)
  {
    |c| == |c0| && forall j :: 0 <= j < |c| && j != I ==> c[j] == c0[j]
  }

  lemma CounterStep(c: seq<nat>, first: seq<nat>, I: nat, x: nat)
    requires I < |first| <= 4 && SameButOne(c, Counter(first), I)
    ensures c[I := x % TWO_32] == Counter(first[I := x])
    ensures SameButOne(c[I := x % TWO_32], Counter(first), I)
  {
  }

  lemma WrittenCell<T>(gen: seq<nat> -> T, idx: seq<nat>, s: Contents<T>)
    requires idx in s.cells && s.cells.Keys == s.writes.Keys
    ensures WithCell(s, idx, gen(Counter(idx))) == Written(gen, iset{idx}, s)
  {
  }

  lemma EmptyRange<T>(gen: seq<nat> -> T, extents: seq<nat>, count: seq<nat>, first: seq<nat>, I: nat, s: Contents<T>)
    requires I < |extents| == |count| == |first|
    ensures Written(gen, Range(extents, count, first, I, first[I]), s) == s
  {
    assert Range(extents, count, first, I, first[I]) == iset{};
  }

  /** A range that starts at or after its end is empty, so it does not matter which end it has. */
  lemma BeyondLast(extents: seq<nat>, count: seq<nat>, first: seq<nat>, I: nat, cur: nat, last: nat)
    requires I < |extents| == |count| == |first| && cur >= last && (cur == last || cur == first[I])
    ensures Range(extents, count, first, I, cur) == Range(extents, count, first, I, last)
  {
  }

  /** What one more pass of the loop over dimension I adds. */
  ghost function Row(extents: seq<nat>, count: seq<nat>, first: seq<nat>, I: nat, cur: nat): iset<seq<nat>>
    requires I < |extents| == |count| == |first|
  {
    if I + 1 < |extents| then Share(extents, count, first[I := cur], I + 1) else iset{first[I := cur]}
  }

  lemma RowAt(idx: seq<nat>, extents: seq<nat>, count: seq<nat>, first: seq<nat>, I: nat, cur: nat)
    requires I < |extents| == |count| == |first| && first[I] <= cur
    ensures idx in Row(extents, count, first, I, cur)
       <==> InRange(idx, extents, count, first, I, cur + 1) && !InRange(idx, extents, count, first, I, cur)
  {
    if I + 1 == |extents| && InRange(idx, extents, count, first, I, cur + 1) && idx[I] == cur {
      assert idx == first[I := cur];
    }
  }

  lemma NextRow<T>(gen: seq<nat> -> T, extents: seq<nat>, count: seq<nat>, first: seq<nat>, I: nat, cur: nat, next: nat,
                   s: Contents<T>)
    requires I < |extents| == |count| == |first| && first[I] <= cur && next == cur + 1
    ensures var before := Written(gen, Range(extents, count, first, I, cur), s);
            var row := if I + 1 < |extents| then Share(extents, count, first[I := cur], I + 1)
                       else iset{first[I := cur]};
            Written(gen, row, before) == Written(gen, Range(extents, count, first, I, next), s)
  {
    var range, row := Range(extents, count, first, I, cur), Row(extents, count, first, I, cur);
    forall idx: seq<nat>
      ensures idx in row <==> idx in Range(extents, count, first, I, cur + 1) && idx !in range
    {
      RowAt(idx, extents, count, first, I, cur);
    }
    assert range + row == Range(extents, count, first, I, cur + 1);
    WrittenBoth(gen, range, row, s);
  }

  // ---------- the grid

  datatype WorkDiv = WorkDiv(gridBlock: seq<nat>, blockThread: seq<nat>, threadElem: seq<nat>)

  /** Any work division of the buffer's dimension: all extents are positive and together cover it. */
  ghost predicate Divides(wd: WorkDiv, extents: seq<nat>)
  {
    && 0 < |extents| == |wd.gridBlock| == |wd.blockThread| == |wd.threadElem| <= 4
    && forall d :: 0 <= d < |extents| ==> DividesAt(wd, extents, d)
  }

  predicate DividesAt(wd: WorkDiv, extents: seq<nat>, d: nat)
    requires d < |extents| == |wd.gridBlock| == |wd.blockThread| == |wd.threadElem|
  {
    && wd.gridBlock[d] > 0 && wd.blockThread[d] > 0 && wd.threadElem[d] > 0
    && extents[d] <= wd.gridBlock[d] * wd.blockThread[d] * wd.threadElem[d]
  }

  lemma DividesPositive(wd: WorkDiv, extents: seq<nat>)
    requires Divides(wd, extents)
    ensures Positive(wd.gridBlock) && Positive(wd.blockThread) && Product(wd.blockThread) > 0
  {
    forall d | 0 <= d < |extents| ensures wd.gridBlock[d] > 0 && wd.blockThread[d] > 0 {
      assert DividesAt(wd, extents, d);
    }
    ProductPositive(wd.blockThread);
  }

  /** The block and the thread in it of every one of the grid's threads, in linear order. */
  function BlockIdx(wd: WorkDiv, extents: seq<nat>, k: nat): (b: seq<nat>)
    requires Divides(wd, extents)
    ensures |b| == |extents|
  {
    DividesPositive(wd, extents);
    Delinear(k / Product(wd.blockThread), wd.gridBlock)
  }

  function ThreadIdx(wd: WorkDiv, extents: seq<nat>, k: nat): (t: seq<nat>)
    requires Divides(wd, extents)
    ensures |t| == |extents|
  {
    DividesPositive(wd, extents);
    Delinear(k % Product(wd.blockThread), wd.blockThread)
  }

  function Threads(wd: WorkDiv): nat
  {
    Product(wd.gridBlock) * Product(wd.blockThread)
  }

  /** The first element of thread t of block b in one dimension. */
  function FirstElemAt(b: nat, t: nat, blockThread: nat, threadElem: nat): nat
  {
    (b * blockThread + t) * threadElem
  }

  function FirstElem(wd: WorkDiv, extents: seq<nat>, b: seq<nat>, t: seq<nat>): (first: seq<nat>)
    requires Divides(wd, extents) && |b| == |t| == |extents|
    ensures |first| == |extents|
  {
    seq(|extents|, d requires 0 <= d < |extents| => FirstElemAt(b[d], t[d], wd.blockThread[d], wd.threadElem[d]))
  }

  /** The cells that thread k of the grid writes. */
  ghost function ThreadShare(wd: WorkDiv, extents: seq<nat>, k: nat): iset<seq<nat>>
    requires Divides(wd, extents)
  {
    Share(extents, wd.threadElem, FirstElem(wd, extents, BlockIdx(wd, extents, k), ThreadIdx(wd, extents, k)), 0)
  }

  /** The block and the thread that a cell belongs to. */
  function OwnerBlock(wd: WorkDiv, extents: seq<nat>, idx: seq<nat>): (b: seq<nat>)
    requires Divides(wd, extents) && |idx| == |extents|
    ensures |b| == |extents|
  {
    seq(|extents|, d requires 0 <= d < |extents| =>
      assert DividesAt(wd, extents, d);
      idx[d] / wd.threadElem[d] / wd.blockThread[d])
  }

  function OwnerThread(wd: WorkDiv, extents: seq<nat>, idx: seq<nat>): (t: seq<nat>)
    requires Divides(wd, extents) && |idx| == |extents|
    ensures |t| == |extents|
  {
    seq(|extents|, d requires 0 <= d < |extents| =>
      assert DividesAt(wd, extents, d);
      idx[d] / wd.threadElem[d] % wd.blockThread[d])
  }

  function Owner(wd: WorkDiv, extents: seq<nat>, idx: seq<nat>): nat
    requires Divides(wd, extents) && |idx| == |extents|
  {
    Linear(OwnerBlock(wd, extents, idx), wd.gridBlock) * Product(wd.blockThread)
    + Linear(OwnerThread(wd, extents, idx), wd.blockThread)
  }

  /** In one dimension an element belongs to exactly one thread of one block. */
  lemma OwnerAt(x: nat, extent: nat, b: nat, t: nat, gridBlock: nat, blockThread: nat, threadElem: nat)
    requires blockThread > 0 && threadElem > 0 && t < blockThread
    requires x < extent <= gridBlock * blockThread * threadElem
    ensures x / threadElem / blockThread < gridBlock
    ensures var first := FirstElemAt(b, t, blockThread, threadElem);
            first <= x < ClippedEnd(extent, threadElem, first)
            <==> b == x / threadElem / blockThread && t == x / threadElem % blockThread
  {
    var q := x / threadElem;
    assert x == threadElem * q + x % threadElem;
    if q >= gridBlock * blockThread { MulMonotone(threadElem, gridBlock * blockThread, q); }
    assert q == blockThread * (q / blockThread) + q % blockThread;
    if q / blockThread >= gridBlock { MulMonotone(blockThread, gridBlock, q / blockThread); }
    ShareOf(x, b * blockThread + t, threadElem);
    if q == b * blockThread + t { DivModUnique(q, blockThread, b, t); }
  }

  lemma ShareOf(x: nat, g: nat, e: nat)
    requires e > 0
    ensures g * e <= x < g * e + e <==> x / e == g
  {
    if g * e <= x < g * e + e { DivModUnique(x, e, g, x - g * e); }
  }

  lemma WritesOnlyInside(wd: WorkDiv, extents: seq<nat>, k: nat, idx: seq<nat>)
    requires Divides(wd, extents) && idx in ThreadShare(wd, extents, k)
    ensures InBox(idx, extents)
  {
  }

  lemma OwnerIndices(wd: WorkDiv, extents: seq<nat>, idx: seq<nat>)
    requires Divides(wd, extents) && InBox(idx, extents)
    ensures InBox(OwnerBlock(wd, extents, idx), wd.gridBlock) && InBox(OwnerThread(wd, extents, idx), wd.blockThread)
  {
    forall d | 0 <= d < |extents|
      ensures OwnerBlock(wd, extents, idx)[d] < wd.gridBlock[d] && OwnerThread(wd, extents, idx)[d] < wd.blockThread[d]
    {
      assert DividesAt(wd, extents, d);
      OwnerAt(idx[d], extents[d], 0, 0, wd.gridBlock[d], wd.blockThread[d], wd.threadElem[d]);
    }
  }

  /** Within the grid a thread's block and thread index determine it. */
  lemma ThreadInGrid(wd: WorkDiv, extents: seq<nat>, k: nat)
    requires Divides(wd, extents) && k < Threads(wd)
    ensures Product(wd.blockThread) > 0
    ensures InBox(BlockIdx(wd, extents, k), wd.gridBlock) && InBox(ThreadIdx(wd, extents, k), wd.blockThread)
    ensures k == Linear(BlockIdx(wd, extents, k), wd.gridBlock) * Product(wd.blockThread)
                 + Linear(ThreadIdx(wd, extents, k), wd.blockThread)
  {
    DividesPositive(wd, extents);
    var p := Product(wd.blockThread);
    DivModBack(k, p);
    Horner(k / p, Product(wd.gridBlock), p, k % p, 0);
    Bijection(wd.gridBlock);
    Bijection(wd.blockThread);
  }

  lemma WritesIsOwner(wd: WorkDiv, extents: seq<nat>, k: nat, idx: seq<nat>)
    requires Divides(wd, extents) && k < Threads(wd) && InBox(idx, extents)
    ensures idx in ThreadShare(wd, extents, k)
       <==> && BlockIdx(wd, extents, k) == OwnerBlock(wd, extents, idx)
            && ThreadIdx(wd, extents, k) == OwnerThread(wd, extents, idx)
  {
    ThreadInGrid(wd, extents, k);
    var b, t := BlockIdx(wd, extents, k), ThreadIdx(wd, extents, k);
    var first := FirstElem(wd, extents, b, t);
    forall d | 0 <= d < |extents|
      ensures first[d] <= idx[d] < ClippedEnd(extents[d], wd.threadElem[d], first[d])
         <==> b[d] == OwnerBlock(wd, extents, idx)[d] && t[d] == OwnerThread(wd, extents, idx)[d]
    {
      assert DividesAt(wd, extents, d);
      OwnerAt(idx[d], extents[d], b[d], t[d], wd.gridBlock[d], wd.blockThread[d], wd.threadElem[d]);
    }
  }

  /** Every cell of the buffer is written by exactly one thread of the grid. */
  lemma ExactlyOneThread(wd: WorkDiv, extents: seq<nat>, idx: seq<nat>)
    requires Divides(wd, extents) && InBox(idx, extents)
    ensures Owner(wd, extents, idx) < Threads(wd)
    ensures forall k: nat :: k < Threads(wd) ==> (idx in ThreadShare(wd, extents, k) <==> k == Owner(wd, extents, idx))
  {
    DividesPositive(wd, extents);
    OwnerIndices(wd, extents, idx);
    var p, b, t := Product(wd.blockThread), OwnerBlock(wd, extents, idx), OwnerThread(wd, extents, idx);
    Bijection(wd.gridBlock);
    Bijection(wd.blockThread);
    Horner(Linear(b, wd.gridBlock), Product(wd.gridBlock), p, Linear(t, wd.blockThread), 0);
    DivModUnique(Owner(wd, extents, idx), p, Linear(b, wd.gridBlock), Linear(t, wd.blockThread));
    forall k: nat | k < Threads(wd) ensures idx in ThreadShare(wd, extents, k) <==> k == Owner(wd, extents, idx) {
      WritesIsOwner(wd, extents, k, idx);
      ThreadInGrid(wd, extents, k);
    }
  }

  /** The cells that a set of the grid's threads own. */
  ghost function Owned(wd: WorkDiv, extents: seq<nat>, threads: seq<nat>): iset<seq<nat>>
    requires Divides(wd, extents)
  {
    iset idx | InBox(idx, extents) && Owner(wd, extents, idx) in threads
  }

  ghost function Box(extents: seq<nat>): iset<seq<nat>>
  {
    iset idx | InBox(idx, extents)
  }

  lemma OneMoreThread(wd: WorkDiv, extents: seq<nat>, threads: seq<nat>, k: nat)
    requires Divides(wd, extents) && k < Threads(wd) && k !in threads
    ensures Owned(wd, extents, threads + [k]) == Owned(wd, extents, threads) + ThreadShare(wd, extents, k)
    ensures Owned(wd, extents, threads) !! ThreadShare(wd, extents, k)
  {
    forall idx: seq<nat>
      ensures idx in Owned(wd, extents, threads + [k])
         <==> idx in Owned(wd, extents, threads) || idx in ThreadShare(wd, extents, k)
      ensures !(idx in Owned(wd, extents, threads) && idx in ThreadShare(wd, extents, k))
    {
      if InBox(idx, extents) {
        ExactlyOneThread(wd, extents, idx);
      } else {
        assert idx !in ThreadShare(wd, extents, k);
      }
    }
  }

  lemma AllThreads(wd: WorkDiv, extents: seq<nat>, threads: seq<nat>)
    requires Divides(wd, extents) && forall k: nat :: k < Threads(wd) ==> k in threads
    ensures Owned(wd, extents, threads) == Box(extents)
  {
    forall idx: seq<nat> | InBox(idx, extents) ensures Owner(wd, extents, idx) in threads {
      ExactlyOneThread(wd, extents, idx);
    }
  }

  /** The kernel as thread k of the grid runs it. */
  method Kernel<T>(dst: BufferAccessor<T>, gen: seq<nat> -> T, wd: WorkDiv, k: nat)
    requires dst.Valid() && Divides(wd, dst.extents)
    modifies dst
    ensures dst.Valid()
    ensures dst.State() == Written(gen, ThreadShare(wd, dst.extents, k), old(dst.State()))
  {
    var b, t := BlockIdx(wd, dst.extents, k), ThreadIdx(wd, dst.extents, k);
    var first := FirstElem(wd, dst.extents, b, t);
    var threadFirstElemIdx := new Vec(first);
    ElemLoop(dst, gen, wd.threadElem, threadFirstElemIdx, 0);
  }

  /** Each of the grid's threads occurs in the list once. */
  ghost predicate AllOnce(threads: seq<nat>, count: nat)
  {
    && (forall k: nat :: k < count ==> k in threads)
    && (forall i :: 0 <= i < |threads| ==> threads[i] < count)
    && (forall i, j :: 0 <= i < j < |threads| ==> threads[i] != threads[j])
  }

  /** Every cell holds the value of its own counter and has been written once more. */
  ghost predicate Filled<T>(gen: seq<nat> -> T, extents: seq<nat>, s: Contents<T>, s': Contents<T>)
  {
    forall idx: seq<nat> :: InBox(idx, extents) ==>
                              && idx in s'.cells && s'.cells[idx] == gen(Counter(idx))
                              && idx in s.writes && idx in s'.writes && s'.writes[idx] == s.writes[idx] + 1
  }

  /** All threads of the grid, in any order: every cell of the buffer is written once, with the value
      of its own index, whatever the work division. */
  method Grid<T>(dst: BufferAccessor<T>, gen: seq<nat> -> T, wd: WorkDiv, order: seq<nat>)
    requires dst.Valid() && Divides(wd, dst.extents) && AllOnce(order, Threads(wd))
    modifies dst
    ensures dst.Valid()
    ensures dst.State() == Written(gen, Box(dst.extents), old(dst.State()))
    ensures Filled(gen, dst.extents, old(dst.State()), dst.State())
  {
    assert Owned(wd, dst.extents, order[..0]) == iset{};
    for i := 0 to |order|
      invariant dst.Valid() && dst.State() == Written(gen, Owned(wd, dst.extents, order[..i]), old(dst.State()))
    {
      Kernel(dst, gen, wd, order[i]);
      assert order[..i + 1] == order[..i] + [order[i]];
      OneMoreThread(wd, dst.extents, order[..i], order[i]);
      WrittenBoth(gen, Owned(wd, dst.extents, order[..i]), ThreadShare(wd, dst.extents, order[i]), old(dst.State()));
    }
    assert order[..|order|] == order;
    AllThreads(wd, dst.extents, order);
  }

  // ---------- the grid's threads running at the same time

  /** How often the first n threads of the grid write a cell. */
  ghost function WriteCount(wd: WorkDiv, extents: seq<nat>, n: nat, idx: seq<nat>): nat
    requires Divides(wd, extents)
  {
    if n == 0 then 0
    else WriteCount(wd, extents, n - 1, idx) + if idx in ThreadShare(wd, extents, n - 1) then 1 else 0
  }

  lemma {:induction false} WrittenByOwner(wd: WorkDiv, extents: seq<nat>, n: nat, idx: seq<nat>)
    requires Divides(wd, extents) && n <= Threads(wd)
    ensures WriteCount(wd, extents, n, idx) == if InBox(idx, extents) && Owner(wd, extents, idx) < n then 1 else 0
  {
    if n > 0 {
      WrittenByOwner(wd, extents, n - 1, idx);
      if InBox(idx, extents) { ExactlyOneThread(wd, extents, idx); }
    }
  }

  /** The buffer after single writes in the order of the log. */
  ghost function Replay<T>(gen: seq<nat> -> T, s: Contents<T>, log: seq<seq<nat>>): (r: Contents<T>)
    requires forall i :: 0 <= i < |log| ==> log[i] in s.writes
    ensures r.writes.Keys == s.writes.Keys
  {
    if log == [] then s
    else
      var idx := log[|log| - 1];
      WithCell(Replay(gen, s, log[..|log| - 1]), idx, gen(Counter(idx)))
  }

  /** A log without repetitions, taken apart at its last entry. */
  lemma NoRepetition(log: seq<seq<nat>>)
    requires log != [] && forall i :: 0 <= i < |log| ==> multiset(log)[log[i]] == 1
    ensures var n := |log| - 1;
            && log == log[..n] + [log[n]] && log[n] !in log[..n]
            && forall i :: 0 <= i < n ==> multiset(log[..n])[log[..n][i]] == 1
  {
    var n := |log| - 1;
    assert log == log[..n] + [log[n]];
    assert multiset(log) == multiset(log[..n]) + multiset{log[n]};
    assert multiset(log[..n])[log[n]] == 0;
    forall i | 0 <= i < n ensures multiset(log[..n])[log[..n][i]] == 1 {
      assert log[..n][i] in multiset(log[..n]);
    }
  }

  ghost function Members(log: seq<seq<nat>>): iset<seq<nat>>
  {
    iset idx | idx in log
  }

  lemma MembersAppend(log: seq<seq<nat>>, idx: seq<nat>)
    ensures Members(log + [idx]) == Members(log) + iset{idx}
  {
  }

  /** A log without repetitions writes the region of its indices. */
  lemma {:induction false} ReplayIsWritten<T>(gen: seq<nat> -> T, s: Contents<T>, log: seq<seq<nat>>)
    requires s.writes.Keys == s.cells.Keys
    requires forall i :: 0 <= i < |log| ==> log[i] in s.writes && multiset(log)[log[i]] == 1
    ensures Replay(gen, s, log) == Written(gen, Members(log), s)
  {
    if log != [] {
      var n := |log| - 1;
      NoRepetition(log);
      ReplayIsWritten(gen, s, log[..n]);
      MembersAppend(log[..n], log[n]);
      WrittenCell(gen, log[n], Written(gen, Members(log[..n]), s));
      WrittenBoth(gen, Members(log[..n]), iset{log[n]}, s);
    }
  }

  /** However the threads' writes interleave, every cell is written once, with its own value. */
  lemma AnyInterleaving<T>(gen: seq<nat> -> T, wd: WorkDiv, extents: seq<nat>, s: Contents<T>, log: seq<seq<nat>>)
    requires Divides(wd, extents) && CellsOf(s, extents)
    requires forall idx :: multiset(log)[idx] == WriteCount(wd, extents, Threads(wd), idx)
    ensures forall i :: 0 <= i < |log| ==> log[i] in s.writes
    ensures Replay(gen, s, log) == Written(gen, Box(extents), s) && Filled(gen, extents, s, Replay(gen, s, log))
  {
    forall idx: seq<nat> ensures multiset(log)[idx] == if InBox(idx, extents) then 1 else 0 {
      WrittenByOwner(wd, extents, Threads(wd), idx);
      if InBox(idx, extents) { ExactlyOneThread(wd, extents, idx); }
    }
    forall i | 0 <= i < |log| ensures log[i] in s.writes && multiset(log)[log[i]] == 1 {
      assert log[i] in multiset(log);
    }
    forall idx: seq<nat> ensures idx in log <==> InBox(idx, extents) {
      assert idx in log <==> idx in multiset(log);
    }
    ReplayIsWritten(gen, s, log);
    assert Members(log) == Box(extents);
  }

  /** Two buffers of the same extents end up equal, whatever they held before, whichever work
      divisions filled them and in whatever order. */
  lemma WorkDivisionDoesNotShow<T>(gen: seq<nat> -> T, extents: seq<nat>, wd1: WorkDiv,
                                   s1: Contents<T>, log1: seq<seq<nat>>,
                                   wd2: WorkDiv, s2: Contents<T>, log2: seq<seq<nat>>)
    requires Divides(wd1, extents) && CellsOf(s1, extents) && Divides(wd2, extents) && CellsOf(s2, extents)
    requires forall idx :: multiset(log1)[idx] == WriteCount(wd1, extents, Threads(wd1), idx)
    requires forall idx :: multiset(log2)[idx] == WriteCount(wd2, extents, Threads(wd2), idx)
    ensures forall i :: 0 <= i < |log1| ==> log1[i] in s1.writes
    ensures forall i :: 0 <= i < |log2| ==> log2[i] in s2.writes
    ensures Replay(gen, s1, log1).cells == Replay(gen, s2, log2).cells
  {
    AnyInterleaving(gen, wd1, extents, s1, log1);
    AnyInterleaving(gen, wd2, extents, s2, log2);
    SameCells(gen, extents, s1, s2);
  }

  lemma SameCells<T>(gen: seq<nat> -> T, extents: seq<nat>, s1: Contents<T>, s2: Contents<T>)
    requires CellsOf(s1, extents) && CellsOf(s2, extents)
    ensures Written(gen, Box(extents), s1).cells == Written(gen, Box(extents), s2).cells
  {
    assert s1.cells.Keys == s2.cells.Keys;
  }
}
