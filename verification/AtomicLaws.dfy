/**
What calls of the atomic operations amount to (include/alpaka/atomic/Op.hpp) when they take effect one
after the other, in whatever order: sums that lose nothing, tokens that are neither lost nor doubled, and
one winner of a compare-and-swap.
*/
module AtomicLaws {
  import opened Arithmetic
  import opened AtomicOps

  // ---------- Add and Sub

  /** What an operation adds to the variable. */
  function Amount(op: Op): int
  {
    var v: int := op.value;
    if op.Add? then v else if op.Sub? then -v else 0
  }

  function Total(ops: seq<Op>): int
  {
    if ops == [] then 0 else Total(ops[..|ops| - 1]) + Amount(ops[|ops| - 1])
  }

  function Ops(log: seq<Entry>): (r: seq<Op>)
    ensures |r| == |log|
  {
    seq(|log|, i requires 0 <= i < |log| => log[i].op)
  }

  predicate Counting(op: Op)
  {
    op.Add? || op.Sub?
  }

  lemma RemainderUnique(a: int, q: int, x: nat, m: nat)
    requires x < m && a == m * q + x
    ensures a % m == x
  {
    var e := a / m - q;
    assert m * e == x - a % m by { assert m * (a / m) + a % m == a; assert m * e == m * (a / m) - m * q; }
    assert e == 0;
  }

  /** Reducing before adding makes no difference. */
  lemma RemainderStep(a: int, b: int, m: nat)
    requires m > 0
    ensures (a % m + b) % m == (a + b) % m
  {
    var s := a % m + b;
    assert a == m * (a / m) + a % m && s == m * (s / m) + s % m;
    assert a + b == m * (a / m + s / m) + s % m;
    RemainderUnique(a + b, a / m + s / m, s % m, m);
  }

  lemma CountingStep(sem: Semantics, op: Op, x: int, found: nat, m: nat)
    requires m > 0 && Counting(op) && found == x % m
    ensures Formula(sem, op, found, m) == (x + Amount(op)) % m
  {
    RemainderStep(x, Amount(op), m);
  }

  /** However additions and subtractions are interleaved, the variable ends at its initial value plus all
      that was added minus all that was subtracted, modulo the type's range. */
  lemma {:induction false} NothingAddedIsLost(sem: Semantics, m: nat, init: nat, log: seq<Entry>) returns (total: int)
    requires init < m && forall e <- log :: Counting(e.op)
    ensures total == Total(Ops(log)) && Final(sem, m, init, log) == (init + total) % m
  {
    if log == [] {
      total := 0;
      ModSmall(init, m);
    } else {
      var before, e := log[..|log| - 1], log[|log| - 1];
      var rest := NothingAddedIsLost(sem, m, init, before);
      total := rest + Amount(e.op);
      assert Ops(log)[..|log| - 1] == Ops(before);
      CountingStep(sem, e.op, init + rest, Final(sem, m, init, before), m);
      assert init + total == init + rest + Amount(e.op);
    }
  }

  // ---------- what the next call finds

  /** The value that the i-th call of a log leaves: what the next one finds, or the final value. */
  function LeftBy(sem: Semantics, m: nat, init: nat, log: seq<Entry>, i: nat): nat
    requires m > 0 && i < |log|
  {
    if i + 1 < |log| then log[i + 1].found else Final(sem, m, init, log)
  }

  lemma LeftByFormula(sem: Semantics, m: nat, init: nat, log: seq<Entry>, i: nat)
    requires m > 0 && i < |log| && Sequential(sem, m, init, log)
    ensures LeftBy(sem, m, init, log, i) == Formula(sem, log[i].op, log[i].found, m)
  {
    assert log[i].found == Final(sem, m, init, log[..i]);
    assert log[..i + 1][..i] == log[..i];
    if i + 1 < |log| {
      assert log[i + 1].found == Final(sem, m, init, log[..i + 1]);
    } else {
      assert log[..i + 1] == log;
    }
  }

  /** After an exchange the next call finds the value that was put in. */
  lemma ExchangePutsIn(sem: Semantics, m: nat, init: nat, log: seq<Entry>, i: nat)
    requires m > 0 && i < |log| && Sequential(sem, m, init, log) && log[i].op.Exch?
    ensures LeftBy(sem, m, init, log, i) == log[i].op.value
  {
    LeftByFormula(sem, m, init, log, i);
  }

  /** A compare-and-swap puts its value in exactly if it found what it compares with. */
  lemma SwapIffEqual(sem: Semantics, m: nat, init: nat, log: seq<Entry>, i: nat)
    requires m > 0 && i < |log| && Sequential(sem, m, init, log) && log[i].op.Cas?
    ensures var (e, left) := (log[i], LeftBy(sem, m, init, log, i));
            && (e.found == e.op.compare ==> left == e.op.value)
            && (e.found != e.op.compare ==> left == e.found)
  {
    LeftByFormula(sem, m, init, log, i);
  }

  // ---------- Exch

  function Founds(log: seq<Entry>): (r: seq<nat>)
    ensures |r| == |log|
  {
    seq(|log|, i requires 0 <= i < |log| => log[i].found)
  }

  function Values(log: seq<Entry>): (r: seq<nat>)
    ensures |r| == |log|
  {
    seq(|log|, i requires 0 <= i < |log| => log[i].op.value)
  }

  /** Exchanges pass values on: what they return, and what is left in the variable at the end, are the
      initial value and the values put in, none lost and none doubled. */
  lemma {:induction false} ExchangesConserve(sem: Semantics, m: nat, init: nat, log: seq<Entry>)
    requires m > 0 && Sequential(sem, m, init, log) && forall e <- log :: e.op.Exch?
    ensures multiset(Founds(log)) + multiset{Final(sem, m, init, log)} == multiset{init} + multiset(Values(log))
  {
    if log != [] {
      var before, e := log[..|log| - 1], log[|log| - 1];
      SequentialPrefix(sem, m, init, log);
      ExchangesConserve(sem, m, init, before);
      assert e.op.Exch?;
      AppendedFounds(before, e);
      assert before + [e] == log;
    }
  }

  lemma AppendedFounds(log: seq<Entry>, e: Entry)
    ensures multiset(Founds(log + [e])) == multiset(Founds(log)) + multiset{e.found}
    ensures multiset(Values(log + [e])) == multiset(Values(log)) + multiset{e.op.value}
  {
    assert Founds(log + [e]) == Founds(log) + [e.found];
    assert Values(log + [e]) == Values(log) + [e.op.value];
  }

  // ---------- Cas

  /** A call that tries to replace the value c by another one. */
  predicate Replaces(op: Op, c: nat)
  {
    op.Cas? && op.compare == c && op.value != c
  }

  /** Of all calls that compare with the value the variable holds, exactly the first one wins: it alone
      returns that value, and its own value stays. */
  lemma OneWinner(sem: Semantics, m: nat, init: nat, log: seq<Entry>)
    requires m > 0 && log != [] && Sequential(sem, m, init, log) && forall e <- log :: Replaces(e.op, init)
    ensures log[0].found == init
    ensures forall i :: 0 < i < |log| ==> log[i].found == log[0].op.value != init
    ensures Final(sem, m, init, log) == log[0].op.value
  {
    forall i: nat | i < |log| ensures LeftBy(sem, m, init, log, i) == log[0].op.value {
      WinnerStays(sem, m, init, log, i);
    }
    assert log[0].found == Final(sem, m, init, log[..0]);
    assert LeftBy(sem, m, init, log, |log| - 1) == Final(sem, m, init, log);
    assert forall i :: 0 < i < |log| ==> log[i].found == LeftBy(sem, m, init, log, i - 1);
    assert Replaces(log[0].op, init);
  }

  lemma {:induction false} WinnerStays(sem: Semantics, m: nat, init: nat, log: seq<Entry>, i: nat)
    requires m > 0 && i < |log| && Sequential(sem, m, init, log) && forall e <- log :: Replaces(e.op, init)
    ensures LeftBy(sem, m, init, log, i) == log[0].op.value
  {
    assert Replaces(log[i].op, init) && Replaces(log[0].op, init);
    LeftByFormula(sem, m, init, log, i);
    if i > 0 { WinnerStays(sem, m, init, log, i - 1); } else { assert log[0].found == Final(sem, m, init, log[..0]); }
  }

  // ---------- Min and Max

  /** Calls of Min leave the least of the initial value and theirs, calls of Max the greatest. */
  lemma {:induction false} LeastAndGreatest(sem: Semantics, m: nat, init: nat, log: seq<Entry>)
    requires m > 0
    ensures var last, values := Final(sem, m, init, log), [init] + Values(log);
            && ((forall e <- log :: e.op.Min?) ==> last in values && forall v <- values :: last <= v)
            && ((forall e <- log :: e.op.Max?) ==> last in values && forall v <- values :: v <= last)
  {
    if log != [] {
      var n := |log| - 1;
      LeastAndGreatest(sem, m, init, log[..n]);
      assert [init] + Values(log) == [init] + Values(log[..n]) + [log[n].op.value];
      assert log[n] in log;
    }
  }

  // ---------- what each thread's calls have to do with it

  /** All that the first n threads have added. */
  function TotalOf(log: seq<Entry>, n: nat): int
  {
    if n == 0 then 0 else TotalOf(log, n - 1) + Total(OpsOf(n - 1, log))
  }

  lemma TotalAppend(ops: seq<Op>, op: Op)
    ensures Total(ops + [op]) == Total(ops) + Amount(op)
  {
    assert (ops + [op])[..|ops|] == ops;
  }

  lemma TotalOneMore(t: nat, log: seq<Entry>, e: Entry)
    ensures Total(OpsOf(t, log + [e])) == Total(OpsOf(t, log)) + if e.thread == t then Amount(e.op) else 0
  {
    OfAppend(t, log, e);
    if e.thread == t { TotalAppend(OpsOf(t, log), e.op); } else { assert OpsOf(t, log) + [] == OpsOf(t, log); }
  }

  lemma {:induction false} TotalOfAppend(log: seq<Entry>, e: Entry, n: nat)
    ensures TotalOf(log + [e], n) == TotalOf(log, n) + if e.thread < n then Amount(e.op) else 0
  {
    if n > 0 {
      var last := n - 1;
      TotalOfAppend(log, e, last);
      TotalOneMore(last, log, e);
    }
  }

  lemma {:induction false} NothingIn(n: nat)
    ensures TotalOf([], n) == 0
  {
    if n > 0 { NothingIn(n - 1); }
  }

  /** The total of a log is that of its threads together. */
  lemma {:induction false} TotalByThread(log: seq<Entry>, n: nat)
    requires forall e <- log :: e.thread < n
    ensures Total(Ops(log)) == TotalOf(log, n)
  {
    if log == [] {
      NothingIn(n);
    } else {
      var before, e := log[..|log| - 1], log[|log| - 1];
      TotalByThread(before, n);
      TotalOfAppend(before, e, n);
      assert before + [e] == log && Ops(log)[..|log| - 1] == Ops(before);
    }
  }

  /** A value that only the first call of a log has found was returned to its thread alone, and once. */
  lemma {:induction false} FoundOnce(t: nat, log: seq<Entry>, x: nat)
    requires log != [] && log[0].found == x && forall i :: 0 < i < |log| ==> log[i].found != x
    ensures multiset(FoundBy(t, log))[x] == if log[0].thread == t then 1 else 0
  {
    if |log| > 1 { FoundOnce(t, log[..|log| - 1], x); }
  }
}
