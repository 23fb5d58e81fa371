/**
The sequential meaning of the atomic operations (include/alpaka/atomic/Op.hpp) and what it means for
concurrent calls to take effect one at a time. Values are those of an unsigned type of `m` values.
*/
module AtomicOps {
  import opened Arithmetic

  datatype Op = Add(value: nat) | Sub(value: nat) | Min(value: nat) | Max(value: nat) | Exch(value: nat)
              | Inc(value: nat) | Dec(value: nat) | Cas(compare: nat, value: nat)

  /** The value that an operation leaves behind; every operation returns the value it found. */
  function Apply(op: Op, found: nat, m: nat): nat
    requires m > 0
  {
    match op
    case Add(v) => (found + v) % m
    case Sub(v) => (found - v) % m
    case Min(v) => if v < found then v else found
    case Max(v) => if found < v then v else found
    case Exch(v) => v
    case Inc(v) => if found >= v then 0 else (found + 1) % m
    case Dec(v) => if found == 0 || found > v then v else (found - 1) % m
    case Cas(c, v) => if found == c then v else found
  }

  /** The variable an operation works on. */
  class Variable {
    var ref: nat

    /** The function objects: read, overwrite, return what was read. */
    method Call(op: Op, m: nat) returns (found: nat)
      requires m > 0
      modifies this
      ensures found == old(ref) && ref == Apply(op, found, m)
    {
      found := ref;
      match op
      case Add(v) => ref := (ref + v) % m;
      case Sub(v) => ref := (ref - v) % m;
      case Min(v) => ref := if v < ref then v else ref;
      case Max(v) => ref := if ref < v then v else ref;
      case Exch(v) => ref := v;
      case Inc(v) => ref := if found >= v then 0 else (found + 1) % m;
      case Dec(v) => ref := if found == 0 || found > v then v else (found - 1) % m;
      case Cas(c, v) => ref := if found == c then v else found;
    }
  }

  /** Whose formulas are meant: those of the function objects or those of the compare-exchange loops
      of include/alpaka/atomic/AtomicAtomicRef.hpp. */
  datatype Semantics = Documented | AtomicRef

  function Formula(sem: Semantics, op: Op, found: nat, m: nat): nat
    requires m > 0
  {
    if sem.AtomicRef? && op.Dec? then if found >= op.value then 0 else (found - 1) % m
    else Apply(op, found, m)
  }

  function Repeat(sem: Semantics, op: Op, x: nat, k: nat, m: nat): nat
    requires m > 0
  {
    if k == 0 then x else Formula(sem, op, Repeat(sem, op, x, k - 1, m), m)
  }

  /** Where counting up from zero, or down from the limit, has come to after so many steps. */
  function Up(limit: nat, steps: nat): nat
  {
    steps % (limit + 1)
  }

  function Down(limit: nat, steps: nat): int
  {
    limit - steps % (limit + 1)
  }

  lemma IncNext(limit: nat, steps: nat, m: nat)
    requires limit < m
    ensures Apply(Inc(limit), Up(limit, steps), m) == Up(limit, steps + 1)
  {
    ModNext(steps, limit + 1);
    ModSmall(steps % (limit + 1) + 1, m);
  }

  /** Inc counts up to its limit and starts again at zero, where it also goes from above its limit. */
  lemma {:induction false} IncCycles(sem: Semantics, limit: nat, x: nat, k: nat, m: nat)
    requires limit < m && x < m
    ensures Repeat(sem, Inc(limit), x, k, m)
         == if x <= limit then Up(limit, x + k) else if k == 0 then x else Up(limit, k - 1)
  {
    if k == 0 {
      ModSmall(x, limit + 1);
    } else {
      IncCycles(sem, limit, x, k - 1, m);
      if x <= limit {
        IncNext(limit, x + k - 1, m);
      } else if k > 1 {
        IncNext(limit, k - 2, m);
      } else {
        ModSmall(0, limit + 1);
      }
    }
  }

  lemma DecNext(limit: nat, steps: nat, m: nat)
    requires limit < m
    ensures Down(limit, steps) >= 0 && Apply(Dec(limit), Down(limit, steps), m) == Down(limit, steps + 1)
  {
    ModNext(steps, limit + 1);
    var found := limit - steps % (limit + 1);
    if found > 0 { ModSmall(found - 1, m); }
  }

  /** Down for a value up to the limit, and for one above it, which goes to the limit first. */
  function DownFrom(limit: nat, x: nat, k: nat): int
  {
    if x <= limit then Down(limit, limit - x + k) else if k == 0 then x else Down(limit, k - 1)
  }

  lemma DownFromStart(limit: nat, x: nat)
    ensures DownFrom(limit, x, 0) == x
  {
    if x <= limit { ModSmall(limit - x, limit + 1); }
  }

  lemma DownFromNext(limit: nat, x: nat, k: nat, m: nat)
    requires limit < m
    ensures DownFrom(limit, x, k) >= 0 && Apply(Dec(limit), DownFrom(limit, x, k), m) == DownFrom(limit, x, k + 1)
  {
    if x <= limit {
      DecNext(limit, limit - x + k, m);
    } else if k > 0 {
      DecNext(limit, k - 1, m);
    } else {
      ModSmall(0, limit + 1);
    }
  }

  /** The documented Dec counts down to zero and starts again at its limit, where it also goes from above
      it. */
  lemma {:induction false} DecCycles(limit: nat, x: nat, k: nat, m: nat)
    requires limit < m && x < m
    ensures Repeat(Documented, Dec(limit), x, k, m) == DownFrom(limit, x, k)
  {
    if k == 0 {
      DownFromStart(limit, x);
    } else {
      DecCycles(limit, x, k - 1, m);
      DownFromNext(limit, x, k - 1, m);
    }
  }

  lemma ModNext(k: nat, d: nat)
    requires d > 0
    ensures (k + 1) % d == if k % d + 1 == d then 0 else k % d + 1
  {
    if k % d + 1 == d {
      DivModUnique(k + 1, d, k / d + 1, 0);
    } else {
      DivModUnique(k + 1, d, k / d, k % d + 1);
    }
  }

  /** On the values that Inc and Dec cycle through they undo each other. */
  lemma DecUndoesInc(limit: nat, x: nat, m: nat)
    requires x <= limit < m
    ensures Apply(Dec(limit), Apply(Inc(limit), x, m), m) == x
    ensures Apply(Inc(limit), Apply(Dec(limit), x, m), m) == x
  {
    if x < limit { ModSmall(x + 1, m); ModSmall(x, m); }
    if x > 0 { ModSmall(x - 1, m); ModSmall(x, m); }
  }

  /** Sub undoes Add across the wrap of the type. */
  lemma SubUndoesAdd(v: nat, x: nat, m: nat)
    requires v < m && x < m
    ensures Apply(Sub(v), Apply(Add(v), x, m), m) == x
  {
    ModSmall(x, m);
    if x + v < m {
      ModSmall(x + v, m);
    } else {
      DivModUnique(x + v, m, 1, x + v - m);
      MinusModulus(x, m);
    }
  }

  lemma MinusModulus(x: nat, m: nat)
    requires x < m
    ensures (x - m) % m == x
  {
    assert m * ((x - m) / m) + (x - m) % m == x - m;
  }

  /** Min and Max share the two values out between them, the smaller one to Min. */
  lemma MinMaxSplit(v: nat, x: nat, m: nat)
    requires m > 0
    ensures var lo, hi := Apply(Min(v), x, m), Apply(Max(v), x, m); lo <= hi && multiset{lo, hi} == multiset{v, x}
  {
  }

  // ---------- calls that take effect one at a time

  /** The two decrements agree exactly strictly between zero and the limit, and in three corners. */
  lemma DecAgreement(limit: nat, found: nat, m: nat)
    requires limit < m && found < m
    ensures Formula(AtomicRef, Dec(limit), found, m) == Formula(Documented, Dec(limit), found, m)
       <==> 0 < found < limit || limit == 0 || (found == 1 && limit == 1) || (found == 0 && limit == m - 1)
  {
    if found > 0 {
      ModSmall(found - 1, m);
    } else {
      MinusOne(m);
    }
  }

  lemma MinusOne(m: nat)
    requires m > 0
    ensures -1 % m == m - 1
  {
    assert m * (-1 / m) + -1 % m == -1;
  }

  /** At its limit the compare-exchange decrement starts again at zero, the documented one counts on;
      at zero the first wraps to the type's maximum, the second starts again at the limit. */
  lemma DecDisagrees()
    ensures Formula(AtomicRef, Dec(5), 5, 0x1_0000_0000) == 0 && Formula(Documented, Dec(5), 5, 0x1_0000_0000) == 4
    ensures Formula(AtomicRef, Dec(5), 0, 0x1_0000_0000) == 0xFFFF_FFFF
    ensures Formula(Documented, Dec(5), 0, 0x1_0000_0000) == 5
  {
    MinusOne(0x1_0000_0000);
  }

  /** The decrement of the loops counts down to zero as well, but then it goes to and fro between the
      type's maximum and zero, whatever its limit. */
  lemma {:induction false} LoopDecrements(limit: nat, x: nat, k: nat, m: nat)
    requires 0 < limit < m && x < limit
    ensures Repeat(AtomicRef, Dec(limit), x, k, m) == if k <= x then x - k else if (k - x) % 2 == 1 then m - 1 else 0
  {
    if k > 0 {
      LoopDecrements(limit, x, k - 1, m);
      if k <= x { ModSmall(x - k, m); } else { MinusOne(m); }
    }
  }

  /** A call that has taken effect: who made it and what it found. */
  datatype Entry = Entry(thread: nat, op: Op, found: nat)

  /** The value after the operations of a log, one after the other. */
  function Final(sem: Semantics, m: nat, init: nat, log: seq<Entry>): nat
    requires m > 0
  {
    if log == [] then init
    else Formula(sem, log[|log| - 1].op, Final(sem, m, init, log[..|log| - 1]), m)
  }

  /** Every call of the log found what the calls before it left. */
  ghost predicate Sequential(sem: Semantics, m: nat, init: nat, log: seq<Entry>)
    requires m > 0
  {
    forall i :: 0 <= i < |log| ==> log[i].found == Final(sem, m, init, log[..i])
  }

  lemma SequentialAppend(sem: Semantics, m: nat, init: nat, log: seq<Entry>, e: Entry)
    requires m > 0 && Sequential(sem, m, init, log) && e.found == Final(sem, m, init, log)
    ensures Sequential(sem, m, init, log + [e])
    ensures Final(sem, m, init, log + [e]) == Formula(sem, e.op, e.found, m)
  {
    var log' := log + [e];
    assert log'[..|log|] == log;
    forall i | 0 <= i < |log'| ensures log'[i].found == Final(sem, m, init, log'[..i]) {
      if i < |log| { assert log'[..i] == log[..i] && log[i].found == Final(sem, m, init, log[..i]); }
    }
  }

  /** The operations of one thread in a log, and what they returned. */
  function OpsOf(t: nat, log: seq<Entry>): seq<Op>
  {
    if log == [] then []
    else
      var e := log[|log| - 1];
      OpsOf(t, log[..|log| - 1]) + if e.thread == t then [e.op] else []
  }

  function FoundBy(t: nat, log: seq<Entry>): seq<nat>
  {
    if log == [] then []
    else
      var e := log[|log| - 1];
      FoundBy(t, log[..|log| - 1]) + if e.thread == t then [e.found] else []
  }

  lemma OfAppend(t: nat, log: seq<Entry>, e: Entry)
    ensures OpsOf(t, log + [e]) == OpsOf(t, log) + if e.thread == t then [e.op] else []
    ensures FoundBy(t, log + [e]) == FoundBy(t, log) + if e.thread == t then [e.found] else []
  {
    assert (log + [e])[..|log|] == log;
  }

  /** Thread t's calls so far: they follow its program and returned what the log says they found. */
  ghost predicate Explains(log: seq<Entry>, t: nat, program: seq<Op>, returned: seq<nat>)
  {
    |returned| <= |program| && OpsOf(t, log) == program[..|returned|] && FoundBy(t, log) == returned
  }

  lemma ExplainsAppend(log: seq<Entry>, t: nat, program: seq<Op>, returned: seq<nat>, e: Entry)
    requires Explains(log, t, program, returned)
    requires e.thread == t ==> |returned| < |program| && e.op == program[|returned|]
    ensures Explains(log + [e], t, program, if e.thread == t then returned + [e.found] else returned)
  {
    OfAppend(t, log, e);
    if e.thread == t { assert program[..|returned| + 1] == program[..|returned|] + [e.op]; }
  }

  /** The values of an operation belong to the type. */
  predicate OfType(op: Op, m: nat)
  {
    op.value < m && (op.Cas? ==> op.compare < m)
  }

  lemma {:induction false} FinalOfType(sem: Semantics, m: nat, init: nat, log: seq<Entry>)
    requires init < m && forall i :: 0 <= i < |log| ==> OfType(log[i].op, m)
    ensures Final(sem, m, init, log) < m
  {
    if log != [] { FinalOfType(sem, m, init, log[..|log| - 1]); }
  }

  /** The call would have left the same value under both sets of formulas. */
  predicate Agrees(e: Entry, m: nat)
    requires m > 0
  {
    Formula(AtomicRef, e.op, e.found, m) == Formula(Documented, e.op, e.found, m)
  }

  lemma SequentialPrefix(sem: Semantics, m: nat, init: nat, log: seq<Entry>)
    requires m > 0 && log != []
    ensures var n := |log| - 1;
            Sequential(sem, m, init, log)
            <==> Sequential(sem, m, init, log[..n]) && log[n].found == Final(sem, m, init, log[..n])
  {
    var n := |log| - 1;
    assert forall i :: 0 <= i <= n ==> log[..n][..i] == log[..i];
    if Sequential(sem, m, init, log) { assert log[n].found == Final(sem, m, init, log[..n]); }
  }

  /** A log means the same to the function objects as to the compare-exchange loops. */
  ghost predicate SameMeaning(m: nat, init: nat, log: seq<Entry>)
    requires m > 0
  {
    Sequential(Documented, m, init, log) && Final(Documented, m, init, log) == Final(AtomicRef, m, init, log)
  }

  lemma SameMeaningStep(m: nat, init: nat, log: seq<Entry>)
    requires m > 0 && log != [] && Sequential(AtomicRef, m, init, log)
    ensures Sequential(AtomicRef, m, init, log[..|log| - 1])
    ensures SameMeaning(m, init, log) <==> SameMeaning(m, init, log[..|log| - 1]) && Agrees(log[|log| - 1], m)
  {
    SequentialPrefix(AtomicRef, m, init, log);
    SequentialPrefix(Documented, m, init, log);
  }

  /** Calls that are sequential under the formulas of the loops are so under the documented ones, with
      the same outcome, exactly when every single one of them agrees at the value it found. */
  lemma {:induction false} SameMeaningIffAllAgree(m: nat, init: nat, log: seq<Entry>)
    requires m > 0 && Sequential(AtomicRef, m, init, log)
    ensures SameMeaning(m, init, log) <==> forall i :: 0 <= i < |log| ==> Agrees(log[i], m)
  {
    if log != [] {
      var n := |log| - 1;
      SameMeaningStep(m, init, log);
      SameMeaningIffAllAgree(m, init, log[..n]);
      assert forall i :: 0 <= i < n ==> log[..n][i] == log[i];
    }
  }

  /** A decrement that found a value at which the loop computes what the function object does. */
  predicate DecFits(e: Entry, m: nat)
  {
    e.op.Dec? ==>
      || 0 < e.found < e.op.value || e.op.value == 0
      || (e.found == 1 && e.op.value == 1) || (e.found == 0 && e.op.value == m - 1)
  }

  lemma AgreesIffDecFits(m: nat, init: nat, log: seq<Entry>, i: nat)
    requires init < m && i < |log| && forall j :: 0 <= j < |log| ==> OfType(log[j].op, m)
    requires Sequential(AtomicRef, m, init, log)
    ensures Agrees(log[i], m) <==> DecFits(log[i], m)
  {
    FinalOfType(AtomicRef, m, init, log[..i]);
    assert log[i].found == Final(AtomicRef, m, init, log[..i]);
    if log[i].op.Dec? { DecAgreement(log[i].op.value, log[i].found, m); }
  }

  lemma SameMeaningIffDecsFit(m: nat, init: nat, log: seq<Entry>)
    requires init < m && forall i :: 0 <= i < |log| ==> OfType(log[i].op, m)
    requires Sequential(AtomicRef, m, init, log)
    ensures SameMeaning(m, init, log) <==> forall i :: 0 <= i < |log| ==> DecFits(log[i], m)
  {
    SameMeaningIffAllAgree(m, init, log);
    forall i | 0 <= i < |log| ensures Agrees(log[i], m) <==> DecFits(log[i], m) { AgreesIffDecFits(m, init, log, i); }
  }
}
