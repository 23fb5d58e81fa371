/**
The compare-exchange loops of include/alpaka/atomic/AtomicAtomicRef.hpp and the generic emulation of
include/alpaka/atomic/AtomicUniformCudaHipBuiltIn.hpp, under every interleaving of their accesses.

A call is cut at its accesses to the variable. An exchange may fail spuriously, as
compare_exchange_weak may; the emulation's exchange never does.
*/
module CasLoop {
  import opened AtomicOps

  /** A call in progress: it has not touched the variable yet, or it is about to exchange the value it
      has seen for the one it computed from it. */
  datatype Pc = Ready | Trying(found: nat, result: nat)

  datatype Step = Pending(pc: Pc) | Returned(found: nat)

  /** fetch_add and fetch_sub need no loop where the hardware has them. */
  predicate Native(sem: Semantics, op: Op)
  {
    sem.AtomicRef? && (op.Add? || op.Sub?)
  }

  /** One access of a call: the variable afterwards and how the call goes on. */
  function CallStep(sem: Semantics, m: nat, op: Op, value: nat, pc: Pc, spurious: bool): (nat, Step)
    requires m > 0
  {
    match pc
    case Ready =>
      var result := Formula(sem, op, value, m);
      if Native(sem, op) then (result, Returned(value)) else (value, Pending(Trying(value, result)))
    case Trying(found, result) =>
      if value == found && !spurious then (result, Returned(found))
      else (value, Pending(Trying(value, Formula(sem, op, value, m))))
  }

  /** The variable that the calls share, updated in place. */
  class AtomicVariable {
    var ref: nat

    /** std::atomic_ref::compare_exchange_weak */
    method CompareExchangeWeak(expected: nat, desired: nat, spurious: bool) returns (ok: bool, found: nat)
      modifies this
      ensures ok == (old(ref) == expected && !spurious) && found == if ok then expected else old(ref)
      ensures ref == if ok then desired else old(ref)
    {
      ok, found := ref == expected && !spurious, ref;
      if ok { ref := desired; }
    }

    /** One access of an AtomicAtomicRef operation. */
    method AtomicRefStep(m: nat, op: Op, pc: Pc, spurious: bool) returns (next: Step)
      requires m > 0 && (pc.Trying? ==> pc.result == Formula(AtomicRef, op, pc.found, m) && !Native(AtomicRef, op))
      modifies this
      ensures (ref, next) == CallStep(AtomicRef, m, op, old(ref), pc, spurious)
    {
      match pc
      case Ready =>
        if op.Add? || op.Sub? {
          var found := ref;
          ref := if op.Add? then (ref + op.value) % m else (ref - op.value) % m;
          next := Returned(found);
        } else {
          var found := ref;
          next := Pending(Trying(found, Formula(AtomicRef, op, found, m)));
        }
      case Trying(found, result) =>
        var ok, found' := CompareExchangeWeak(found, result, spurious);
        next := if ok then Returned(found') else Pending(Trying(found', Formula(AtomicRef, op, found', m)));
    }

    /** One access of the emulation: it compares what the exchange returns with what it assumed. */
    method EmulatedStep(m: nat, op: Op, pc: Pc) returns (next: Step)
      requires m > 0 && (pc.Trying? ==> pc.result == Formula(Documented, op, pc.found, m))
      modifies this
      ensures (ref, next) == CallStep(Documented, m, op, old(ref), pc, false)
    {
      match pc
      case Ready =>
        var found := ref;
        next := Pending(Trying(found, Apply(op, found, m)));
      case Trying(assumed, v) =>
        var found := ref;
        if found == assumed { ref := v; }
        next := if assumed != found then Pending(Trying(found, Apply(op, found, m))) else Returned(found);
    }
  }

  // ---------- threads

  /** A thread makes the calls of its program in turn. History: the values its calls returned, how
      many exchanges it lost to another thread, and how many calls had taken effect when it last
      looked at the variable. */
  datatype Thread = Thread(program: seq<Op>, pc: Pc, returned: seq<nat>, lost: nat, seen: nat)

  /** The log, history too, holds the calls in the order in which they took effect. */
  datatype State = State(value: nat, threads: seq<Thread>, log: seq<Entry>)

  datatype Action = Action(thread: nat, spurious: bool)

  predicate Unfinished(th: Thread)
  {
    |th.returned| < |th.program|
  }

  function Do(sem: Semantics, m: nat, s: State, a: Action): State
    requires m > 0
  {
    if a.thread >= |s.threads| || !Unfinished(s.threads[a.thread]) then s
    else
      var th := s.threads[a.thread];
      var op := th.program[|th.returned|];
      var (value, step) := CallStep(sem, m, op, s.value, th.pc, a.spurious);
      match step
      case Returned(found) =>
        State(value,
              s.threads[a.thread := th.(pc := Ready, returned := th.returned + [found])],
              s.log + [Entry(a.thread, op, found)])
      case Pending(pc) =>
        var lost := if th.pc.Trying? && s.value != th.pc.found then 1 else 0;
        State(value, s.threads[a.thread := th.(pc := pc, lost := th.lost + lost, seen := |s.log|)], s.log)
  }

  function Init(init: nat, programs: seq<seq<Op>>): State
  {
    State(init, seq(|programs|, t requires 0 <= t < |programs| => Thread(programs[t], Ready, [], 0, 0)), [])
  }

  function Run(sem: Semantics, m: nat, init: nat, programs: seq<seq<Op>>, schedule: seq<Action>): State
    requires m > 0
  {
    if schedule == [] then Init(init, programs)
    else Do(sem, m, Run(sem, m, init, programs, schedule[..|schedule| - 1]), schedule[|schedule| - 1])
  }

  // ---------- the invariant

  ghost predicate ThreadOk(sem: Semantics, m: nat, s: State, t: nat)
    requires m > 0 && t < |s.threads|
  {
    var th := s.threads[t];
    && Explains(s.log, t, th.program, th.returned)
    && th.lost <= th.seen <= |s.log|
    && (th.pc.Trying? ==> |th.returned| < |th.program|
                          && th.pc.result == Formula(sem, th.program[|th.returned|], th.pc.found, m)
                          && (th.seen == |s.log| ==> th.pc.found == s.value))
  }

  ghost predicate LogOk(sem: Semantics, m: nat, init: nat, s: State)
    requires m > 0
  {
    Sequential(sem, m, init, s.log) && s.value == Final(sem, m, init, s.log)
  }

  /** The calls that the threads have finished. */
  function Finished(threads: seq<Thread>): nat
  {
    if threads == [] then 0 else Finished(threads[..|threads| - 1]) + |threads[|threads| - 1].returned|
  }

  function Calls(programs: seq<seq<Op>>): nat
  {
    if programs == [] then 0 else Calls(programs[..|programs| - 1]) + |programs[|programs| - 1]|
  }

  ghost predicate Inv(sem: Semantics, m: nat, init: nat, programs: seq<seq<Op>>, s: State)
    requires m > 0
  {
    && |s.threads| == |programs|
    && (forall t :: 0 <= t < |s.threads| ==> s.threads[t].program == programs[t] && ThreadOk(sem, m, s, t))
    && LogOk(sem, m, init, s)
    && |s.log| == Finished(s.threads)
  }

  lemma {:induction false} FinishedUpdate(threads: seq<Thread>, t: nat, th: Thread)
    requires t < |threads|
    ensures Finished(threads[t := th]) == Finished(threads) - |threads[t].returned| + |th.returned|
  {
    var n := |threads| - 1;
    var threads' := threads[t := th];
    if t == n {
      assert threads'[..n] == threads[..n];
    } else {
      FinishedUpdate(threads[..n], t, th);
      assert threads'[..n] == threads[..n][t := th];
    }
  }

  lemma {:induction false} FinishedBound(threads: seq<Thread>, programs: seq<seq<Op>>)
    requires |threads| == |programs| && forall t :: 0 <= t < |threads| ==> |threads[t].returned| <= |programs[t]|
    ensures Finished(threads) <= Calls(programs)
  {
    if threads != [] { FinishedBound(threads[..|threads| - 1], programs[..|threads| - 1]); }
  }

  /** A call that takes effect. */
  lemma EffectKeeps(sem: Semantics, m: nat, init: nat, programs: seq<seq<Op>>, s: State, s': State, t: nat, found: nat)
    requires m > 0 && Inv(sem, m, init, programs, s) && t < |s.threads| && Unfinished(s.threads[t]) && found == s.value
    requires var th := s.threads[t];
             var op := th.program[|th.returned|];
             s' == State(Formula(sem, op, found, m),
                         s.threads[t := th.(pc := Ready, returned := th.returned + [found])],
                         s.log + [Entry(t, op, found)])
    ensures Inv(sem, m, init, programs, s')
  {
    var e := s'.log[|s.log|];
    SequentialAppend(sem, m, init, s.log, e);
    FinishedUpdate(s.threads, t, s'.threads[t]);
    forall u | 0 <= u < |s'.threads| ensures s'.threads[u].program == programs[u] && ThreadOk(sem, m, s', u) {
      assert ThreadOk(sem, m, s, u);
      ExplainsAppend(s.log, u, programs[u], s.threads[u].returned, e);
    }
  }

  /** A call that only looks at the variable, or loses its exchange. */
  lemma LookKeeps(sem: Semantics, m: nat, init: nat, programs: seq<seq<Op>>, s: State, s': State, t: nat, pc: Pc,
                  lost: nat)
    requires m > 0 && Inv(sem, m, init, programs, s) && t < |s.threads| && Unfinished(s.threads[t])
    requires var th := s.threads[t];
             && s' == s.(threads := s.threads[t := th.(pc := pc, lost := lost, seen := |s.log|)])
             && pc == Trying(s.value, Formula(sem, th.program[|th.returned|], s.value, m)) && lost <= |s.log|
    ensures Inv(sem, m, init, programs, s')
  {
    FinishedUpdate(s.threads, t, s'.threads[t]);
    forall u | 0 <= u < |s'.threads| ensures s'.threads[u].program == programs[u] && ThreadOk(sem, m, s', u) {
      assert ThreadOk(sem, m, s, u);
    }
  }

  lemma StepInv(sem: Semantics, m: nat, init: nat, programs: seq<seq<Op>>, s: State, a: Action)
    requires m > 0 && Inv(sem, m, init, programs, s)
    ensures Inv(sem, m, init, programs, Do(sem, m, s, a))
  {
    var s' := Do(sem, m, s, a);
    if a.thread < |s.threads| && Unfinished(s.threads[a.thread]) {
      var t, th := a.thread, s.threads[a.thread];
      assert ThreadOk(sem, m, s, t);
      if s'.log == s.log {
        LookKeeps(sem, m, init, programs, s, s', t, s'.threads[t].pc, s'.threads[t].lost);
      } else {
        EffectKeeps(sem, m, init, programs, s, s', t, s.value);
      }
    }
  }

  lemma {:induction false} RunInv(sem: Semantics, m: nat, init: nat, programs: seq<seq<Op>>, schedule: seq<Action>)
    requires m > 0
    ensures Inv(sem, m, init, programs, Run(sem, m, init, programs, schedule))
  {
    if schedule == [] {
      NothingFinished(Init(init, programs).threads);
    } else {
      RunInv(sem, m, init, programs, schedule[..|schedule| - 1]);
      var before, a := schedule[..|schedule| - 1], schedule[|schedule| - 1];
      StepInv(sem, m, init, programs, Run(sem, m, init, programs, before), a);
    }
  }

  lemma {:induction false} NothingFinished(threads: seq<Thread>)
    requires forall t :: 0 <= t < |threads| ==> threads[t].returned == []
    ensures Finished(threads) == 0
  {
    if threads != [] { NothingFinished(threads[..|threads| - 1]); }
  }

  // ---------- what holds in every run

  /** In every interleaving, spurious failures and ABA included, the variable holds what the calls give
      one after the other in the order of their successful exchanges; every call returned the value
      that the calls before it in that order left; and each thread's calls come in program order. */
  lemma Linearisable(sem: Semantics, m: nat, init: nat, programs: seq<seq<Op>>, schedule: seq<Action>)
    requires m > 0
    ensures var s := Run(sem, m, init, programs, schedule);
            && Sequential(sem, m, init, s.log) && s.value == Final(sem, m, init, s.log)
            && |s.threads| == |programs|
            && (forall t :: 0 <= t < |programs| ==> Explains(s.log, t, programs[t], s.threads[t].returned))
            && |s.log| == Finished(s.threads)
  {
    RunInv(sem, m, init, programs, schedule);
    var s := Run(sem, m, init, programs, schedule);
    forall t | 0 <= t < |programs| ensures Explains(s.log, t, programs[t], s.threads[t].returned) {
      assert ThreadOk(sem, m, s, t);
    }
  }

  /** The call is one of its thread's program. */
  predicate FromProgram(e: Entry, programs: seq<seq<Op>>)
  {
    e.thread < |programs| && e.op in programs[e.thread]
  }

  lemma DoLogs(sem: Semantics, m: nat, s: State, a: Action, programs: seq<seq<Op>>)
    requires m > 0 && |s.threads| == |programs|
    requires forall t :: 0 <= t < |s.threads| ==> s.threads[t].program == programs[t]
    ensures var log := Do(sem, m, s, a).log;
            log == s.log || (|log| == |s.log| + 1 && log[..|s.log|] == s.log && FromProgram(log[|s.log|], programs))
  {
  }

  lemma {:induction false} LoggedOps(sem: Semantics, m: nat, init: nat, programs: seq<seq<Op>>, schedule: seq<Action>)
    requires m > 0
    ensures forall e <- Run(sem, m, init, programs, schedule).log :: FromProgram(e, programs)
  {
    if schedule != [] {
      var before, a := schedule[..|schedule| - 1], schedule[|schedule| - 1];
      LoggedOps(sem, m, init, programs, before);
      RunInv(sem, m, init, programs, before);
      DoLogs(sem, m, Run(sem, m, init, programs, before), a, programs);
    }
  }

  lemma ProgramsOfType(m: nat, e: Entry, programs: seq<seq<Op>>)
    requires FromProgram(e, programs) && forall t, op :: 0 <= t < |programs| && op in programs[t] ==> OfType(op, m)
    ensures OfType(e.op, m)
  {
  }

  /** In every run the compare-exchange loops give the documented values exactly when no decrement
      found its limit, a value above it, or zero, three corner cases aside. */
  lemma AgreesWithFunctionObjects(m: nat, init: nat, programs: seq<seq<Op>>, schedule: seq<Action>)
    requires init < m && forall t, op :: 0 <= t < |programs| && op in programs[t] ==> OfType(op, m)
    ensures var s := Run(AtomicRef, m, init, programs, schedule);
            && s.value == Final(AtomicRef, m, init, s.log)
            && (SameMeaning(m, init, s.log) <==> forall i :: 0 <= i < |s.log| ==> DecFits(s.log[i], m))
  {
    var log := Run(AtomicRef, m, init, programs, schedule).log;
    Linearisable(AtomicRef, m, init, programs, schedule);
    LoggedOps(AtomicRef, m, init, programs, schedule);
    forall i | 0 <= i < |log| ensures OfType(log[i].op, m) { ProgramsOfType(m, log[i], programs); }
    SameMeaningIffDecsFit(m, init, log);
  }

  /** The exchanges that thread t lost in the schedule: it was about to exchange a value that the variable
      did not hold any more. */
  function Losses(sem: Semantics, m: nat, init: nat, programs: seq<seq<Op>>, schedule: seq<Action>, t: nat): nat
    requires m > 0
  {
    if schedule == [] then 0 else
      var s := Run(sem, m, init, programs, schedule[..|schedule| - 1]);
      Losses(sem, m, init, programs, schedule[..|schedule| - 1], t)
      + if schedule[|schedule| - 1].thread == t && Loses(s, t) then 1 else 0
  }

  predicate Loses(s: State, t: nat)
  {
    && t < |s.threads| && Unfinished(s.threads[t])
    && s.threads[t].pc.Trying? && s.threads[t].pc.found != s.value
  }

  lemma {:induction false} LostIsLosses(sem: Semantics, m: nat, init: nat, programs: seq<seq<Op>>,
                                        schedule: seq<Action>, t: nat)
    requires m > 0 && t < |programs|
    ensures var s := Run(sem, m, init, programs, schedule);
            |s.threads| == |programs| && s.threads[t].lost == Losses(sem, m, init, programs, schedule, t)
  {
    if schedule != [] { LostIsLosses(sem, m, init, programs, schedule[..|schedule| - 1], t); }
  }

  /** A loop only goes round again, spurious failures aside, when another thread's call has taken
      effect meanwhile; so no call loses more often than there are calls. */
  lemma NoCallLosesForNothing(sem: Semantics, m: nat, init: nat, programs: seq<seq<Op>>, schedule: seq<Action>, t: nat)
    requires m > 0 && t < |programs|
    ensures var log := Run(sem, m, init, programs, schedule).log;
            Losses(sem, m, init, programs, schedule, t) <= |log| <= Calls(programs)
  {
    RunInv(sem, m, init, programs, schedule);
    LostIsLosses(sem, m, init, programs, schedule, t);
    var s := Run(sem, m, init, programs, schedule);
    assert ThreadOk(sem, m, s, t);
    forall u | 0 <= u < |programs| ensures |s.threads[u].returned| <= |programs[u]| { assert ThreadOk(sem, m, s, u); }
    FinishedBound(s.threads, programs);
  }

  /** An exchange that fails, spuriously or not, has no effect: the variable stays, no call takes effect, and
      the thread tries again with the value it has found. */
  lemma FailureHasNoEffect(sem: Semantics, m: nat, s: State, a: Action)
    requires m > 0 && a.thread < |s.threads| && Unfinished(s.threads[a.thread]) && s.threads[a.thread].pc.Trying?
    requires a.spurious || s.threads[a.thread].pc.found != s.value
    ensures var s' := Do(sem, m, s, a);
            && s'.value == s.value && s'.log == s.log && s'.threads[a.thread].returned == s.threads[a.thread].returned
            && s'.threads[a.thread].pc.Trying? && s'.threads[a.thread].pc.found == s.value
  {
  }

  /** From every reachable state a thread left alone finishes its call in two accesses. */
  lemma AloneFinishes(sem: Semantics, m: nat, init: nat, programs: seq<seq<Op>>, schedule: seq<Action>, t: nat)
    requires m > 0 && t < |programs|
    ensures |Run(sem, m, init, programs, schedule).threads| == |programs|
    ensures var s := Run(sem, m, init, programs, schedule);
            var s' := Do(sem, m, Do(sem, m, s, Action(t, false)), Action(t, false));
            Unfinished(s.threads[t]) ==> |s'.threads[t].returned| > |s.threads[t].returned|
  {
    RunInv(sem, m, init, programs, schedule);
  }
}
