/**
What the laws of the atomic operations mean for concurrent threads, under every interleaving of their
accesses: for the compare-exchange loops and for the ticket lock of include/alpaka/atomic.
*/
module AtomicRuns {
  import opened AtomicOps
  import opened AtomicLaws
  import C = CasLoop
  import T = TicketLock

  /** The calls that a thread has finished. */
  function Finished(th: C.Thread): seq<Op>
  {
    if |th.returned| <= |th.program| then th.program[..|th.returned|] else th.program
  }

  /** What the first n threads have added with them. */
  function Added(threads: seq<C.Thread>, n: nat): int
    requires n <= |threads|
  {
    if n == 0 then 0 else Added(threads, n - 1) + Total(Finished(threads[n - 1]))
  }

  lemma {:induction false} AddedInLog(threads: seq<C.Thread>, log: seq<Entry>, n: nat)
    requires n <= |threads| && forall t :: 0 <= t < n ==> OpsOf(t, log) == Finished(threads[t])
    ensures Added(threads, n) == TotalOf(log, n)
  {
    if n > 0 {
      var last := n - 1;
      AddedInLog(threads, log, last);
      assert OpsOf(last, log) == Finished(threads[last]);
    }
  }

  predicate AllCounting(program: seq<Op>)
  {
    forall op <- program :: Counting(op)
  }

  /** No update is lost: at every moment the variable holds its initial value, plus all that finished calls
      have added, minus all that they have subtracted, modulo the type's range. */
  lemma NoUpdateLost(sem: Semantics, m: nat, init: nat, programs: seq<seq<Op>>, schedule: seq<C.Action>)
    returns (total: int)
    requires init < m && forall program <- programs :: AllCounting(program)
    ensures var s := C.Run(sem, m, init, programs, schedule);
            |s.threads| == |programs| && total == Added(s.threads, |programs|) && s.value == (init + total) % m
  {
    var s := C.Run(sem, m, init, programs, schedule);
    C.Linearisable(sem, m, init, programs, schedule);
    LoggedCounting(sem, m, init, programs, schedule);
    FinishedOps(sem, m, init, programs, schedule);
    total := NothingAddedIsLost(sem, m, init, s.log);
    AddedIsTotal(s.log, s.threads);
  }

  lemma AddedIsTotal(log: seq<Entry>, threads: seq<C.Thread>)
    requires forall e <- log :: e.thread < |threads|
    requires forall t :: 0 <= t < |threads| ==> OpsOf(t, log) == Finished(threads[t])
    ensures Total(Ops(log)) == Added(threads, |threads|)
  {
    TotalByThread(log, |threads|);
    AddedInLog(threads, log, |threads|);
  }

  lemma LoggedCounting(sem: Semantics, m: nat, init: nat, programs: seq<seq<Op>>, schedule: seq<C.Action>)
    requires m > 0 && forall program <- programs :: AllCounting(program)
    ensures forall e <- C.Run(sem, m, init, programs, schedule).log :: e.thread < |programs| && Counting(e.op)
  {
    C.LoggedOps(sem, m, init, programs, schedule);
    forall e | e in C.Run(sem, m, init, programs, schedule).log ensures e.thread < |programs| && Counting(e.op) {
      assert C.FromProgram(e, programs);
      assert AllCounting(programs[e.thread]);
    }
  }

  lemma FinishedOps(sem: Semantics, m: nat, init: nat, programs: seq<seq<Op>>, schedule: seq<C.Action>)
    requires m > 0
    ensures var s := C.Run(sem, m, init, programs, schedule);
            |s.threads| == |programs| && forall t :: 0 <= t < |programs| ==> OpsOf(t, s.log) == Finished(s.threads[t])
  {
    var s := C.Run(sem, m, init, programs, schedule);
    C.RunInv(sem, m, init, programs, schedule);
    forall t | 0 <= t < |programs| ensures OpsOf(t, s.log) == Finished(s.threads[t]) {
      assert C.ThreadOk(sem, m, s, t);
      assert Explains(s.log, t, s.threads[t].program, s.threads[t].returned);
    }
  }

  predicate AllReplace(program: seq<Op>, c: nat)
  {
    forall op <- program :: Replaces(op, c)
  }

  /** How often a thread was told the value it compares with: the number of its calls that succeeded. */
  function Wins(returned: seq<nat>, c: nat): nat
  {
    multiset(returned)[c]
  }

  lemma WinsOf(sem: Semantics, m: nat, init: nat, log: seq<Entry>)
    requires m > 0 && Sequential(sem, m, init, log) && forall e <- log :: Replaces(e.op, init)
    ensures log == [] ==> Final(sem, m, init, log) == init
    ensures log != [] ==> Final(sem, m, init, log) == log[0].op.value != init
    ensures forall t: nat :: Wins(FoundBy(t, log), init) == if log != [] && log[0].thread == t then 1 else 0
  {
    if log != [] {
      OneWinner(sem, m, init, log);
      forall t: nat ensures Wins(FoundBy(t, log), init) == if log[0].thread == t then 1 else 0 {
        FoundOnce(t, log, init);
      }
      assert Replaces(log[0].op, init);
    }
  }

  /** If all threads try to replace the initial value, then one call of one thread succeeds, as soon as
      any call is finished, and the variable holds its value from then on. */
  lemma OneSwapSucceeds(sem: Semantics, m: nat, init: nat, programs: seq<seq<Op>>, schedule: seq<C.Action>)
    returns (winner: nat)
    requires m > 0 && forall program <- programs :: AllReplace(program, init)
    ensures var s := C.Run(sem, m, init, programs, schedule);
            && |s.threads| == |programs|
            && ((exists t :: 0 <= t < |programs| && s.threads[t].returned != []) ==>
                  && winner < |programs| && s.value != init
                  && exists op <- programs[winner] :: s.value == op.value)
            && forall t :: 0 <= t < |programs| ==>
                  Wins(s.threads[t].returned, init) == if t == winner && s.log != [] then 1 else 0
  {
    var s := C.Run(sem, m, init, programs, schedule);
    C.Linearisable(sem, m, init, programs, schedule);
    C.LoggedOps(sem, m, init, programs, schedule);
    forall e | e in s.log ensures Replaces(e.op, init) && C.FromProgram(e, programs) {
      assert AllReplace(programs[e.thread], init);
    }
    WinsOf(sem, m, init, s.log);
    winner := if s.log == [] then 0 else s.log[0].thread;
    forall t | 0 <= t < |programs|
      ensures FoundBy(t, s.log) == s.threads[t].returned
      ensures s.threads[t].returned != [] ==> s.log != []
    {
      assert Explains(s.log, t, programs[t], s.threads[t].returned);
    }
    if s.log != [] { assert s.log[0] in s.log && s.log[0].op in programs[winner]; }
  }

  /** The same through the ticket lock. */
  lemma OneLockedSwapSucceeds(tickets: nat, m: nat, init: nat, programs: seq<seq<Op>>, schedule: seq<nat>)
    returns (winner: nat)
    requires tickets > 0 && m > 0 && |programs| <= tickets && forall program <- programs :: AllReplace(program, init)
    ensures var s := T.Run(tickets, m, init, programs, schedule);
            forall t :: 0 <= t < |programs| ==>
                Wins(T.FoundSoFar(s.threads[t]), init) == if t == winner && s.log != [] then 1 else 0
    ensures var s := T.Run(tickets, m, init, programs, schedule);
            s.log != [] ==> s.shared.value != init
  {
    var s := T.Run(tickets, m, init, programs, schedule);
    T.TicketOrder(tickets, m, init, programs, schedule);
    forall t | 0 <= t < |programs| ensures FoundBy(t, s.log) == T.FoundSoFar(s.threads[t]) {
      assert Explains(s.log, t, programs[t], T.FoundSoFar(s.threads[t]));
    }
    LockedOps(tickets, m, init, programs, schedule);
    forall e | e in s.log ensures Replaces(e.op, init) { assert AllReplace(programs[e.thread], init); }
    WinsOf(Documented, m, init, s.log);
    winner := if s.log == [] then 0 else s.log[0].thread;
  }

  lemma {:induction false} LockedOps(tickets: nat, m: nat, init: nat, programs: seq<seq<Op>>, schedule: seq<nat>)
    requires tickets > 0 && m > 0
    ensures var s := T.Run(tickets, m, init, programs, schedule);
            && (forall t :: 0 <= t < |programs| ==> s.threads[t].program == programs[t])
            && forall e <- s.log :: e.thread < |programs| && e.op in programs[e.thread]
  {
    if schedule != [] { LockedOps(tickets, m, init, programs, schedule[..|schedule| - 1]); }
  }
}
