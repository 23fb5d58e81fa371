/**
The ticket lock of include/alpaka/atomic/AtomicOaccExtended.hpp and the operations run through it.

criticalOp is cut at its accesses to shared memory; a run is an arbitrary schedule of thread numbers.
Tickets live modulo `tickets`, as std::uint32_t does.
*/
module TicketLock {
  import opened Arithmetic
  import opened Finite
  import opened AtomicOps

  /** The program points of criticalOp and of the operation it runs. */
  datatype Pc =
    | Outside                // about to take a ticket
    | Spinning(ticket: nat)  // reading the second counter until it shows the ticket
    | Entered                // about to read the variable
    | Holding(found: nat)    // has read the variable, about to write it
    | Leaving(found: nat)    // about to increment the second counter

  /** mutex[0], mutex[1] and the variable. */
  datatype Shared = Shared(tickets: nat, m: nat, next: nat, serving: nat, value: nat)

  /** One access by a thread that runs `op`. */
  function CriticalStep(sh: Shared, pc: Pc, op: Op): (Shared, Pc)
    requires sh.m > 0
  {
    match pc
    case Outside => (sh.(next := Next(sh.next, sh.tickets)), Spinning(sh.next))
    case Spinning(ticket) => (sh, if sh.serving != ticket then pc else Entered)
    case Entered => (sh, Holding(sh.value))
    case Holding(found) => (sh.(value := Apply(op, found, sh.m)), Leaving(found))
    case Leaving(_) => (sh.(serving := Next(sh.serving, sh.tickets)), Outside)
  }

  /** The operations that OpenACC has no built-in for. */
  predicate RunsLocked(op: Op)
  {
    op.Min? || op.Max? || op.Inc? || op.Dec? || op.Cas?
  }

  /** The lock and the variable, updated in place. */
  class AtomicOaccExtended {
    const tickets: nat
    const m: nat
    var mutex0: nat
    var mutex1: nat
    var ref: nat

    ghost function View(): Shared
      reads this
    {
      Shared(tickets, m, mutex0, mutex1, ref)
    }

    constructor (tickets: nat, m: nat, init: nat)
      requires tickets > 0 && m > 0
      ensures View() == Shared(tickets, m, 0, 0, init)
    {
      this.tickets, this.m, mutex0, mutex1, ref := tickets, m, 0, 0, init;
    }

    method Step(pc: Pc, op: Op) returns (pc': Pc)
      requires m > 0 && RunsLocked(op)
      modifies this
      ensures (View(), pc') == CriticalStep(old(View()), pc, op)
    {
      match pc
      case Outside =>
        pc' := Spinning(mutex0);
        mutex0 := Next(mutex0, tickets);
      case Spinning(ticket) =>
        var queue := mutex1;
        pc' := if queue != ticket then pc else Entered;
      case Entered =>
        pc' := Holding(ref);
      case Holding(found) =>
        match op {
          case Min(v) => ref := if found <= v then found else v;
          case Max(v) => ref := if found >= v then found else v;
          case Inc(v) => ref := if found >= v then 0 else (found + 1) % m;
          case Dec(v) => ref := if found == 0 || found > v then v else (found - 1) % m;
          case Cas(c, v) => ref := if found == c then v else found;
        }
        pc' := Leaving(found);
      case Leaving(_) =>
        mutex1 := Next(mutex1, tickets);
        pc' := Outside;
    }
  }

  // ---------- threads

  /** A thread makes the calls of its program in turn. `number` is history: how many tickets had been
      taken before its latest one. */
  datatype Thread = Thread(program: seq<Op>, pc: Pc, returned: seq<nat>, number: nat)

  /** History: who took each ticket, how many calls have left, and the order of the writes. */
  datatype State = State(shared: Shared, threads: seq<Thread>, takers: seq<nat>, left: nat, log: seq<Entry>)

  predicate Unfinished(th: Thread)
  {
    |th.returned| < |th.program|
  }

  function Do(s: State, t: nat): State
    requires s.shared.m > 0
  {
    if t >= |s.threads| || !Unfinished(s.threads[t]) then s
    else
      var th := s.threads[t];
      var op := th.program[|th.returned|];
      var (shared, pc) := CriticalStep(s.shared, th.pc, op);
      match th.pc
      case Outside => State(shared, s.threads[t := th.(pc := pc, number := |s.takers|)], s.takers + [t], s.left, s.log)
      case Spinning(_) => s.(threads := s.threads[t := th.(pc := pc)])
      case Entered => s.(threads := s.threads[t := th.(pc := pc)])
      case Holding(found) =>
        s.(shared := shared, threads := s.threads[t := th.(pc := pc)], log := s.log + [Entry(t, op, found)])
      case Leaving(found) =>
        s.(shared := shared, threads := s.threads[t := th.(pc := pc, returned := th.returned + [found])],
           left := s.left + 1)
  }

  function Init(tickets: nat, m: nat, init: nat, programs: seq<seq<Op>>): State
  {
    State(Shared(tickets, m, 0, 0, init),
          seq(|programs|, t requires 0 <= t < |programs| => Thread(programs[t], Outside, [], 0)), [], 0, [])
  }

  function Run(tickets: nat, m: nat, init: nat, programs: seq<seq<Op>>, schedule: seq<nat>): (s: State)
    requires tickets > 0 && m > 0
    ensures s.shared.tickets == tickets && s.shared.m == m && |s.threads| == |programs|
  {
    if schedule == [] then Init(tickets, m, init, programs)
    else Do(Run(tickets, m, init, programs, schedule[..|schedule| - 1]), schedule[|schedule| - 1])
  }

  predicate InCritical(th: Thread)
  {
    th.pc.Entered? || th.pc.Holding? || th.pc.Leaving?
  }

  // ---------- the invariant

  /** The ticket that is handed out after k others. */
  function TicketOf(k: nat, tickets: nat): nat
  {
    if k == 0 then 0 else Next(TicketOf(k - 1, tickets), tickets)
  }

  lemma {:induction false} TicketIsRemainder(k: nat, tickets: nat)
    requires tickets > 0
    ensures TicketOf(k, tickets) == k % tickets
  {
    if k == 0 {
      ModSmall(0, tickets);
    } else {
      TicketIsRemainder(k - 1, tickets);
      ModNext(k - 1, tickets);
    }
  }

  /** The values the thread's calls have found, the one it is about to return included. */
  function FoundSoFar(th: Thread): seq<nat>
  {
    if th.pc.Leaving? then th.returned + [th.pc.found] else th.returned
  }

  ghost predicate ThreadOk(s: State, t: nat)
    requires t < |s.threads| && s.shared.tickets > 0
  {
    var th := s.threads[t];
    && Explains(s.log, t, th.program, FoundSoFar(th))
    && (!th.pc.Outside? ==>
          && Unfinished(th)
          && s.left <= th.number < |s.takers| && s.takers[th.number] == t)
    && (th.pc.Spinning? ==> th.pc.ticket == TicketOf(th.number, s.shared.tickets))
    && (InCritical(th) ==> th.number == s.left)
    && (th.pc.Holding? ==> th.pc.found == s.shared.value)
  }

  /** A ticket that has not been given back is with the thread that took it. */
  ghost predicate TicketOk(s: State, k: nat)
    requires k < |s.takers|
  {
    s.takers[k] < |s.threads| && s.threads[s.takers[k]].number == k && !s.threads[s.takers[k]].pc.Outside?
  }

  ghost predicate CountersOk(s: State)
    requires s.shared.tickets > 0
  {
    && s.left <= |s.takers|
    && s.shared.next == TicketOf(|s.takers|, s.shared.tickets)
    && s.shared.serving == TicketOf(s.left, s.shared.tickets)
  }

  /** The writes happened in ticket order; the thread being served may already have written. */
  ghost predicate LogOk(s: State, init: nat)
    requires s.shared.m > 0
  {
    && Sequential(Documented, s.shared.m, init, s.log) && s.shared.value == Final(Documented, s.shared.m, init, s.log)
    && s.left <= |s.log| <= |s.takers|
    && (forall i :: 0 <= i < |s.log| ==> s.log[i].thread == s.takers[i])
    && (|| |s.log| == s.left
        || (|s.log| == s.left + 1 && s.takers[s.left] < |s.threads| && s.threads[s.takers[s.left]].pc.Leaving?))
    && (s.left < |s.takers| && s.takers[s.left] < |s.threads| && s.threads[s.takers[s.left]].pc.Leaving? ==>
          |s.log| == s.left + 1)
  }

  ghost predicate Inv(s: State, init: nat, programs: seq<seq<Op>>)
  {
    && s.shared.tickets > 0 && s.shared.m > 0 && |s.threads| == |programs|
    && CountersOk(s)
    && (forall t :: 0 <= t < |s.threads| ==> s.threads[t].program == programs[t] && ThreadOk(s, t))
    && (forall k :: s.left <= k < |s.takers| ==> TicketOk(s, k))
    && LogOk(s, init)
  }

  /** There are never more tickets out than threads. */
  lemma TicketsOut(s: State)
    requires s.left <= |s.takers| && forall k :: s.left <= k < |s.takers| ==> TicketOk(s, k)
    ensures |s.takers| - s.left <= |s.threads|
  {
    var out := s.takers[s.left..];
    forall i | 0 <= i < |out| ensures out[i] == s.takers[s.left + i] && TicketOk(s, s.left + i) {}
    DistinctCovers(out, |s.threads|);
  }

  /** Only the thread whose turn it is can be inside. */
  lemma OnlyServed(s: State, t: nat)
    requires s.shared.tickets > 0 && forall u :: 0 <= u < |s.threads| ==> ThreadOk(s, u)
    requires t < |s.threads| && InCritical(s.threads[t])
    ensures s.left < |s.takers| && s.takers[s.left] == t
    ensures forall u :: 0 <= u < |s.threads| && u != t ==> !InCritical(s.threads[u])
  {
    assert ThreadOk(s, t);
    forall u | 0 <= u < |s.threads| && u != t ensures !InCritical(s.threads[u]) { assert ThreadOk(s, u); }
  }

  /** Tickets fewer than a whole turn apart are different. */
  lemma SameTicket(a: nat, b: nat, tickets: nat)
    requires tickets > 0 && a <= b < a + tickets && TicketOf(a, tickets) == TicketOf(b, tickets)
    ensures a == b
  {
    TicketIsRemainder(a, tickets);
    TicketIsRemainder(b, tickets);
    var q := b / tickets - a / tickets;
    assert b - a == tickets * q by {
      assert a == tickets * (a / tickets) + a % tickets && b == tickets * (b / tickets) + b % tickets;
    }
    if q >= 1 { MulMonotone(tickets, 1, q); }
  }

  lemma TakeKeepsLog(s: State, init: nat, programs: seq<seq<Op>>, t: nat)
    requires Inv(s, init, programs) && t < |s.threads| && Unfinished(s.threads[t]) && s.threads[t].pc.Outside?
    ensures CountersOk(Do(s, t)) && LogOk(Do(s, t), init)
  {
    if s.left < |s.takers| { assert TicketOk(s, s.left); }
  }

  lemma TakeKeeps(s: State, init: nat, programs: seq<seq<Op>>, t: nat)
    requires Inv(s, init, programs) && t < |s.threads| && Unfinished(s.threads[t]) && s.threads[t].pc.Outside?
    ensures Inv(Do(s, t), init, programs)
  {
    var s' := Do(s, t);
    TakeKeepsLog(s, init, programs, t);
    assert ThreadOk(s, t);
    forall u | 0 <= u < |s'.threads| ensures s'.threads[u].program == programs[u] && ThreadOk(s', u) {
      assert ThreadOk(s, u);
    }
    forall k | s'.left <= k < |s'.takers| ensures TicketOk(s', k) {
      if k < |s.takers| { assert TicketOk(s, k); }
    }
  }

  lemma SpinKeeps(s: State, init: nat, programs: seq<seq<Op>>, t: nat)
    requires Inv(s, init, programs) && |programs| <= s.shared.tickets
    requires t < |s.threads| && s.threads[t].pc.Spinning?
    ensures Inv(Do(s, t), init, programs)
  {
    var s' := Do(s, t);
    assert ThreadOk(s, t);
    TicketsOut(s);
    if s.shared.serving == s.threads[t].pc.ticket { SameTicket(s.left, s.threads[t].number, s.shared.tickets); }
    forall u | 0 <= u < |s'.threads| ensures s'.threads[u].program == programs[u] && ThreadOk(s', u) {
      assert ThreadOk(s, u);
    }
    forall k | s'.left <= k < |s'.takers| ensures TicketOk(s', k) { assert TicketOk(s, k); }
  }

  lemma ReadKeeps(s: State, init: nat, programs: seq<seq<Op>>, t: nat)
    requires Inv(s, init, programs) && t < |s.threads| && s.threads[t].pc.Entered?
    ensures Inv(Do(s, t), init, programs)
  {
    var s' := Do(s, t);
    OnlyServed(s, t);
    assert ThreadOk(s, t);
    forall u | 0 <= u < |s'.threads| ensures s'.threads[u].program == programs[u] && ThreadOk(s', u) {
      assert ThreadOk(s, u);
    }
    forall k | s'.left <= k < |s'.takers| ensures TicketOk(s', k) { assert TicketOk(s, k); }
  }

  lemma WriteKeeps(s: State, init: nat, programs: seq<seq<Op>>, t: nat)
    requires Inv(s, init, programs) && t < |s.threads| && s.threads[t].pc.Holding?
    ensures Inv(Do(s, t), init, programs)
  {
    var s' := Do(s, t);
    OnlyServed(s, t);
    assert ThreadOk(s, t);
    var e := s'.log[|s.log|];
    SequentialAppend(Documented, s.shared.m, init, s.log, e);
    forall u | 0 <= u < |s'.threads| ensures s'.threads[u].program == programs[u] && ThreadOk(s', u) {
      assert ThreadOk(s, u);
      ExplainsAppend(s.log, u, programs[u], FoundSoFar(s.threads[u]), e);
    }
    forall k | s'.left <= k < |s'.takers| ensures TicketOk(s', k) { assert TicketOk(s, k); }
  }

  lemma LeaveKeeps(s: State, init: nat, programs: seq<seq<Op>>, t: nat)
    requires Inv(s, init, programs) && t < |s.threads| && s.threads[t].pc.Leaving?
    ensures Inv(Do(s, t), init, programs)
  {
    var s' := Do(s, t);
    OnlyServed(s, t);
    assert ThreadOk(s, t);
    forall u | 0 <= u < |s'.threads| ensures s'.threads[u].program == programs[u] && ThreadOk(s', u) {
      assert ThreadOk(s, u);
    }
    forall k | s'.left <= k < |s'.takers| ensures TicketOk(s', k) { assert TicketOk(s, k); }
    if s'.left < |s'.takers| { assert TicketOk(s, s'.left); }
  }

  lemma StepInv(s: State, init: nat, programs: seq<seq<Op>>, t: nat)
    requires Inv(s, init, programs) && |programs| <= s.shared.tickets
    ensures Inv(Do(s, t), init, programs)
  {
    if t < |s.threads| && Unfinished(s.threads[t]) {
      match s.threads[t].pc
      case Outside => TakeKeeps(s, init, programs, t);
      case Spinning(_) => SpinKeeps(s, init, programs, t);
      case Entered => ReadKeeps(s, init, programs, t);
      case Holding(_) => WriteKeeps(s, init, programs, t);
      case Leaving(_) => LeaveKeeps(s, init, programs, t);
    }
  }

  lemma {:induction false} RunInv(tickets: nat, m: nat, init: nat, programs: seq<seq<Op>>, schedule: seq<nat>)
    requires tickets > 0 && m > 0 && |programs| <= tickets
    ensures Inv(Run(tickets, m, init, programs, schedule), init, programs)
  {
    if schedule != [] {
      RunInv(tickets, m, init, programs, schedule[..|schedule| - 1]);
      StepInv(Run(tickets, m, init, programs, schedule[..|schedule| - 1]), init, programs, schedule[|schedule| - 1]);
    }
  }

  // ---------- what holds in every run

  ghost predicate TwoInside(s: State)
  {
    exists t, u :: 0 <= t < u < |s.threads| && InCritical(s.threads[t]) && InCritical(s.threads[u])
  }

  /** The threads that are neither finished nor waiting for another thread's ticket to be called. */
  predicate CanMove(s: State, t: nat)
  {
    && t < |s.threads| && Unfinished(s.threads[t])
    && (s.threads[t].pc.Spinning? ==> s.threads[t].pc.ticket == s.shared.serving)
  }

  lemma MutualExclusion(tickets: nat, m: nat, init: nat, programs: seq<seq<Op>>, schedule: seq<nat>)
    requires tickets > 0 && m > 0 && |programs| <= tickets
    ensures !TwoInside(Run(tickets, m, init, programs, schedule))
  {
    var s := Run(tickets, m, init, programs, schedule);
    RunInv(tickets, m, init, programs, schedule);
    forall t, u | 0 <= t < u < |s.threads| && InCritical(s.threads[t]) ensures !InCritical(s.threads[u]) {
      OnlyServed(s, t);
    }
  }

  /** Calls enter, and take effect, in the order in which their tickets were taken, however often the
      counters wrap; the variable holds what they give one after the other in that order, each returned
      what the calls before it left, and each thread's calls come in program order. */
  lemma TicketOrder(tickets: nat, m: nat, init: nat, programs: seq<seq<Op>>, schedule: seq<nat>)
    requires tickets > 0 && m > 0 && |programs| <= tickets
    ensures var s := Run(tickets, m, init, programs, schedule);
            && s.left <= |s.log| <= |s.takers|
            && (forall i :: 0 <= i < |s.log| ==> s.log[i].thread == s.takers[i])
            && (forall t :: 0 <= t < |s.threads| && InCritical(s.threads[t]) ==>
                  s.left < |s.takers| && s.takers[s.left] == t)
            && Sequential(Documented, m, init, s.log) && s.shared.value == Final(Documented, m, init, s.log)
            && (forall t :: 0 <= t < |s.threads| ==> Explains(s.log, t, programs[t], FoundSoFar(s.threads[t])))
  {
    var s := Run(tickets, m, init, programs, schedule);
    RunInv(tickets, m, init, programs, schedule);
    forall t | 0 <= t < |s.threads|
      ensures Explains(s.log, t, programs[t], FoundSoFar(s.threads[t]))
      ensures InCritical(s.threads[t]) ==> s.left < |s.takers| && s.takers[s.left] == t
    {
      assert ThreadOk(s, t);
    }
  }

  lemma SomebodyCanMove(s: State, init: nat, programs: seq<seq<Op>>, t: nat) returns (mover: nat)
    requires Inv(s, init, programs) && t < |s.threads| && Unfinished(s.threads[t])
    ensures CanMove(s, mover)
  {
    assert ThreadOk(s, t);
    mover := if s.threads[t].pc.Outside? then t else s.takers[s.left];
    if !s.threads[t].pc.Outside? {
      assert TicketOk(s, s.left);
      assert ThreadOk(s, mover);
    }
  }

  /** While any call is outstanding some thread can do more than spin. */
  lemma NeverStuck(tickets: nat, m: nat, init: nat, programs: seq<seq<Op>>, schedule: seq<nat>)
    requires tickets > 0 && m > 0 && |programs| <= tickets
    ensures var s := Run(tickets, m, init, programs, schedule);
            (exists t: nat :: t < |s.threads| && Unfinished(s.threads[t])) ==>
              exists t: nat :: CanMove(s, t) && Do(s, t) != s
  {
    var s := Run(tickets, m, init, programs, schedule);
    RunInv(tickets, m, init, programs, schedule);
    if t: nat :| t < |s.threads| && Unfinished(s.threads[t]) {
      var mover := SomebodyCanMove(s, init, programs, t);
      assert Do(s, mover).threads[mover] != s.threads[mover];
    }
  }

  /** The accesses that a thread has yet to make, those of spinning aside. */
  function AccessesLeft(th: Thread): nat
  {
    if !Unfinished(th) then 0
    else
      5 * (|th.program| - |th.returned|)
      - match th.pc
        case Outside => 0
        case Spinning(_) => 1
        case Entered => 2
        case Holding(_) => 3
        case Leaving(_) => 4
  }

  function Lefts(threads: seq<Thread>): (r: seq<nat>)
    ensures |r| == |threads|
  {
    seq(|threads|, t requires 0 <= t < |threads| => AccessesLeft(threads[t]))
  }

  lemma EveryAccessCounts(s: State, t: nat)
    requires s.shared.m > 0 && Do(s, t) != s
    ensures Sum(Lefts(Do(s, t).threads)) < Sum(Lefts(s.threads))
  {
    var th := Do(s, t).threads[t];
    assert AccessesLeft(th) < AccessesLeft(s.threads[t]);
    assert Lefts(Do(s, t).threads) == Lefts(s.threads)[t := AccessesLeft(th)];
    SumUpdate(Lefts(s.threads), t, AccessesLeft(th));
  }

  /** The accesses of the schedule that changed the state. */
  function Effective(tickets: nat, m: nat, init: nat, programs: seq<seq<Op>>, schedule: seq<nat>): nat
    requires tickets > 0 && m > 0
  {
    if schedule == [] then 0 else
      var before := schedule[..|schedule| - 1];
      Effective(tickets, m, init, programs, before)
      + if Run(tickets, m, init, programs, schedule) != Run(tickets, m, init, programs, before) then 1 else 0
  }

  lemma {:induction false} EffectiveBound(tickets: nat, m: nat, init: nat, programs: seq<seq<Op>>, schedule: seq<nat>)
    requires tickets > 0 && m > 0
    ensures var s := Run(tickets, m, init, programs, schedule);
            Effective(tickets, m, init, programs, schedule) + Sum(Lefts(s.threads))
            <= Sum(Lefts(Init(tickets, m, init, programs).threads))
  {
    if schedule != [] {
      var before, t := schedule[..|schedule| - 1], schedule[|schedule| - 1];
      EffectiveBound(tickets, m, init, programs, before);
      var s := Run(tickets, m, init, programs, before);
      if Do(s, t) != s { EveryAccessCounts(s, t); }
    }
  }

  ghost predicate AtRest(s: State)
    requires s.shared.m > 0
  {
    forall t: nat :: Do(s, t) == s
  }

  /** Five accesses for each call of each thread. */
  function FivePerCall(programs: seq<seq<Op>>): seq<nat>
  {
    seq(|programs|, t requires 0 <= t < |programs| => 5 * |programs[t]|)
  }

  /** Spinning aside, a call takes five accesses: every schedule has at most so many, and when no thread can
      change the state any more all calls of all threads have returned. */
  lemma AllCallsReturn(tickets: nat, m: nat, init: nat, programs: seq<seq<Op>>, schedule: seq<nat>)
    requires tickets > 0 && m > 0 && |programs| <= tickets
    ensures Effective(tickets, m, init, programs, schedule) <= Sum(FivePerCall(programs))
    ensures var s := Run(tickets, m, init, programs, schedule);
            AtRest(s) ==> AllReturned(s, programs)
  {
    EffectiveBound(tickets, m, init, programs, schedule);
    LeftsAtFirst(tickets, m, init, programs);
    RunInv(tickets, m, init, programs, schedule);
    RestMeansReturned(Run(tickets, m, init, programs, schedule), init, programs);
  }

  lemma LeftsAtFirst(tickets: nat, m: nat, init: nat, programs: seq<seq<Op>>)
    ensures Lefts(Init(tickets, m, init, programs).threads) == FivePerCall(programs)
  {
  }

  predicate AllReturned(s: State, programs: seq<seq<Op>>)
  {
    |s.threads| == |programs| && forall t :: 0 <= t < |programs| ==> |s.threads[t].returned| == |programs[t]|
  }

  lemma RestMeansReturned(s: State, init: nat, programs: seq<seq<Op>>)
    requires Inv(s, init, programs)
    ensures AtRest(s) ==> AllReturned(s, programs)
  {
    if t: nat :| t < |s.threads| && Unfinished(s.threads[t]) {
      var mover := SomebodyCanMove(s, init, programs, t);
      assert Do(s, mover).threads[mover] != s.threads[mover];
    } else {
      forall t: nat | t < |programs| ensures |s.threads[t].returned| == |programs[t]| { assert ThreadOk(s, t); }
    }
  }

  // ---------- more threads than tickets

  /** The threads below k each take a ticket, one after the other. */
  function Takes(k: nat): (schedule: seq<nat>)
    ensures |schedule| == k
  {
    if k == 0 then [] else Takes(k - 1) + [k - 1]
  }

  predicate HasTaken(th: Thread, program: seq<Op>, tickets: nat, t: nat, k: nat)
  {
    && th.program == program && th.returned == []
    && th.pc == if t < k then Spinning(TicketOf(t, tickets)) else Outside
  }

  /** The threads below k have each taken a ticket, and nobody has done anything else. */
  ghost predicate AllTaken(s: State, programs: seq<seq<Op>>, tickets: nat, k: nat)
  {
    && |s.threads| == |programs| && s.shared.tickets == tickets && s.shared.m > 0
    && s.shared.next == TicketOf(k, tickets) && s.shared.serving == 0
    && forall t :: 0 <= t < |programs| ==> HasTaken(s.threads[t], programs[t], tickets, t, k)
  }

  lemma TakeOne(s: State, programs: seq<seq<Op>>, tickets: nat, k: nat)
    requires AllTaken(s, programs, tickets, k) && k < |programs| && programs[k] != []
    ensures AllTaken(Do(s, k), programs, tickets, k + 1)
  {
    var s' := Do(s, k);
    assert HasTaken(s.threads[k], programs[k], tickets, k, k);
    forall t | 0 <= t < |programs| ensures HasTaken(s'.threads[t], programs[t], tickets, t, k + 1) {
      assert HasTaken(s.threads[t], programs[t], tickets, t, k);
    }
  }

  lemma {:induction false} AfterTakes(tickets: nat, m: nat, init: nat, programs: seq<seq<Op>>, k: nat)
    requires tickets > 0 && m > 0 && k <= |programs| && forall t :: 0 <= t < |programs| ==> programs[t] != []
    ensures AllTaken(Run(tickets, m, init, programs, Takes(k)), programs, tickets, k)
  {
    if k > 0 {
      AfterTakes(tickets, m, init, programs, k - 1);
      assert Takes(k)[..k - 1] == Takes(k - 1);
      TakeOne(Run(tickets, m, init, programs, Takes(k - 1)), programs, tickets, k - 1);
    }
  }

  function Crowd(tickets: nat): seq<nat>
  {
    Takes(tickets + 1) + [0, tickets]
  }

  /** With more threads than tickets the first thread and the one that gets its ticket again meet. */
  lemma TooManyThreads(tickets: nat, m: nat, init: nat, programs: seq<seq<Op>>)
    requires tickets > 0 && m > 0 && tickets < |programs| && forall t :: 0 <= t < |programs| ==> programs[t] != []
    ensures TwoInside(Run(tickets, m, init, programs, Crowd(tickets)))
  {
    var before := Takes(tickets + 1);
    AfterTakes(tickets, m, init, programs, tickets + 1);
    TicketIsRemainder(tickets, tickets);
    DivModUnique(tickets, tickets, 1, 0);
    var schedule := Crowd(tickets);
    assert schedule[..|schedule| - 1] == before + [0];
    assert (before + [0])[..|before|] == before;
    var s0 := Run(tickets, m, init, programs, before);
    assert HasTaken(s0.threads[0], programs[0], tickets, 0, tickets + 1);
    assert HasTaken(s0.threads[tickets], programs[tickets], tickets, tickets, tickets + 1);
    var s1 := Run(tickets, m, init, programs, before + [0]);
    assert s1 == Do(s0, 0) && InCritical(s1.threads[0]);
    var s2 := Run(tickets, m, init, programs, schedule);
    assert s2 == Do(s1, tickets) && InCritical(s2.threads[0]) && InCritical(s2.threads[tickets]);
  }

  ghost predicate Excludes(tickets: nat, m: nat, init: nat, programs: seq<seq<Op>>, schedule: seq<nat>)
    requires tickets > 0 && m > 0
  {
    !TwoInside(Run(tickets, m, init, programs, schedule))
  }

  /** The lock excludes exactly when there are no more threads than tickets. */
  lemma ExclusionIffEnoughTickets(tickets: nat, m: nat, init: nat, programs: seq<seq<Op>>)
    requires tickets > 0 && m > 0 && forall t :: 0 <= t < |programs| ==> programs[t] != []
    ensures |programs| <= tickets <==> forall schedule :: Excludes(tickets, m, init, programs, schedule)
  {
    if |programs| <= tickets {
      forall schedule ensures Excludes(tickets, m, init, programs, schedule) {
        MutualExclusion(tickets, m, init, programs, schedule);
      }
    } else {
      TooManyThreads(tickets, m, init, programs);
      assert !Excludes(tickets, m, init, programs, Crowd(tickets));
    }
  }
}
