/**
The self-resetting spinning barrier of include/alpaka/core/BarrierThread.hpp.

`wait()` is cut at its atomic accesses.  `WaitStep` is one such access of one thread; a run is an
arbitrary schedule of thread numbers.  The generation counter lives modulo `m`, as TIdx does.
*/
module SpinBarrier {
  import opened Arithmetic
  import opened Finite

  /** The program points of `wait()`. */
  datatype Pc =
    | Outside             // not inside wait()
    | Loaded(gen: nat)    // read m_generation, about to decrement m_curThreadCount
    | Resetting           // saw the count reach zero, about to restore it
    | Bumping             // restored the count, about to increment m_generation
    | Spinning(gen: nat)  // spinning until m_generation differs

  /** The atomics of the barrier object; `n` threads use it, its counters are taken modulo `m`. */
  datatype Shared = Shared(n: nat, m: nat, count: int, gen: nat)

  /** One atomic access of `wait()` by a thread at `pc`. */
  function WaitStep(sh: Shared, pc: Pc): (r: (Shared, Pc))
  {
    match pc
    case Outside => (sh, Loaded(sh.gen))
    case Loaded(g) =>
      var c := sh.count - 1;
      (sh.(count := c), if c == 0 then Resetting else Spinning(g))
    case Resetting => (sh.(count := sh.n), Bumping)
    case Bumping => (sh.(gen := Next(sh.gen, sh.m)), Outside)
    case Spinning(g) => (sh, if g != sh.gen then Outside else pc)
  }

  /** The barrier object, updated in place. */
  class BarrierThread {
    const threadCount: nat
    const modulus: nat
    var curThreadCount: int
    var generation: nat

    ghost function View(): Shared
      reads this
    {
      Shared(threadCount, modulus, curThreadCount, generation)
    }

    constructor (n: nat, m: nat)
      requires n >= 1 && m >= 2
      ensures View() == Init(n, m).shared
    {
      threadCount, modulus, curThreadCount, generation := n, m, n, 0;
    }

    method Step(pc: Pc) returns (next: Pc)
      modifies this
      ensures (View(), next) == WaitStep(old(View()), pc)
    {
      match pc
      case Outside =>
        next := Loaded(generation);
      case Loaded(g) =>
        curThreadCount := curThreadCount - 1;
        next := if curThreadCount == 0 then Resetting else Spinning(g);
      case Resetting =>
        curThreadCount := threadCount;
        next := Bumping;
      case Bumping =>
        generation := Next(generation, modulus);
        next := Outside;
      case Spinning(g) =>
        next := if g != generation then Outside else pc;
    }
  }

  /** A thread with its history: how many calls of wait() it has entered and returned from. */
  datatype Thread = Thread(pc: Pc, entered: nat, returned: nat)

  /** `rounds` is history too: the number of times m_generation was incremented. */
  datatype State = State(shared: Shared, rounds: nat, threads: seq<Thread>)

  function Init(n: nat, m: nat): State
    requires n >= 1 && m >= 2
  {
    State(Shared(n, m, n, 0), 0, seq(n, _ => Thread(Outside, 0, 0)))
  }

  function Do(s: State, t: nat): State
  {
    if t >= |s.threads| then s else
      var th := s.threads[t];
      var (sh, pc) := WaitStep(s.shared, th.pc);
      var th' := Thread(pc,
                        if th.pc.Outside? then th.entered + 1 else th.entered,
                        if pc.Outside? then th.returned + 1 else th.returned);
      State(sh, if th.pc.Bumping? then s.rounds + 1 else s.rounds, s.threads[t := th'])
  }

  /** The state after the threads named by `schedule` have each taken one step, in that order. */
  function Run(n: nat, m: nat, schedule: seq<nat>): (s: State)
    requires n >= 1 && m >= 2
    ensures s.shared.m == m && s.shared.n == n && |s.threads| == n
  {
    if schedule == [] then Init(n, m)
    else Do(Run(n, m, schedule[..|schedule| - 1]), schedule[|schedule| - 1])
  }

  // ---------- the inductive invariant

  predicate IsLeader(th: Thread)
  {
    th.pc.Resetting? || th.pc.Bumping?
  }

  /** The thread has decremented the count in the round that is still open. */
  predicate HasArrived(s: State, th: Thread)
  {
    IsLeader(th) || (th.pc.Spinning? && th.returned == s.rounds)
  }

  function Arrived(s: State): set<nat>
  {
    set t: nat | t < |s.threads| && HasArrived(s, s.threads[t])
  }

  ghost predicate ThreadOk(s: State, th: Thread)
  {
    match th.pc
    case Outside => th.entered == th.returned == s.rounds
    case Loaded(g) => th.entered == th.returned + 1 && th.returned == s.rounds && g == s.shared.gen
    case Spinning(g) =>
      && th.entered == th.returned + 1
      && (g == s.shared.gen <==> th.returned == s.rounds)
      && th.returned <= s.rounds <= th.returned + 1
    case _ => th.entered == th.returned + 1 && th.returned == s.rounds
  }

  ghost predicate CountOk(s: State)
  {
    if t: nat :| t < |s.threads| && IsLeader(s.threads[t]) then
      && s.shared.count == (if s.threads[t].pc.Resetting? then 0 else s.shared.n)
      && (forall u: nat :: u < |s.threads| ==> HasArrived(s, s.threads[u]))
      && (forall u: nat :: u < |s.threads| && IsLeader(s.threads[u]) ==> u == t)
    else
      s.shared.count == s.shared.n - |Arrived(s)| > 0
  }

  ghost predicate Inv(s: State)
  {
    && s.shared.n == |s.threads| >= 1
    && s.shared.m >= 2
    && s.shared.gen < s.shared.m
    && (forall t: nat :: t < |s.threads| ==> ThreadOk(s, s.threads[t]))
    && CountOk(s)
  }

  lemma InitInv(n: nat, m: nat)
    requires n >= 1 && m >= 2
    ensures Inv(Init(n, m))
  {
    assert Arrived(Init(n, m)) == {};
  }

  lemma StepInv(s: State, t: nat)
    requires Inv(s)
    ensures Inv(Do(s, t))
  {
    if t < |s.threads| {
      match s.threads[t].pc
      case Outside => SameArrivals(s, t);
      case Loaded(_) => ArriveInv(s, t);
      case Resetting => LeaderInv(s, t);
      case Bumping => BumpInv(s, t);
      case Spinning(_) => SameArrivals(s, t);
    }
  }

  lemma SameArrivals(s: State, t: nat)
    requires Inv(s) && t < |s.threads|
    requires s.threads[t].pc.Outside? || s.threads[t].pc.Spinning?
    ensures Inv(Do(s, t))
  {
    var s' := Do(s, t);
    assert Arrived(s') == Arrived(s);
    assert forall u: nat :: u < |s.threads| ==> IsLeader(s'.threads[u]) == IsLeader(s.threads[u]);
  }

  lemma ArriveThreads(s: State, t: nat)
    requires Inv(s) && t < |s.threads| && s.threads[t].pc.Loaded?
    ensures var s' := Do(s, t);
            && (forall u: nat :: u < |s.threads| ==> ThreadOk(s', s'.threads[u]))
            && Arrived(s') == Arrived(s) + {t} && t !in Arrived(s)
            && !(exists u: nat :: u < |s.threads| && IsLeader(s.threads[u]))
            && s'.shared.count == s.shared.n - |Arrived(s')|
  {
    assert !HasArrived(s, s.threads[t]);
    assert Arrived(Do(s, t)) == Arrived(s) + {t};
  }

  lemma ArriveInv(s: State, t: nat)
    requires Inv(s) && t < |s.threads| && s.threads[t].pc.Loaded?
    ensures Inv(Do(s, t))
  {
    var s' := Do(s, t);
    ArriveThreads(s, t);
    SizeBelow(Arrived(s'), |s.threads|);
    if s'.shared.count == 0 {
      forall u: nat | u < |s.threads| ensures HasArrived(s', s'.threads[u]) {
        assert u in Below(|s.threads|);
      }
      assert IsLeader(s'.threads[t]);
    }
  }

  lemma LeaderInv(s: State, t: nat)
    requires Inv(s) && t < |s.threads| && s.threads[t].pc.Resetting?
    ensures Inv(Do(s, t))
  {
    assert IsLeader(Do(s, t).threads[t]);
  }

  lemma BumpInv(s: State, t: nat)
    requires Inv(s) && t < |s.threads| && s.threads[t].pc.Bumping?
    ensures Inv(Do(s, t))
  {
    assert IsLeader(s.threads[t]);
    assert Arrived(Do(s, t)) == {};
  }

  lemma {:induction false} RunInv(n: nat, m: nat, schedule: seq<nat>)
    requires n >= 1 && m >= 2
    ensures Inv(Run(n, m, schedule))
  {
    if schedule == [] {
      InitInv(n, m);
    } else {
      RunInv(n, m, schedule[..|schedule| - 1]);
      StepInv(Run(n, m, schedule[..|schedule| - 1]), schedule[|schedule| - 1]);
    }
  }

  // ---------- what the barrier promises

  /** Every thread has entered at least as many waits as any thread has returned from. */
  ghost predicate Synchronised(s: State)
  {
    forall t: nat, u: nat :: t < |s.threads| && u < |s.threads| ==>
                               s.threads[t].returned <= s.threads[u].entered
  }

  /** No thread returns from its k-th wait before all threads have entered their k-th wait, for
      every number of threads, every schedule and every modulus of at least two. */
  lemma NoEarlyReturn(n: nat, m: nat, schedule: seq<nat>)
    requires n >= 1 && m >= 2
    ensures Synchronised(Run(n, m, schedule))
  {
    RunInv(n, m, schedule);
    InvSynchronised(Run(n, m, schedule));
  }

  lemma InvSynchronised(s: State)
    requires Inv(s)
    ensures Synchronised(s)
  {
    forall t: nat, u: nat | t < |s.threads| && u < |s.threads|
      ensures s.threads[t].returned <= s.threads[u].entered
    {
      assert ThreadOk(s, s.threads[t]) && ThreadOk(s, s.threads[u]);
    }
  }

  /** A thread inside wait() is never left behind: as soon as one thread has returned from a round,
      every thread still in that round can leave; and when all threads are inside, one can move. */
  lemma Released(s: State, t: nat, u: nat)
    requires Inv(s) && t < |s.threads| && u < |s.threads|
    requires s.threads[u].returned > s.threads[t].returned
    ensures Do(s, t).threads[t].pc.Outside? && Do(s, t).threads[t].returned == s.threads[t].returned + 1
  {
    assert ThreadOk(s, s.threads[t]) && ThreadOk(s, s.threads[u]);
  }

  lemma NeverStuck(s: State)
    requires Inv(s)
    requires forall t: nat :: t < |s.threads| ==> !s.threads[t].pc.Outside?
    ensures exists t: nat :: t < |s.threads| && Do(s, t) != s
  {
    if t: nat :| t < |s.threads| && !HasArrived(s, s.threads[t]) {
      assert ThreadOk(s, s.threads[t]);
      assert Do(s, t).threads[t] != s.threads[t];
    } else {
      assert Arrived(s) == Below(|s.threads|);
      BelowSize(|s.threads|);
      var t: nat :| t < |s.threads| && IsLeader(s.threads[t]);
      assert Do(s, t).threads[t] != s.threads[t];
    }
  }

  /** The barrier has reset itself whenever nobody is inside. */
  lemma SelfResetting(s: State)
    requires Inv(s)
    requires forall t: nat :: t < |s.threads| ==> s.threads[t].pc.Outside?
    ensures s.shared.count == s.shared.n
    ensures forall t: nat, u: nat :: t < |s.threads| && u < |s.threads| ==>
                                       s.threads[t].returned == s.threads[u].returned
  {
    assert Arrived(s) == {};
    forall t: nat, u: nat | t < |s.threads| && u < |s.threads|
      ensures s.threads[t].returned == s.threads[u].returned
    {
      assert ThreadOk(s, s.threads[t]) && ThreadOk(s, s.threads[u]);
    }
  }
}
