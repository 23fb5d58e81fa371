/**
The worker pool of include/alpaka/core/ConcurrentExecPool.hpp does not run in circles: a bound on the
steps of its workers, and what is true when none of them can take another one.
*/
module PoolProgress {
  import opened Arithmetic
  import opened Finite
  import opened Options
  import opened ExecPool

  const MOST: nat := 13

  /** The steps that a worker at pc can still take while queue, handle and shutdown flag stay as they
      are: until it pops, until it takes the handle, until it leaves, or until it sleeps. */
  function Rank(s: State, pc: WorkerPc): (r: nat)
    ensures r <= MOST
  {
    match pc
    case Asleep => 0
    case Exited => 0
    case RunBody(_) => 13
    case Decrement(_) => 12
    case SetValue(_) => 11
    case _ =>
      if s.queue != [] then UntilPop(pc)
      else if s.detached then UntilTaken(pc)
      else if s.shutdown then UntilExit(pc)
      else UntilSleep(pc)
  }

  function UntilPop(pc: WorkerPc): (r: nat)
    ensures r <= 10
  {
    match pc
    case PopTask => 1
    case CheckShutdown => 2
    case TestEmpty => 3
    case TestPredicate => 3
    case TakeLock => 4
    case TestShutdown => 4
    case Woken => 4
    case TakeHandle => 5
    case _ => 0
  }

  function UntilTaken(pc: WorkerPc): (r: nat)
    ensures r <= 10
  {
    match pc
    case TakeHandle => 1
    case TestEmpty => 2
    case TakeLock => 3
    case PopTask => 4
    case CheckShutdown => 5
    case TestPredicate => 6
    case TestShutdown => 7
    case Woken => 7
    case _ => 0
  }

  function UntilExit(pc: WorkerPc): (r: nat)
    ensures r <= 10
  {
    match pc
    case CheckShutdown => 1
    case TestShutdown => 1
    case TestPredicate => 2
    case TakeHandle => 2
    case Woken => 3
    case TestEmpty => 3
    case TakeLock => 4
    case PopTask => 5
    case _ => 0
  }

  function UntilSleep(pc: WorkerPc): (r: nat)
    ensures r <= 10
  {
    match pc
    case TestPredicate => 1
    case TestShutdown => 2
    case Woken => 2
    case TakeHandle => 3
    case TestEmpty => 4
    case TakeLock => 5
    case PopTask => 6
    case CheckShutdown => 7
    case _ => 0
  }

  function Ranks(s: State): (r: seq<nat>)
    ensures |r| == |s.workers|
  {
    seq(|s.workers|, w requires 0 <= w < |s.workers| => Rank(s, s.workers[w]))
  }

  /** What popping a task, or taking the handle, may cost: every worker may have to start over. */
  function Restart(n: nat): nat
  {
    MOST * n + 1
  }

  function Credit(s: State): nat
  {
    |s.queue| + if s.detached then 1 else 0
  }

  function Potential(s: State): nat
  {
    Credit(s) * Restart(|s.workers|) + Sum(Ranks(s))
  }

  lemma RanksBelowRestart(s: State)
    ensures Sum(Ranks(s)) < Restart(|s.workers|)
  {
    SumBound(Ranks(s), MOST);
  }

  /** A step that neither pops nor takes the handle brings the worker closer to one that does, to the
      end of its thread, or to sleep. */
  lemma StepLowersRank(s: State, w: nat, ok: bool)
    requires Shape(s) && w < |s.workers| && WorkerStep(s, w, ok) != s && Credit(WorkerStep(s, w, ok)) == Credit(s)
    ensures var s' := WorkerStep(s, w, ok);
            && s'.queue == s.queue && s'.detached == s.detached && s'.shutdown == s.shutdown && Moved(s, s', w)
            && Rank(s', s'.workers[w]) < Rank(s, s.workers[w])
  {
    WorkerEffect(s, w, ok);
    match s.workers[w] {
      case CheckShutdown => return;
      case PopTask => return;
      case RunBody(_) => return;
      case Decrement(_) => return;
      case SetValue(_) => return;
      case TakeLock => return;
      case TestEmpty => return;
      case TakeHandle => return;
      case TestShutdown => return;
      case TestPredicate => return;
      case Asleep => return;
      case Woken => return;
      case Exited => return;
    }
  }

  lemma CreditNeverGrows(s: State, w: nat, ok: bool)
    requires Shape(s) && w < |s.workers|
    ensures Credit(WorkerStep(s, w, ok)) <= Credit(s)
  {
    if Busy(s.workers[w]) { BusyEffect(s, w, ok); } else { IdleLock(s, w); IdleFlags(s, w); }
  }

  lemma CreditPays(c: nat, c': nat, restart: nat, sum: nat, sum': nat)
    requires c' < c && sum' < restart
    ensures c' * restart + sum' < c * restart + sum
  {
    MulMonotone(restart, c' + 1, c);
  }

  lemma RankPays(s: State, s': State, w: nat)
    requires Moved(s, s', w) && s'.queue == s.queue && s'.detached == s.detached && s'.shutdown == s.shutdown
    requires Rank(s', s'.workers[w]) < Rank(s, s.workers[w])
    ensures Sum(Ranks(s')) < Sum(Ranks(s))
  {
    assert Ranks(s') == Ranks(s)[w := Rank(s', s'.workers[w])];
    SumUpdate(Ranks(s), w, Rank(s', s'.workers[w]));
  }

  lemma WorkerPays(s: State, w: nat, ok: bool)
    requires Shape(s) && w < |s.workers| && WorkerStep(s, w, ok) != s
    ensures Potential(WorkerStep(s, w, ok)) < Potential(s)
  {
    var s' := WorkerStep(s, w, ok);
    CreditNeverGrows(s, w, ok);
    if Credit(s') == Credit(s) {
      StepLowersRank(s, w, ok);
      RankPays(s, s', w);
    } else {
      RanksBelowRestart(s');
      CreditPays(Credit(s), Credit(s'), Restart(|s.workers|), Sum(Ranks(s)), Sum(Ranks(s')));
    }
  }

  /** What an action of somebody else may cost the workers. */
  function Gain(n: nat, a: Action): nat
  {
    if a.Push? || a.CallDetach? then 2 * Restart(n) else Restart(n)
  }

  lemma GainCovers(c: nat, c': nat, more: nat, restart: nat, sum': nat)
    requires c' <= c + more && sum' < restart
    ensures c' * restart + sum' <= c * restart + (1 + more) * restart
  {
    MulMonotone(restart, c', c + more);
    Distribute(1, c, more, restart);
  }

  lemma OthersPay(s: State, a: Action)
    requires Shape(s) && !a.Worker?
    ensures Potential(Do(s, a)) <= Potential(s) + Gain(|s.workers|, a)
  {
    var s' := Do(s, a);
    var more := if a.Push? || a.CallDetach? then 1 else 0;
    RanksBelowRestart(s');
    CreditOfOthers(s, a);
    GainCovers(Credit(s), Credit(s'), more, Restart(|s.workers|), Sum(Ranks(s')));
  }

  lemma CreditOfOthers(s: State, a: Action)
    requires Shape(s) && !a.Worker?
    ensures Credit(Do(s, a)) <= Credit(s) + if a.Push? || a.CallDetach? then 1 else 0
  {
    match a {
      case BeginEnqueue => return;
      case Push => return;
      case Notify(_) => return;
      case CallDetach => return;
      case TakeOutside => return;
      case Spurious(_) => return;
      case Destroy => return;
    }
  }

  /** The worker actions of the schedule that changed the state. */
  function WorkerMoves(n: nat, wrap: nat, schedule: seq<Action>): nat
    requires n >= 1 && wrap >= 2
  {
    if schedule == [] then 0 else
      var before := schedule[..|schedule| - 1];
      WorkerMoves(n, wrap, before)
      + if schedule[|schedule| - 1].Worker? && Run(n, wrap, schedule) != Run(n, wrap, before) then 1 else 0
  }

  /** What the other actions of the schedule that changed the state may cost. */
  function Budget(n: nat, wrap: nat, schedule: seq<Action>): nat
    requires n >= 1 && wrap >= 2
  {
    if schedule == [] then Restart(n) else
      var before, a := schedule[..|schedule| - 1], schedule[|schedule| - 1];
      Budget(n, wrap, before) + if !a.Worker? && Run(n, wrap, schedule) != Run(n, wrap, before) then Gain(n, a) else 0
  }

  /** In every schedule the workers take a bounded number of steps that are not mere attempts to lock
      the mutex: so many for each push, detach, notification, spurious wake-up and step of the
      destructor. */
  lemma {:induction false} WorkersComeToRest(n: nat, wrap: nat, schedule: seq<Action>)
    requires n >= 1 && wrap >= 2
    ensures WorkerMoves(n, wrap, schedule) + Potential(Run(n, wrap, schedule)) <= Budget(n, wrap, schedule)
  {
    if schedule == [] {
      RanksBelowRestart(Init(n, wrap));
    } else {
      var before, a := schedule[..|schedule| - 1], schedule[|schedule| - 1];
      var s := Run(n, wrap, before);
      WorkersComeToRest(n, wrap, before);
      if Do(s, a) != s {
        if a.Worker? { WorkerPays(s, a.w, a.ok); } else { OthersPay(s, a); }
      }
    }
  }

  ghost predicate Stuck(s: State, a: Action)
    requires Shape(s)
  {
    Do(s, a) == s
  }

  /** Neither a worker nor a notification can change the state. */
  ghost predicate AtRest(s: State)
    requires Shape(s)
  {
    && (forall w: nat, ok: bool :: Stuck(s, Worker(w, ok)))
    && (forall w: nat :: Stuck(s, Notify(w)))
  }

  lemma AwakeMeansMoving(s: State)
    requires Inv(s) && SomeAwake(s)
    ensures !AtRest(s)
  {
    var w: nat :| w < |s.workers| && Awake(s.workers[w]);
    AwakeCanMove(s, w);
    var v: nat :| v < |s.workers| && Do(s, Worker(v, true)).workers != s.workers;
    assert !Stuck(s, Worker(v, true));
  }

  lemma NotifyingMeansMoving(s: State)
    requires Shape(s) && s.notifying > 0
    ensures !AtRest(s)
  {
    var w := if w: nat :| w < |s.workers| && s.workers[w].Asleep? then w else 0;
    assert !Stuck(s, Notify(w));
  }

  lemma RunningMeansAwake(s: State, i: nat)
    requires TasksOk(s) && i in s.tasks && s.tasks[i].Running?
    ensures SomeAwake(s)
  {
    assert Awake(s.workers[s.tasks[i].w]);
  }

  /** When the workers of a live pool have come to rest, every pushed task has been run to its end by a
      worker, and a detached pool's handle has been taken: by exactly one worker, if not from outside.
      Only pushes after a worker has taken the handle are excepted. */
  lemma RestMeansDone(n: nat, wrap: nat, schedule: seq<Action>)
    requires n >= 1 && wrap >= 2
    requires var s := Run(n, wrap, schedule);
             AtRest(s) && s.dtor.Alive? && (s.past.takers == [] || !s.past.late)
    ensures var s := Run(n, wrap, schedule);
            && s.queue == []
            && (forall i: nat :: i < s.pushed ==> RunToEnd(s, i))
            && (s.past.detachCalled ==> |s.past.takers| == 1 || s.past.outside)
  {
    var s := Run(n, wrap, schedule);
    RunInv(n, wrap, schedule);
    if SomeAwake(s) { AwakeMeansMoving(s); }
    if s.notifying > 0 { NotifyingMeansMoving(s); }
    forall i: nat | i < s.pushed ensures RunToEnd(s, i) {
      if s.tasks[i].Running? { RunningMeansAwake(s, i); }
    }
  }
}
