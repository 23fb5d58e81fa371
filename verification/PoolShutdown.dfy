/**
How the destructor of the pool in include/alpaka/core/ConcurrentExecPool.hpp ends: that it does, which
of the queued tasks are still run, and who may still be about to use the condition variable.
*/
module PoolShutdown {
  import opened Finite
  import opened Options
  import opened ExecPool

  /** The state after some more actions. */
  function Continue(s: State, more: seq<Action>): (s': State)
    requires Shape(s)
    ensures Shape(s') && |s'.workers| == |s.workers| && s'.wrap == s.wrap
  {
    if more == [] then s else Do(Continue(s, more[..|more| - 1]), more[|more| - 1])
  }

  lemma {:induction false} ContinueInv(s: State, more: seq<Action>)
    requires Inv(s)
    ensures Inv(Continue(s, more))
    ensures !s.dtor.Alive? ==> !Continue(s, more).dtor.Alive?
  {
    if more != [] {
      ContinueInv(s, more[..|more| - 1]);
      StepInvShut(Continue(s, more[..|more| - 1]), more[|more| - 1]);
    }
  }

  lemma StepInvShut(s: State, a: Action)
    requires Inv(s)
    ensures Inv(Do(s, a)) && (!s.dtor.Alive? ==> !Do(s, a).dtor.Alive?)
  {
    StepInv(s, a);
    if !s.dtor.Alive? { StaysShut(s, a); }
  }

  lemma StaysShut(s: State, a: Action)
    requires Shape(s) && !s.dtor.Alive?
    ensures !Do(s, a).dtor.Alive?
  {
    if a.Worker? && a.w < |s.workers| { WorkerEffect(s, a.w, a.ok); }
  }

  lemma {:induction false} RunContinue(n: nat, wrap: nat, schedule: seq<Action>, more: seq<Action>)
    requires n >= 1 && wrap >= 2
    ensures Run(n, wrap, schedule + more) == Continue(Run(n, wrap, schedule), more)
  {
    if more == [] {
      assert schedule + more == schedule;
    } else {
      RunContinue(n, wrap, schedule, more[..|more| - 1]);
      assert (schedule + more)[..|schedule + more| - 1] == schedule + more[..|more| - 1];
    }
  }

  // ---------- the destructor ends

  /** The steps that a worker has left once the shutdown flag is set: there is no way round the loop. */
  function Rank(pc: WorkerPc): (r: nat)
    ensures r <= 8
  {
    match pc
    case PopTask => 8
    case RunBody(_) => 7
    case Decrement(_) => 6
    case SetValue(_) => 5
    case TakeLock => 4
    case Asleep => 4
    case TestEmpty => 3
    case Woken => 3
    case TakeHandle => 2
    case TestPredicate => 2
    case CheckShutdown => 1
    case TestShutdown => 1
    case Exited => 0
  }

  function Ranks(workers: seq<WorkerPc>): (r: seq<nat>)
    ensures |r| == |workers|
  {
    seq(|workers|, w requires 0 <= w < |workers| => Rank(workers[w]))
  }

  function DestructorRank(s: State): nat
    requires s.dtor.Joining? ==> s.dtor.k <= |s.workers|
  {
    match s.dtor
    case Alive => |s.workers| + 4
    case NotifyAll => |s.workers| + 3
    case Joining(k) => |s.workers| - k + 2
    case Draining => 1
    case Destroyed => 0
  }

  /** A bound on the actions that can still change the state. */
  function StepsLeft(s: State): nat
    requires s.dtor.Joining? ==> s.dtor.k <= |s.workers|
  {
    Sum(Ranks(s.workers)) + DestructorRank(s) + |s.queue| + s.notifying
  }

  lemma WorkerComesCloser(s: State, w: nat, ok: bool)
    requires Shape(s) && s.shutdown && !s.detached && w < |s.workers| && WorkerStep(s, w, ok) != s
    ensures var s' := WorkerStep(s, w, ok);
            Moved(s, s', w) && Rank(s'.workers[w]) < Rank(s.workers[w]) && |s'.queue| <= |s.queue|
  {
    WorkerEffect(s, w, ok);
    match s.workers[w] {
      case CheckShutdown => return;
      case PopTask => return;
      case RunBody(_) => return;
      case Decrement(_) => return;
      case SetValue(_) => return;
      case TakeLock => return;
      case TestEmpty => return;
      case TakeHandle => return;
      case TestShutdown => return;
      case TestPredicate => return;
      case Asleep => return;
      case Woken => return;
      case Exited => return;
    }
  }

  /** No caller can do anything to a pool that is being destroyed, but for a notification that is due. */
  lemma CallersAreGone(s: State, a: Action)
    requires Inv(s) && !s.dtor.Alive? && !a.Worker? && !a.Destroy? && Do(s, a) != s
    ensures (a.Notify? || a.Spurious?)
    ensures var s' := Do(s, a);
            || (s.notifying > 0 && s' == s.(notifying := s.notifying - 1))
            || (a.w < |s.workers| && s.workers[a.w].Asleep? && s'.notifying <= s.notifying
                && s' == Move(s, a.w, Woken).(notifying := s'.notifying))
  {
    assert !s.detached;
    match a {
      case BeginEnqueue => return;
      case Push => return;
      case Notify(_) => return;
      case CallDetach => return;
      case TakeOutside => return;
      case Spurious(_) => return;
    }
  }

  lemma DestructorComesCloser(s: State)
    requires Shape(s) && DestructorOk(s) && !s.dtor.Alive? && DestroyStep(s) != s
    ensures var s' := DestroyStep(s);
            && (s'.dtor.Joining? ==> s'.dtor.k <= |s'.workers|)
            && DestructorRank(s') + |s'.queue| < DestructorRank(s) + |s.queue| && s'.notifying == s.notifying
            && forall w :: 0 <= w < |s.workers| ==> Rank(s'.workers[w]) <= Rank(s.workers[w])
  {
    match s.dtor {
      case NotifyAll => return;
      case Joining(_) => return;
      case Draining => return;
      case Destroyed => return;
    }
  }

  lemma RankFalls(before: seq<WorkerPc>, after: seq<WorkerPc>, w: nat)
    requires w < |before| && |after| == |before| && after == before[w := after[w]] && Rank(after[w]) < Rank(before[w])
    ensures Sum(Ranks(after)) < Sum(Ranks(before))
  {
    assert Ranks(after)[w] < Ranks(before)[w];
    SumMonotone(Ranks(after), Ranks(before));
  }

  lemma WorkerPays(s: State, w: nat, ok: bool)
    requires Inv(s) && !s.dtor.Alive? && w < |s.workers| && WorkerStep(s, w, ok) != s
    ensures var s' := WorkerStep(s, w, ok);
            Sum(Ranks(s'.workers)) < Sum(Ranks(s.workers)) && |s'.queue| <= |s.queue|
  {
    assert !s.detached;
    WorkerComesCloser(s, w, ok);
    RankFalls(s.workers, WorkerStep(s, w, ok).workers, w);
  }

  lemma CallerPays(s: State, a: Action)
    requires Inv(s) && !s.dtor.Alive? && !a.Worker? && !a.Destroy? && Do(s, a) != s
    ensures var s' := Do(s, a);
            && s'.dtor == s.dtor && s'.queue == s.queue
            && Sum(Ranks(s'.workers)) + s'.notifying < Sum(Ranks(s.workers)) + s.notifying
  {
    CallersAreGone(s, a);
    if Do(s, a).workers != s.workers { RankFalls(s.workers, Do(s, a).workers, a.w); }
  }

  lemma EveryActionPays(s: State, a: Action)
    requires Inv(s) && !s.dtor.Alive? && Do(s, a) != s
    ensures Inv(Do(s, a)) && StepsLeft(Do(s, a)) < StepsLeft(s)
  {
    StepInv(s, a);
    if a.Destroy? {
      DestructorComesCloser(s);
      SumMonotone(Ranks(Do(s, a).workers), Ranks(s.workers));
    } else if a.Worker? {
      WorkerEffect(s, a.w, a.ok);
      WorkerPays(s, a.w, a.ok);
    } else {
      CallerPays(s, a);
    }
  }

  /** The actions of `more` that change the state. */
  function Changes(s: State, more: seq<Action>): nat
    requires Shape(s)
  {
    if more == [] then 0 else
      var before := more[..|more| - 1];
      Changes(s, before) + if Continue(s, more) != Continue(s, before) then 1 else 0
  }

  lemma {:induction false} ChangesBounded(s: State, more: seq<Action>)
    requires Inv(s) && !s.dtor.Alive?
    ensures Inv(Continue(s, more))
    ensures Changes(s, more) + StepsLeft(Continue(s, more)) <= StepsLeft(s)
  {
    ContinueInv(s, more);
    if more != [] {
      var before := more[..|more| - 1];
      ContinueInv(s, before);
      ChangesBounded(s, before);
      if Continue(s, more) != Continue(s, before) { EveryActionPays(Continue(s, before), more[|more| - 1]); }
    }
  }

  ghost predicate Stuck(s: State, a: Action)
    requires Shape(s)
  {
    Do(s, a) == s
  }

  /** Once the shutdown flag is set only a bounded number of actions, of whatever kind, change the state;
      and nothing can change it any more exactly when the destructor has returned and no notification
      is due. */
  lemma DestructorEnds(s: State, more: seq<Action>)
    requires Inv(s) && !s.dtor.Alive?
    ensures Changes(s, more) <= 9 * |s.workers| + 3 + |s.queue| + s.notifying
    ensures var s' := Continue(s, more);
            (forall a: Action :: Stuck(s', a)) <==> s'.dtor.Destroyed? && s'.notifying == 0
  {
    ChangesBounded(s, more);
    SumBound(Ranks(s.workers), 8);
    ContinueInv(s, more);
    NothingLeft(Continue(s, more));
  }

  lemma NothingLeft(s: State)
    requires Inv(s) && !s.dtor.Alive?
    ensures (forall a: Action :: Stuck(s, a)) <==> s.dtor.Destroyed? && s.notifying == 0
  {
    if !s.dtor.Destroyed? {
      NeverStuck(s);
      var a: Action :| (a.Worker? || a.Notify? || a.Destroy?) && Do(s, a) != s;
      assert !Stuck(s, a);
    } else if s.notifying > 0 {
      assert !Stuck(s, Notify(|s.workers|));
    } else {
      forall a: Action ensures Stuck(s, a) {
        if a.Worker? && a.w < |s.workers| { WorkerEffect(s, a.w, a.ok); }
        if !a.Worker? && !a.Destroy? && Do(s, a) != s { CallersAreGone(s, a); }
      }
    }
  }

  // ---------- which tasks are dropped

  /** The workers that passed the shutdown flag's first test and have yet to pop. */
  function Popping(s: State): set<nat>
  {
    set w: nat | w < |s.workers| && s.workers[w].PopTask?
  }

  /** How many queued tasks these workers leave in the queue. */
  function Doomed(s: State): nat
  {
    if |s.queue| > |Popping(s)| then |s.queue| - |Popping(s)| else 0
  }

  predicate Joined(s: State)
  {
    s.dtor.Draining? || s.dtor.Destroyed?
  }

  /** What holds from the moment the shutdown flag is set: `doomed` tasks will be left over, the most
      recent ones, and the destructor drains them from the front. */
  ghost predicate Dropping(s: State, pushed: nat, doomed: nat)
  {
    && Inv(s) && !s.dtor.Alive? && s.pushed == pushed
    && if !Joined(s) then Doomed(s) == doomed
       else && |s.queue| <= doomed <= pushed
            && forall i <- s.tasks :: s.tasks[i].DestructionException? <==> pushed - doomed <= i < pushed - |s.queue|
  }

  /** After the shutdown flag is set no worker comes to popTask any more. */
  lemma NobodyComesToPop(s: State, w: nat, ok: bool)
    requires Shape(s) && s.shutdown && w < |s.workers|
    ensures var s' := WorkerStep(s, w, ok);
            && !s'.workers[w].PopTask?
            && if s.workers[w].PopTask? && s.queue != [] then s'.queue == s.queue[1..] else s'.queue == s.queue
  {
    match s.workers[w] {
      case CheckShutdown => return;
      case PopTask => return;
      case _ =>
    }
    if Busy(s.workers[w]) { BusyEffect(s, w, ok); } else { IdleLock(s, w); }
  }

  lemma WorkerKeepsDoomed(s: State, w: nat, ok: bool)
    requires Shape(s) && s.shutdown && w < |s.workers|
    ensures Doomed(WorkerStep(s, w, ok)) == Doomed(s)
  {
    WorkerEffect(s, w, ok);
    NobodyComesToPop(s, w, ok);
    assert Popping(WorkerStep(s, w, ok)) == Popping(s) - {w};
  }

  lemma DestroyKeepsDropping(s: State, pushed: nat, doomed: nat)
    requires Dropping(s, pushed, doomed)
    ensures Dropping(DestroyStep(s), pushed, doomed)
  {
    var s' := DestroyStep(s);
    StepInv(s, Destroy);
    match s.dtor {
      case NotifyAll => assert Popping(s') == Popping(s); return;
      case Joining(k) => assert Popping(s') == Popping(s); assert Joined(s') ==> Popping(s') == {}; return;
      case Draining => return;
      case Destroyed => return;
    }
  }

  lemma StepKeepsDropping(s: State, a: Action, pushed: nat, doomed: nat)
    requires Dropping(s, pushed, doomed)
    ensures Dropping(Do(s, a), pushed, doomed)
  {
    StepInv(s, a);
    if a.Destroy? {
      DestroyKeepsDropping(s, pushed, doomed);
    } else if a.Worker? && a.w < |s.workers| {
      WorkerEffect(s, a.w, a.ok);
      WorkerKeepsDoomed(s, a.w, a.ok);
    } else if Do(s, a) != s {
      CallersAreGone(s, a);
      assert Popping(Do(s, a)) == Popping(s);
    }
  }

  lemma {:induction false} KeepsDropping(s: State, more: seq<Action>, pushed: nat, doomed: nat)
    requires Dropping(s, pushed, doomed)
    ensures Dropping(Continue(s, more), pushed, doomed)
  {
    if more != [] {
      KeepsDropping(s, more[..|more| - 1], pushed, doomed);
      StepKeepsDropping(Continue(s, more[..|more| - 1]), more[|more| - 1], pushed, doomed);
    }
  }

  /** The number of tasks that are run: of the queued ones the workers that are about to pop take one
      each, from the front. */
  function Kept(s: State): int
  {
    s.pushed - Doomed(s)
  }

  predicate Fate(s: State, i: nat, kept: int)
  {
    i in s.tasks && if i < kept then RunToEnd(s, i) else s.tasks[i].DestructionException?
  }

  /** The first `kept` tasks have been run to their end, the others have got the destruction exception. */
  ghost predicate Decided(s: State, pushed: nat, kept: int)
  {
    s.pushed == pushed && forall i: nat :: i < pushed ==> Fate(s, i, kept)
  }

  /** The fate of every task is sealed when the shutdown flag is set. */
  lemma DroppedExactly(s: State, more: seq<Action>)
    requires Inv(s) && (s.dtor.NotifyAll? || s.dtor.Joining?) && Continue(s, more).dtor.Destroyed?
    ensures Decided(Continue(s, more), s.pushed, Kept(s))
  {
    var s', kept := Continue(s, more), Kept(s);
    KeepsDropping(s, more, s.pushed, Doomed(s));
    forall i: nat | i < s.pushed ensures Fate(s', i, kept) { NoneRunning(s', i); }
  }

  /** So nothing is dropped exactly when at least as many workers are about to pop as tasks are queued. */
  lemma NothingDroppedIff(s: State, more: seq<Action>)
    requires Inv(s) && (s.dtor.NotifyAll? || s.dtor.Joining?) && Continue(s, more).dtor.Destroyed?
    ensures (forall i: nat :: i < s.pushed ==> RunToEnd(Continue(s, more), i)) <==> |s.queue| <= |Popping(s)|
  {
    var s', kept := Continue(s, more), Kept(s);
    DroppedExactly(s, more);
    forall i: nat | i < s.pushed ensures RunToEnd(s', i) <==> i < kept { assert Fate(s', i, kept); }
    if |s.queue| > |Popping(s)| { assert !RunToEnd(s', s.pushed - 1); }
  }

  lemma FlagIsSet(s: State, a: Action)
    requires Shape(s) && s.dtor.Alive? && !Do(s, a).dtor.Alive?
    ensures a == Destroy && Do(s, a) == s.(shutdown := true, dtor := NotifyAll)
  {
    if a.Worker? && a.w < |s.workers| { WorkerEffect(s, a.w, a.ok); }
  }

  /** Every run to the end has the moment at which the flag is set. */
  lemma {:induction false} ShutdownMoment(n: nat, wrap: nat, schedule: seq<Action>) returns (k: nat)
    requires n >= 1 && wrap >= 2 && !Run(n, wrap, schedule).dtor.Alive?
    ensures k < |schedule| && Run(n, wrap, schedule[..k]).dtor.Alive? && schedule[k] == Destroy
    ensures Run(n, wrap, schedule[..k + 1]) == Run(n, wrap, schedule[..k]).(shutdown := true, dtor := NotifyAll)
  {
    var before := schedule[..|schedule| - 1];
    if Run(n, wrap, before).dtor.Alive? {
      k := |before|;
      assert schedule[..k + 1] == schedule;
      FlagIsSet(Run(n, wrap, before), schedule[k]);
    } else {
      k := ShutdownMoment(n, wrap, before);
      assert before[..k] == schedule[..k] && before[..k + 1] == schedule[..k + 1];
    }
  }

  /** In a whole run: the state in which the destructor begins decides which tasks are run. */
  lemma RunDropsExactly(n: nat, wrap: nat, schedule: seq<Action>) returns (k: nat)
    requires n >= 1 && wrap >= 2 && Run(n, wrap, schedule).dtor.Destroyed?
    ensures k < |schedule| && Run(n, wrap, schedule[..k]).dtor.Alive? && schedule[k] == Destroy
    ensures var s := Run(n, wrap, schedule[..k]);
            Decided(Run(n, wrap, schedule), s.pushed, Kept(s))
  {
    k := ShutdownMoment(n, wrap, schedule);
    RunInv(n, wrap, schedule[..k + 1]);
    RunSplit(n, wrap, schedule, k + 1);
    FromFlag(Run(n, wrap, schedule[..k]), schedule[k + 1..]);
  }

  lemma FlagKeepsKept(s: State)
    ensures Kept(s.(shutdown := true, dtor := NotifyAll)) == Kept(s)
  {
    assert Popping(s.(shutdown := true, dtor := NotifyAll)) == Popping(s);
  }

  lemma RunSplit(n: nat, wrap: nat, schedule: seq<Action>, k: nat)
    requires n >= 1 && wrap >= 2 && k <= |schedule|
    ensures Run(n, wrap, schedule) == Continue(Run(n, wrap, schedule[..k]), schedule[k..])
  {
    var before, rest := schedule[..k], schedule[k..];
    assert before + rest == schedule;
    RunContinue(n, wrap, before, rest);
  }

  lemma FromFlag(s: State, rest: seq<Action>)
    requires Inv(s.(shutdown := true, dtor := NotifyAll))
    requires Continue(s.(shutdown := true, dtor := NotifyAll), rest).dtor.Destroyed?
    ensures Decided(Continue(s.(shutdown := true, dtor := NotifyAll), rest), s.pushed, Kept(s))
  {
    DroppedExactly(s.(shutdown := true, dtor := NotifyAll), rest);
    FlagKeepsKept(s);
  }

  // ---------- callers that have yet to notify

  /** The destructor needs nobody but the workers to end. */
  lemma {:induction false} Finish(s: State) returns (more: seq<Action>)
    requires Inv(s) && !s.dtor.Alive? && !s.dtor.NotifyAll?
    ensures Continue(s, more).dtor.Destroyed? && Continue(s, more).notifying == s.notifying
    decreases StepsLeft(s)
  {
    if s.dtor.Destroyed? {
      more := [];
    } else {
      var a := NextOfPool(s);
      EveryActionPays(s, a);
      var rest := Finish(Do(s, a));
      more := [a] + rest;
      ContinueFirst(s, a, rest);
    }
  }

  lemma NextOfPool(s: State) returns (a: Action)
    requires Inv(s) && (s.dtor.Joining? || s.dtor.Draining?)
    ensures Do(s, a) != s && Do(s, a).notifying == s.notifying
    ensures !Do(s, a).dtor.Alive? && !Do(s, a).dtor.NotifyAll?
  {
    if w: nat :| w < |s.workers| && Awake(s.workers[w]) {
      AwakeCanMove(s, w);
      var v: nat :| v < |s.workers| && Do(s, Worker(v, true)).workers != s.workers;
      a := Worker(v, true);
      WorkerEffect(s, v, true);
    } else {
      a := Destroy;
      assert s.dtor.Joining? && s.dtor.k < |s.workers| ==> s.workers[s.dtor.k].Exited?;
      assert Do(s, a).dtor != s.dtor || Do(s, a).queue != s.queue;
    }
  }

  lemma ContinueLast(s: State, before: seq<Action>, a: Action)
    requires Shape(s)
    ensures Continue(s, before + [a]) == Do(Continue(s, before), a)
  {
    assert (before + [a])[..|before|] == before;
  }

  lemma {:induction false} ContinueFirst(s: State, a: Action, rest: seq<Action>)
    requires Shape(s)
    ensures Continue(s, [a] + rest) == Continue(Do(s, a), rest)
  {
    if rest == [] {
      assert [a] + rest == [] + [a];
      ContinueLast(s, [], a);
    } else {
      var before, last := rest[..|rest| - 1], rest[|rest| - 1];
      ContinueFirst(s, a, before);
      ContinueLast(s, [a] + before, last);
      assert [a] + rest == [a] + before + [last];
    }
  }

  lemma {:induction false} FewerNotifications(s: State, more: seq<Action>)
    requires Inv(s) && !s.dtor.Alive?
    ensures Continue(s, more).notifying <= s.notifying
  {
    if more != [] {
      var s1, a := Continue(s, more[..|more| - 1]), more[|more| - 1];
      FewerNotifications(s, more[..|more| - 1]);
      ContinueInv(s, more[..|more| - 1]);
      if a.Worker? && a.w < |s1.workers| { WorkerEffect(s1, a.w, a.ok); }
      if !a.Worker? && !a.Destroy? && Do(s1, a) != s1 { CallersAreGone(s1, a); }
    }
  }

  ghost predicate NotifiesTooLate(s: State, more: seq<Action>)
    requires Shape(s)
  {
    Continue(s, more).dtor.Destroyed? && Continue(s, more).notifying > 0
  }

  /** The destructor does not wait for callers that are about to notify: one of them may find the pool
      destroyed exactly if there is one when the flag is set. */
  lemma LateNotificationIff(s: State)
    requires Inv(s) && s.dtor.NotifyAll?
    ensures (exists more: seq<Action> :: NotifiesTooLate(s, more)) <==> s.notifying > 0
  {
    if s.notifying > 0 {
      StepInv(s, Destroy);
      var rest := Finish(Do(s, Destroy));
      ContinueFirst(s, Destroy, rest);
      assert NotifiesTooLate(s, [Destroy] + rest);
    } else {
      forall more: seq<Action> ensures !NotifiesTooLate(s, more) { FewerNotifications(s, more); }
    }
  }

  /** The only worker takes the handle of a detached pool, and nobody has notified yet. */
  lemma HandleTaken(wrap: nat) returns (schedule: seq<Action>)
    requires wrap >= 2
    ensures Run(1, wrap, schedule)
         == Init(1, wrap).(workers := [Exited], notifying := 1, past := Past(true, [0], false, false, {}))
  {
    schedule := RunAppend(1, wrap, [], CallDetach);
    schedule := RunAppend(1, wrap, schedule, Worker(0, true));
    assert Run(1, wrap, schedule).workers == [PopTask];
    schedule := RunAppend(1, wrap, schedule, Worker(0, true));
    schedule := RunAppend(1, wrap, schedule, Worker(0, true));
    assert Run(1, wrap, schedule).workers == [TestEmpty];
    schedule := RunAppend(1, wrap, schedule, Worker(0, true));
    schedule := RunAppend(1, wrap, schedule, Worker(0, true));
    assert Run(1, wrap, schedule).workers == [Exited] && Run(1, wrap, schedule).past.takers == [0];
  }

  /** detach() is such a caller: as soon as it has set the flag, a worker may take the handle and destroy
      the pool, and detach() still has to notify. */
  lemma DetachNotifiesTooLate(wrap: nat) returns (schedule: seq<Action>)
    requires wrap >= 2
    ensures var s := Run(1, wrap, schedule);
            s.past.detachCalled && s.past.takers == [0] && s.pushed == 0 && s.dtor.Destroyed? && s.notifying == 1
  {
    schedule := HandleTaken(wrap);
    schedule := RunAppend(1, wrap, schedule, Destroy);
    schedule := RunAppend(1, wrap, schedule, Destroy);
    assert Run(1, wrap, schedule).dtor == Joining(0) && Run(1, wrap, schedule).workers == [Exited];
    schedule := RunAppend(1, wrap, schedule, Destroy);
    schedule := RunAppend(1, wrap, schedule, Destroy);
    schedule := RunAppend(1, wrap, schedule, Destroy);
  }
}
