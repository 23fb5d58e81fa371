/**
The worker pool of include/alpaka/core/ConcurrentExecPool.hpp in its condition-variable form: FIFO
queue, wake-up mutex and condition variable, shutdown by the destructor, and detach.

Every action below is one access to shared state by a worker, an enqueuing or detaching caller, or
the destructor.  `notify_one` wakes any sleeping worker, and sleeping workers may wake spuriously.
Worker bodies return or throw, as the schedule says.  An action that cannot proceed leaves the state
unchanged.
*/
module ExecPool {
  import opened Arithmetic
  import opened Finite
  import opened Options

  /** What the promise of a task holds, or where the task is before that. */
  datatype Status = Queued | Running(w: nat) | Value | OwnException | DestructionException

  /** The program points of concurrentExecFn(). */
  datatype WorkerPc =
    | CheckShutdown
    | PopTask
    | RunBody(i: nat)
    | Decrement(i: nat)   // the body returned, about to decrement m_numActiveTasks
    | SetValue(i: nat)
    | TakeLock            // about to lock m_mtxWakeup
    | TestEmpty           // from here to Asleep the worker holds m_mtxWakeup
    | TakeHandle
    | TestShutdown
    | TestPredicate
    | Asleep              // in m_cvWakeup.wait, mutex released
    | Woken               // about to reacquire the mutex
    | Exited

  datatype DestructorPc = Alive | NotifyAll | Joining(k: nat) | Draining | Destroyed

  datatype State = State(
    wrap: nat,                 // the modulus of m_numActiveTasks
    queue: seq<nat>,           // m_qTasks
    pushed: nat,               // tasks pushed so far; they are numbered in that order
    tasks: map<nat, Status>,
    active: nat,               // m_numActiveTasks
    lock: Option<nat>,         // the worker that holds m_mtxWakeup
    shutdown: bool,            // m_bShutdownFlag
    detached: bool,            // m_bDetachedFlag
    workers: seq<WorkerPc>,
    dtor: DestructorPc,
    arriving: nat,             // callers between ++m_numActiveTasks and their push
    notifying: nat,            // callers between their locked section and notify_one
    past: Past)

  /** History: it records what happened and influences nothing. */
  datatype Past = Past(
    detachCalled: bool,
    takers: seq<nat>,          // workers that took the detach handle
    outside: bool,             // somebody else took it
    late: bool,                // something was pushed after detach
    counted: set<nat>)         // tasks whose body returned and was counted off m_numActiveTasks

  datatype Action =
    | Worker(w: nat, ok: bool)
    | BeginEnqueue
    | Push
    | Notify(w: nat)
    | CallDetach
    | TakeOutside
    | Spurious(w: nat)
    | Destroy

  function Init(n: nat, wrap: nat): State
    requires n >= 1 && wrap >= 2
  {
    State(wrap, [], 0, map[], 0, None, false, false, seq(n, _ => CheckShutdown), Alive, 0, 0,
          Past(false, [], false, false, {}))
  }

  function Prev(x: nat, m: nat): nat
    requires m > 0
  {
    if x == 0 then m - 1 else x - 1
  }

  predicate Shape(s: State)
  {
    s.wrap >= 2 && |s.workers| >= 1
  }

  /** The task a worker is busy with. */
  function Task(pc: WorkerPc): Option<nat>
  {
    match pc
    case RunBody(i) => Some(i)
    case Decrement(i) => Some(i)
    case SetValue(i) => Some(i)
    case _ => None
  }

  function Move(s: State, w: nat, pc: WorkerPc): State
    requires w < |s.workers|
  {
    s.(workers := s.workers[w := pc])
  }

  function Wakeable(s: State): bool
  {
    s.queue != [] || s.shutdown || s.detached
  }

  /** The part of the worker loop outside the wake-up mutex. */
  predicate Busy(pc: WorkerPc)
  {
    pc.CheckShutdown? || pc.PopTask? || Task(pc).Some?
  }

  function BusyStep(s: State, w: nat, ok: bool): (s': State)
    requires Shape(s) && w < |s.workers| && Busy(s.workers[w])
    ensures Shape(s') && |s'.workers| == |s.workers| && s'.wrap == s.wrap
  {
    match s.workers[w]
    case CheckShutdown => Move(s, w, if s.shutdown then Exited else PopTask)
    case PopTask =>
      if s.queue == [] then Move(s, w, TakeLock)
      else
        var i := s.queue[0];
        Move(s, w, RunBody(i)).(queue := s.queue[1..], tasks := s.tasks[i := Running(w)])
    case RunBody(i) =>
      if ok then Move(s, w, Decrement(i))
      else Move(s, w, TakeLock).(tasks := s.tasks[i := OwnException])
    case Decrement(i) =>
      Move(s, w, SetValue(i)).(active := Prev(s.active, s.wrap), past := s.past.(counted := s.past.counted + {i}))
    case SetValue(i) => Move(s, w, TakeLock).(tasks := s.tasks[i := Value])
  }

  /** The part of the worker loop around the wake-up mutex. */
  function IdleStep(s: State, w: nat): (s': State)
    requires Shape(s) && w < |s.workers| && !Busy(s.workers[w])
    ensures Shape(s') && |s'.workers| == |s.workers| && s'.wrap == s.wrap
  {
    match s.workers[w]
    case TakeLock => if s.lock.None? then Move(s, w, TestEmpty).(lock := Some(w)) else s
    case TestEmpty => if s.queue == [] then Move(s, w, TakeHandle) else Move(s, w, CheckShutdown).(lock := None)
    case TakeHandle =>
      if s.detached
      then Move(s, w, Exited).(detached := false, lock := None, past := s.past.(takers := s.past.takers + [w]))
      else Move(s, w, TestShutdown)
    case TestShutdown => if s.shutdown then Move(s, w, Exited).(lock := None) else Move(s, w, TestPredicate)
    case TestPredicate => Move(s, w, if Wakeable(s) then CheckShutdown else Asleep).(lock := None)
    case Asleep => s
    case Woken => if s.lock.None? then Move(s, w, TestPredicate).(lock := Some(w)) else s
    case Exited => s
  }

  function WorkerStep(s: State, w: nat, ok: bool): (s': State)
    requires Shape(s) && w < |s.workers|
    ensures Shape(s') && |s'.workers| == |s.workers| && s'.wrap == s.wrap
  {
    if Busy(s.workers[w]) then BusyStep(s, w, ok) else IdleStep(s, w)
  }

  function WakeAll(workers: seq<WorkerPc>): (r: seq<WorkerPc>)
    ensures |r| == |workers|
    ensures forall w :: 0 <= w < |r| ==> r[w] == if workers[w].Asleep? then Woken else workers[w]
  {
    seq(|workers|, w requires 0 <= w < |workers| => if workers[w].Asleep? then Woken else workers[w])
  }

  /** The destructor starts once no caller is about to push and the pool does not own itself, which it
      does from detach until the handle is taken. It does not wait for callers that have yet to notify. */
  function DestroyStep(s: State): (s': State)
    requires Shape(s)
    ensures Shape(s') && |s'.workers| == |s.workers| && s'.wrap == s.wrap
  {
    match s.dtor
    case Alive =>
      if s.lock.None? && s.arriving == 0 && !s.detached
      then s.(shutdown := true, dtor := NotifyAll) else s
    case NotifyAll => s.(workers := WakeAll(s.workers), dtor := Joining(0))
    case Joining(k) =>
      if k >= |s.workers| then s.(dtor := Draining)
      else if s.workers[k].Exited? then s.(dtor := Joining(k + 1)) else s
    case Draining =>
      if s.queue == [] then s.(dtor := Destroyed)
      else s.(queue := s.queue[1..], tasks := s.tasks[s.queue[0] := DestructionException])
    case Destroyed => s
  }

  /** The steps of the callers of the pool and of the condition variable itself. */
  function CallerStep(s: State, a: Action): (s': State)
    requires Shape(s) && !a.Worker? && !a.Destroy?
    ensures Shape(s') && |s'.workers| == |s.workers| && s'.wrap == s.wrap
  {
    match a
    case BeginEnqueue =>
      if s.dtor.Alive? then s.(active := Next(s.active, s.wrap), arriving := s.arriving + 1) else s
    case Push =>
      if s.arriving > 0 && s.lock.None?
      then s.(arriving := s.arriving - 1, queue := s.queue + [s.pushed], pushed := s.pushed + 1,
              tasks := s.tasks[s.pushed := Queued],
              notifying := s.notifying + 1, past := s.past.(late := s.past.late || s.past.detachCalled))
      else s
    case Notify(w) =>
      if s.notifying == 0 then s
      else if w < |s.workers| && s.workers[w].Asleep? then Move(s, w, Woken).(notifying := s.notifying - 1)
      else if exists v: nat :: v < |s.workers| && s.workers[v].Asleep? then s
      else s.(notifying := s.notifying - 1)
    case CallDetach =>
      if s.lock.None? && !s.past.detachCalled && s.dtor.Alive?
      then s.(detached := true, notifying := s.notifying + 1, past := s.past.(detachCalled := true)) else s
    case TakeOutside => s.(detached := false, past := s.past.(outside := s.past.outside || s.detached))
    case Spurious(w) => if w < |s.workers| && s.workers[w].Asleep? then Move(s, w, Woken) else s
  }

  function Do(s: State, a: Action): (s': State)
    requires Shape(s)
    ensures Shape(s') && |s'.workers| == |s.workers| && s'.wrap == s.wrap
  {
    match a
    case Worker(w, ok) => if w < |s.workers| then WorkerStep(s, w, ok) else s
    case Destroy => DestroyStep(s)
    case _ => CallerStep(s, a)
  }

  function Run(n: nat, wrap: nat, schedule: seq<Action>): (s: State)
    requires n >= 1 && wrap >= 2
    ensures Shape(s) && |s.workers| == n && s.wrap == wrap
  {
    if schedule == [] then Init(n, wrap)
    else Do(Run(n, wrap, schedule[..|schedule| - 1]), schedule[|schedule| - 1])
  }

  // ---------- the inductive invariant, in independent parts

  /** The queue holds the most recent tasks in the order of their pushes; a task is running exactly
      when one worker is busy with it. */
  ghost predicate TasksOk(s: State)
  {
    && |s.queue| <= s.pushed
    && (forall k :: 0 <= k < |s.queue| ==> s.queue[k] == s.pushed - |s.queue| + k)
    && (forall i: nat :: i < s.pushed <==> i in s.tasks)
    && (forall i <- s.tasks :: s.tasks[i].Queued? <==> i >= s.pushed - |s.queue|)
    && (forall w: nat :: w < |s.workers| && Task(s.workers[w]).Some? ==>
                           Task(s.workers[w]).value in s.tasks && s.tasks[Task(s.workers[w]).value] == Running(w))
    && (forall i <- s.tasks :: s.tasks[i].Running? ==>
                                 s.tasks[i].w < |s.workers| && Task(s.workers[s.tasks[i].w]) == Some(i))
  }

  predicate HoldsLock(pc: WorkerPc)
  {
    pc.TestEmpty? || pc.TakeHandle? || pc.TestShutdown? || pc.TestPredicate?
  }

  ghost predicate LockOk(s: State)
  {
    && (s.lock.Some? ==> s.lock.value < |s.workers| && HoldsLock(s.workers[s.lock.value]))
    && (forall w: nat :: w < |s.workers| && HoldsLock(s.workers[w]) ==> s.lock == Some(w))
    && (forall w: nat :: w < |s.workers| && (s.workers[w].TakeHandle? || s.workers[w].TestShutdown?) ==> s.queue == [])
  }

  predicate Awake(pc: WorkerPc)
  {
    !pc.Asleep? && !pc.Exited?
  }

  /** Some worker is awake. */
  ghost predicate SomeAwake(s: State)
  {
    exists w: nat :: w < |s.workers| && Awake(s.workers[w])
  }

  ghost predicate WakeOk(s: State)
  {
    && (!s.shutdown && s.past.takers == [] && (s.queue != [] || s.detached) ==> s.notifying > 0 || SomeAwake(s))
    && (s.shutdown <==> !s.dtor.Alive?)
    && (!s.dtor.Alive? && !s.dtor.NotifyAll? ==> forall w: nat :: w < |s.workers| ==> !s.workers[w].Asleep?)
    && (forall w: nat :: w < |s.workers| && s.workers[w].Exited? ==> s.shutdown || w in s.past.takers)
  }

  ghost predicate DetachOk(s: State)
  {
    && |s.past.takers| <= 1 && !(s.past.takers != [] && s.past.outside)
    && (s.past.takers != [] || s.past.outside ==> s.past.detachCalled)
    && (s.detached <==> s.past.detachCalled && s.past.takers == [] && !s.past.outside)
    && (s.past.takers != [] && !s.past.late ==> s.queue == [])
    && (s.past.detachCalled && !s.dtor.Alive? ==> s.past.takers != [] || s.past.outside)
  }

  ghost predicate DestructorOk(s: State)
  {
    && (s.dtor.Joining? ==> s.dtor.k <= |s.workers| && forall j: nat :: j < s.dtor.k ==> s.workers[j].Exited?)
    && (s.dtor.Draining? || s.dtor.Destroyed? ==> forall j: nat :: j < |s.workers| ==> s.workers[j].Exited?)
    && (!s.dtor.Draining? && !s.dtor.Destroyed? ==>
          forall i <- s.tasks :: !s.tasks[i].DestructionException?)
    && (s.dtor.Destroyed? ==> s.queue == [])
    && (!s.dtor.Alive? ==> s.arriving == 0)
    && (s.past.detachCalled && !s.past.late && !s.past.outside ==>
          forall i <- s.tasks :: !s.tasks[i].DestructionException?)
  }

  /** The counter value that k increments leave behind. */
  function Counter(k: nat, wrap: nat): (r: nat)
    ensures wrap >= 2 ==> r < wrap
  {
    if k == 0 then 0 else Next(Counter(k - 1, wrap), wrap)
  }

  /** The body of task i has returned and m_numActiveTasks was decremented for it. */
  predicate CountedOff(s: State, i: nat)
  {
    i in s.tasks && (s.tasks[i].Value? || (s.tasks[i].Running? && s.tasks[i].w < |s.workers|
                                           && s.workers[s.tasks[i].w] == SetValue(i)))
  }

  ghost predicate CountOk(s: State)
  {
    && (forall i <- s.past.counted :: i < s.pushed)
    && (forall i: nat :: i in s.past.counted <==> CountedOff(s, i))
    && |s.past.counted| <= s.pushed
    && s.active == Counter(s.arriving + s.pushed - |s.past.counted|, s.wrap)
  }

  ghost predicate Inv(s: State)
  {
    Shape(s) && TasksOk(s) && LockOk(s) && WakeOk(s) && DetachOk(s) && DestructorOk(s) && CountOk(s)
  }

  // ---------- every action keeps every part

  /** Only the program point of worker w differs among the workers. */
  ghost predicate Moved(s: State, s': State, w: nat)
  {
    w < |s.workers| == |s'.workers| && s'.workers == s.workers[w := s'.workers[w]]
  }

  /** What a step outside the mutex can change. */
  lemma BusyEffect(s: State, w: nat, ok: bool)
    requires Shape(s) && w < |s.workers| && Busy(s.workers[w])
    ensures var s' := BusyStep(s, w, ok);
            var pc, pc' := s.workers[w], s'.workers[w];
            && Moved(s, s', w)
            && s' == s.(queue := s'.queue, tasks := s'.tasks, active := s'.active, workers := s'.workers,
                  past := s'.past)
            && s'.past == s.past.(counted := s'.past.counted)
            && !HoldsLock(pc') && !pc'.Asleep? && (pc'.Exited? ==> s.shutdown)
            && (|| (Task(pc) == Task(pc') && s'.tasks == s.tasks && s'.queue == s.queue)
                || (pc.PopTask? && s.queue != [] && pc' == RunBody(s.queue[0]) && s'.queue == s.queue[1..]
                    && s'.tasks == s.tasks[s.queue[0] := Running(w)])
                || (Task(pc).Some? && Task(pc').None? && s'.queue == s.queue && !pc.Decrement?
                    && s'.tasks == s.tasks[Task(pc).value := if pc.SetValue? then Value else OwnException]))
            && (if pc.Decrement?
                then && pc' == SetValue(pc.i) && s'.active == Prev(s.active, s.wrap)
                     && s'.past.counted == s.past.counted + {pc.i}
                else !pc'.SetValue? && s'.active == s.active && s'.past.counted == s.past.counted)
  {
    match s.workers[w] {
      case CheckShutdown => return;
      case PopTask => return;
      case RunBody(_) => return;
      case Decrement(_) => return;
      case SetValue(_) => return;
    }
  }

  /** What a step around the mutex leaves alone, and how it moves the mutex. */
  lemma IdleLock(s: State, w: nat)
    requires Shape(s) && w < |s.workers| && !Busy(s.workers[w])
    ensures var s' := IdleStep(s, w);
            var pc, pc' := s.workers[w], s'.workers[w];
            && Moved(s, s', w)
            && s' == s.(lock := s'.lock, detached := s'.detached, workers := s'.workers, past := s'.past)
            && s'.past == s.past.(takers := s'.past.takers)
            && (!Awake(pc) ==> s' == s)
            && (|| (s'.lock == s.lock && HoldsLock(pc) == HoldsLock(pc'))
                || (s.lock.None? && s'.lock == Some(w) && HoldsLock(pc'))
                || (s'.lock.None? && HoldsLock(pc) && !HoldsLock(pc')))
  {
    match s.workers[w] {
      case TakeLock => return;
      case TestEmpty => return;
      case TakeHandle => return;
      case TestShutdown => return;
      case TestPredicate => return;
      case Asleep => return;
      case Woken => return;
      case Exited => return;
    }
  }

  /** When a worker goes to sleep, when it leaves, and what becomes of the detach handle. */
  lemma IdleFlags(s: State, w: nat)
    requires Shape(s) && w < |s.workers| && !Busy(s.workers[w])
    ensures var s' := IdleStep(s, w);
            var pc, pc' := s.workers[w], s'.workers[w];
            && Task(pc').None?
            && (pc'.TakeHandle? ==> s.queue == [])
            && (pc'.TestShutdown? ==> pc.TakeHandle?)
            && (if pc.TakeHandle? && s.detached
                then !s'.detached && s'.past.takers == s.past.takers + [w] && pc'.Exited?
                else && s'.detached == s.detached && s'.past.takers == s.past.takers
                     && (pc'.Exited? ==> s.shutdown || pc.Exited?))
            && (pc'.Asleep? ==> pc.Asleep? || !Wakeable(s))
  {
    match s.workers[w] {
      case TakeLock => return;
      case TestEmpty => return;
      case TakeHandle => return;
      case TestShutdown => return;
      case TestPredicate => return;
      case Asleep => return;
      case Woken => return;
      case Exited => return;
    }
  }

  /** The effects relevant to one part of the invariant or another. */
  lemma WorkerEffect(s: State, w: nat, ok: bool)
    requires Shape(s) && w < |s.workers|
    ensures var s' := WorkerStep(s, w, ok);
            && Moved(s, s', w) && s'.shutdown == s.shutdown && s'.dtor == s.dtor && s'.arriving == s.arriving
            && s'.notifying == s.notifying && s'.pushed == s.pushed
            && s'.past.detachCalled == s.past.detachCalled && s'.past.late == s.past.late
            && s'.past.outside == s.past.outside
            && (!Awake(s.workers[w]) ==> s' == s)
  {
    if Busy(s.workers[w]) { BusyEffect(s, w, ok); } else { IdleLock(s, w); IdleFlags(s, w); }
  }

  lemma TasksSame(s: State, s': State)
    requires TasksOk(s) && s'.queue == s.queue && s'.pushed == s.pushed && s'.tasks == s.tasks
    requires |s'.workers| == |s.workers|
    requires forall v: nat :: v < |s.workers| ==> Task(s'.workers[v]) == Task(s.workers[v])
    ensures TasksOk(s')
  {
  }

  lemma TasksPop(s: State, s': State, w: nat)
    requires TasksOk(s) && s.queue != [] && Moved(s, s', w)
    requires Task(s.workers[w]).None? && Task(s'.workers[w]) == Some(s.queue[0])
    requires s'.queue == s.queue[1..] && s'.pushed == s.pushed && s'.tasks == s.tasks[s.queue[0] := Running(w)]
    ensures TasksOk(s')
  {
  }

  lemma TasksFinish(s: State, s': State, w: nat, status: Status)
    requires TasksOk(s) && Moved(s, s', w) && !status.Queued? && !status.Running?
    requires Task(s.workers[w]).Some? && Task(s'.workers[w]).None?
    requires s'.queue == s.queue && s'.pushed == s.pushed && s'.tasks == s.tasks[Task(s.workers[w]).value := status]
    ensures TasksOk(s')
  {
  }

  lemma TasksDrain(s: State, s': State)
    requires TasksOk(s) && s.queue != [] && s'.workers == s.workers
    requires s'.queue == s.queue[1..] && s'.pushed == s.pushed
    requires s'.tasks == s.tasks[s.queue[0] := DestructionException]
    ensures TasksOk(s')
  {
  }

  lemma TasksPush(s: State, s': State)
    requires TasksOk(s) && s'.workers == s.workers
    requires s'.queue == s.queue + [s.pushed] && s'.pushed == s.pushed + 1 && s'.tasks == s.tasks[s.pushed := Queued]
    ensures TasksOk(s')
  {
  }

  lemma TasksWorker(s: State, w: nat, ok: bool)
    requires Shape(s) && TasksOk(s) && w < |s.workers|
    ensures TasksOk(WorkerStep(s, w, ok))
  {
    var s' := WorkerStep(s, w, ok);
    WorkerEffect(s, w, ok);
    if Busy(s.workers[w]) { BusyEffect(s, w, ok); } else { IdleLock(s, w); IdleFlags(s, w); }
    var i, i' := Task(s.workers[w]), Task(s'.workers[w]);
    if i == i' {
      TasksSame(s, s');
    } else if i.None? {
      TasksPop(s, s', w);
    } else {
      TasksFinish(s, s', w, s'.tasks[i.value]);
    }
  }

  /** Of the callers' steps only a push touches the tasks. */
  lemma CallerKeepsTasks(s: State, a: Action)
    requires Shape(s) && !a.Worker? && !a.Destroy? && !a.Push?
    ensures var s' := CallerStep(s, a);
            && s'.queue == s.queue && s'.pushed == s.pushed && s'.tasks == s.tasks
            && forall v: nat :: v < |s.workers| ==> Task(s'.workers[v]) == Task(s.workers[v])
  {
  }

  lemma TasksCaller(s: State, a: Action)
    requires Shape(s) && TasksOk(s) && !a.Worker? && !a.Destroy?
    ensures TasksOk(CallerStep(s, a))
  {
    var s' := CallerStep(s, a);
    if !a.Push? {
      CallerKeepsTasks(s, a);
      TasksSame(s, s');
    } else if s.arriving > 0 && s.lock.None? {
      TasksPush(s, s');
    }
  }

  lemma TasksDestroy(s: State)
    requires Shape(s) && TasksOk(s)
    ensures TasksOk(DestroyStep(s))
  {
    if s.dtor.Draining? && s.queue != [] { TasksDrain(s, DestroyStep(s)); } else { TasksSame(s, DestroyStep(s)); }
  }

  lemma LockMove(s: State, s': State, w: nat)
    requires LockOk(s) && Moved(s, s', w)
    requires var before, after := HoldsLock(s.workers[w]), HoldsLock(s'.workers[w]);
             || (s'.lock == s.lock && before == after)
             || (s.lock.None? && s'.lock == Some(w) && after)
             || (s'.lock.None? && before && !after)
    requires s'.workers[w].TakeHandle? || s'.workers[w].TestShutdown? || s.queue == [] ==> s'.queue == []
    ensures LockOk(s')
  {
  }

  lemma LockWorker(s: State, w: nat, ok: bool)
    requires Shape(s) && LockOk(s) && w < |s.workers|
    ensures LockOk(WorkerStep(s, w, ok))
  {
    WorkerEffect(s, w, ok);
    if Busy(s.workers[w]) { BusyEffect(s, w, ok); } else { IdleLock(s, w); IdleFlags(s, w); }
    LockMove(s, WorkerStep(s, w, ok), w);
  }

  lemma LockCaller(s: State, a: Action)
    requires Shape(s) && LockOk(s) && !a.Worker? && !a.Destroy?
    ensures LockOk(CallerStep(s, a))
  {
    match a {
      case BeginEnqueue => return;
      case Push => return;
      case Notify(_) => return;
      case CallDetach => return;
      case TakeOutside => return;
      case Spurious(_) => return;
    }
  }

  lemma LockDestroy(s: State)
    requires Shape(s) && LockOk(s)
    ensures LockOk(DestroyStep(s))
  {
  }

  lemma WakeMove(s: State, s': State, w: nat)
    requires WakeOk(s) && Moved(s, s', w) && s'.shutdown == s.shutdown && s'.dtor == s.dtor
    requires s'.notifying == s.notifying
    requires s'.workers[w].Asleep? ==> !Wakeable(s')
    requires s'.workers[w].Exited? ==> s.shutdown || w in s'.past.takers
    requires (forall v <- s.past.takers :: v in s'.past.takers)
    ensures WakeOk(s')
  {
    if Awake(s'.workers[w]) { assert SomeAwake(s'); }
  }

  lemma WakeWorker(s: State, w: nat, ok: bool)
    requires Shape(s) && WakeOk(s) && w < |s.workers|
    ensures WakeOk(WorkerStep(s, w, ok))
  {
    var s' := WorkerStep(s, w, ok);
    WorkerEffect(s, w, ok);
    if Busy(s.workers[w]) { BusyEffect(s, w, ok); } else { IdleLock(s, w); IdleFlags(s, w); }
    if s' != s { WakeMove(s, s', w); }
  }

  lemma WakeCaller(s: State, a: Action)
    requires Shape(s) && WakeOk(s) && !a.Worker? && !a.Destroy?
    ensures WakeOk(CallerStep(s, a))
  {
    var s' := CallerStep(s, a);
    if (a.Notify? || a.Spurious?) && a.w < |s.workers| && s.workers[a.w].Asleep? {
      assert s' != s ==> Awake(s'.workers[a.w]);
    } else if a.Notify? && s' != s {
      assert !s.workers[0].Asleep?;
      assert !s.shutdown && s.past.takers == [] ==> Awake(s'.workers[0]);
    } else {
      assert s'.workers == s.workers;
      assert SomeAwake(s) ==> SomeAwake(s');
    }
  }

  lemma WakeDestroy(s: State)
    requires Shape(s) && WakeOk(s)
    ensures WakeOk(DestroyStep(s))
  {
  }

  lemma DetachMove(s: State, s': State, w: nat)
    requires DetachOk(s) && s'.past.late == s.past.late && s'.past.detachCalled == s.past.detachCalled
    requires s'.dtor == s.dtor
    requires s'.past.outside == s.past.outside
    requires s.queue == [] ==> s'.queue == []
    requires || (s'.past.takers == s.past.takers && s'.detached == s.detached)
             || (s.detached && !s'.detached && s'.past.takers == s.past.takers + [w] && s'.queue == [])
    ensures DetachOk(s')
  {
  }

  lemma DetachWorker(s: State, w: nat, ok: bool)
    requires Shape(s) && DetachOk(s) && LockOk(s) && w < |s.workers|
    ensures DetachOk(WorkerStep(s, w, ok))
  {
    WorkerEffect(s, w, ok);
    if Busy(s.workers[w]) { BusyEffect(s, w, ok); } else { IdleLock(s, w); IdleFlags(s, w); }
    DetachMove(s, WorkerStep(s, w, ok), w);
  }

  lemma DetachCaller(s: State, a: Action)
    requires Shape(s) && DetachOk(s) && !a.Worker? && !a.Destroy?
    ensures DetachOk(CallerStep(s, a))
  {
  }

  lemma DetachDestroy(s: State)
    requires Shape(s) && DetachOk(s)
    ensures DetachOk(DestroyStep(s))
  {
  }

  lemma DestructorMove(s: State, s': State, w: nat)
    requires DestructorOk(s) && Moved(s, s', w) && s'.dtor == s.dtor && s'.arriving == s.arriving
    requires s'.past.detachCalled == s.past.detachCalled && s'.past.late == s.past.late
    requires s'.past.outside == s.past.outside
    requires s.queue == [] ==> s'.queue == []
    requires !s.workers[w].Exited?
    requires forall i <- s'.tasks :: s'.tasks[i].DestructionException? ==>
          i in s.tasks && s.tasks[i].DestructionException?
    ensures DestructorOk(s')
  {
  }

  lemma DestructorWorker(s: State, w: nat, ok: bool)
    requires Shape(s) && DestructorOk(s) && w < |s.workers|
    ensures DestructorOk(WorkerStep(s, w, ok))
  {
    WorkerEffect(s, w, ok);
    if Busy(s.workers[w]) { BusyEffect(s, w, ok); } else { IdleLock(s, w); IdleFlags(s, w); }
    if WorkerStep(s, w, ok) != s { DestructorMove(s, WorkerStep(s, w, ok), w); }
  }

  lemma DestructorCaller(s: State, a: Action)
    requires Shape(s) && DestructorOk(s) && DetachOk(s) && WakeOk(s) && !a.Worker? && !a.Destroy?
    ensures DestructorOk(CallerStep(s, a))
  {
  }

  lemma DestructorDestroy(s: State)
    requires Shape(s) && DestructorOk(s) && DetachOk(s)
    ensures DestructorOk(DestroyStep(s))
  {
  }

  lemma CounterPrev(k: nat, wrap: nat)
    requires k > 0 && wrap >= 2
    ensures Prev(Counter(k, wrap), wrap) == Counter(k - 1, wrap)
  {
    assert Counter(k, wrap) == Next(Counter(k - 1, wrap), wrap);
  }

  /** The counter is exact as long as fewer than `wrap` tasks are in flight. */
  lemma {:induction false} CounterExact(k: nat, wrap: nat)
    requires k < wrap && wrap >= 2
    ensures Counter(k, wrap) == k
  {
    if k > 0 { CounterExact(k - 1, wrap); }
  }

  lemma CountDecrement(s: State, w: nat, ok: bool)
    requires Shape(s) && CountOk(s) && TasksOk(s) && w < |s.workers| && s.workers[w].Decrement?
    ensures CountOk(WorkerStep(s, w, ok))
  {
    var s', i := WorkerStep(s, w, ok), s.workers[w].i;
    BusyEffect(s, w, ok);
    assert Task(s.workers[w]) == Some(i) && !CountedOff(s, i);
    assert forall j: nat :: CountedOff(s', j) <==> CountedOff(s, j) || j == i;
    SizeBelow(s.past.counted + {i}, s.pushed);
    CounterPrev(s.arriving + s.pushed - |s.past.counted|, s.wrap);
  }

  /** Steps that count nobody off keep the count. */
  lemma CountSame(s: State, s': State)
    requires CountOk(s) && s'.past.counted == s.past.counted && s'.pushed == s.pushed && s'.wrap == s.wrap
    requires s'.active == s.active && s'.arriving == s.arriving
    requires forall i: nat :: CountedOff(s', i) <==> CountedOff(s, i)
    ensures CountOk(s')
  {
  }

  /** Only a decrement changes who has been counted off. */
  lemma SameCountedOff(s: State, w: nat, ok: bool, i: nat)
    requires Shape(s) && TasksOk(s) && w < |s.workers| && !s.workers[w].Decrement?
    ensures CountedOff(WorkerStep(s, w, ok), i) <==> CountedOff(s, i)
  {
    WorkerEffect(s, w, ok);
    if Busy(s.workers[w]) { BusyEffect(s, w, ok); } else { IdleLock(s, w); IdleFlags(s, w); }
    assert i in s.tasks && s.tasks[i].Running? ==> Task(s.workers[s.tasks[i].w]) == Some(i);
  }

  lemma CountWorker(s: State, w: nat, ok: bool)
    requires Shape(s) && CountOk(s) && TasksOk(s) && w < |s.workers| && !s.workers[w].Decrement?
    ensures CountOk(WorkerStep(s, w, ok))
  {
    WorkerEffect(s, w, ok);
    if Busy(s.workers[w]) { BusyEffect(s, w, ok); } else { IdleLock(s, w); IdleFlags(s, w); }
    forall i: nat ensures CountedOff(WorkerStep(s, w, ok), i) <==> CountedOff(s, i) { SameCountedOff(s, w, ok, i); }
    CountSame(s, WorkerStep(s, w, ok));
  }

  /** The steps of the callers that touch neither the tasks nor the counter. */
  lemma CountWake(s: State, s': State)
    requires CountOk(s) && s'.past.counted == s.past.counted && s'.pushed == s.pushed && s'.wrap == s.wrap
    requires s'.active == s.active && s'.arriving == s.arriving && s'.tasks == s.tasks && |s'.workers| == |s.workers|
    requires forall w :: 0 <= w < |s.workers| ==>
          s'.workers[w] == s.workers[w] || (s.workers[w].Asleep? && s'.workers[w].Woken?)
    ensures CountOk(s')
  {
    assert forall i: nat :: CountedOff(s', i) <==> CountedOff(s, i);
  }

  lemma CountArrive(s: State, s': State)
    requires CountOk(s) && TasksOk(s)
    requires || s' == s.(active := Next(s.active, s.wrap), arriving := s.arriving + 1)
             || (s.arriving > 0 && s'.arriving == s.arriving - 1 && s'.pushed == s.pushed + 1 && s'.active == s.active
                 && s'.tasks == s.tasks[s.pushed := Queued]
                 && s'.past.counted == s.past.counted && s'.wrap == s.wrap && s'.workers == s.workers)
    ensures CountOk(s')
  {
    assert !CountedOff(s, s.pushed);
    assert forall i: nat :: CountedOff(s', i) <==> CountedOff(s, i);
  }

  /** Notifications and detach touch neither the tasks nor the counter. */
  lemma NotifyEffect(s: State, a: Action)
    requires Shape(s) && (a.Notify? || a.CallDetach? || a.TakeOutside? || a.Spurious?)
    ensures var s' := CallerStep(s, a);
            && s'.past.counted == s.past.counted && s'.pushed == s.pushed
            && s'.active == s.active && s'.arriving == s.arriving
            && s'.tasks == s.tasks
            && forall w :: 0 <= w < |s.workers| ==>
                  s'.workers[w] == s.workers[w] || (s.workers[w].Asleep? && s'.workers[w].Woken?)
  {
    match a {
      case Notify(_) => return;
      case CallDetach => return;
      case TakeOutside => return;
      case Spurious(_) => return;
    }
  }

  lemma CountCaller(s: State, a: Action)
    requires Shape(s) && CountOk(s) && TasksOk(s) && !a.Worker? && !a.Destroy?
    ensures CountOk(CallerStep(s, a))
  {
    var s' := CallerStep(s, a);
    if a.Notify? || a.CallDetach? || a.TakeOutside? || a.Spurious? {
      NotifyEffect(s, a);
      CountWake(s, s');
    } else if s' != s {
      CountArrive(s, s');
    }
  }

  lemma CountDrain(s: State, s': State)
    requires CountOk(s) && TasksOk(s) && s.queue != []
    requires s' == s.(queue := s.queue[1..], tasks := s.tasks[s.queue[0] := DestructionException])
    ensures CountOk(s')
  {
    forall i: nat ensures CountedOff(s', i) <==> CountedOff(s, i) {
    }
    CountSame(s, s');
  }

  lemma CountDestroy(s: State)
    requires Shape(s) && CountOk(s) && TasksOk(s)
    ensures CountOk(DestroyStep(s))
  {
    match s.dtor {
      case NotifyAll => CountWake(s, DestroyStep(s)); return;
      case Draining =>
        if s.queue != [] { CountDrain(s, DestroyStep(s)); return; }
        CountSame(s, s.(dtor := Destroyed));
        return;
      case Alive => CountSame(s, s.(shutdown := true, dtor := NotifyAll)); return;
      case Joining(k) => CountSame(s, s.(dtor := DestroyStep(s).dtor)); return;
      case Destroyed => return;
    }
  }

  lemma InitInv(n: nat, wrap: nat)
    requires n >= 1 && wrap >= 2
    ensures Inv(Init(n, wrap))
  {
  }

  lemma StepInv(s: State, a: Action)
    requires Inv(s)
    ensures Inv(Do(s, a))
  {
    match a
    case Worker(w, ok) =>
      if w < |s.workers| {
        TasksWorker(s, w, ok);
        LockWorker(s, w, ok);
        WakeWorker(s, w, ok);
        DetachWorker(s, w, ok);
        DestructorWorker(s, w, ok);
        if s.workers[w].Decrement? { CountDecrement(s, w, ok); } else { CountWorker(s, w, ok); }
      }
    case Destroy =>
      TasksDestroy(s);
      LockDestroy(s);
      WakeDestroy(s);
      DetachDestroy(s);
      DestructorDestroy(s);
      CountDestroy(s);
    case _ =>
      TasksCaller(s, a);
      LockCaller(s, a);
      WakeCaller(s, a);
      DetachCaller(s, a);
      DestructorCaller(s, a);
      CountCaller(s, a);
  }

  lemma {:induction false} RunInv(n: nat, wrap: nat, schedule: seq<Action>)
    requires n >= 1 && wrap >= 2
    ensures Inv(Run(n, wrap, schedule))
  {
    if schedule == [] {
      InitInv(n, wrap);
    } else {
      RunInv(n, wrap, schedule[..|schedule| - 1]);
      StepInv(Run(n, wrap, schedule[..|schedule| - 1]), schedule[|schedule| - 1]);
    }
  }

  lemma RunAppend(n: nat, wrap: nat, schedule: seq<Action>, a: Action) returns (longer: seq<Action>)
    requires n >= 1 && wrap >= 2
    ensures longer == schedule + [a]
    ensures Run(n, wrap, longer) == Do(Run(n, wrap, schedule), a)
  {
    longer := schedule + [a];
    assert longer[..|schedule|] == schedule;
  }

  // ---------- what the pool promises

  /** No lost wake-up: while the pool is neither shut down nor handed over, a non-empty queue (or a
      pending detach) means that some worker is awake or some caller has yet to notify; and after the
      destructor has notified everybody, no worker sleeps. */
  lemma NoLostWakeup(n: nat, wrap: nat, schedule: seq<Action>)
    requires n >= 1 && wrap >= 2
    ensures var s := Run(n, wrap, schedule);
            && (!s.shutdown && s.past.takers == [] && (s.queue != [] || s.detached) ==> s.notifying > 0 || SomeAwake(s))
            && (!s.dtor.Alive? && !s.dtor.NotifyAll? ==> forall w :: 0 <= w < n ==> !s.workers[w].Asleep?)
  {
    RunInv(n, wrap, schedule);
  }

  predicate IsFinal(status: Status)
  {
    status.Value? || status.OwnException? || status.DestructionException?
  }

  lemma NoneRunning(s: State, i: nat)
    requires TasksOk(s) && i in s.tasks && forall w: nat :: w < |s.workers| ==> s.workers[w].Exited?
    ensures !s.tasks[i].Running?
  {
  }

  /** By the time the destructor returns, every pushed task has been completed. */
  lemma AllTasksCompleted(n: nat, wrap: nat, schedule: seq<Action>)
    requires n >= 1 && wrap >= 2 && Run(n, wrap, schedule).dtor.Destroyed?
    ensures var s := Run(n, wrap, schedule);
            forall i: nat :: i < s.pushed ==> i in s.tasks && IsFinal(s.tasks[i])
  {
    RunInv(n, wrap, schedule);
    var s := Run(n, wrap, schedule);
    forall i: nat | i < s.pushed ensures i in s.tasks && IsFinal(s.tasks[i]) { NoneRunning(s, i); }
  }

  /** A completed task is never completed again: its outcome stays as it is. */
  lemma CompletedOnce(s: State, a: Action, i: nat)
    requires Inv(s) && i in s.tasks && IsFinal(s.tasks[i])
    ensures i in Do(s, a).tasks && Do(s, a).tasks[i] == s.tasks[i]
  {
    if a.Worker? && a.w < |s.workers| {
      WorkerEffect(s, a.w, a.ok);
      if Busy(s.workers[a.w]) { BusyEffect(s, a.w, a.ok); } else { IdleLock(s, a.w); }
    } else if a.Push? {
      assert i < s.pushed;
    }
  }

  /** Tasks are popped in the order in which they were pushed. */
  lemma FirstInFirstOut(n: nat, wrap: nat, schedule: seq<Action>, i: nat, j: nat)
    requires n >= 1 && wrap >= 2 && i < j
    requires var s := Run(n, wrap, schedule); j in s.tasks && !s.tasks[j].Queued?
    ensures var s := Run(n, wrap, schedule); i in s.tasks && !s.tasks[i].Queued?
  {
    RunInv(n, wrap, schedule);
  }

  /** Tasks announced to m_numActiveTasks whose body has not returned and been counted off. */
  function InFlight(s: State): int
  {
    s.arriving + s.pushed - |s.past.counted|
  }

  /** m_numActiveTasks is the number of tasks announced minus the bodies that returned.  With fewer
      than 2^32 tasks in flight, an idle pool has returned from every body it was given, and a task
      whose body threw keeps the pool from ever being idle again. */
  lemma IdleMeansReturned(n: nat, wrap: nat, schedule: seq<Action>)
    requires n >= 1 && wrap >= 2 && InFlight(Run(n, wrap, schedule)) < wrap
    ensures var s := Run(n, wrap, schedule);
            && s.active == InFlight(s)
            && (s.active == 0 <==> s.arriving == 0 && forall i: nat :: i < s.pushed ==> CountedOff(s, i))
            && (forall i <- s.tasks :: s.tasks[i].OwnException? || s.tasks[i].DestructionException? ==> s.active > 0)
  {
    RunInv(n, wrap, schedule);
    CountMeaning(Run(n, wrap, schedule));
  }

  lemma CountMeaning(s: State)
    requires Shape(s) && CountOk(s) && InFlight(s) < s.wrap
    requires forall i <- s.tasks :: i < s.pushed
    ensures s.active == InFlight(s)
    ensures s.active == 0 <==> s.arriving == 0 && forall i: nat :: i < s.pushed ==> CountedOff(s, i)
    ensures forall i <- s.tasks :: s.tasks[i].OwnException? || s.tasks[i].DestructionException? ==> s.active > 0
  {
    CounterExact(InFlight(s), s.wrap);
    SizeBelow(s.past.counted, s.pushed);
    assert s.past.counted == Below(s.pushed) <==> forall i: nat :: i < s.pushed ==> i in s.past.counted;
    forall i | i in s.tasks && (s.tasks[i].OwnException? || s.tasks[i].DestructionException?) ensures s.active > 0 {
      assert !CountedOff(s, i);
    }
  }

  /** Graceful detach: the handle is taken at most once, by a worker or from outside. If a worker took
      it and nothing was pushed after detach, every task had been popped by a worker before, none ever
      gets the destruction exception, and a destroyed pool has run them all. Until somebody outside
      takes the handle no task gets that exception. */
  lemma GracefulDetach(n: nat, wrap: nat, schedule: seq<Action>)
    requires n >= 1 && wrap >= 2
    ensures var s := Run(n, wrap, schedule);
            && |s.past.takers| <= 1 && !(s.past.takers != [] && s.past.outside)
            && (s.past.detachCalled && !s.past.late && !s.past.outside ==>
                  forall i <- s.tasks :: !s.tasks[i].DestructionException?)
            && (s.past.takers != [] && !s.past.late ==>
                  forall i <- s.tasks :: !s.tasks[i].Queued? && !s.tasks[i].DestructionException?)
            && (s.past.detachCalled && s.dtor.Destroyed? ==> s.past.takers != [] || s.past.outside)
            && (s.past.takers != [] && !s.past.late && s.dtor.Destroyed? ==>
                  forall i: nat :: i < s.pushed ==> RunToEnd(s, i))
  {
    RunInv(n, wrap, schedule);
    if Run(n, wrap, schedule).dtor.Destroyed? { AllTasksCompleted(n, wrap, schedule); }
  }

  /** The body of task i returned or threw. */
  predicate RunToEnd(s: State, i: nat)
  {
    i in s.tasks && (s.tasks[i].Value? || s.tasks[i].OwnException?)
  }

  /** Without that hypothesis the guarantee fails: the handle is taken from outside before the worker
      has started, and a task that was pushed before detach gets the destruction exception. */
  lemma OutsideTakerDropsTask(wrap: nat) returns (schedule: seq<Action>)
    requires wrap >= 2
    ensures var s := Run(1, wrap, schedule);
            s.past.detachCalled && !s.past.late && s.past.outside && 0 in s.tasks && s.tasks[0] == DestructionException
  {
    schedule := RunAppend(1, wrap, [], BeginEnqueue);
    schedule := RunAppend(1, wrap, schedule, Push);
    schedule := RunAppend(1, wrap, schedule, CallDetach);
    schedule := RunAppend(1, wrap, schedule, TakeOutside);
    schedule := RunAppend(1, wrap, schedule, Destroy);
    assert Run(1, wrap, schedule).dtor == NotifyAll && Run(1, wrap, schedule).workers == [CheckShutdown];
    schedule := RunAppend(1, wrap, schedule, Worker(0, true));
    assert Run(1, wrap, schedule).workers == [Exited];
    schedule := RunAppend(1, wrap, schedule, Destroy);
    schedule := RunAppend(1, wrap, schedule, Destroy);
    schedule := RunAppend(1, wrap, schedule, Destroy);
    assert Run(1, wrap, schedule).dtor == Draining && Run(1, wrap, schedule).queue == [0];
    schedule := RunAppend(1, wrap, schedule, Destroy);
  }

  /** With action a the body of task i ends: it returns, or it throws. */
  predicate BodyEnds(s: State, a: Action, i: nat, returned: bool)
  {
    a.Worker? && a.w < |s.workers| && s.workers[a.w] == RunBody(i) && a.ok == returned
  }

  /** That is the k-th action of the run. */
  predicate BodyEndsAt(n: nat, wrap: nat, schedule: seq<Action>, i: nat, returned: bool, k: nat)
    requires n >= 1 && wrap >= 2
  {
    k < |schedule| && BodyEnds(Run(n, wrap, schedule[..k]), schedule[k], i, returned)
  }

  /** A body that throws keeps the pool from being idle although every task is completed. */
  lemma ThrowingTaskKeepsPoolBusy(wrap: nat) returns (schedule: seq<Action>)
    requires wrap >= 2
    ensures |schedule| > 0 && BodyEndsAt(1, wrap, schedule, 0, false, |schedule| - 1)
    ensures var s := Run(1, wrap, schedule);
            && s.arriving == 0 && s.pushed == 1 && 0 in s.tasks && s.tasks[0] == OwnException
            && s.active > 0 && forall i <- s.tasks :: IsFinal(s.tasks[i])
  {
    schedule := RunAppend(1, wrap, [], BeginEnqueue);
    schedule := RunAppend(1, wrap, schedule, Push);
    assert Run(1, wrap, schedule).queue == [0] && Run(1, wrap, schedule).workers == [CheckShutdown];
    schedule := RunAppend(1, wrap, schedule, Worker(0, true));
    schedule := RunAppend(1, wrap, schedule, Worker(0, true));
    assert Run(1, wrap, schedule).workers == [RunBody(0)];
    ghost var before := schedule;
    schedule := RunAppend(1, wrap, schedule, Worker(0, false));
    assert schedule[..|before|] == before;
  }

  // ---------- progress

  /** Neither blocked on the mutex nor asleep nor gone. */
  predicate Runs(s: State, w: nat)
    requires w < |s.workers|
  {
    Awake(s.workers[w]) && ((s.workers[w].TakeLock? || s.workers[w].Woken?) ==> s.lock.None?)
  }

  lemma RunningMoves(s: State, w: nat)
    requires Shape(s) && w < |s.workers| && Runs(s, w)
    ensures WorkerStep(s, w, true).workers[w] != s.workers[w]
  {
    match s.workers[w] {
      case CheckShutdown => return;
      case PopTask => return;
      case RunBody(_) => return;
      case Decrement(_) => return;
      case SetValue(_) => return;
      case TakeLock => return;
      case TestEmpty => return;
      case TakeHandle => return;
      case TestShutdown => return;
      case TestPredicate => return;
      case Woken => return;
      case _ =>
    }
  }

  /** A worker that is awake can move, or the holder of the mutex can. */
  lemma AwakeCanMove(s: State, w: nat)
    requires Shape(s) && LockOk(s) && w < |s.workers| && Awake(s.workers[w])
    ensures exists v: nat :: v < |s.workers| && Do(s, Worker(v, true)).workers != s.workers
  {
    var v := if Runs(s, w) then w else s.lock.value;
    RunningMoves(s, v);
    assert Do(s, Worker(v, true)) == WorkerStep(s, v, true);
  }

  /** The pool always makes progress on queued tasks and on a pending detach, and its destructor
      always makes progress until it has returned. */
  lemma NeverStuck(s: State)
    requires Inv(s)
    requires !s.dtor.Destroyed? && (s.dtor.Alive? ==> s.past.takers == [] && (s.queue != [] || s.detached))
    ensures exists a: Action :: (a.Worker? || a.Notify? || a.Destroy?) && Do(s, a) != s
  {
    if w: nat :| w < |s.workers| && Awake(s.workers[w]) {
      AwakeCanMove(s, w);
      var v: nat :| v < |s.workers| && Do(s, Worker(v, true)).workers != s.workers;
      assert Do(s, Worker(v, true)) != s;
    } else if s.dtor.Alive? {
      assert s.notifying > 0;
      var w := if w: nat :| w < |s.workers| && s.workers[w].Asleep? then w else 0;
      assert Do(s, Notify(w)).notifying != s.notifying;
    } else {
      assert s.dtor.Joining? && s.dtor.k < |s.workers| ==> s.workers[s.dtor.k].Exited?;
      assert Do(s, Destroy).dtor != s.dtor || Do(s, Destroy).queue != s.queue;
    }
  }

  /** A sleeping worker may wake at any time; when there is nothing to do it is asleep again two steps later,
      and nothing has changed. */
  lemma SpuriousWakeUp(s: State, w: nat)
    requires Shape(s) && w < |s.workers| && s.workers[w].Asleep? && s.lock.None? && !Wakeable(s)
    ensures var woken := Do(s, Spurious(w));
            woken != s && Do(Do(woken, Worker(w, true)), Worker(w, true)) == s
  {
    var woken := Do(s, Spurious(w));
    assert woken.workers[w] == Woken;
    var tests := Do(woken, Worker(w, true));
    assert tests.workers[w] == TestPredicate;
    assert Do(tests, Worker(w, true)).workers == s.workers;
  }

  // ---------- the pool object, updated in place

  lemma DestroyAppend(n: nat, wrap: nat, schedule: seq<Action>) returns (longer: seq<Action>)
    requires n >= 1 && wrap >= 2
    ensures longer == schedule + [Destroy]
    ensures Run(n, wrap, longer) == DestroyStep(Run(n, wrap, schedule))
  {
    longer := RunAppend(n, wrap, schedule, Destroy);
  }

  /** The fields of the pool and the program points of its workers and of its destructor.  Every method
      is one action; the fields are those of the machine after the actions of `history`, so that
      everything proved about runs holds of the object. */
  class ConcurrentExecPool {
    const wrap: nat
    var tasks: seq<nat>
    var promises: map<nat, Status>
    var pushed: nat
    var numActiveTasks: nat
    var wakeupOwner: Option<nat>
    var shutdownFlag: bool
    var detachedFlag: bool
    var workers: seq<WorkerPc>
    var destructor: DestructorPc
    var arriving: nat
    var notifying: nat
    ghost var history: seq<Action>

    ghost predicate Valid()
      reads this
    {
      && |workers| >= 1 && wrap >= 2
      && var r := Run(|workers|, wrap, history);
         r == State(wrap, tasks, pushed, promises, numActiveTasks, wakeupOwner, shutdownFlag, detachedFlag,
                    workers, destructor, arriving, notifying, r.past)
    }

    constructor (n: nat, wrap: nat)
      requires n >= 1 && wrap >= 2
      ensures Valid() && history == [] && |workers| == n
    {
      this.wrap := wrap;
      tasks, promises, pushed, numActiveTasks, wakeupOwner := [], map[], 0, 0, None;
      shutdownFlag, detachedFlag, workers, destructor := false, false, seq(n, _ => CheckShutdown), Alive;
      arriving, notifying := 0, 0;
      history := [];
    }

    // concurrentExecFn, access by access

    method TestShutdownFlag(w: nat)
      requires Valid() && w < |workers| && workers[w].CheckShutdown?
      modifies this
      ensures Valid() && history == old(history) + [Worker(w, true)]
    {
      history := RunAppend(|workers|, wrap, history, Worker(w, true));
      workers := workers[w := if shutdownFlag then Exited else PopTask];
    }

    method Pop(w: nat)
      requires Valid() && w < |workers| && workers[w].PopTask?
      modifies this
      ensures Valid() && history == old(history) + [Worker(w, true)]
    {
      history := RunAppend(|workers|, wrap, history, Worker(w, true));
      if tasks == [] {
        workers := workers[w := TakeLock];
      } else {
        var i := tasks[0];
        tasks := tasks[1..];
        promises := promises[i := Running(w)];
        workers := workers[w := RunBody(i)];
      }
    }

    method RunTask(w: nat, ok: bool)
      requires Valid() && w < |workers| && workers[w].RunBody?
      modifies this
      ensures Valid() && history == old(history) + [Worker(w, ok)]
    {
      history := RunAppend(|workers|, wrap, history, Worker(w, ok));
      var i := workers[w].i;
      if ok {
        workers := workers[w := Decrement(i)];
      } else {
        promises := promises[i := OwnException];
        workers := workers[w := TakeLock];
      }
    }

    method CountOff(w: nat)
      requires Valid() && w < |workers| && workers[w].Decrement?
      modifies this
      ensures Valid() && history == old(history) + [Worker(w, true)]
    {
      history := RunAppend(|workers|, wrap, history, Worker(w, true));
      var i := workers[w].i;
      numActiveTasks := Prev(numActiveTasks, wrap);
      workers := workers[w := SetValue(i)];
    }

    method Fulfil(w: nat)
      requires Valid() && w < |workers| && workers[w].SetValue?
      modifies this
      ensures Valid() && history == old(history) + [Worker(w, true)]
    {
      history := RunAppend(|workers|, wrap, history, Worker(w, true));
      var i := workers[w].i;
      promises := promises[i := Value];
      workers := workers[w := TakeLock];
    }

    method LockWakeup(w: nat)
      requires Valid() && w < |workers| && workers[w].TakeLock?
      modifies this
      ensures Valid() && history == old(history) + [Worker(w, true)]
    {
      history := RunAppend(|workers|, wrap, history, Worker(w, true));
      if wakeupOwner.None? {
        wakeupOwner := Some(w);
        workers := workers[w := TestEmpty];
      }
    }

    method CheckEmpty(w: nat)
      requires Valid() && w < |workers| && workers[w].TestEmpty?
      modifies this
      ensures Valid() && history == old(history) + [Worker(w, true)]
    {
      history := RunAppend(|workers|, wrap, history, Worker(w, true));
      if tasks == [] {
        workers := workers[w := TakeHandle];
      } else {
        wakeupOwner := None;
        workers := workers[w := CheckShutdown];
      }
    }

    method TakeDetachHandle(w: nat)
      requires Valid() && w < |workers| && workers[w].TakeHandle?
      modifies this
      ensures Valid() && history == old(history) + [Worker(w, true)]
    {
      history := RunAppend(|workers|, wrap, history, Worker(w, true));
      if detachedFlag {
        detachedFlag := false;
        wakeupOwner := None;
        workers := workers[w := Exited];
      } else {
        workers := workers[w := TestShutdown];
      }
    }

    method CheckShutdownLocked(w: nat)
      requires Valid() && w < |workers| && workers[w].TestShutdown?
      modifies this
      ensures Valid() && history == old(history) + [Worker(w, true)]
    {
      history := RunAppend(|workers|, wrap, history, Worker(w, true));
      if shutdownFlag {
        wakeupOwner := None;
        workers := workers[w := Exited];
      } else {
        workers := workers[w := TestPredicate];
      }
    }

    method Wait(w: nat)
      requires Valid() && w < |workers| && workers[w].TestPredicate?
      modifies this
      ensures Valid() && history == old(history) + [Worker(w, true)]
    {
      history := RunAppend(|workers|, wrap, history, Worker(w, true));
      wakeupOwner := None;
      workers := workers[w := if tasks != [] || shutdownFlag || detachedFlag then CheckShutdown else Asleep];
    }

    method Reacquire(w: nat)
      requires Valid() && w < |workers| && workers[w].Woken?
      modifies this
      ensures Valid() && history == old(history) + [Worker(w, true)]
    {
      history := RunAppend(|workers|, wrap, history, Worker(w, true));
      if wakeupOwner.None? {
        wakeupOwner := Some(w);
        workers := workers[w := TestPredicate];
      }
    }

    /** The first part of enqueueTask. */
    method Announce()
      requires Valid() && destructor.Alive?
      modifies this
      ensures Valid() && history == old(history) + [BeginEnqueue]
    {
      history := RunAppend(|workers|, wrap, history, BeginEnqueue);
      numActiveTasks := Next(numActiveTasks, wrap);
      arriving := arriving + 1;
    }

    /** The locked push of enqueueTask: the caller gets the mutex while no worker holds it. */
    method PushTask()
      requires Valid() && arriving > 0 && wakeupOwner.None?
      modifies this
      ensures Valid() && history == old(history) + [Push]
    {
      history := RunAppend(|workers|, wrap, history, Push);
      arriving := arriving - 1;
      tasks := tasks + [pushed];
      promises := promises[pushed := Queued];
      pushed := pushed + 1;
      notifying := notifying + 1;
    }

    /** notify_one, with the sleeping worker that the system picked, if there is one. */
    method NotifyOne(w: nat)
      requires Valid() && notifying > 0
      requires (w < |workers| && workers[w].Asleep?) || forall v: nat :: v < |workers| ==> !workers[v].Asleep?
      modifies this
      ensures Valid() && history == old(history) + [Notify(w)]
    {
      history := RunAppend(|workers|, wrap, history, Notify(w));
      notifying := notifying - 1;
      if w < |workers| && workers[w].Asleep? {
        workers := workers[w := Woken];
      }
    }

    method Detach()
      requires Valid() && !Run(|workers|, wrap, history).past.detachCalled && destructor.Alive? && wakeupOwner.None?
      modifies this
      ensures Valid() && history == old(history) + [CallDetach]
    {
      history := RunAppend(|workers|, wrap, history, CallDetach);
      detachedFlag := true;
      notifying := notifying + 1;
    }

    /** takeDetachHandle as the device calls it for a queue that is gone, without the mutex. */
    method TakeHandleOutside() returns (taken: bool)
      requires Valid()
      modifies this
      ensures Valid() && history == old(history) + [TakeOutside] && taken == old(detachedFlag)
    {
      history := RunAppend(|workers|, wrap, history, TakeOutside);
      taken := detachedFlag;
      detachedFlag := false;
    }

    // what the runs of the machine mean for the object

    /** With fewer than `wrap` tasks in flight, an idle pool has returned from every body it was given. */
    method IsIdle() returns (idle: bool)
      requires Valid() && InFlight(Run(|workers|, wrap, history)) < wrap
      ensures idle <==> arriving == 0 && forall i: nat :: i < pushed ==> CountedOff(Run(|workers|, wrap, history), i)
    {
      IdleMeansReturned(|workers|, wrap, history);
      idle := numActiveTasks == 0;
    }

    /** A destroyed pool has completed every promise it gave. */
    lemma DestroyedMeansCompleted()
      requires Valid() && destructor.Destroyed?
      ensures forall i: nat :: i < pushed ==> i in promises && IsFinal(promises[i])
    {
      AllTasksCompleted(|workers|, wrap, history);
    }

    // the destructor, phase by phase

    method BeginShutdown()
      requires Valid() && destructor.Alive?
      modifies this
      ensures Valid() && history == old(history) + [Destroy]
    {
      history := DestroyAppend(|workers|, wrap, history);
      if wakeupOwner.None? && arriving == 0 && !detachedFlag {
        shutdownFlag := true;
        destructor := NotifyAll;
      }
    }

    method WakeEverybody()
      requires Valid() && destructor.NotifyAll?
      modifies this
      ensures Valid() && history == old(history) + [Destroy]
    {
      history := DestroyAppend(|workers|, wrap, history);
      workers := WakeAll(workers);
      destructor := Joining(0);
    }

    method JoinNext()
      requires Valid() && destructor.Joining?
      modifies this
      ensures Valid() && history == old(history) + [Destroy]
    {
      history := DestroyAppend(|workers|, wrap, history);
      var k := destructor.k;
      if k >= |workers| {
        destructor := Draining;
      } else if workers[k].Exited? {
        destructor := Joining(k + 1);
      }
      assert Run(|workers|, wrap, history).dtor == destructor;
    }

    method DrainNext()
      requires Valid() && destructor.Draining?
      modifies this
      ensures Valid() && history == old(history) + [Destroy]
    {
      history := DestroyAppend(|workers|, wrap, history);
      if tasks == [] {
        destructor := Destroyed;
      } else {
        promises := promises[tasks[0] := DestructionException];
        tasks := tasks[1..];
      }
    }
  }
}
