/**
The event protocol of include/alpaka/event/EventGenericThreads.hpp over single-worker FIFO queues.

A task is a piece of work, a marker (the task that an event enqueues into a queue) or a wait for an
event.  All tasks are numbered in the order in which they were enqueued; the worker of a queue runs
the tasks of its queue in that order, which is what the pool of one worker guarantees.  A host thread
that waits for an event is a queue of its own, to which only waits are added.
*/
module Events {

  /** What an event's m_future refers to: the promise of a marker task, or one that is fulfilled at
      once (the blocking queue's). */
  datatype Future = Ready | Of(id: nat)

  /** `count` is the m_enqueueCount that the marker or the wait has captured. */
  datatype Kind = Work | Marker(event: nat, count: nat) | Wait(event: nat, count: nat)

  datatype Phase =
    | Pending              // not started; for a wait also: about to compare the counts again
    | Blocked(f: Future)   // in future.get() on a copy of m_future
    | BodyDone             // body finished, promise about to be fulfilled
    | Finished             // promise fulfilled

  datatype Task = Task(queue: nat, kind: Kind, phase: Phase)

  /** The event object; `marks` is history: the future of each of its enqueues. */
  datatype Event = Event(enqueueCount: nat, lastReady: nat, future: Future, marks: seq<Future>)

  /** The body of a marker task: nothing to do if the event was enqueued again. */
  function RunMarker(ev: Event, count: nat): Event
  {
    if count == ev.enqueueCount then ev.(lastReady := ev.enqueueCount) else ev
  }

  /** One more enqueue of the event, with future f. */
  function Renew(ev: Event, f: Future): Event
  {
    ev.(enqueueCount := ev.enqueueCount + 1, future := f, marks := ev.marks + [f])
  }

  /** The event object, updated in place. */
  class EventGenericThreadsImpl {
    var enqueueCount: nat
    var lastReadyEnqueueCount: nat
    var future: Future
    ghost var marks: seq<Future>

    ghost function View(): Event
      reads this
    {
      Event(enqueueCount, lastReadyEnqueueCount, future, marks)
    }

    constructor ()
      ensures View() == Event(0, 0, Ready, [])
    {
      enqueueCount, lastReadyEnqueueCount, future, marks := 0, 0, Ready, [];
    }

    /** Enqueue into a non-blocking queue, whose pool returns the future f of the marker task; the
        marker captures `captured`. */
    method Enqueue(f: Future) returns (captured: nat)
      modifies this
      ensures View() == Renew(old(View()), f) && captured == enqueueCount
    {
      enqueueCount := enqueueCount + 1;
      captured := enqueueCount;
      future := f;
      marks := marks + [f];
    }

    method EnqueueBlocking()
      modifies this
      ensures View() == Renew(old(View()), Ready).(lastReady := old(enqueueCount) + 1)
    {
      enqueueCount := enqueueCount + 1;
      lastReadyEnqueueCount := enqueueCount;
      future := Ready;
      marks := marks + [Ready];
    }

    method MarkerBody(captured: nat)
      modifies this
      ensures View() == RunMarker(old(View()), captured)
    {
      if captured == enqueueCount {
        lastReadyEnqueueCount := enqueueCount;
      }
    }
  }

  /** The locked part of one pass of the waiting loop: either done, or a future to wait for. */
  function WaitNext(ev: Event, count: nat): Phase
  {
    if count <= ev.lastReady then BodyDone else Blocked(ev.future)
  }

  /** `renewed` is history: some event was enqueued again while it was not ready. */
  datatype State = State(tasks: seq<Task>, events: seq<Event>, renewed: bool)

  datatype Action =
    | AddWork(q: nat)
    | AddMarker(q: nat, e: nat)    // enqueue(queue, event), non-blocking queue
    | AddBlocking(e: nat)          // enqueue(queue, event), blocking queue
    | AddWait(q: nat, e: nat)      // wait(queue, event): nothing to do for a ready event
    | AddHostWait(q: nat, e: nat)  // wait(event) by host thread q
    | Step(id: nat)                // the worker of a queue takes a step of task `id`

  function Init(events: nat): State
  {
    State([], seq(events, _ => Event(0, 0, Ready, [])), false)
  }

  predicate IsReady(ev: Event)
  {
    ev.lastReady == ev.enqueueCount
  }

  /** Every earlier task of the same queue is finished, and the task itself is not. */
  predicate AtHead(s: State, id: nat)
  {
    && id < |s.tasks| && !s.tasks[id].phase.Finished?
    && forall j: nat :: j < id && s.tasks[j].queue == s.tasks[id].queue ==> s.tasks[j].phase.Finished?
  }

  predicate FutureReady(s: State, f: Future)
  {
    f.Ready? || (f.id < |s.tasks| && s.tasks[f.id].phase.Finished?)
  }

  function SetPhase(s: State, id: nat, phase: Phase): State
    requires id < |s.tasks|
  {
    s.(tasks := s.tasks[id := s.tasks[id].(phase := phase)])
  }

  function StepTask(s: State, id: nat): State
    requires AtHead(s, id)
  {
    var t := s.tasks[id];
    match t.phase
    case Finished => s
    case BodyDone => SetPhase(s, id, Finished)
    case Blocked(f) => if FutureReady(s, f) then SetPhase(s, id, Pending) else s
    case Pending =>
      match t.kind
      case Work => SetPhase(s, id, BodyDone)
      case Marker(e, c) =>
        if e >= |s.events| then s
        else SetPhase(s, id, BodyDone).(events := s.events[e := RunMarker(s.events[e], c)])
      case Wait(e, c) =>
        if e >= |s.events| then s else SetPhase(s, id, WaitNext(s.events[e], c))
  }

  function Append(s: State, q: nat, kind: Kind): State
  {
    s.(tasks := s.tasks + [Task(q, kind, Pending)])
  }

  function Do(s: State, a: Action): (s': State)
    ensures |s'.events| == |s.events|
  {
    match a
    case AddWork(q) => Append(s, q, Work)
    case AddMarker(q, e) =>
      if e >= |s.events| then s else
        var ev := s.events[e];
        Append(s, q, Marker(e, ev.enqueueCount + 1)).(
          events := s.events[e := Renew(ev, Of(|s.tasks|))], renewed := s.renewed || !IsReady(ev))
    case AddBlocking(e) =>
      if e >= |s.events| then s else
        var ev := s.events[e];
        s.(events := s.events[e := Renew(ev, Ready).(lastReady := ev.enqueueCount + 1)],
              renewed := s.renewed || !IsReady(ev))
    case AddWait(q, e) =>
      if e >= |s.events| || IsReady(s.events[e]) then s
      else Append(s, q, Wait(e, s.events[e].enqueueCount))
    case AddHostWait(q, e) =>
      if e >= |s.events| then s else Append(s, q, Wait(e, s.events[e].enqueueCount))
    case Step(id) => if AtHead(s, id) then StepTask(s, id) else s
  }

  function Run(events: nat, schedule: seq<Action>): (s: State)
    ensures |s.events| == events
  {
    if schedule == [] then Init(events)
    else Do(Run(events, schedule[..|schedule| - 1]), schedule[|schedule| - 1])
  }

  // ---------- the inductive invariant

  /** The task has begun, so everything enqueued before it into its queue is finished. */
  predicate Begun(t: Task)
  {
    !t.phase.Pending?
  }

  /** The c-th enqueue of the event is complete or its marker has run. */
  predicate MarkReached(s: State, f: Future)
  {
    f.Ready? || (f.id < |s.tasks| && (s.tasks[f.id].phase.BodyDone? || s.tasks[f.id].phase.Finished?))
  }

  ghost predicate EventOk(s: State, e: nat)
    requires e < |s.events|
  {
    var ev := s.events[e];
    && ev.lastReady <= ev.enqueueCount == |ev.marks|
    && (ev.enqueueCount > 0 ==> ev.future == ev.marks[ev.enqueueCount - 1])
    && (ev.lastReady > 0 ==> MarkReached(s, ev.marks[ev.lastReady - 1]))
    && (forall c :: 0 <= c < |ev.marks| && ev.marks[c].Ready? ==> c + 1 <= ev.lastReady)
    && (forall c :: 0 <= c < |ev.marks| && ev.marks[c].Of? ==>
                      ev.marks[c].id < |s.tasks| && s.tasks[ev.marks[c].id].kind == Marker(e, c + 1))
    && (forall c, d :: 0 <= c < d < |ev.marks| && ev.marks[c].Of? && ev.marks[d].Of? ==>
          ev.marks[c].id < ev.marks[d].id)
  }

  /** The future that a blocked wait for the c-th enqueue follows: that of the c-th or a later one. */
  ghost predicate Follows(ev: Event, c: nat, f: Future)
  {
    exists k :: c <= k + 1 <= |ev.marks| && k >= 0 && ev.marks[k] == f
  }

  ghost predicate TaskOk(s: State, id: nat)
    requires id < |s.tasks|
  {
    var t := s.tasks[id];
    match t.kind
    case Work => !t.phase.Blocked?
    case Marker(e, c) =>
      && e < |s.events| && 1 <= c <= |s.events[e].marks| && s.events[e].marks[c - 1] == Of(id)
      && !t.phase.Blocked?
      && (Begun(t) ==> c <= s.events[e].lastReady || c < s.events[e].enqueueCount)
    case Wait(e, c) =>
      && e < |s.events| && c <= |s.events[e].marks|
      && (c > 0 && s.events[e].marks[c - 1].Of? ==> s.events[e].marks[c - 1].id < id)
      && (t.phase.Blocked? ==> Follows(s.events[e], c, t.phase.f))
      && (t.phase.BodyDone? || t.phase.Finished? ==> c <= s.events[e].lastReady)
  }

  /** The queues are served in order. */
  ghost predicate Fifo(s: State)
  {
    forall j: nat, id: nat :: j < id < |s.tasks| && Begun(s.tasks[id]) && s.tasks[j].queue == s.tasks[id].queue ==>
                                s.tasks[j].phase.Finished?
  }

  ghost predicate Inv(s: State)
  {
    && (forall e: nat :: e < |s.events| ==> EventOk(s, e))
    && (forall id: nat :: id < |s.tasks| ==> TaskOk(s, id))
    && Fifo(s)
  }

  lemma InitInv(events: nat)
    ensures Inv(Init(events))
  {
  }

  /** Adding a task without touching the events. */
  lemma AppendInv(s: State, q: nat, kind: Kind)
    requires Inv(s)
    requires !kind.Marker?
    requires kind.Wait? ==> kind.event < |s.events| && kind.count == s.events[kind.event].enqueueCount
    ensures Inv(Append(s, q, kind))
  {
    var s' := Append(s, q, kind);
    forall e: nat | e < |s.events| ensures EventOk(s', e) { assert EventOk(s, e); }
    forall id: nat | id < |s'.tasks| ensures TaskOk(s', id) {
      if id < |s.tasks| { assert TaskOk(s, id); } else if kind.Wait? { assert EventOk(s, kind.event); }
    }
  }

  /** An event keeps its part when its fields stay and the tasks only grow. */
  lemma EventKept(s: State, s': State, e: nat)
    requires e < |s.events| == |s'.events| && EventOk(s, e) && s'.events[e] == s.events[e]
    requires |s.tasks| <= |s'.tasks| && forall id: nat :: id < |s.tasks| ==> s'.tasks[id] == s.tasks[id]
    ensures EventOk(s', e)
  {
  }

  /** Enqueuing an event once more, with the marker task that is appended or without one. */
  lemma EventRenewed(s: State, s': State, e: nat, f: Future)
    requires e < |s.events| == |s'.events| && EventOk(s, e)
    requires var lastReady := if f.Ready? then s.events[e].enqueueCount + 1 else s.events[e].lastReady;
             s'.events[e] == Renew(s.events[e], f).(lastReady := lastReady)
    requires |s.tasks| <= |s'.tasks| && forall id: nat :: id < |s.tasks| ==> s'.tasks[id] == s.tasks[id]
    requires f.Of? ==> f.id == |s.tasks| < |s'.tasks| && s'.tasks[f.id].kind == Marker(e, s.events[e].enqueueCount + 1)
    ensures EventOk(s', e)
  {
  }

  lemma RenewEvents(s: State, a: Action, e: nat)
    requires (a.AddMarker? || a.AddBlocking?) && a.e < |s.events| && e < |s.events| && EventOk(s, e)
    ensures EventOk(Do(s, a), e)
  {
    if e == a.e {
      EventRenewed(s, Do(s, a), e, if a.AddMarker? then Of(|s.tasks|) else Ready);
    } else {
      EventKept(s, Do(s, a), e);
    }
  }

  lemma RenewTasks(s: State, a: Action, id: nat)
    requires (a.AddMarker? || a.AddBlocking?) && a.e < |s.events| && EventOk(s, a.e)
    requires id < |s.tasks| && TaskOk(s, id)
    ensures TaskOk(Do(s, a), id)
  {
    var s', t := Do(s, a), s.tasks[id];
    assert s'.tasks[id] == t;
    if t.kind.Wait? && t.kind.event == a.e && t.phase.Blocked? {
      var ev, ev' := s.events[a.e], s'.events[a.e];
      var k :| t.kind.count <= k + 1 <= |ev.marks| && k >= 0 && ev.marks[k] == t.phase.f;
      assert ev'.marks[k] == t.phase.f;
    }
  }

  lemma RenewInv(s: State, a: Action)
    requires Inv(s) && (a.AddMarker? || a.AddBlocking?) && a.e < |s.events|
    ensures Inv(Do(s, a))
  {
    var s' := Do(s, a);
    forall e: nat | e < |s.events| ensures EventOk(s', e) { RenewEvents(s, a, e); }
    forall id: nat | id < |s'.tasks| ensures TaskOk(s', id) {
      if id < |s.tasks| { RenewTasks(s, a, id); } else { assert EventOk(s, a.e); }
    }
  }

  /** A step changes the phase of one task, and lastReady of the event of a current marker. */
  lemma StepEffect(s: State, id: nat)
    requires AtHead(s, id)
    ensures var s', t := StepTask(s, id), s.tasks[id];
            && s' == SetPhase(s, id, s'.tasks[id].phase).(events := s'.events)
            && (s'.events == s.events
                || (t.kind.Marker? && t.phase.Pending? && t.kind.event < |s.events|
                    && t.kind.count == s.events[t.kind.event].enqueueCount && s'.tasks[id].phase.BodyDone?
                    && s'.events == s.events[t.kind.event := s.events[t.kind.event].(lastReady := t.kind.count)]))
            && (t.phase.BodyDone? ==> s'.tasks[id].phase.Finished?)
  {
  }

  lemma StepEvents(s: State, id: nat, e: nat)
    requires AtHead(s, id) && TaskOk(s, id) && e < |s.events| && EventOk(s, e)
    ensures EventOk(StepTask(s, id), e)
  {
    StepEffect(s, id);
  }

  lemma StepOwnTask(s: State, id: nat)
    requires AtHead(s, id) && TaskOk(s, id) && (s.tasks[id].kind.Work? || EventOk(s, s.tasks[id].kind.event))
    ensures TaskOk(StepTask(s, id), id)
  {
    var t := s.tasks[id];
    if t.kind.Wait? && t.phase.Pending? && t.kind.count > s.events[t.kind.event].lastReady {
      var ev := s.events[t.kind.event];
      assert ev.marks[ev.enqueueCount - 1] == ev.future;
      assert Follows(ev, t.kind.count, ev.future);
    }
  }

  lemma StepOtherTask(s: State, id: nat, i: nat)
    requires AtHead(s, id) && TaskOk(s, id) && i < |s.tasks| && i != id && TaskOk(s, i)
    requires s.tasks[id].kind.Marker? ==> EventOk(s, s.tasks[id].kind.event)
    ensures TaskOk(StepTask(s, id), i)
  {
    StepEffect(s, id);
  }

  lemma StepTaskInv(s: State, id: nat)
    requires Inv(s) && AtHead(s, id)
    ensures Inv(StepTask(s, id))
  {
    var s' := StepTask(s, id);
    StepEffect(s, id);
    assert TaskOk(s, id);
    forall e: nat | e < |s.events| ensures EventOk(s', e) { StepEvents(s, id, e); }
    forall i: nat | i < |s'.tasks| ensures TaskOk(s', i) {
      if i == id { StepOwnTask(s, id); } else { StepOtherTask(s, id, i); }
    }
  }

  lemma StepInv(s: State, a: Action)
    requires Inv(s)
    ensures Inv(Do(s, a))
  {
    match a
    case AddWork(q) => AppendInv(s, q, Work);
    case AddMarker(q, e) => if e < |s.events| { RenewInv(s, a); }
    case AddBlocking(e) => if e < |s.events| { RenewInv(s, a); }
    case AddWait(q, e) => if e < |s.events| { AppendInv(s, q, Wait(e, s.events[e].enqueueCount)); }
    case AddHostWait(q, e) => if e < |s.events| { AppendInv(s, q, Wait(e, s.events[e].enqueueCount)); }
    case Step(id) => if AtHead(s, id) { StepTaskInv(s, id); }
  }

  lemma {:induction false} RunInv(events: nat, schedule: seq<Action>)
    ensures Inv(Run(events, schedule))
  {
    if schedule == [] {
      InitInv(events);
    } else {
      RunInv(events, schedule[..|schedule| - 1]);
      StepInv(Run(events, schedule[..|schedule| - 1]), schedule[|schedule| - 1]);
    }
  }

  // ---------- what a wait promises

  /** m_LastReadyEnqueueCount never exceeds m_enqueueCount, both only grow, and m_future is the future
      of the latest enqueue. */
  lemma CountersConsistent(events: nat, schedule: seq<Action>, a: Action, e: nat)
    requires e < events
    ensures var ev := Run(events, schedule).events[e];
            var ev' := Do(Run(events, schedule), a).events[e];
            && ev.lastReady <= ev.enqueueCount == |ev.marks|
            && (ev.enqueueCount > 0 ==> ev.future == ev.marks[ev.enqueueCount - 1])
            && ev.lastReady <= ev'.lastReady && ev.enqueueCount <= ev'.enqueueCount && ev.marks <= ev'.marks
  {
    RunInv(events, schedule);
    var s := Run(events, schedule);
    assert EventOk(s, e);
    if a.Step? && AtHead(s, a.id) { StepEffect(s, a.id); }
  }

  /** All tasks enqueued into the queue of task `id` before it are finished. */
  ghost predicate AllBefore(s: State, id: nat)
    requires id < |s.tasks|
  {
    forall j: nat :: j < id && s.tasks[j].queue == s.tasks[id].queue ==> s.tasks[j].phase.Finished?
  }

  /** wait(c) has returned. */
  predicate Returned(s: State, w: nat)
  {
    w < |s.tasks| && s.tasks[w].kind.Wait? && (s.tasks[w].phase.BodyDone? || s.tasks[w].phase.Finished?)
  }

  /** A wait for the c-th enqueue returns only after the k-th enqueue is complete for some k >= c. */
  lemma WaitReturns(events: nat, schedule: seq<Action>, w: nat) returns (k: nat)
    requires Returned(Run(events, schedule), w) && Run(events, schedule).tasks[w].kind.count > 0
    ensures var s := Run(events, schedule);
            var (e, c) := (s.tasks[w].kind.event, s.tasks[w].kind.count);
            && e < events && c <= k <= |s.events[e].marks|
            && MarkReached(s, s.events[e].marks[k - 1])
            && (s.events[e].marks[k - 1].Of? ==> AllBefore(s, s.events[e].marks[k - 1].id))
  {
    RunInv(events, schedule);
    var s := Run(events, schedule);
    assert TaskOk(s, w);
    var e := s.tasks[w].kind.event;
    assert EventOk(s, e);
    k := s.events[e].lastReady;
  }

  /** Every enqueue of the event went to queue q. */
  ghost predicate OnlyIn(s: State, e: nat, q: nat)
    requires e < |s.events|
  {
    forall k :: 0 <= k < |s.events[e].marks| ==>
                  var f := s.events[e].marks[k];
                  f.Of? && f.id < |s.tasks| && s.tasks[f.id].queue == q
  }

  /** If all enqueues of an event go to one queue, a wait for the c-th of them returns only after every
      task enqueued into that queue before it is finished.  For an event enqueued once, this is what
      waiting for a whole queue means. */
  lemma WaitInOneQueue(events: nat, schedule: seq<Action>, w: nat, q: nat)
    requires Returned(Run(events, schedule), w) && Run(events, schedule).tasks[w].kind.count > 0
    requires Run(events, schedule).tasks[w].kind.event < events
    requires OnlyIn(Run(events, schedule), Run(events, schedule).tasks[w].kind.event, q)
    ensures var s := Run(events, schedule);
            var (e, c) := (s.tasks[w].kind.event, s.tasks[w].kind.count);
            && c <= |s.events[e].marks| && s.events[e].marks[c - 1].Of? && s.events[e].marks[c - 1].id < |s.tasks|
            && AllBefore(s, s.events[e].marks[c - 1].id)
  {
    RunInv(events, schedule);
    var s := Run(events, schedule);
    var k := WaitReturns(events, schedule, w);
    var e := s.tasks[w].kind.event;
    assert EventOk(s, e);
  }

  /** Each pass of the waiting loop makes progress: the future that a wait follows is that of its own
      enqueue or of a later one, and once it is ready the wait is over or the event has been enqueued
      again after it. */
  lemma EveryPassProgresses(s: State, w: nat) returns (k: nat)
    requires Inv(s) && w < |s.tasks| && s.tasks[w].kind.Wait? && s.tasks[w].phase.Blocked?
    requires FutureReady(s, s.tasks[w].phase.f)
    ensures s.tasks[w].kind.event < |s.events|
    ensures var ev := s.events[s.tasks[w].kind.event];
            && s.tasks[w].kind.count <= k <= |ev.marks| && k > 0 && ev.marks[k - 1] == s.tasks[w].phase.f
            && (WaitNext(ev, s.tasks[w].kind.count) == BodyDone || k < ev.enqueueCount)
  {
    var t := s.tasks[w];
    assert TaskOk(s, w) && EventOk(s, t.kind.event);
    var ev := s.events[t.kind.event];
    var i :| t.kind.count <= i + 1 <= |ev.marks| && i >= 0 && ev.marks[i] == t.phase.f;
    k := i + 1;
    if t.phase.f.Of? { assert TaskOk(s, t.phase.f.id); }
  }

  // ---------- freedom from deadlock

  /** What holds as long as events are enqueued only when they are ready. */
  ghost predicate Prompt(s: State)
  {
    && (forall e: nat :: e < |s.events| ==>
          s.events[e].lastReady <= s.events[e].enqueueCount <= s.events[e].lastReady + 1)
    && (forall id: nat :: id < |s.tasks| && s.tasks[id].kind.Wait? && s.tasks[id].phase.Blocked? ==>
                            BlockedOnOwn(s, id))
  }

  /** A blocked wait for the c-th enqueue follows the future of exactly that enqueue. */
  ghost predicate BlockedOnOwn(s: State, id: nat)
    requires id < |s.tasks| && s.tasks[id].kind.Wait? && s.tasks[id].phase.Blocked?
  {
    var (e, c) := (s.tasks[id].kind.event, s.tasks[id].kind.count);
    e < |s.events| && 1 <= c <= |s.events[e].marks| && s.events[e].marks[c - 1] == s.tasks[id].phase.f
  }

  lemma PromptBlocked(s: State, a: Action, id: nat)
    requires Inv(s) && Prompt(s) && !a.Step? && id < |Do(s, a).tasks|
    requires Do(s, a).tasks[id].kind.Wait? && Do(s, a).tasks[id].phase.Blocked?
    ensures BlockedOnOwn(Do(s, a), id)
  {
    assert id < |s.tasks| && s.tasks[id] == Do(s, a).tasks[id];
    assert TaskOk(s, id) && BlockedOnOwn(s, id);
    assert EventOk(s, s.tasks[id].kind.event);
  }

  lemma PromptStepBlocked(s: State, i: nat, id: nat)
    requires Inv(s) && Prompt(s) && AtHead(s, i) && id < |s.tasks|
    requires s.tasks[id].kind.Wait? && StepTask(s, i).tasks[id].phase.Blocked?
    ensures BlockedOnOwn(StepTask(s, i), id)
  {
    StepEffect(s, i);
    assert TaskOk(s, id) && EventOk(s, s.tasks[id].kind.event);
    if s.tasks[id].phase.Blocked? { assert BlockedOnOwn(s, id); }
  }

  lemma PromptStep(s: State, a: Action)
    requires Inv(s) && Prompt(s) && !Do(s, a).renewed
    ensures Prompt(Do(s, a))
  {
    var s' := Do(s, a);
    forall id: nat | id < |s'.tasks| && s'.tasks[id].kind.Wait? && s'.tasks[id].phase.Blocked?
      ensures BlockedOnOwn(s', id)
    {
      if a.Step? {
        if AtHead(s, a.id) { StepEffect(s, a.id); PromptStepBlocked(s, a.id, id); } else { assert BlockedOnOwn(s, id); }
      } else {
        PromptBlocked(s, a, id);
      }
    }
    if a.Step? && AtHead(s, a.id) { StepEffect(s, a.id); }
  }

  lemma {:induction false} PromptRun(events: nat, schedule: seq<Action>)
    requires !Run(events, schedule).renewed
    ensures Inv(Run(events, schedule)) && Prompt(Run(events, schedule))
  {
    RunInv(events, schedule);
    if schedule != [] {
      var before := schedule[..|schedule| - 1];
      RunInv(events, before);
      PromptRun(events, before);
      PromptStep(Run(events, before), schedule[|schedule| - 1]);
    }
  }

  /** If events are enqueued only when they are ready, then for any number of queues, markers and waits
      the earliest unfinished task can take a step: no set of queues ever waits in a circle. */
  lemma EarliestCanProceed(events: nat, schedule: seq<Action>, id: nat)
    requires !Run(events, schedule).renewed
    requires var s := Run(events, schedule);
             id < |s.tasks| && !s.tasks[id].phase.Finished? && forall j: nat :: j < id ==> s.tasks[j].phase.Finished?
    ensures Do(Run(events, schedule), Step(id)) != Run(events, schedule)
  {
    PromptRun(events, schedule);
    var s := Run(events, schedule);
    assert TaskOk(s, id) && AtHead(s, id);
    if s.tasks[id].phase.Blocked? { assert BlockedOnOwn(s, id); }
    assert Do(s, Step(id)).tasks[id] != s.tasks[id];
  }

  /** Under the same hypothesis a wait loops at most once: when its future is ready, it is over. */
  lemma OnePassSuffices(events: nat, schedule: seq<Action>, w: nat)
    requires !Run(events, schedule).renewed
    requires var s := Run(events, schedule);
             w < |s.tasks| && s.tasks[w].kind.Wait? && s.tasks[w].phase.Blocked? && FutureReady(s, s.tasks[w].phase.f)
    ensures var s := Run(events, schedule);
            s.tasks[w].kind.event < events && s.tasks[w].kind.count <= s.events[s.tasks[w].kind.event].lastReady
  {
    PromptRun(events, schedule);
    var s := Run(events, schedule);
    var t := s.tasks[w];
    assert TaskOk(s, w) && EventOk(s, t.kind.event) && BlockedOnOwn(s, w);
    if t.phase.f.Of? { assert TaskOk(s, t.phase.f.id); }
  }

  lemma RunAppend(events: nat, schedule: seq<Action>, a: Action) returns (longer: seq<Action>)
    ensures longer == schedule + [a]
    ensures Run(events, longer) == Do(Run(events, schedule), a)
  {
    longer := schedule + [a];
    assert longer[..|schedule|] == schedule;
  }
}
