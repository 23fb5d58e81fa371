/**
What a wait for an event promises (include/alpaka/event/EventGenericThreads.hpp): everything that was
in the queue before the awaited enqueue is finished, provided that a pending event stays in its queue.
*/
module EventPromise {
  import opened Events

  /** If wait w, for the c-th enqueue of its event, has returned, all tasks that were in the queue
      before that enqueue are finished. A blocking queue has finished them when it enqueues. */
  ghost predicate Kept(s: State, w: nat)
  {
    Returned(s, w) && s.tasks[w].kind.count > 0 && s.tasks[w].kind.event < |s.events| ==>
      var (e, c) := (s.tasks[w].kind.event, s.tasks[w].kind.count);
      && c <= |s.events[e].marks|
      && (s.events[e].marks[c - 1].Of? ==>
            s.events[e].marks[c - 1].id < |s.tasks| && AllBefore(s, s.events[e].marks[c - 1].id))
  }

  ghost predicate PromiseKept(events: nat, schedule: seq<Action>)
  {
    forall w: nat :: Kept(Run(events, schedule), w)
  }

  /** A pending event is only enqueued into the queue in which it is pending, and never into a blocking
      queue; a ready event may go anywhere. */
  predicate Steady(s: State, a: Action)
  {
    match a
    case AddMarker(q, e) =>
      e < |s.events| && !IsReady(s.events[e]) ==>
        var f := s.events[e].future; f.Of? && f.id < |s.tasks| && s.tasks[f.id].queue == q
    case AddBlocking(e) => e < |s.events| ==> IsReady(s.events[e])
    case _ => true
  }

  predicate AllSteady(events: nat, schedule: seq<Action>)
  {
    schedule == [] || (AllSteady(events, schedule[..|schedule| - 1])
                       && Steady(Run(events, schedule[..|schedule| - 1]), schedule[|schedule| - 1]))
  }

  /** All enqueues up to the latest ready one are complete, and the pending ones are in one queue. */
  ghost predicate EventSteady(s: State, e: nat)
    requires e < |s.events|
  {
    var ev := s.events[e];
    && (forall k :: 0 <= k < ev.lastReady && k < |ev.marks| ==> MarkReached(s, ev.marks[k]))
    && (forall k :: ev.lastReady <= k < |ev.marks| ==>
                      && ev.marks[k].Of? && ev.future.Of? && ev.marks[k].id < |s.tasks| && ev.future.id < |s.tasks|
                      && s.tasks[ev.marks[k].id].queue == s.tasks[ev.future.id].queue)
  }

  lemma EventStaysSteady(s: State, a: Action, e: nat)
    requires Inv(s) && e < |s.events| && EventSteady(s, e) && Steady(s, a)
    ensures EventSteady(Do(s, a), e)
  {
    assert EventOk(s, e);
    match a {
      case Step(id) => if AtHead(s, id) { StepStaysSteady(s, id, e); }
      case AddMarker(_, _) => return;
      case AddBlocking(_) => return;
      case _ => return;
    }
  }

  /** Tasks that only move on in their queues, and events that stay. */
  lemma SteadyKept(s: State, s': State, e: nat)
    requires e < |s.events| == |s'.events| && s'.events[e] == s.events[e] && EventSteady(s, e)
    requires |s'.tasks| == |s.tasks|
    requires forall i: nat :: i < |s.tasks| ==> s'.tasks[i].queue == s.tasks[i].queue
    requires forall i: nat :: i < |s.tasks| && MarkReached(s, Of(i)) ==> MarkReached(s', Of(i))
    ensures EventSteady(s', e)
  {
    assert forall f :: MarkReached(s, f) ==> f.Ready? || (MarkReached(s, Of(f.id)) && MarkReached(s', f));
  }

  lemma MovesOn(s: State, id: nat)
    requires AtHead(s, id) && TaskOk(s, id)
    ensures var s' := StepTask(s, id);
            && |s'.tasks| == |s.tasks|
            && (forall i: nat :: i < |s.tasks| ==> s'.tasks[i].queue == s.tasks[i].queue)
            && forall i: nat :: i < |s.tasks| && MarkReached(s, Of(i)) ==> MarkReached(s', Of(i))
  {
    StepEffect(s, id);
  }

  /** The current marker completes all pending enqueues: they are before it in its queue. */
  lemma MarkerReachesAll(s: State, id: nat, e: nat)
    requires Inv(s) && AtHead(s, id) && e < |s.events| && EventSteady(s, e) && StepTask(s, id).events[e] != s.events[e]
    ensures EventSteady(StepTask(s, id), e)
  {
    StepEffect(s, id);
    MovesOn(s, id);
    assert TaskOk(s, id) && EventOk(s, e);
    var s', ev := StepTask(s, id), s.events[e];
    forall k | 0 <= k < |ev.marks| ensures MarkReached(s', ev.marks[k]) {
      if k < ev.lastReady {
        assert MarkReached(s, ev.marks[k]);
        assert ev.marks[k].Of? ==> MarkReached(s, Of(ev.marks[k].id));
      } else {
        assert ev.marks[k].id <= id;
      }
    }
  }

  lemma StepStaysSteady(s: State, id: nat, e: nat)
    requires Inv(s) && AtHead(s, id) && e < |s.events| && EventSteady(s, e)
    ensures EventSteady(StepTask(s, id), e)
  {
    StepEffect(s, id);
    if StepTask(s, id).events[e] == s.events[e] {
      MovesOn(s, id);
      SteadyKept(s, StepTask(s, id), e);
    } else {
      MarkerReachesAll(s, id, e);
    }
  }

  lemma {:induction false} SteadyRun(events: nat, schedule: seq<Action>)
    requires AllSteady(events, schedule)
    ensures forall e: nat :: e < events ==> EventSteady(Run(events, schedule), e)
  {
    if schedule != [] {
      var before, a := schedule[..|schedule| - 1], schedule[|schedule| - 1];
      SteadyRun(events, before);
      RunInv(events, before);
      forall e: nat | e < events ensures EventSteady(Run(events, schedule), e) {
        EventStaysSteady(Run(events, before), a, e);
      }
    }
  }

  /** Every wait of a run keeps its promise as long as pending events stay in their queues, for any
      number of events and queues. */
  lemma SteadyRunsKeepPromise(events: nat, schedule: seq<Action>)
    requires AllSteady(events, schedule)
    ensures PromiseKept(events, schedule)
  {
    var s := Run(events, schedule);
    SteadyRun(events, schedule);
    RunInv(events, schedule);
    forall w: nat ensures Kept(s, w) {
      if Returned(s, w) && s.tasks[w].kind.count > 0 && s.tasks[w].kind.event < events {
        assert TaskOk(s, w) && EventOk(s, s.tasks[w].kind.event) && EventSteady(s, s.tasks[w].kind.event);
      }
    }
  }

  /** In particular if events are enqueued only when they are ready. */
  lemma {:induction false} PromptIsSteady(events: nat, schedule: seq<Action>)
    requires !Run(events, schedule).renewed
    ensures AllSteady(events, schedule)
  {
    if schedule != [] { PromptIsSteady(events, schedule[..|schedule| - 1]); }
  }

  // ---------- what happens otherwise

  /** Wait w is about to look at its event, and task j, which was enqueued before the enqueue that w
      waits for and into the same queue, is unfinished. */
  predicate WaitsBehind(s: State, w: nat, j: nat)
  {
    && AtHead(s, w) && s.tasks[w].phase.Pending? && s.tasks[w].kind.Wait? && s.tasks[w].kind.event < |s.events|
    && var (ev, c) := (s.events[s.tasks[w].kind.event], s.tasks[w].kind.count);
       && ev.lastReady < c <= |ev.marks| && ev.marks[c - 1].Of? && ev.marks[c - 1].id < |s.tasks|
       && j < ev.marks[c - 1].id && s.tasks[j].queue == s.tasks[ev.marks[c - 1].id].queue && !s.tasks[j].phase.Finished?
  }

  /** The later of two enqueues in different queues releases a wait for the earlier one that is about to
      look at its event: if the event is enqueued into an idle queue, w returns two steps later although
      j is not finished. EventRelease says exactly when that happens, for busy queues and blocked waits too. */
  lemma EnqueueElsewhereBreaks(s: State, w: nat, j: nat, q: nat)
    requires Inv(s) && WaitsBehind(s, w, j)
    requires forall i: nat :: i < |s.tasks| && s.tasks[i].queue == q ==> s.tasks[i].phase.Finished?
    ensures !Steady(s, AddMarker(q, s.tasks[w].kind.event))
    ensures var s1 := Do(Do(s, AddMarker(q, s.tasks[w].kind.event)), Step(|s.tasks|));
            var s2 := Do(s1, Step(w));
            Returned(s2, w) && !Kept(s2, w)
  {
    var (e, n) := (s.tasks[w].kind.event, |s.tasks|);
    var (c, k) := (s.tasks[w].kind.count, s.events[e].marks[s.tasks[w].kind.count - 1].id);
    assert TaskOk(s, w) && EventOk(s, e) && TaskOk(s, k);
    var s0 := Do(s, AddMarker(q, e));
    assert AtHead(s0, n);
    var s1 := Do(s0, Step(n));
    assert s1.events[e].lastReady == s1.events[e].enqueueCount >= c;
    assert k < w && s.tasks[w].queue != s.tasks[k].queue;
    assert AtHead(s1, w);
    var s2 := Do(s1, Step(w));
    assert s2.tasks[w].phase.BodyDone? && s2.tasks[w].kind == s.tasks[w].kind && s2.tasks[j] == s.tasks[j];
    assert !AllBefore(s2, k);
    LatestIsPending(s, e);
  }

  /** The marker of a pending event's latest enqueue has not run. */
  lemma LatestIsPending(s: State, e: nat)
    requires Inv(s) && e < |s.events| && !IsReady(s.events[e])
    ensures var f := s.events[e].future; f.Of? && f.id < |s.tasks| && s.tasks[f.id].phase.Pending?
  {
    assert EventOk(s, e);
    var f := s.events[e].future;
    assert f.Of? ==> TaskOk(s, f.id);
  }

  /** An enqueue into a blocking queue releases such a wait at once. */
  lemma EnqueueBlockingBreaks(s: State, w: nat, j: nat)
    requires Inv(s) && WaitsBehind(s, w, j)
    ensures !Steady(s, AddBlocking(s.tasks[w].kind.event))
    ensures var s1 := Do(Do(s, AddBlocking(s.tasks[w].kind.event)), Step(w));
            Returned(s1, w) && !Kept(s1, w)
  {
    var (e, c) := (s.tasks[w].kind.event, s.tasks[w].kind.count);
    var k := s.events[e].marks[c - 1].id;
    assert TaskOk(s, w) && EventOk(s, e) && TaskOk(s, k);
    var s0 := Do(s, AddBlocking(e));
    assert AtHead(s0, w) && s0.events[e].lastReady >= c;
    assert k < w && s.tasks[w].queue != s.tasks[k].queue;
    var s1 := Do(s0, Step(w));
    assert s1.tasks[w].phase.BodyDone? && s1.tasks[w].kind == s.tasks[w].kind && s1.tasks[j] == s.tasks[j];
    assert !AllBefore(s1, k);
  }

  /** Work and then the event in queue a, and a wait by host thread h. */
  lemma BusyQueue(a: nat, h: nat) returns (schedule: seq<Action>)
    requires h != a
    ensures var s := Run(1, schedule);
            && WaitsBehind(s, 2, 0)
            && s.tasks == [Task(a, Work, Pending), Task(a, Marker(0, 1), Pending), Task(h, Wait(0, 1), Pending)]
  {
    assert Init(1).events == [Event(0, 0, Ready, [])];
    schedule := RunAppend(1, [], AddWork(a));
    schedule := RunAppend(1, schedule, AddMarker(a, 0));
    assert Run(1, schedule).events[0].marks == [Of(1)];
    schedule := RunAppend(1, schedule, AddHostWait(h, 0));
  }

  /** With any two queues there is a run in which the wait returns while the work before the event has
      not begun. */
  lemma TwoQueuesReturnEarly(a: nat, b: nat) returns (schedule: seq<Action>)
    requires a != b
    ensures !PromiseKept(1, schedule) && Run(1, schedule).tasks[0] == Task(a, Work, Pending)
  {
    schedule := BusyQueue(a, a + b + 1);
    RunInv(1, schedule);
    EnqueueElsewhereBreaks(Run(1, schedule), 2, 0, b);
    schedule := RunAppend(1, schedule, AddMarker(b, 0));
    schedule := RunAppend(1, schedule, Step(3));
    schedule := RunAppend(1, schedule, Step(2));
    assert !Kept(Run(1, schedule), 2);
  }

  /** The same with one non-blocking and one blocking queue. */
  lemma BlockingQueueReturnsEarly(a: nat) returns (schedule: seq<Action>)
    ensures !PromiseKept(1, schedule) && Run(1, schedule).tasks[0] == Task(a, Work, Pending)
  {
    schedule := BusyQueue(a, a + 1);
    RunInv(1, schedule);
    EnqueueBlockingBreaks(Run(1, schedule), 2, 0);
    schedule := RunAppend(1, schedule, AddBlocking(0));
    schedule := RunAppend(1, schedule, Step(2));
    assert !Kept(Run(1, schedule), 2);
  }
}
