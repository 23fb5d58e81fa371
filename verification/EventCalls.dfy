/**
What the calls of the event functions of include/alpaka/event/EventGenericThreads.hpp promise their
callers, stated in terms of the calls made so far.
*/
module EventCalls {
  import opened Events
  import opened EventPromise
  import opened EventDeadlock

  /** The call enqueues event e. */
  predicate Enqueues(a: Action, e: nat)
  {
    (a.AddMarker? || a.AddBlocking?) && a.e == e
  }

  /** How often event e has been enqueued. */
  function EnqueuesOf(schedule: seq<Action>, e: nat): nat
  {
    if schedule == [] then 0
    else EnqueuesOf(schedule[..|schedule| - 1], e) + if Enqueues(schedule[|schedule| - 1], e) then 1 else 0
  }

  lemma {:induction false} EnqueuesCounted(events: nat, schedule: seq<Action>, e: nat)
    requires e < events
    ensures Run(events, schedule).events[e].enqueueCount == EnqueuesOf(schedule, e)
  {
    if schedule != [] {
      var s, a := Run(events, schedule[..|schedule| - 1]), schedule[|schedule| - 1];
      EnqueuesCounted(events, schedule[..|schedule| - 1], e);
      if a.Step? && AtHead(s, a.id) { StepEffect(s, a.id); }
    }
  }

  /** The call waits for event e in queue q, or as host thread q. */
  predicate Waits(a: Action, q: nat, e: nat)
  {
    a == AddWait(q, e) || a == AddHostWait(q, e)
  }

  /** A call that waits makes one new wait of its own queue or host thread, for all the enqueues of the event
      made so far; while one of them is pending that wait is outstanding. Only wait(queue, event) for a
      ready event makes none. */
  lemma CallWaits(events: nat, schedule: seq<Action>, a: Action, q: nat, e: nat)
    requires e < events && Waits(a, q, e)
    ensures var s, w := Run(events, schedule), |Run(events, schedule).tasks|;
            if a.AddWait? && IsReady(s.events[e]) then Do(s, a) == s
            else
              var s' := Do(s, a);
              && |s'.tasks| == w + 1 && s'.tasks[..w] == s.tasks && s'.events == s.events
              && Open(s', w) && s'.tasks[w].queue == q && s'.tasks[w].kind == Wait(e, EnqueuesOf(schedule, e))
              && (!IsReady(s.events[e]) ==> Outstanding(s', w, e))
  {
    RunInv(events, schedule);
    EnqueuesCounted(events, schedule, e);
    assert EventOk(Run(events, schedule), e);
  }

  // ---------- what a run adds to

  /** Tasks stay where they are and stay finished, and events keep their enqueues. */
  ghost predicate Grows(s: State, s': State)
  {
    && |s.tasks| <= |s'.tasks| && |s.events| == |s'.events|
    && (forall i: nat :: i < |s.tasks| ==> Stays(s.tasks[i], s'.tasks[i]))
    && (forall e: nat :: e < |s.events| ==> s.events[e].marks <= s'.events[e].marks)
  }

  predicate Stays(t: Task, t': Task)
  {
    t'.queue == t.queue && t'.kind == t.kind && (t.phase.Finished? ==> t'.phase.Finished?)
  }

  lemma StepGrows(s: State, a: Action)
    ensures Grows(s, Do(s, a))
  {
    if a.Step? && AtHead(s, a.id) { StepEffect(s, a.id); }
  }

  lemma GrowsOn(s: State, s': State, s'': State)
    requires Grows(s, s') && Grows(s', s'')
    ensures Grows(s, s'')
  {
    forall i: nat | i < |s.tasks| ensures Stays(s.tasks[i], s''.tasks[i]) {
      assert Stays(s.tasks[i], s'.tasks[i]) && Stays(s'.tasks[i], s''.tasks[i]);
    }
  }

  lemma {:induction false} RunGrows(events: nat, schedule: seq<Action>, k: nat)
    requires k <= |schedule|
    ensures Grows(Run(events, schedule[..k]), Run(events, schedule))
    decreases |schedule|
  {
    if k == |schedule| {
      assert schedule[..k] == schedule;
    } else {
      var before := schedule[..|schedule| - 1];
      RunGrows(events, before, k);
      assert before[..k] == schedule[..k];
      StepGrows(Run(events, before), schedule[|schedule| - 1]);
      GrowsOn(Run(events, schedule[..k]), Run(events, before), Run(events, schedule));
    }
  }

  lemma {:induction false} SteadyBefore(events: nat, schedule: seq<Action>, k: nat)
    requires AllSteady(events, schedule) && k <= |schedule|
    ensures AllSteady(events, schedule[..k])
    decreases |schedule|
  {
    if k == |schedule| {
      assert schedule[..k] == schedule;
    } else {
      var before := schedule[..|schedule| - 1];
      SteadyBefore(events, before, k);
      assert before[..k] == schedule[..k];
    }
  }

  // ---------- the promise of a wait, call by call

  /** Call number l enqueues event e into the non-blocking queue p, and no later one enqueues e. */
  ghost predicate LatestEnqueue(schedule: seq<Action>, l: nat, p: nat, e: nat)
  {
    && l < |schedule| && schedule[l] == AddMarker(p, e)
    && forall i: nat :: l < i < |schedule| ==> !Enqueues(schedule[i], e)
  }

  /** The number of the marker task that call number l makes. */
  function MarkerOf(events: nat, schedule: seq<Action>, l: nat): nat
    requires l < |schedule|
  {
    |Run(events, schedule[..l]).tasks|
  }

  ghost predicate MarkedLast(s: State, e: nat, p: nat, marker: nat)
  {
    && e < |s.events| && |s.events[e].marks| > 0 && s.events[e].marks[|s.events[e].marks| - 1] == Of(marker)
    && marker < |s.tasks| && s.tasks[marker].queue == p
  }

  lemma OtherKeepsMark(s: State, a: Action, e: nat, p: nat, marker: nat)
    requires MarkedLast(s, e, p, marker) && !Enqueues(a, e)
    ensures MarkedLast(Do(s, a), e, p, marker)
  {
    StepGrows(s, a);
    assert Stays(s.tasks[marker], Do(s, a).tasks[marker]);
    if a.Step? && AtHead(s, a.id) { StepEffect(s, a.id); }
  }

  /** Its future is the latest that the event has. */
  lemma {:induction false} LatestMark(events: nat, schedule: seq<Action>, l: nat, p: nat, e: nat)
    requires e < events && LatestEnqueue(schedule, l, p, e)
    ensures MarkedLast(Run(events, schedule), e, p, MarkerOf(events, schedule, l))
    decreases |schedule|
  {
    var before, a := schedule[..|schedule| - 1], schedule[|schedule| - 1];
    if l == |before| {
      assert schedule[..l] == before;
    } else {
      assert forall i: nat :: l < i < |before| ==> before[i] == schedule[i];
      LatestMark(events, before, l, p, e);
      assert before[..l] == schedule[..l];
      assert !Enqueues(schedule[|schedule| - 1], e);
      OtherKeepsMark(Run(events, before), a, e, p, MarkerOf(events, before, l));
    }
  }

  /** Everything that is in queue q by then is finished. */
  predicate AllDone(s: State, q: nat, tasks: nat)
  {
    forall j: nat :: j < tasks && j < |s.tasks| && s.tasks[j].queue == q ==> s.tasks[j].phase.Finished?
  }

  /** A ready event keeps its promise at once. */
  lemma ReadyMeansDone(s: State, e: nat, p: nat, marker: nat)
    requires Inv(s) && MarkedLast(s, e, p, marker) && EventSteady(s, e) && IsReady(s.events[e])
    ensures AllDone(s, p, marker)
  {
    assert EventOk(s, e);
    var marks := s.events[e].marks;
    assert MarkReached(s, marks[|marks| - 1]);
    assert Begun(s.tasks[marker]);
  }

  /** A wait for the latest of the enqueues before it that has returned in a later state has kept its
      promise there. */
  lemma ReturnedMeansDone(s: State, s': State, w: nat, e: nat, p: nat, marker: nat)
    requires MarkedLast(s, e, p, marker) && Grows(s, s') && Kept(s', w) && Returned(s', w)
    requires s'.tasks[w].kind == Wait(e, |s.events[e].marks|)
    ensures AllDone(s', p, marker)
  {
    var marks, marks' := s.events[e].marks, s'.events[e].marks;
    assert marks <= marks' && marks'[|marks| - 1] == Of(marker);
    assert Stays(s.tasks[marker], s'.tasks[marker]);
    assert AllBefore(s', marker);
  }

  lemma DonePersists(s: State, s': State, q: nat, tasks: nat)
    requires AllDone(s, q, tasks) && Grows(s, s') && tasks <= |s.tasks|
    ensures AllDone(s', q, tasks)
  {
    forall j: nat | j < tasks && s'.tasks[j].queue == q ensures s'.tasks[j].phase.Finished? {
      assert Stays(s.tasks[j], s'.tasks[j]);
    }
  }

  /** As long as pending events stay in their queues: when a queue or a host thread is past a call that waits
      for event e, everything that was in the queue of the latest enqueue of e before that call, when that
      enqueue was made, is finished. */
  lemma CallKeepsPromise(events: nat, schedule: seq<Action>, l: nat, p: nat, k: nat, q: nat, e: nat)
    requires AllSteady(events, schedule) && e < events && k < |schedule|
    requires LatestEnqueue(schedule[..k], l, p, e) && Waits(schedule[k], q, e)
    requires AllDone(Run(events, schedule), q, |Run(events, schedule[..k + 1]).tasks|)
    ensures AllDone(Run(events, schedule), p, MarkerOf(events, schedule, l))
  {
    var before := schedule[..k];
    var s, s' := Run(events, before), Run(events, schedule);
    assert before[..l] == schedule[..l] && schedule[..k + 1][..k] == before;
    LatestMark(events, before, l, p, e);
    RunInv(events, before);
    RunGrows(events, schedule, k);
    if schedule[k].AddWait? && IsReady(s.events[e]) {
      SteadyBefore(events, schedule, k);
      SteadyRun(events, before);
      ReadyMeansDone(s, e, p, MarkerOf(events, before, l));
      DonePersists(s, s', p, MarkerOf(events, before, l));
    } else {
      WaitIsOver(events, schedule, k, q, e);
      SteadyRunsKeepPromise(events, schedule);
      ReturnedMeansDone(s, s', |s.tasks|, e, p, MarkerOf(events, before, l));
    }
  }

  /** The wait that the call has made has returned when its queue is past the call. */
  lemma WaitIsOver(events: nat, schedule: seq<Action>, k: nat, q: nat, e: nat)
    requires e < events && k < |schedule| && Waits(schedule[k], q, e)
    requires !(schedule[k].AddWait? && IsReady(Run(events, schedule[..k]).events[e]))
    requires AllDone(Run(events, schedule), q, |Run(events, schedule[..k + 1]).tasks|)
    ensures var s, s' := Run(events, schedule[..k]), Run(events, schedule);
            Returned(s', |s.tasks|) && s'.tasks[|s.tasks|].kind == Wait(e, |s.events[e].marks|)
  {
    var s := Run(events, schedule[..k]);
    assert schedule[..k + 1][..k] == schedule[..k];
    CallWaits(events, schedule[..k], schedule[k], q, e);
    RunInv(events, schedule[..k]);
    assert EventOk(s, e);
    EnqueuesCounted(events, schedule[..k], e);
    RunGrows(events, schedule, k + 1);
    assert Stays(Run(events, schedule[..k + 1]).tasks[|s.tasks|], Run(events, schedule).tasks[|s.tasks|]);
  }
}
