/**
When the queues of the event protocol can finish (include/alpaka/event/EventGenericThreads.hpp): the
relation of who needs whom, and the enqueues that close a circle in it.
*/
module EventDeadlock {
  import opened Finite
  import opened Events

  predicate Open(s: State, i: nat)
  {
    i < |s.tasks| && !s.tasks[i].phase.Finished?
  }

  /** An unfinished wait for event e that the event has not reached yet. */
  predicate Outstanding(s: State, w: nat, e: nat)
  {
    && Open(s, w) && s.tasks[w].kind.Wait? && s.tasks[w].kind.event == e
    && e < |s.events| && s.tasks[w].kind.count > s.events[e].lastReady
  }

  /** Task i cannot finish before task j: j is before i in the same queue, or i is blocked on j's
      future, or i waits for an event whose latest marker is j. */
  predicate Needs(s: State, i: nat, j: nat)
  {
    && Open(s, i) && Open(s, j)
    && (|| (j < i && s.tasks[j].queue == s.tasks[i].queue)
        || (s.tasks[i].phase.Blocked? && s.tasks[i].phase.f == Of(j))
        || WaitsFor(s, i, j))
  }

  predicate WaitsFor(s: State, i: nat, j: nat)
    requires i < |s.tasks|
  {
    s.tasks[i].kind.Wait? && Outstanding(s, i, s.tasks[i].kind.event) && s.events[s.tasks[i].kind.event].future == Of(j)
  }

  ghost predicate Path(s: State, p: seq<nat>)
  {
    |p| > 0 && forall k :: 0 <= k < |p| - 1 ==> Needs(s, p[k], p[k + 1])
  }

  ghost predicate Cycle(s: State, p: seq<nat>)
  {
    Path(s, p) && Needs(s, p[|p| - 1], p[0])
  }

  ghost predicate Cyclic(s: State)
  {
    exists p :: Cycle(s, p)
  }

  predicate AllFinished(s: State)
  {
    forall i: nat :: i < |s.tasks| ==> !Open(s, i)
  }

  /** The workers take steps of the tasks `ids`, in that order. */
  function After(s: State, ids: seq<nat>): State
    decreases |ids|
  {
    if ids == [] then s else After(Do(s, Step(ids[0])), ids[1..])
  }

  function Steps(ids: seq<nat>): seq<Action>
  {
    seq(|ids|, k requires 0 <= k < |ids| => Step(ids[k]))
  }

  lemma {:induction false} RunAfter(events: nat, schedule: seq<Action>, ids: seq<nat>)
    ensures Run(events, schedule + Steps(ids)) == After(Run(events, schedule), ids)
    decreases |ids|
  {
    if ids == [] {
      assert schedule + Steps(ids) == schedule;
    } else {
      var longer := schedule + [Step(ids[0])];
      assert longer[..|schedule|] == schedule;
      RunAfter(events, longer, ids[1..]);
      assert schedule + Steps(ids) == longer + Steps(ids[1..]);
    }
  }

  // ---------- a circle stays

  /** The latest marker of an event that some wait is waiting for has not run. */
  lemma LatestMarker(s: State, w: nat, e: nat)
    requires Inv(s) && Outstanding(s, w, e)
    ensures var f := s.events[e].future;
            && f.Of? && Open(s, f.id)
            && s.tasks[f.id] == Task(s.tasks[f.id].queue, Marker(e, s.events[e].enqueueCount), Pending)
  {
    assert TaskOk(s, w) && EventOk(s, e);
    var f := s.events[e].future;
    assert f.Of? ==> TaskOk(s, f.id);
  }

  /** A task that needs another one can only move on to the next pass of its waiting loop. */
  lemma NeedyStep(s: State, i: nat, j: nat)
    requires Inv(s) && Needs(s, i, j)
    ensures var s' := Do(s, Step(i)); s'.events == s.events && Needs(s', i, j)
    ensures forall k: nat :: k != i && k < |s.tasks| ==> Do(s, Step(i)).tasks[k] == s.tasks[k]
    ensures |Do(s, Step(i)).tasks| == |s.tasks| && Do(s, Step(i)).tasks[i].queue == s.tasks[i].queue
    ensures Do(s, Step(i)).tasks[i].kind == s.tasks[i].kind
  {
    if AtHead(s, i) {
      assert TaskOk(s, i);
      if s.tasks[i].kind.Wait? { assert EventOk(s, s.tasks[i].kind.event); }
      if WaitsFor(s, i, j) { LatestMarker(s, i, s.tasks[i].kind.event); }
    }
  }

  lemma NeedStays(s: State, id: nat, i: nat, j: nat, k: nat)
    requires Inv(s) && Needs(s, i, j) && Needs(s, j, k)
    ensures Needs(Do(s, Step(id)), i, j)
  {
    if id == j {
      NeedyStep(s, j, k);
    } else if id == i {
      NeedyStep(s, i, j);
    } else if AtHead(s, id) {
      StepEffect(s, id);
      assert TaskOk(s, id);
      if WaitsFor(s, i, j) { assert EventOk(s, s.tasks[i].kind.event); }
    }
  }

  lemma CycleStays(s: State, id: nat, p: seq<nat>)
    requires Inv(s) && Cycle(s, p)
    ensures Cycle(Do(s, Step(id)), p)
  {
    var n := |p| - 1;
    forall k | 0 <= k < n ensures Needs(Do(s, Step(id)), p[k], p[k + 1]) {
      NeedStays(s, id, p[k], p[k + 1], if k + 1 < n then p[k + 2] else p[0]);
    }
    NeedStays(s, id, p[n], p[0], if n > 0 then p[1] else p[0]);
  }

  lemma {:induction false} CycleStaysAfter(s: State, ids: seq<nat>, p: seq<nat>)
    requires Inv(s) && Cycle(s, p)
    ensures Cycle(After(s, ids), p)
    decreases |ids|
  {
    if ids != [] {
      CycleStays(s, ids[0], p);
      StepInv(s, Step(ids[0]));
      CycleStaysAfter(Do(s, Step(ids[0])), ids[1..], p);
    }
  }

  // ---------- without a circle everything can finish

  /** Steps add nothing to the relation. */
  lemma NeedsShrink(s: State, id: nat, i: nat, j: nat)
    requires Inv(s) && Needs(Do(s, Step(id)), i, j)
    ensures Needs(s, i, j)
  {
    if AtHead(s, id) {
      StepEffect(s, id);
      assert TaskOk(s, id);
      if s.tasks[id].kind.Marker? { assert EventOk(s, s.tasks[id].kind.event); }
    }
  }

  lemma CyclicShrinks(s: State, id: nat)
    requires Inv(s) && Cyclic(Do(s, Step(id)))
    ensures Cyclic(s)
  {
    var p :| Cycle(Do(s, Step(id)), p);
    forall k | 0 <= k < |p| - 1 ensures Needs(s, p[k], p[k + 1]) { NeedsShrink(s, id, p[k], p[k + 1]); }
    NeedsShrink(s, id, p[|p| - 1], p[0]);
    assert Cycle(s, p);
  }

  ghost predicate Free(s: State, i: nat)
  {
    Open(s, i) && forall j: nat :: !Needs(s, i, j)
  }

  /** Following the relation without a circle ends at a task that needs nobody. */
  lemma {:induction false} Walk(s: State, p: seq<nat>) returns (i: nat)
    requires !Cyclic(s) && Path(s, p) && Open(s, p[|p| - 1]) && Distinct(p)
    ensures Free(s, i)
    decreases |s.tasks| - |p|
  {
    var n := |p| - 1;
    forall k | 0 <= k < |p| ensures p[k] < |s.tasks| { assert k < n ==> Needs(s, p[k], p[k + 1]); }
    DistinctCovers(p, |s.tasks|);
    i := p[n];
    if j: nat :| Needs(s, i, j) {
      if j in p {
        var k :| 0 <= k <= n && p[k] == j;
        assert Cycle(s, p[k..]);
      } else {
        var longer := p + [j];
        forall k | 0 <= k < |longer| - 1 ensures Needs(s, longer[k], longer[k + 1]) {
          assert k < n ==> Needs(s, p[k], p[k + 1]);
        }
        DistinctCovers(longer, |s.tasks|);
        i := Walk(s, longer);
      }
    }
  }

  /** The steps that task i has left as long as nothing is enqueued: a wait that its event has not
      reached may have copied an older future, and then looks at the event once more. */
  function Rank(s: State, i: nat): (r: nat)
    requires i < |s.tasks|
    ensures r <= 6
  {
    var t := s.tasks[i];
    var again := if t.kind.Wait? && Outstanding(s, i, t.kind.event) then 3 else 0;
    match t.phase
    case Blocked(f) => if again > 0 && f == s.events[t.kind.event].future then 4 else 3 + again
    case Pending => 2 + again
    case BodyDone => 1
    case Finished => 0
  }

  function Ranks(s: State): (r: seq<nat>)
    ensures |r| == |s.tasks|
  {
    seq(|s.tasks|, i requires 0 <= i < |s.tasks| => Rank(s, i))
  }

  lemma OwnRankFalls(s: State, id: nat)
    requires Inv(s) && AtHead(s, id) && StepTask(s, id) != s
    ensures Rank(StepTask(s, id), id) < Rank(s, id)
  {
    StepEffect(s, id);
    assert TaskOk(s, id);
    var t := s.tasks[id];
    if t.kind.Wait? && Outstanding(s, id, t.kind.event) { LatestMarker(s, id, t.kind.event); }
  }

  lemma OtherRankStays(s: State, id: nat, i: nat)
    requires Inv(s) && AtHead(s, id) && i < |s.tasks| && i != id
    ensures Rank(StepTask(s, id), i) <= Rank(s, i)
  {
    StepEffect(s, id);
    assert TaskOk(s, id);
    if s.tasks[id].kind.Marker? { assert EventOk(s, s.tasks[id].kind.event); }
  }

  lemma StepPays(s: State, id: nat)
    requires Inv(s) && Do(s, Step(id)) != s
    ensures Sum(Ranks(Do(s, Step(id)))) < Sum(Ranks(s))
  {
    var s' := StepTask(s, id);
    OwnRankFalls(s, id);
    StepEffect(s, id);
    forall i | 0 <= i < |s.tasks| ensures Ranks(s')[i] <= Ranks(s)[i] {
      if i != id { OtherRankStays(s, id, i); }
    }
    assert Ranks(s')[id] < Ranks(s)[id];
    SumMonotone(Ranks(s'), Ranks(s));
  }

  lemma FreeStep(s: State, i: nat)
    requires Inv(s) && Free(s, i)
    ensures Do(s, Step(i)) != s
  {
    assert AtHead(s, i) by {
      forall j: nat | j < i && s.tasks[j].queue == s.tasks[i].queue ensures s.tasks[j].phase.Finished? {
        assert !Needs(s, i, j);
      }
    }
    assert TaskOk(s, i);
    var t := s.tasks[i];
    if t.phase.Blocked? && t.phase.f.Of? {
      assert EventOk(s, t.kind.event);
      assert !Needs(s, i, t.phase.f.id);
    }
    assert Do(s, Step(i)).tasks[i] != t;
  }

  lemma {:induction false} CanFinish(s: State) returns (ids: seq<nat>)
    requires Inv(s) && !Cyclic(s)
    ensures AllFinished(After(s, ids))
    decreases Sum(Ranks(s))
  {
    if i: nat :| Open(s, i) {
      var free := Walk(s, [i]);
      FreeStep(s, free);
      StepPays(s, free);
      StepInv(s, Step(free));
      if Cyclic(Do(s, Step(free))) { CyclicShrinks(s, free); }
      var rest := CanFinish(Do(s, Step(free)));
      ids := [free] + rest;
      assert ids[1..] == rest;
    } else {
      ids := [];
    }
  }

  ghost predicate CanFinishWith(events: nat, schedule: seq<Action>, ids: seq<nat>)
  {
    AllFinished(Run(events, schedule + Steps(ids)))
  }

  /** From any reachable state the workers can finish all tasks exactly when nobody needs, through
      others, himself; for any number of events and queues. */
  lemma FinishesIffNoCycle(events: nat, schedule: seq<Action>)
    ensures (exists ids: seq<nat> :: CanFinishWith(events, schedule, ids)) <==> !Cyclic(Run(events, schedule))
  {
    var s := Run(events, schedule);
    RunInv(events, schedule);
    if Cyclic(s) {
      var p :| Cycle(s, p);
      forall ids: seq<nat> ensures !CanFinishWith(events, schedule, ids) {
        RunAfter(events, schedule, ids);
        CycleStaysAfter(s, ids, p);
        assert Open(After(s, ids), p[|p| - 1]);
      }
    } else {
      var ids := CanFinish(s);
      RunAfter(events, schedule, ids);
      assert CanFinishWith(events, schedule, ids);
    }
  }

  // ---------- however the workers are scheduled

  ghost predicate AtRest(s: State)
  {
    forall id: nat :: Do(s, Step(id)) == s
  }

  /** Nobody gets stuck on the way either: without a circle, unfinished tasks mean a step that counts. */
  lemma StuckMeansCycle(s: State)
    requires Inv(s) && !AllFinished(s) && AtRest(s)
    ensures Cyclic(s)
  {
    var i: nat :| Open(s, i);
    if !Cyclic(s) {
      var free := Walk(s, [i]);
      FreeStep(s, free);
    }
  }

  /** How many of these steps change the state. */
  function Moves(s: State, ids: seq<nat>): nat
    decreases |ids|
  {
    if ids == [] then 0
    else (if Do(s, Step(ids[0])) != s then 1 else 0) + Moves(Do(s, Step(ids[0])), ids[1..])
  }

  /** The waiting loops end: while nothing is enqueued the workers take at most six steps per task,
      with however many waits, and however the steps are interleaved. */
  lemma {:induction false} StepsAreBounded(s: State, ids: seq<nat>)
    requires Inv(s)
    ensures Moves(s, ids) + Sum(Ranks(After(s, ids))) <= Sum(Ranks(s)) <= 6 * |s.tasks|
    decreases |ids|
  {
    SumBound(Ranks(s), 6);
    if ids != [] {
      StepInv(s, Step(ids[0]));
      StepsAreBounded(Do(s, Step(ids[0])), ids[1..]);
      if Do(s, Step(ids[0])) != s { StepPays(s, ids[0]); }
    }
  }

  lemma {:induction false} AfterInv(s: State, ids: seq<nat>)
    requires Inv(s)
    ensures Inv(After(s, ids)) && (Cyclic(After(s, ids)) ==> Cyclic(s))
    decreases |ids|
  {
    if ids != [] {
      StepInv(s, Step(ids[0]));
      AfterInv(Do(s, Step(ids[0])), ids[1..]);
      if Cyclic(Do(s, Step(ids[0]))) { CyclicShrinks(s, ids[0]); }
    }
  }

  lemma {:induction false} Exhaust(s: State) returns (ids: seq<nat>)
    requires Inv(s)
    ensures AtRest(After(s, ids))
    decreases Sum(Ranks(s))
  {
    if id: nat :| Do(s, Step(id)) != s {
      StepInv(s, Step(id));
      StepPays(s, id);
      var rest := Exhaust(Do(s, Step(id)));
      ids := [id] + rest;
      assert ids[1..] == rest;
    } else {
      ids := [];
    }
  }

  /** So whatever order the workers choose, they end with all tasks finished, exactly if there is no
      circle. */
  lemma EveryOrderFinishesIffNoCycle(events: nat, schedule: seq<Action>)
    ensures var s := Run(events, schedule);
            (forall ids: seq<nat> :: AtRest(After(s, ids)) ==> AllFinished(After(s, ids))) <==> !Cyclic(s)
  {
    var s := Run(events, schedule);
    RunInv(events, schedule);
    if Cyclic(s) {
      var p :| Cycle(s, p);
      var ids := Exhaust(s);
      CycleStaysAfter(s, ids, p);
      assert Open(After(s, ids), p[|p| - 1]);
      assert !AllFinished(After(s, ids));
    } else {
      forall ids: seq<nat> | AtRest(After(s, ids)) ensures AllFinished(After(s, ids)) {
        AfterInv(s, ids);
        if !AllFinished(After(s, ids)) { StuckMeansCycle(After(s, ids)); }
      }
    }
  }

  // ---------- which enqueues close a circle

  /** The path leads from an unfinished task of queue q to an outstanding wait for event e. */
  ghost predicate LeadsToWait(s: State, q: nat, e: nat, p: seq<nat>)
  {
    Path(s, p) && Open(s, p[0]) && s.tasks[p[0]].queue == q && Outstanding(s, p[|p| - 1], e)
  }

  /** The event would be enqueued behind a task that needs, directly or through others, a wait for it. */
  ghost predicate ClosesCircle(s: State, a: Action)
  {
    a.AddMarker? && a.e < |s.events| && exists p :: LeadsToWait(s, a.q, a.e, p)
  }

  lemma OldNeeds(s: State, a: Action, i: nat, j: nat)
    requires !a.Step? && i < |s.tasks| && j < |s.tasks| && Needs(Do(s, a), i, j)
    ensures Needs(s, i, j)
  {
  }

  lemma FuturesAreOld(s: State)
    requires Inv(s)
    ensures forall e: nat :: e < |s.events| && s.events[e].enqueueCount > 0 && s.events[e].future.Of? ==>
                               s.events[e].future.id < |s.tasks|
    ensures forall i: nat :: i < |s.tasks| && s.tasks[i].phase.Blocked? && s.tasks[i].phase.f.Of? ==>
                               s.tasks[i].phase.f.id < |s.tasks|
    ensures forall i: nat :: i < |s.tasks| && s.tasks[i].kind.Wait? ==>
                               s.tasks[i].kind.event < |s.events|
                               && s.tasks[i].kind.count <= s.events[s.tasks[i].kind.event].enqueueCount
  {
    forall i: nat | i < |s.tasks| && s.tasks[i].kind.Wait?
      ensures s.tasks[i].kind.event < |s.events|
      ensures s.tasks[i].kind.count <= s.events[s.tasks[i].kind.event].enqueueCount
    {
      assert TaskOk(s, i) && EventOk(s, s.tasks[i].kind.event);
    }
    forall e: nat | e < |s.events| && s.events[e].enqueueCount > 0 && s.events[e].future.Of?
      ensures s.events[e].future.id < |s.tasks|
    {
      assert EventOk(s, e);
    }
    forall i: nat | i < |s.tasks| && s.tasks[i].phase.Blocked? && s.tasks[i].phase.f.Of?
      ensures s.tasks[i].phase.f.id < |s.tasks|
    {
      assert TaskOk(s, i);
      if s.tasks[i].kind.Wait? { assert EventOk(s, s.tasks[i].kind.event); }
    }
  }

  /** Only waits for the event need its new marker. */
  lemma NewNeeds(s: State, a: Action, i: nat)
    requires Inv(s) && !a.Step? && Needs(Do(s, a), i, |s.tasks|)
    ensures a.AddMarker? && i < |s.tasks| && Outstanding(s, i, a.e)
  {
    FuturesAreOld(s);
  }

  lemma OldCycle(s: State, a: Action, p: seq<nat>)
    requires !a.Step? && Cycle(Do(s, a), p) && |s.tasks| !in p
    ensures Cycle(s, p)
  {
    var n := |p| - 1;
    forall k | 0 <= k < n ensures Needs(s, p[k], p[k + 1]) {
      assert Needs(Do(s, a), p[k], p[k + 1]);
      OldNeeds(s, a, p[k], p[k + 1]);
    }
    OldNeeds(s, a, p[n], p[0]);
  }

  /** The part of a path before it first meets task n. */
  lemma {:induction false} Until(s: State, p: seq<nat>, n: nat) returns (m: nat)
    requires Path(s, p) && p[0] != n && p[|p| - 1] == n
    ensures 0 < m < |p| && p[m] == n && n !in p[..m]
    decreases |p|
  {
    m := |p| - 1;
    if n in p[..m] {
      var k :| 0 <= k < m && p[k] == n;
      m := Until(s, p[..k + 1], n);
      assert p[..k + 1][..m] == p[..m];
    }
  }

  /** A cycle read from behind its k-th member round to that member. */
  lemma Rotate(s: State, c: seq<nat>, k: nat) returns (round: seq<nat>)
    requires Cycle(s, c) && k < |c|
    ensures Path(s, round) && round[|round| - 1] == c[k] && Needs(s, c[k], round[0])
  {
    round := c[k + 1..] + c[..k + 1];
    forall i | 0 <= i < |round| - 1 ensures Needs(s, round[i], round[i + 1]) {
      var j := if k + 1 + i < |c| then k + 1 + i else k + 1 + i - |c|;
      assert j + 1 < |c| ==> Needs(s, c[j], c[j + 1]);
    }
    assert k + 1 < |c| ==> Needs(s, c[k], c[k + 1]);
  }

  lemma CircleLeadsToWait(s: State, a: Action, c: seq<nat>)
    requires Inv(s) && !a.Step? && Cycle(Do(s, a), c) && |s.tasks| in c
    ensures ClosesCircle(s, a)
  {
    var s', n := Do(s, a), |s.tasks|;
    var k :| 0 <= k < |c| && c[k] == n;
    var round := Rotate(s', c, k);
    if round[0] == n { NewNeeds(s, a, n); }
    var m := Until(s', round, n);
    PathToWait(s, a, round, m);
  }

  lemma PathToWait(s: State, a: Action, round: seq<nat>, m: nat)
    requires Inv(s) && !a.Step? && Path(Do(s, a), round) && Needs(Do(s, a), |s.tasks|, round[0])
    requires 0 < m < |round| && round[m] == |s.tasks| && |s.tasks| !in round[..m]
    ensures ClosesCircle(s, a)
  {
    var s', p := Do(s, a), round[..m];
    assert Needs(s', p[m - 1], round[m]);
    NewNeeds(s, a, p[m - 1]);
    forall i | 0 <= i < m - 1 ensures Needs(s, p[i], p[i + 1]) {
      assert Needs(s', round[i], round[i + 1]);
      OldNeeds(s, a, p[i], p[i + 1]);
    }
    assert LeadsToWait(s, a.q, a.e, p);
  }

  lemma KeptNeeds(s: State, q: nat, e: nat, i: nat, j: nat)
    requires e < |s.events| && Needs(s, i, j) && !Outstanding(s, i, e)
    ensures Needs(Do(s, AddMarker(q, e)), i, j)
  {
  }

  lemma {:induction false} WaitClosesCircle(s: State, q: nat, e: nat, p: seq<nat>)
    requires LeadsToWait(s, q, e, p)
    ensures Cyclic(Do(s, AddMarker(q, e)))
    decreases |p|
  {
    var n := |p| - 1;
    if k :| 0 <= k < n && Outstanding(s, p[k], e) {
      WaitClosesCircle(s, q, e, p[..k + 1]);
    } else {
      var s', c := Do(s, AddMarker(q, e)), p + [|s.tasks|];
      forall k | 0 <= k < n ensures Needs(s', p[k], p[k + 1]) { KeptNeeds(s, q, e, p[k], p[k + 1]); }
      assert WaitsFor(s', p[n], |s.tasks|);
      assert Cycle(s', c);
    }
  }

  /** Of all actions exactly such an enqueue turns a state without a circle into one with a circle. */
  lemma OneActionCloses(s: State, a: Action)
    requires Inv(s) && !Cyclic(s)
    ensures Cyclic(Do(s, a)) <==> ClosesCircle(s, a)
  {
    if a.Step? {
      if Cyclic(Do(s, a)) { CyclicShrinks(s, a.id); }
    } else if Cyclic(Do(s, a)) {
      var c :| Cycle(Do(s, a), c);
      if |s.tasks| in c { CircleLeadsToWait(s, a, c); } else { OldCycle(s, a, c); }
    } else if ClosesCircle(s, a) {
      var p :| LeadsToWait(s, a.q, a.e, p);
      WaitClosesCircle(s, a.q, a.e, p);
    }
  }

  ghost predicate CleanAt(events: nat, schedule: seq<Action>, k: nat)
    requires k <= |schedule|
  {
    !Cyclic(Run(events, schedule[..k]))
  }

  ghost predicate ClosesAt(events: nat, schedule: seq<Action>, k: nat)
    requires k < |schedule|
  {
    ClosesCircle(Run(events, schedule[..k]), schedule[k])
  }

  lemma NextMoment(events: nat, schedule: seq<Action>, k: nat)
    requires k < |schedule| && CleanAt(events, schedule, k)
    ensures CleanAt(events, schedule, k + 1) <==> !ClosesAt(events, schedule, k)
  {
    assert schedule[..k + 1][..k] == schedule[..k];
    RunInv(events, schedule[..k]);
    OneActionCloses(Run(events, schedule[..k]), schedule[k]);
  }

  lemma {:induction false} CleanUpTo(events: nat, schedule: seq<Action>, k: nat)
    requires k <= |schedule|
    ensures (forall i :: 0 <= i <= k ==> CleanAt(events, schedule, i))
       <==> (forall i :: 0 <= i < k ==> !ClosesAt(events, schedule, i))
  {
    if k == 0 {
      assert schedule[..0] == [];
      if p :| Cycle(Init(events), p) { assert Open(Init(events), p[|p| - 1]); }
    } else {
      CleanUpTo(events, schedule, k - 1);
      if CleanAt(events, schedule, k - 1) { NextMoment(events, schedule, k - 1); }
    }
  }

  /** A run is without a circle at every moment exactly when none of its enqueues closes one. */
  lemma NoCircleIffNoEnqueueCloses(events: nat, schedule: seq<Action>)
    ensures (forall k :: 0 <= k <= |schedule| ==> CleanAt(events, schedule, k))
       <==> (forall k :: 0 <= k < |schedule| ==> !ClosesAt(events, schedule, k))
  {
    CleanUpTo(events, schedule, |schedule|);
  }

  /** In particular no circle arises as long as an event is enqueued only when no unfinished wait is
      still waiting for it, be the event ready or not. */
  lemma NobodyWaits(s: State, a: Action)
    requires Inv(s) && a.AddMarker? && ClosesCircle(s, a)
    ensures exists w :: Outstanding(s, w, a.e)
    ensures !IsReady(s.events[a.e])
  {
    var p :| LeadsToWait(s, a.q, a.e, p);
    assert TaskOk(s, p[|p| - 1]) && EventOk(s, a.e);
  }

  /** Every enqueue of the run finds no unfinished wait still waiting for its event. */
  ghost predicate Careful(events: nat, schedule: seq<Action>)
  {
    forall k :: 0 <= k < |schedule| && schedule[k].AddMarker? ==> CarefulAt(events, schedule, k)
  }

  ghost predicate CarefulAt(events: nat, schedule: seq<Action>, k: nat)
    requires k < |schedule| && schedule[k].AddMarker?
  {
    forall w: nat :: !Outstanding(Run(events, schedule[..k]), w, schedule[k].e)
  }

  lemma CarefulNeverCloses(events: nat, schedule: seq<Action>, k: nat)
    requires Careful(events, schedule) && k < |schedule|
    ensures !ClosesAt(events, schedule, k)
  {
    RunInv(events, schedule[..k]);
    assert schedule[k].AddMarker? ==> CarefulAt(events, schedule, k);
    if ClosesAt(events, schedule, k) { NobodyWaits(Run(events, schedule[..k]), schedule[k]); }
  }

  lemma CarefulRunsFinish(events: nat, schedule: seq<Action>)
    requires Careful(events, schedule)
    ensures exists ids: seq<nat> :: CanFinishWith(events, schedule, ids)
  {
    forall k | 0 <= k < |schedule| ensures !ClosesAt(events, schedule, k) { CarefulNeverCloses(events, schedule, k); }
    NoCircleIffNoEnqueueCloses(events, schedule);
    assert CleanAt(events, schedule, |schedule|) && schedule[..|schedule|] == schedule;
    FinishesIffNoCycle(events, schedule);
  }

  /** A careful run may well enqueue an event that is not ready. */
  lemma CarefulMayRenew() returns (schedule: seq<Action>)
    ensures Careful(1, schedule) && Run(1, schedule).renewed
  {
    schedule := RunAppend(1, [], AddMarker(0, 0));
    schedule := RunAppend(1, schedule, AddMarker(0, 0));
    assert Run(1, [AddMarker(0, 0)]).tasks == [Task(0, Marker(0, 1), Pending)];
    assert schedule[..0] == [] && schedule[..1] == [AddMarker(0, 0)];
  }

  /** An event enqueued into the queue of an unfinished wait for it: whatever steps the workers take,
      that wait never finishes. */
  lemma WaitsForItself(s: State, q: nat, e: nat, w: nat, ids: seq<nat>)
    requires Inv(s) && Outstanding(s, w, e) && s.tasks[w].queue == q
    ensures Open(After(Do(s, AddMarker(q, e)), ids), w)
  {
    var s' := Do(s, AddMarker(q, e));
    StepInv(s, AddMarker(q, e));
    assert WaitsFor(s', w, |s.tasks|);
    assert Cycle(s', [w, |s.tasks|]);
    CycleStaysAfter(s', ids, [w, |s.tasks|]);
  }

  /** An event, a wait for it and the event again, all in queue 0. */
  lemma EnqueuedBehindWait() returns (schedule: seq<Action>)
    ensures var s := Run(1, schedule);
            && s.tasks == [Task(0, Marker(0, 1), Pending), Task(0, Wait(0, 1), Pending), Task(0, Marker(0, 2), Pending)]
            && |s.events| == 1 && s.events[0].enqueueCount == 2
            && s.events[0].lastReady == 0 && s.events[0].future == Of(2)
  {
    assert Init(1).events == [Event(0, 0, Ready, [])];
    schedule := RunAppend(1, [], AddMarker(0, 0));
    assert Run(1, schedule).events[0].marks == [Of(0)];
    schedule := RunAppend(1, schedule, AddWait(0, 0));
    schedule := RunAppend(1, schedule, AddMarker(0, 0));
  }

  /** The smallest such run: an event is enqueued again, in the same queue, behind a wait for it. */
  lemma RenewalCanDeadlock() returns (schedule: seq<Action>)
    ensures var s := Run(1, schedule);
            Cyclic(s) && !AllFinished(s) && forall id: nat :: Do(s, Step(id)) == s
  {
    schedule := EnqueuedBehindWait();
    schedule := RunAppend(1, schedule, Step(0));
    schedule := RunAppend(1, schedule, Step(0));
    schedule := RunAppend(1, schedule, Step(1));
    var s := Run(1, schedule);
    assert s.tasks
        == [Task(0, Marker(0, 1), Finished), Task(0, Wait(0, 1), Blocked(Of(2))), Task(0, Marker(0, 2), Pending)];
    assert Open(s, 1);
    RunInv(1, schedule);
    StuckMeansCycle(s);
  }
}
