/**
What a promise of the pool in include/alpaka/core/ConcurrentExecPool.hpp says about the body of its task:
a value or the body's own exception, as the body returned or threw in the run.
*/
module PoolOutcome {
  import opened Options
  import opened ExecPool

  /** The promise holds a value, or the worker is on its way to setting it. */
  predicate HasReturned(s: State, i: nat)
  {
    i in s.tasks && (s.tasks[i].Value? || (s.tasks[i].Running? && s.tasks[i].w < |s.workers|
                                           && s.workers[s.tasks[i].w] in {Decrement(i), SetValue(i)}))
  }

  predicate HasThrown(s: State, i: nat)
  {
    i in s.tasks && s.tasks[i].OwnException?
  }

  /** The action ends the body of task i in one way or the other, and that shows. */
  ghost predicate ShowsEnd(s: State, a: Action, i: nat)
    requires Shape(s)
  {
    && (HasReturned(Do(s, a), i) <==> HasReturned(s, i) || BodyEnds(s, a, i, true))
    && (HasThrown(Do(s, a), i) <==> HasThrown(s, i) || BodyEnds(s, a, i, false))
    && (BodyEnds(s, a, i, true) || BodyEnds(s, a, i, false) ==> !HasReturned(s, i) && !HasThrown(s, i))
  }

  lemma OwnWorkerShowsEnd(s: State, w: nat, ok: bool, i: nat)
    requires Shape(s) && w < |s.workers| && i in s.tasks && s.tasks[i] == Running(w) && Task(s.workers[w]) == Some(i)
    ensures ShowsEnd(s, Worker(w, ok), i)
  {
    match s.workers[w] {
      case RunBody(_) => return;
      case Decrement(_) => return;
      case SetValue(_) => return;
    }
  }

  /** A worker that is not busy with task i can at most start it. */
  lemma OtherWorkerEffect(s: State, w: nat, ok: bool, i: nat)
    requires Shape(s) && TasksOk(s) && w < |s.workers| && Task(s.workers[w]) != Some(i)
    ensures var s' := WorkerStep(s, w, ok);
            && Moved(s, s', w) && (i in s'.tasks <==> i in s.tasks)
            && (i in s.tasks && s'.tasks[i] != s.tasks[i] ==>
                  s.tasks[i].Queued? && s'.tasks[i] == Running(w) && s'.workers[w] == RunBody(i))
  {
    if Busy(s.workers[w]) { BusyEffect(s, w, ok); } else { IdleLock(s, w); }
  }

  lemma OtherWorkerShowsEnd(s: State, w: nat, ok: bool, i: nat)
    requires Inv(s) && w < |s.workers| && Task(s.workers[w]) != Some(i)
    ensures ShowsEnd(s, Worker(w, ok), i)
  {
    OtherWorkerEffect(s, w, ok, i);
    assert i in s.tasks && s.tasks[i].Running? ==> Task(s.workers[s.tasks[i].w]) == Some(i);
  }

  lemma WorkerShowsEnd(s: State, w: nat, ok: bool, i: nat)
    requires Inv(s) && w < |s.workers|
    ensures ShowsEnd(s, Worker(w, ok), i)
  {
    if Task(s.workers[w]) == Some(i) { OwnWorkerShowsEnd(s, w, ok, i); } else { OtherWorkerShowsEnd(s, w, ok, i); }
  }

  /** Whoever is not a worker touches neither a running task nor the workers that run one. */
  lemma OthersLeaveBodies(s: State, a: Action, i: nat)
    requires Inv(s) && !a.Worker?
    ensures var s' := Do(s, a);
            && (i in s.tasks && !s.tasks[i].Queued? ==> i in s'.tasks && s'.tasks[i] == s.tasks[i])
            && (i in s'.tasks && (i !in s.tasks || s.tasks[i].Queued?) ==>
                  s'.tasks[i].Queued? || s'.tasks[i].DestructionException?)
            && forall w: nat :: w < |s.workers| && Task(s.workers[w]).Some? ==> s'.workers[w] == s.workers[w]
  {
    if a.Push? { assert s.pushed !in s.tasks; }
  }

  lemma StepShowsEnd(s: State, a: Action, i: nat)
    requires Inv(s)
    ensures ShowsEnd(s, a, i)
  {
    if !a.Worker? {
      OthersLeaveBodies(s, a, i);
      assert i in s.tasks && s.tasks[i].Running? ==> Task(s.workers[s.tasks[i].w]) == Some(i);
    } else if a.w < |s.workers| {
      WorkerShowsEnd(s, a.w, a.ok, i);
    }
  }

  ghost predicate Ended(n: nat, wrap: nat, schedule: seq<Action>, i: nat, returned: bool)
    requires n >= 1 && wrap >= 2
  {
    exists k: nat :: BodyEndsAt(n, wrap, schedule, i, returned, k)
  }

  lemma EndedStep(n: nat, wrap: nat, schedule: seq<Action>, a: Action, i: nat, returned: bool)
    requires n >= 1 && wrap >= 2
    ensures Ended(n, wrap, schedule + [a], i, returned)
       <==> Ended(n, wrap, schedule, i, returned) || BodyEnds(Run(n, wrap, schedule), a, i, returned)
  {
    var longer := schedule + [a];
    assert longer[..|schedule|] == schedule;
    forall k: nat | k < |schedule|
      ensures BodyEndsAt(n, wrap, longer, i, returned, k) <==> BodyEndsAt(n, wrap, schedule, i, returned, k)
    {
      assert longer[..k] == schedule[..k];
    }
    if BodyEnds(Run(n, wrap, schedule), a, i, returned) {
      assert BodyEndsAt(n, wrap, longer, i, returned, |schedule|);
    }
  }

  /** The promises show which bodies have ended. */
  ghost predicate Shown(n: nat, wrap: nat, schedule: seq<Action>, i: nat)
    requires n >= 1 && wrap >= 2
  {
    && (HasReturned(Run(n, wrap, schedule), i) <==> Ended(n, wrap, schedule, i, true))
    && (HasThrown(Run(n, wrap, schedule), i) <==> Ended(n, wrap, schedule, i, false))
  }

  lemma ShownNext(n: nat, wrap: nat, schedule: seq<Action>, a: Action, i: nat)
    requires n >= 1 && wrap >= 2 && Shown(n, wrap, schedule, i)
    ensures Shown(n, wrap, schedule + [a], i)
  {
    RunInv(n, wrap, schedule);
    StepShowsEnd(Run(n, wrap, schedule), a, i);
    var longer := RunAppend(n, wrap, schedule, a);
    EndedStep(n, wrap, schedule, a, i, true);
    EndedStep(n, wrap, schedule, a, i, false);
  }

  lemma {:induction false} EndShows(n: nat, wrap: nat, schedule: seq<Action>, i: nat)
    requires n >= 1 && wrap >= 2
    ensures Shown(n, wrap, schedule, i)
  {
    if schedule != [] {
      var before := schedule[..|schedule| - 1];
      EndShows(n, wrap, before, i);
      ShownNext(n, wrap, before, schedule[|schedule| - 1], i);
      assert before + [schedule[|schedule| - 1]] == schedule;
    }
  }

  /** A promise holds its task's own exception exactly if the body threw in the run. It holds a value, and
      the task is counted off m_numActiveTasks, only if the body returned; and a body that returned has
      been given its value unless its worker is on the way there. */
  lemma OutcomeIsTheBodys(n: nat, wrap: nat, schedule: seq<Action>, i: nat)
    requires n >= 1 && wrap >= 2
    ensures var s := Run(n, wrap, schedule);
            && (i in s.tasks && s.tasks[i].OwnException? <==> Ended(n, wrap, schedule, i, false))
            && (i in s.tasks && s.tasks[i].Value? ==> Ended(n, wrap, schedule, i, true))
            && (i in s.past.counted ==> Ended(n, wrap, schedule, i, true))
            && (Ended(n, wrap, schedule, i, true) ==>
                  && i in s.tasks
                  && (s.tasks[i].Value? || exists w: nat :: w < n && s.workers[w] in {Decrement(i), SetValue(i)}))
  {
    EndShows(n, wrap, schedule, i);
    RunInv(n, wrap, schedule);
    var s := Run(n, wrap, schedule);
    assert i in s.past.counted ==> CountedOff(s, i);
  }

  /** The body of a task ends once at most. */
  lemma BodyEndsOnce(n: nat, wrap: nat, schedule: seq<Action>, i: nat, r: bool, k: nat, r': bool, k': nat)
    requires n >= 1 && wrap >= 2
    requires BodyEndsAt(n, wrap, schedule, i, r, k) && BodyEndsAt(n, wrap, schedule, i, r', k')
    ensures k == k' && r == r'
  {
    if k < k' {
      EndsNoMore(n, wrap, schedule, i, r, k, r', k');
    } else if k' < k {
      EndsNoMore(n, wrap, schedule, i, r', k', r, k);
    }
  }

  lemma EndsNoMore(n: nat, wrap: nat, schedule: seq<Action>, i: nat, r: bool, k: nat, r': bool, k': nat)
    requires n >= 1 && wrap >= 2 && k < k' && BodyEndsAt(n, wrap, schedule, i, r, k)
    ensures !BodyEndsAt(n, wrap, schedule, i, r', k')
  {
    if k' < |schedule| {
      var before := schedule[..k'];
      assert before[..k] == schedule[..k];
      assert BodyEndsAt(n, wrap, before, i, r, k);
      EndShows(n, wrap, before, i);
      RunInv(n, wrap, before);
      StepShowsEnd(Run(n, wrap, before), schedule[k'], i);
    }
  }

  /** A destroyed pool: a task holds a value exactly if its body returned, its own exception exactly if its
      body threw, and the destruction exception exactly if its body never ended. */
  lemma DestroyedOutcome(n: nat, wrap: nat, schedule: seq<Action>, i: nat)
    requires n >= 1 && wrap >= 2 && Run(n, wrap, schedule).dtor.Destroyed? && i < Run(n, wrap, schedule).pushed
    ensures var s := Run(n, wrap, schedule);
            && i in s.tasks
            && (s.tasks[i].Value? <==> Ended(n, wrap, schedule, i, true))
            && (s.tasks[i].OwnException? <==> Ended(n, wrap, schedule, i, false))
            && (s.tasks[i].DestructionException? <==>
                  !Ended(n, wrap, schedule, i, true) && !Ended(n, wrap, schedule, i, false))
  {
    AllTasksCompleted(n, wrap, schedule);
    EndShows(n, wrap, schedule, i);
  }
}
