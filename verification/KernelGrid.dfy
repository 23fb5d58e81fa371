/**
What the kernel task of include/alpaka/kernel/TaskKernelCpuThreads.hpp has done to the grid: which tasks
its workers have taken, and how often each of them has met the others at the barrier.
*/
module KernelGrid {
  import opened Arithmetic
  import opened KernelTask
  import B = SpinBarrier

  /** The tasks that workers have taken in a run, in that order: the block index that is in force and
      the index that the worker goes on with. */
  function Taken(n: nat, m: nat, kernelCalls: seq<nat>, schedule: seq<Action>): seq<Task>
    requires n >= 1 && m >= 2
  {
    if schedule == [] then [] else
      var before, a := schedule[..|schedule| - 1], schedule[|schedule| - 1];
      Taken(n, m, kernelCalls, before)
      + TakenBy(Run(n, m, kernelCalls, before), a, Run(n, m, kernelCalls, schedule))
  }

  function TakenBy(s: State, a: Action, s': State): seq<Task>
    requires |s'.workers| == |s.workers|
  {
    if a.Worker? && a.w < |s.workers| && s.workers[a.w].Ready? && s'.workers[a.w].SetMaster?
    then [Task(s'.block, s'.workers[a.w].idx)] else []
  }

  /** The barrier calls that every thread makes in the first b blocks: those of the kernel and the two
      around it. */
  function BarrierCalls(kernelCalls: seq<nat>, b: nat): nat
    requires b <= |kernelCalls|
  {
    if b == 0 then 0 else BarrierCalls(kernelCalls, b - 1) + 1 + kernelCalls[b - 1] + 1
  }

  /** The tasks of the grid in the order of their blocks, and of their indices within a block. */
  ghost predicate InGridOrder(taken: seq<Task>, n: nat)
    requires n >= 1
  {
    forall k: nat :: k < |taken| ==> taken[k] == Task(k / n, k % n)
  }

  /** The tasks of the blocks before the current one, then those popped of the current one. */
  ghost predicate GridOk(s: State, taken: seq<Task>)
    requires Shape(s)
  {
    && s.host.b <= |s.kernelCalls|
    && |taken| == s.host.b * |s.workers| + |s.poppedBy|
    && InGridOrder(taken, |s.workers|)
    && s.base == BarrierCalls(s.kernelCalls, s.host.b)
  }

  lemma HostGrid(s: State, taken: seq<Task>)
    requires Inv(s) && GridOk(s, taken)
    ensures GridOk(HostStep(s), taken)
  {
    if s.host.Clearing? {
      assert |s.workers| - 1 in s.done;
      assert |s.poppedBy| == |s.workers|;
      assert (s.host.b + 1) * |s.workers| == s.host.b * |s.workers| + |s.workers|;
    }
  }

  lemma WorkerGrid(s: State, w: nat, taken: seq<Task>)
    requires Inv(s) && w < |s.workers| && GridOk(s, taken)
    ensures GridOk(WorkerStep(s, w), taken + TakenBy(s, Worker(w), WorkerStep(s, w)))
  {
    if s.workers[w].Ready? && s.queue != [] {
      var i := |s.poppedBy|;
      assert s.queue[0] == Task(s.block, i) && s.host.b == s.block && i < |s.workers|;
      DivModUnique(|taken|, |s.workers|, s.block, i);
    }
  }

  lemma {:induction false} RunGrid(n: nat, m: nat, kernelCalls: seq<nat>, schedule: seq<Action>)
    requires n >= 1 && m >= 2
    ensures GridOk(Run(n, m, kernelCalls, schedule), Taken(n, m, kernelCalls, schedule))
  {
    if schedule != [] {
      var before, a := schedule[..|schedule| - 1], schedule[|schedule| - 1];
      var s := Run(n, m, kernelCalls, before);
      RunGrid(n, m, kernelCalls, before);
      RunInv(n, m, kernelCalls, before);
      if a.Host? {
        HostGrid(s, Taken(n, m, kernelCalls, before));
      } else if a.w < n {
        WorkerGrid(s, a.w, Taken(n, m, kernelCalls, before));
      }
    }
  }

  /** Whenever b blocks are finished, the tasks taken are those of these blocks, each once, block by
      block and in the order of their indices; and every thread has made exactly the barrier calls of
      these blocks. */
  lemma BlocksExecuted(n: nat, m: nat, kernelCalls: seq<nat>, schedule: seq<Action>)
    requires n >= 1 && m >= 2 && Run(n, m, kernelCalls, schedule).host.NextBlock?
    ensures var s, taken := Run(n, m, kernelCalls, schedule), Taken(n, m, kernelCalls, schedule);
            && s.host.b <= |kernelCalls|
            && |taken| == s.host.b * n && InGridOrder(taken, n)
            && s.bar.rounds == BarrierCalls(kernelCalls, s.host.b)
            && forall w: nat :: w < n ==>
                  s.bar.threads[w].entered == s.bar.threads[w].returned == BarrierCalls(kernelCalls, s.host.b)
  {
    var s := Run(n, m, kernelCalls, schedule);
    RunGrid(n, m, kernelCalls, schedule);
    RunInv(n, m, kernelCalls, schedule);
    assert s.poppedBy == [];
    forall w: nat | w < n
      ensures s.bar.threads[w].entered == s.bar.threads[w].returned == s.bar.rounds == s.base
    {
      assert FreshOk(s, w) && B.ThreadOk(s.bar, s.bar.threads[w]);
    }
    assert s.bar.threads[0].entered == s.bar.rounds;
  }

  ghost predicate TakenAt(taken: seq<Task>, b: nat, i: nat, k: nat)
  {
    k < |taken| && taken[k] == Task(b, i)
  }

  /** In grid order each task has one place. */
  lemma OnePlace(taken: seq<Task>, n: nat, blocks: nat, b: nat, i: nat, k: nat)
    requires n >= 1 && InGridOrder(taken, n) && |taken| == blocks * n && b < blocks && i < n
    ensures TakenAt(taken, b, i, k) <==> k == b * n + i
  {
    MulMonotone(n, b + 1, blocks);
    assert (b + 1) * n == b * n + n;
    DivModUnique(b * n + i, n, b, i);
    DivModBack(k, n);
  }

  /** A finished run has executed every block of the grid: every thread of every block was taken by a
      worker exactly once, the blocks in their order, and nothing else was taken. */
  lemma GridExecuted(n: nat, m: nat, kernelCalls: seq<nat>, schedule: seq<Action>)
    requires n >= 1 && m >= 2 && Finished(Run(n, m, kernelCalls, schedule))
    ensures var taken := Taken(n, m, kernelCalls, schedule);
            && |taken| == |kernelCalls| * n
            && forall b: nat, i: nat, k: nat :: b < |kernelCalls| && i < n ==>
                  (TakenAt(taken, b, i, k) <==> k == b * n + i)
    ensures var s := Run(n, m, kernelCalls, schedule);
            && s.bar.rounds == BarrierCalls(kernelCalls, |kernelCalls|)
            && forall w: nat :: w < n ==> s.bar.threads[w].returned == BarrierCalls(kernelCalls, |kernelCalls|)
  {
    var taken := Taken(n, m, kernelCalls, schedule);
    BlocksExecuted(n, m, kernelCalls, schedule);
    forall b: nat, i: nat, k: nat | b < |kernelCalls| && i < n ensures TakenAt(taken, b, i, k) <==> k == b * n + i {
      OnePlace(taken, n, |kernelCalls|, b, i, k);
    }
  }
}
