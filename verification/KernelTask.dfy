/**
The threads kernel task of include/alpaka/kernel/TaskKernelCpuThreads.hpp: the host thread runs the
blocks of a grid one after the other; for each block it enqueues one task per block thread into a
yielding pool of as many workers, waits for all futures and clears the thread-to-index map.  Every
task registers its worker in the map and then meets the others at the spinning barrier: once before
the kernel, as often as the kernel itself synchronises, and once after it.

The machine composes the pool, the barrier (at the granularity of its atomic accesses) and the host.
An action that cannot proceed (spinning, yielding, waiting for a future) leaves the state unchanged.
*/
module KernelTask {
  import opened Finite
  import opened Options
  import B = SpinBarrier

  /** A task package: the block it belongs to and the linear index of its block thread. */
  datatype Task = Task(block: nat, idx: nat)

  datatype WorkerPc =
    | Ready                            // in the pool's loop, about to pop
    | SetMaster(idx: nat)              // about to compare blockThreadIdx.sum() with zero
    | Insert(idx: nat)                 // about to emplace (thread id, index)
    | Computing(idx: nat, calls: nat)  // outside the barrier, `calls` barrier calls made
    | Syncing(idx: nat, calls: nat)    // inside barrier call number `calls`
    | Publish(idx: nat)                // body returned, about to fulfil the promise

  datatype HostPc =
    | NextBlock(b: nat)             // about to set m_gridBlockIdx, or to finish
    | Enqueuing(b: nat, j: nat)     // about to enqueue the task of block thread j
    | Waiting(b: nat, j: nat)       // waiting for future j
    | Clearing(b: nat)              // about to clear the futures and the map

  datatype State = State(
    kernelCalls: seq<nat>,     // barrier calls the kernel makes, block by block
    host: HostPc,
    block: nat,                // m_gridBlockIdx
    queue: seq<Task>,          // m_qTasks
    done: set<nat>,            // fulfilled futures of the current block
    indexOf: map<nat, nat>,    // m_threadToIndexMap
    master: Option<nat>,       // m_idMasterThread
    bar: B.State,
    workers: seq<WorkerPc>,
    poppedBy: seq<nat>,        // history: which worker popped the i-th task of the current block
    base: nat)                 // history: barrier rounds used by the blocks before this one

  datatype Action = Host | Worker(w: nat)

  function Init(n: nat, m: nat, kernelCalls: seq<nat>): State
    requires n >= 1 && m >= 2
  {
    State(kernelCalls, NextBlock(0), 0, [], {}, map[], None, B.Init(n, m),
          seq(n, _ => Ready), [], 0)
  }

  /** All barrier calls of a thread in the current block: the kernel's own and the two around it. */
  function Calls(s: State): nat
  {
    if s.block < |s.kernelCalls| then s.kernelCalls[s.block] + 2 else 2
  }

  predicate Finished(s: State)
  {
    s.host.NextBlock? && s.host.b >= |s.kernelCalls|
  }

  function HostStep(s: State): State
  {
    match s.host
    case NextBlock(b) =>
      if b < |s.kernelCalls| then s.(block := b, host := Enqueuing(b, 0)) else s
    case Enqueuing(b, j) =>
      s.(queue := s.queue + [Task(b, j)],
         host := if j + 1 < |s.workers| then Enqueuing(b, j + 1) else Waiting(b, 0))
    case Waiting(b, j) =>
      if j !in s.done then s
      else s.(host := if j + 1 < |s.workers| then Waiting(b, j + 1) else Clearing(b))
    case Clearing(b) =>
      s.(done := {}, indexOf := map[], host := NextBlock(b + 1), poppedBy := [], base := s.base + Calls(s))
  }

  function WorkerStep(s: State, w: nat): State
    requires w < |s.workers| && s.bar.shared.m > 0 && |s.bar.threads| == |s.workers|
  {
    match s.workers[w]
    case Ready =>
      if s.queue == [] then s
      else s.(queue := s.queue[1..], poppedBy := s.poppedBy + [w], workers := s.workers[w := SetMaster(s.queue[0].idx)])
    case SetMaster(i) =>
      s.(master := if i == 0 then Some(w) else s.master, workers := s.workers[w := Insert(i)])
    case Insert(i) =>
      s.(indexOf := if w in s.indexOf then s.indexOf else s.indexOf[w := i], workers := s.workers[w := Computing(i, 0)])
    case Computing(i, k) =>
      s.(bar := B.Do(s.bar, w), workers := s.workers[w := Syncing(i, k)])
    case Syncing(i, k) =>
      var bar := B.Do(s.bar, w);
      var pc := if !bar.threads[w].pc.Outside? then Syncing(i, k)
                else if k + 1 < Calls(s) then Computing(i, k + 1)
                else Publish(i);
      s.(bar := bar, workers := s.workers[w := pc])
    case Publish(i) =>
      s.(done := s.done + {i}, workers := s.workers[w := Ready])
  }

  predicate Shape(s: State)
  {
    s.bar.shared.m >= 2 && |s.bar.threads| == |s.workers| >= 1
  }

  function Do(s: State, a: Action): (s': State)
    requires Shape(s)
    ensures Shape(s') && |s'.workers| == |s.workers| && s'.kernelCalls == s.kernelCalls
  {
    match a
    case Host => HostStep(s)
    case Worker(w) => if w < |s.workers| then WorkerStep(s, w) else s
  }

  function Run(n: nat, m: nat, kernelCalls: seq<nat>, schedule: seq<Action>): (s: State)
    requires n >= 1 && m >= 2
    ensures Shape(s) && |s.workers| == n && s.kernelCalls == kernelCalls
  {
    if schedule == [] then Init(n, m, kernelCalls)
    else Do(Run(n, m, kernelCalls, schedule[..|schedule| - 1]), schedule[|schedule| - 1])
  }

  // ---------- the inductive invariant

  /** Tasks of the current block enqueued so far. */
  function Enqueued(s: State): nat
  {
    match s.host
    case NextBlock(_) => 0
    case Enqueuing(_, j) => j
    case _ => |s.workers|
  }

  ghost predicate HostOk(s: State)
  {
    match s.host
    case NextBlock(b) => b <= |s.kernelCalls|
    case Enqueuing(b, j) => b == s.block < |s.kernelCalls| && j < |s.workers|
    case Waiting(b, j) => b == s.block < |s.kernelCalls| && j < |s.workers| && forall i: nat :: i < j ==> i in s.done
    case Clearing(b) => b == s.block < |s.kernelCalls| && forall i: nat :: i < |s.workers| ==> i in s.done
  }

  ghost predicate QueueOk(s: State)
  {
    && |s.poppedBy| + |s.queue| == Enqueued(s)
    && (forall k :: 0 <= k < |s.queue| ==> s.queue[k] == Task(s.block, |s.poppedBy| + k))
    && Distinct(s.poppedBy)
    && (forall i :: 0 <= i < |s.poppedBy| ==> s.poppedBy[i] < |s.workers|)
    && (forall i <- s.done :: i < |s.poppedBy|)
    && (s.host.NextBlock? ==> s.done == {})
  }

  /** A worker that has popped nothing of the current block. */
  ghost predicate FreshOk(s: State, w: nat)
    requires Shape(s) && w < |s.workers|
  {
    s.workers[w].Ready? && s.bar.threads[w].pc.Outside? && s.bar.threads[w].returned == s.base && w !in s.indexOf
  }

  /** The worker that popped task i of the current block. */
  ghost predicate TaskOk(s: State, i: nat)
    requires Shape(s) && i < |s.poppedBy| && s.poppedBy[i] < |s.workers|
  {
    var w := s.poppedBy[i];
    var th := s.bar.threads[w];
    && (i in s.done <==> s.workers[w].Ready?)
    && (s.workers[w].Syncing? <==> !th.pc.Outside?)
    && (s.workers[w].SetMaster? || s.workers[w].Insert? <==> w !in s.indexOf)
    && (w in s.indexOf ==> s.indexOf[w] == i)
    && (i == 0 && !s.workers[w].SetMaster? ==> s.master == Some(w))
    && match s.workers[w]
       case Ready => th.returned == s.base + Calls(s)
       case SetMaster(j) => j == i && th.returned == s.base
       case Insert(j) => j == i && th.returned == s.base
       case Computing(j, k) => j == i && k < Calls(s) && th.returned == s.base + k
       case Syncing(j, k) => j == i && k < Calls(s) && th.returned == s.base + k
       case Publish(j) => j == i && th.returned == s.base + Calls(s)
  }

  ghost predicate Inv(s: State)
  {
    && Shape(s)
    && B.Inv(s.bar)
    && HostOk(s)
    && QueueOk(s)
    && (forall w: nat :: w < |s.workers| && w !in s.poppedBy ==> FreshOk(s, w))
    && (forall i: nat :: i < |s.poppedBy| ==> TaskOk(s, i))
    && (forall w <- s.indexOf :: w in s.poppedBy)
  }

  lemma InitInv(n: nat, m: nat, kernelCalls: seq<nat>)
    requires n >= 1 && m >= 2
    ensures Inv(Init(n, m, kernelCalls))
  {
    B.InitInv(n, m);
  }

  /** The task of the current block that worker w has popped. */
  lemma TaskOf(s: State, w: nat) returns (i: nat)
    requires Inv(s) && w in s.poppedBy
    ensures i < |s.poppedBy| && s.poppedBy[i] == w && TaskOk(s, i)
  {
    i :| 0 <= i < |s.poppedBy| && s.poppedBy[i] == w;
  }

  /** Once some thread has returned from a barrier call of the current block, every worker has
      popped a task of it, so all its tasks have left the queue. */
  lemma FirstReturnMeansAllStarted(s: State, w: nat)
    requires Inv(s) && w < |s.workers| && s.bar.threads[w].returned > s.base
    ensures s.queue == [] && |s.poppedBy| == |s.workers|
    ensures forall u: nat :: u < |s.workers| ==> u in s.poppedBy && u in s.indexOf
  {
    B.InvSynchronised(s.bar);
    forall u: nat | u < |s.workers| ensures u in s.poppedBy && u in s.indexOf {
      assert s.bar.threads[w].returned <= s.bar.threads[u].entered;
      assert B.ThreadOk(s.bar, s.bar.threads[u]);
      assert u !in s.poppedBy ==> FreshOk(s, u);
      var i := TaskOf(s, u);
    }
    DistinctCovers(s.poppedBy, |s.workers|);
  }

  lemma ClearInv(s: State)
    requires Inv(s) && s.host.Clearing?
    ensures Inv(HostStep(s))
  {
    var s' := HostStep(s);
    assert |s.workers| - 1 in s.done;
    DistinctCovers(s.poppedBy, |s.workers|);
    forall w: nat | w < |s.workers| ensures FreshOk(s', w) {
      assert w in s.poppedBy;
      var i := TaskOf(s, w);
    }
  }

  /** Host steps that touch neither the workers nor the map keep every worker's part. */
  lemma HostFrame(s: State, s': State)
    requires Inv(s) && s' == s.(host := s'.host, queue := s'.queue, block := s'.block)
    requires s'.block == s.block || s.poppedBy == []
    ensures forall w: nat :: w < |s'.workers| && w !in s'.poppedBy ==> FreshOk(s', w)
    ensures forall i: nat :: i < |s'.poppedBy| ==> TaskOk(s', i)
  {
    forall i: nat | i < |s'.poppedBy| ensures TaskOk(s', i) {
      assert TaskOk(s, i);
    }
    forall w: nat | w < |s'.workers| && w !in s'.poppedBy ensures FreshOk(s', w) {
      assert FreshOk(s, w);
    }
  }

  lemma HostInv(s: State)
    requires Inv(s) && !s.host.Clearing?
    ensures Inv(HostStep(s))
  {
    var s' := HostStep(s);
    HostFrame(s, s');
    assert QueueOk(s') && HostOk(s');
  }

  lemma PopInv(s: State, w: nat)
    requires Inv(s) && w < |s.workers| && s.workers[w].Ready? && s.queue != []
    ensures Inv(WorkerStep(s, w))
  {
    var s' := WorkerStep(s, w);
    if w in s.poppedBy {
      var i := TaskOf(s, w);
      FirstReturnMeansAllStarted(s, w);
      assert false;
    }
    assert FreshOk(s, w);
    forall i: nat | i < |s'.poppedBy| ensures TaskOk(s', i) {
      if i < |s.poppedBy| { assert TaskOk(s, i); }
    }
    forall u: nat | u < |s'.workers| && u !in s'.poppedBy ensures FreshOk(s', u) {
      assert FreshOk(s, u);
    }
  }

  /** What a step of the worker that popped task j must establish for the invariant to survive. */
  lemma OwnTaskSuffices(s: State, s': State, j: nat)
    requires Inv(s) && j < |s.poppedBy|
    requires var w := s.poppedBy[j];
             && s' == s.(bar := s'.bar, workers := s'.workers, done := s'.done, indexOf := s'.indexOf,
                   master := s'.master)
             && Shape(s') && B.Inv(s'.bar)
             && |s'.workers| == |s.workers|
             && s'.workers == s.workers[w := s'.workers[w]] && s'.bar.threads == s.bar.threads[w := s'.bar.threads[w]]
             && s.done <= s'.done <= s.done + {j}
             && s'.indexOf.Keys <= s.indexOf.Keys + {w}
             && (forall u <- s.indexOf :: u in s'.indexOf && s'.indexOf[u] == s.indexOf[u])
             && (j != 0 ==> s'.master == s.master)
             && TaskOk(s', j)
    ensures Inv(s')
  {
    var w := s.poppedBy[j];
    forall i: nat | i < |s'.poppedBy| ensures TaskOk(s', i) {
      assert TaskOk(s, i);
      assert i != j ==> s.poppedBy[i] != w;
    }
    forall u: nat | u < |s'.workers| && u !in s'.poppedBy ensures FreshOk(s', u) {
      assert FreshOk(s, u);
    }
  }

  lemma RunningInv(s: State, w: nat)
    requires Inv(s) && w < |s.workers| && !s.workers[w].Ready?
    ensures Inv(WorkerStep(s, w))
  {
    var s' := WorkerStep(s, w);
    B.StepInv(s.bar, w);
    assert w in s.poppedBy by { assert w !in s.poppedBy ==> FreshOk(s, w); }
    var j := TaskOf(s, w);
    assert B.ThreadOk(s.bar, s.bar.threads[w]) && B.ThreadOk(s'.bar, s'.bar.threads[w]);
    assert s'.workers == s.workers[w := s'.workers[w]] && s'.bar.threads == s.bar.threads[w := s'.bar.threads[w]];
    OwnTaskSuffices(s, s', j);
  }

  lemma StepInv(s: State, a: Action)
    requires Inv(s)
    ensures Inv(Do(s, a))
  {
    match a
    case Host => if s.host.Clearing? { ClearInv(s); } else { HostInv(s); }
    case Worker(w) =>
      if w < |s.workers| {
        if !s.workers[w].Ready? { RunningInv(s, w); } else if s.queue != [] { PopInv(s, w); }
      }
  }

  lemma {:induction false} RunInv(n: nat, m: nat, kernelCalls: seq<nat>, schedule: seq<Action>)
    requires n >= 1 && m >= 2
    ensures Inv(Run(n, m, kernelCalls, schedule))
  {
    if schedule == [] {
      InitInv(n, m, kernelCalls);
    } else {
      RunInv(n, m, kernelCalls, schedule[..|schedule| - 1]);
      StepInv(Run(n, m, kernelCalls, schedule[..|schedule| - 1]), schedule[|schedule| - 1]);
    }
  }

  // ---------- what the kernel task promises

  /** The worker has returned from the barrier that precedes the kernel. */
  predicate PastFirstBarrier(pc: WorkerPc)
  {
    pc.Publish? || ((pc.Computing? || pc.Syncing?) && pc.calls >= 1)
  }

  /** Some worker is registered for block thread index i. */
  ghost predicate Registered(s: State, i: nat)
  {
    exists w :: w in s.indexOf && s.indexOf[w] == i
  }

  /** The map is a bijection between the workers and the block thread indices, and the master is the
      one worker that runs index zero. */
  ghost predicate MapComplete(s: State)
  {
    && (forall w: nat :: w < |s.workers| <==> w in s.indexOf)
    && (forall w <- s.indexOf :: s.indexOf[w] < |s.workers|)
    && (forall i: nat :: i < |s.workers| ==> Registered(s, i))
    && (forall u <- s.indexOf, v <- s.indexOf :: s.indexOf[u] == s.indexOf[v] ==> u == v)
    && s.master.Some? && s.master.value in s.indexOf && s.indexOf[s.master.value] == 0
  }

  /** In every interleaving, a thread that is past the first barrier sees the complete map, which
      gives the thread its own index. */
  lemma ThreadMapComplete(n: nat, m: nat, kernelCalls: seq<nat>, schedule: seq<Action>, w: nat)
    requires n >= 1 && m >= 2 && w < n
    requires PastFirstBarrier(Run(n, m, kernelCalls, schedule).workers[w])
    ensures var s := Run(n, m, kernelCalls, schedule);
            MapComplete(s) && w in s.indexOf && s.indexOf[w] == s.workers[w].idx
  {
    var s := Run(n, m, kernelCalls, schedule);
    RunInv(n, m, kernelCalls, schedule);
    assert w !in s.poppedBy ==> FreshOk(s, w);
    var j := TaskOf(s, w);
    AllStartedMapComplete(s, w);
  }

  lemma AllStartedMapComplete(s: State, w: nat)
    requires Inv(s) && w < |s.workers| && s.bar.threads[w].returned > s.base
    ensures MapComplete(s)
  {
    FirstReturnMeansAllStarted(s, w);
    forall u | u in s.indexOf ensures u < |s.workers| && s.indexOf[u] < |s.workers| && s.poppedBy[s.indexOf[u]] == u {
      var i := TaskOf(s, u);
    }
    forall i: nat | i < |s.workers| ensures Registered(s, i) {
      assert TaskOk(s, i) && s.poppedBy[i] in s.indexOf;
    }
    assert TaskOk(s, 0);
  }

  /** No worker runs two tasks of one block, and tasks of another block are never in the queue. */
  lemma OneTaskPerWorker(n: nat, m: nat, kernelCalls: seq<nat>, schedule: seq<Action>)
    requires n >= 1 && m >= 2
    ensures var s := Run(n, m, kernelCalls, schedule);
            && Distinct(s.poppedBy)
            && (forall k :: 0 <= k < |s.queue| ==> s.queue[k].block == s.block)
            && (forall w: nat :: w < n && !s.workers[w].Ready? ==> w in s.poppedBy)
  {
    RunInv(n, m, kernelCalls, schedule);
    var s := Run(n, m, kernelCalls, schedule);
    forall w: nat | w < n && !s.workers[w].Ready? ensures w in s.poppedBy {
      assert w !in s.poppedBy ==> FreshOk(s, w);
    }
  }

  /** While the map is cleared and while m_gridBlockIdx changes, no thread of a block is running,
      none is waiting in the queue and the barrier is empty and reset. */
  lemma QuietBetweenBlocks(n: nat, m: nat, kernelCalls: seq<nat>, schedule: seq<Action>)
    requires n >= 1 && m >= 2
    requires var h := Run(n, m, kernelCalls, schedule).host; h.Clearing? || h.NextBlock?
    ensures var s := Run(n, m, kernelCalls, schedule);
            && s.queue == []
            && (forall w: nat :: w < n ==> s.workers[w].Ready? && s.bar.threads[w].pc.Outside?)
            && s.bar.shared.count == n
  {
    RunInv(n, m, kernelCalls, schedule);
    var s := Run(n, m, kernelCalls, schedule);
    if s.host.Clearing? { ClearInv(s); }
    var q := if s.host.Clearing? then HostStep(s) else s;
    forall w: nat | w < n ensures s.workers[w].Ready? && s.bar.threads[w].pc.Outside? {
      assert q.poppedBy == [];
      assert FreshOk(q, w);
    }
    B.SelfResetting(s.bar);
    if s.host.Clearing? {
      assert |s.workers| - 1 in s.done;
    }
  }

  /** Every reachable state before the end of the grid has an action that is not a mere spin. */
  lemma NeverStuck(s: State)
    requires Inv(s) && !Finished(s)
    ensures exists a :: Do(s, a) != s
  {
    if !s.host.Waiting? || s.host.j in s.done {
      assert Do(s, Host).host != s.host;
    } else if w: nat :| w < |s.workers| && !s.workers[w].Ready? && !s.workers[w].Syncing? {
      assert Do(s, Worker(w)).workers[w] != s.workers[w];
    } else if s.queue != [] {
      DistinctCovers(s.poppedBy, |s.workers|);
      var w: nat :| w < |s.workers| && w !in s.poppedBy;
      assert FreshOk(s, w);
      assert Do(s, Worker(w)).workers[w] != s.workers[w];
    } else {
      AllAtBarrier(s);
    }
  }

  /** All tasks popped, one future still open, everybody at the barrier or done: the barrier moves. */
  lemma AllAtBarrier(s: State)
    requires Inv(s) && s.host.Waiting? && s.host.j !in s.done && s.queue == []
    requires forall w: nat :: w < |s.workers| ==> s.workers[w].Ready? || s.workers[w].Syncing?
    ensures exists a :: Do(s, a) != s
  {
    DistinctCovers(s.poppedBy, |s.workers|);
    var t := s.poppedBy[s.host.j];
    assert TaskOk(s, s.host.j);
    assert forall u: nat :: u < |s.workers| ==> u in s.poppedBy;
    if u: nat :| u < |s.workers| && s.workers[u].Ready? {
      var i := TaskOf(s, u);
      B.Released(s.bar, t, u);
      assert Do(s, Worker(t)).bar.threads[t] != s.bar.threads[t];
    } else {
      forall w: nat | w < |s.workers| ensures !s.bar.threads[w].pc.Outside? {
        var i := TaskOf(s, w);
      }
      B.NeverStuck(s.bar);
      var w: nat :| w < |s.workers| && B.Do(s.bar, w) != s.bar;
      assert Do(s, Worker(w)).bar != s.bar;
    }
  }

  // ---------- termination: a bound on the actions that are not spins

  /** How far worker w has come in the current block. */
  function Rank(s: State, w: nat): nat
    requires Shape(s) && w < |s.workers|
  {
    match s.workers[w]
    case Ready => if w in s.poppedBy then TaskRank(Calls(s)) else 0
    case SetMaster(_) => 1
    case Insert(_) => 2
    case Computing(_, k) => 3 + 6 * k
    case Syncing(_, k) =>
      3 + 6 * k + (match s.bar.threads[w].pc
                   case Outside => 0
                   case Loaded(_) => 1
                   case Spinning(_) => 2
                   case Resetting => 2
                   case Bumping => 3)
    case Publish(_) => 3 + 6 * Calls(s)
  }

  function TaskRank(calls: nat): nat
  {
    4 + 6 * calls
  }

  function Ranks(s: State): (r: seq<nat>)
    requires Shape(s)
    ensures |r| == |s.workers|
  {
    seq(|s.workers|, w requires 0 <= w < |s.workers| => Rank(s, w))
  }

  function HostRank(s: State): nat
  {
    match s.host
    case NextBlock(_) => 0
    case Enqueuing(_, j) => 1 + j
    case Waiting(_, j) => 1 + |s.workers| + j
    case Clearing(_) => 1 + 2 * |s.workers|
  }

  /** The actions that the first b blocks of the grid can take at most. */
  function Cost(n: nat, kernelCalls: seq<nat>, b: nat): nat
    requires b <= |kernelCalls|
  {
    if b == 0 then 0
    else Cost(n, kernelCalls, b - 1) + 2 + 2 * n + n * TaskRank(kernelCalls[b - 1] + 2)
  }

  lemma {:induction false} CostMonotone(n: nat, kernelCalls: seq<nat>, b: nat, c: nat)
    requires b <= c <= |kernelCalls|
    ensures Cost(n, kernelCalls, b) <= Cost(n, kernelCalls, c)
  {
    if b < c { CostMonotone(n, kernelCalls, b, c - 1); }
  }

  ghost function Progress(s: State): nat
    requires Inv(s)
  {
    Cost(|s.workers|, s.kernelCalls, s.host.b) + HostRank(s) + Sum(Ranks(s))
  }

  lemma RankBound(s: State, w: nat)
    requires Inv(s) && w < |s.workers|
    ensures Rank(s, w) <= TaskRank(Calls(s))
    ensures w in s.poppedBy && s.workers[w].Ready? ==> Rank(s, w) == TaskRank(Calls(s))
    ensures w !in s.poppedBy ==> Rank(s, w) == 0
  {
    if w in s.poppedBy {
      var i := TaskOf(s, w);
    } else {
      assert FreshOk(s, w);
    }
  }

  lemma RanksAllZero(s: State)
    requires Inv(s) && s.poppedBy == []
    ensures Sum(Ranks(s)) == 0
  {
    forall w: nat | w < |s.workers| ensures Ranks(s)[w] == 0 { RankBound(s, w); }
    SumBound(Ranks(s), 0);
  }

  lemma RanksBounded(s: State)
    requires Inv(s)
    ensures Sum(Ranks(s)) <= |s.workers| * TaskRank(Calls(s))
  {
    forall w: nat | w < |s.workers| ensures Ranks(s)[w] <= TaskRank(Calls(s)) { RankBound(s, w); }
    SumBound(Ranks(s), TaskRank(Calls(s)));
  }

  /** While the host enqueues and waits, the workers' ranks stay. */
  lemma HostKeepsRanks(s: State)
    requires Inv(s) && (s.host.Enqueuing? || s.host.Waiting?) && Inv(HostStep(s))
    ensures Ranks(HostStep(s)) == Ranks(s)
  {
  }

  lemma HostClears(s: State)
    requires Inv(s) && s.host.Clearing? && Inv(HostStep(s))
    ensures Progress(HostStep(s)) > Progress(s)
  {
    RanksAllZero(HostStep(s));
    RanksBounded(s);
  }

  lemma HostProgress(s: State)
    requires Inv(s) && HostStep(s) != s && Inv(HostStep(s))
    ensures Progress(HostStep(s)) > Progress(s)
  {
    match s.host {
      case Clearing(_) => HostClears(s); return;
      case NextBlock(_) => RanksAllZero(HostStep(s)); RanksAllZero(s); return;
      case Enqueuing(_, _) => HostKeepsRanks(s); return;
      case Waiting(_, _) => HostKeepsRanks(s); return;
    }
  }

  lemma WorkerRankGrows(s: State, w: nat)
    requires Inv(s) && w < |s.workers| && WorkerStep(s, w) != s
    ensures Rank(WorkerStep(s, w), w) > Rank(s, w)
  {
    var s' := WorkerStep(s, w);
    assert w !in s.poppedBy ==> FreshOk(s, w);
    if w in s.poppedBy {
      var i := TaskOf(s, w);
      if s.workers[w].Ready? {
        FirstReturnMeansAllStarted(s, w);
        assert false;
      }
      assert B.ThreadOk(s.bar, s.bar.threads[w]);
      assert s.workers[w].Syncing? && s.bar.threads[w].pc.Spinning? && s'.bar.threads[w] == s.bar.threads[w]
             ==> s' == s;
    }
  }

  lemma OtherRanksStay(s: State, w: nat, u: nat)
    requires Inv(s) && w < |s.workers| && u < |s.workers| && u != w
    ensures Rank(WorkerStep(s, w), u) == Rank(s, u)
  {
    var s' := WorkerStep(s, w);
    assert s'.workers[u] == s.workers[u] && s'.bar.threads[u] == s.bar.threads[u] && Calls(s') == Calls(s);
    assert u in s'.poppedBy <==> u in s.poppedBy;
  }

  lemma RankSumGrows(s: State, s': State, w: nat)
    requires Shape(s) && Shape(s') && |s'.workers| == |s.workers| && w < |s.workers|
    requires forall u: nat :: u < |s.workers| && u != w ==> Rank(s', u) == Rank(s, u)
    requires Rank(s', w) > Rank(s, w)
    ensures Sum(Ranks(s')) > Sum(Ranks(s))
  {
    var r, r' := Ranks(s), Ranks(s');
    assert r' == r[w := r'[w]];
    SumUpdate(r, w, r'[w]);
  }

  lemma WorkerSumGrows(s: State, w: nat)
    requires Inv(s) && w < |s.workers| && WorkerStep(s, w) != s
    ensures Sum(Ranks(WorkerStep(s, w))) > Sum(Ranks(s))
  {
    WorkerRankGrows(s, w);
    forall u: nat | u < |s.workers| && u != w ensures Rank(WorkerStep(s, w), u) == Rank(s, u) {
      OtherRanksStay(s, w, u);
    }
    RankSumGrows(s, WorkerStep(s, w), w);
  }

  lemma ProgressBound(s: State)
    requires Inv(s)
    ensures Progress(s) <= Cost(|s.workers|, s.kernelCalls, |s.kernelCalls|)
  {
    var n, b := |s.workers|, s.host.b;
    if s.host.NextBlock? {
      RanksAllZero(s);
      CostMonotone(n, s.kernelCalls, b, |s.kernelCalls|);
    } else {
      RanksBounded(s);
      CostMonotone(n, s.kernelCalls, b + 1, |s.kernelCalls|);
    }
  }

  /** The actions of the schedule that changed the state. */
  function Effective(n: nat, m: nat, kernelCalls: seq<nat>, schedule: seq<Action>): nat
    requires n >= 1 && m >= 2
  {
    if schedule == [] then 0 else
      var before := schedule[..|schedule| - 1];
      Effective(n, m, kernelCalls, before)
      + if Run(n, m, kernelCalls, schedule) != Run(n, m, kernelCalls, before) then 1 else 0
  }

  /** Every interleaving takes at most Cost actions that are not spins; with NeverStuck, a run in
      which no action can change the state any more has finished the grid. */
  lemma {:induction false} GridTerminates(n: nat, m: nat, kernelCalls: seq<nat>, schedule: seq<Action>)
    requires n >= 1 && m >= 2
    ensures Effective(n, m, kernelCalls, schedule) <= Cost(n, kernelCalls, |kernelCalls|)
    ensures var s := Run(n, m, kernelCalls, schedule);
            (forall a :: Do(s, a) == s) ==> Finished(s)
  {
    var s := Run(n, m, kernelCalls, schedule);
    RunInv(n, m, kernelCalls, schedule);
    EffectiveBound(n, m, kernelCalls, schedule);
    ProgressBound(s);
    if !Finished(s) { NeverStuck(s); }
  }

  lemma StepProgress(s: State, a: Action)
    requires Inv(s) && Inv(Do(s, a)) && Do(s, a) != s
    ensures Progress(Do(s, a)) > Progress(s)
  {
    match a {
      case Host => HostProgress(s); return;
      case Worker(w) => WorkerSumGrows(s, w); return;
    }
  }

  lemma {:induction false} EffectiveBound(n: nat, m: nat, kernelCalls: seq<nat>, schedule: seq<Action>)
    requires n >= 1 && m >= 2 && Inv(Run(n, m, kernelCalls, schedule))
    ensures Effective(n, m, kernelCalls, schedule) <= Progress(Run(n, m, kernelCalls, schedule))
  {
    if schedule != [] {
      var before, a := schedule[..|schedule| - 1], schedule[|schedule| - 1];
      RunInv(n, m, kernelCalls, before);
      EffectiveBound(n, m, kernelCalls, before);
      if Do(Run(n, m, kernelCalls, before), a) != Run(n, m, kernelCalls, before) {
        StepProgress(Run(n, m, kernelCalls, before), a);
      }
    }
  }

  // ---------- the task object, updated in place

  /** The shared state of the kernel task and the program points of its threads.  `model` is the
      machine state that the fields implement; every method is one action of it. */
  class TaskKernelCpuThreads {
    const kernelCalls: seq<nat>
    const barrier: B.BarrierThread
    var host: HostPc
    var gridBlockIdx: nat
    var tasks: seq<Task>
    var fulfilled: set<nat>
    var threadToIndexMap: map<nat, nat>
    var idMasterThread: Option<nat>
    var workers: seq<WorkerPc>
    var waits: seq<B.Pc>
    ghost var model: State

    ghost predicate Valid()
      reads this, barrier
    {
      && Inv(model)
      && model == State(kernelCalls, host, gridBlockIdx, tasks, fulfilled, threadToIndexMap, idMasterThread,
                        model.bar, workers, model.poppedBy, model.base)
      && barrier.View() == model.bar.shared
      && |waits| == |model.bar.threads|
      && (forall w :: 0 <= w < |waits| ==> waits[w] == model.bar.threads[w].pc)
    }

    constructor (n: nat, m: nat, calls: seq<nat>)
      requires n >= 1 && m >= 2
      ensures Valid() && model == Init(n, m, calls) && fresh(barrier)
    {
      kernelCalls := calls;
      barrier := new B.BarrierThread(n, m);
      host, gridBlockIdx, tasks, fulfilled := NextBlock(0), 0, [], {};
      threadToIndexMap, idMasterThread := map[], None;
      workers, waits := seq(n, _ => Ready), seq(n, _ => B.Outside);
      model := Init(n, m, calls);
      InitInv(n, m, calls);
    }

    method StepHost()
      requires Valid()
      modifies this
      ensures Valid() && model == Do(old(model), Host)
    {
      StepInv(model, Host);
      model := Do(model, Host);
      match host
      case NextBlock(b) =>
        if b < |kernelCalls| {
          gridBlockIdx := b;
          host := Enqueuing(b, 0);
        }
      case Enqueuing(b, j) =>
        tasks := tasks + [Task(b, j)];
        host := if j + 1 < |workers| then Enqueuing(b, j + 1) else Waiting(b, 0);
      case Waiting(b, j) =>
        if j in fulfilled {
          host := if j + 1 < |workers| then Waiting(b, j + 1) else Clearing(b);
        }
      case Clearing(b) =>
        fulfilled := {};
        threadToIndexMap := map[];
        host := NextBlock(b + 1);
    }

    /** One step of a worker. */
    method StepWorker(w: nat)
      requires Valid() && w < |workers|
      modifies this, barrier
      ensures Valid() && model == Do(old(model), Worker(w))
    {
      if workers[w].Computing? || workers[w].Syncing? {
        StepBarrier(w);
      } else {
        StepTask(w);
      }
    }

    /** Outside the barrier: popping a task, registering the worker, and publishing the result. */
    method StepTask(w: nat)
      requires Valid() && w < |workers| && !workers[w].Computing? && !workers[w].Syncing?
      modifies this
      ensures Valid() && model == Do(old(model), Worker(w))
    {
      StepInv(model, Worker(w));
      model := Do(model, Worker(w));
      match workers[w]
      case Ready =>
        if tasks != [] {
          workers := workers[w := SetMaster(tasks[0].idx)];
          tasks := tasks[1..];
        }
      case SetMaster(i) =>
        if i == 0 { idMasterThread := Some(w); }
        workers := workers[w := Insert(i)];
      case Insert(i) =>
        if w !in threadToIndexMap { threadToIndexMap := threadToIndexMap[w := i]; }
        workers := workers[w := Computing(i, 0)];
      case Publish(i) =>
        fulfilled := fulfilled + {i};
        workers := workers[w := Ready];
    }

    /** Inside the barrier: one of its accesses. */
    method StepBarrier(w: nat)
      requires Valid() && w < |workers| && (workers[w].Computing? || workers[w].Syncing?)
      modifies this, barrier
      ensures Valid() && model == Do(old(model), Worker(w))
    {
      StepInv(model, Worker(w));
      model := Do(model, Worker(w));
      var pc := barrier.Step(waits[w]);
      waits := waits[w := pc];
      match workers[w]
      case Computing(i, k) =>
        workers := workers[w := Syncing(i, k)];
      case Syncing(i, k) =>
        if pc.Outside? {
          var calls := if gridBlockIdx < |kernelCalls| then kernelCalls[gridBlockIdx] + 2 else 2;
          workers := workers[w := if k + 1 < calls then Computing(i, k + 1) else Publish(i)];
        }
    }
  }
}
