/**
When a wait for an event returns too early (include/alpaka/event/EventGenericThreads.hpp): exactly when
can it return before the body of a given task has run, and which enqueues bring that about.
*/
module EventRelease {
  import opened Finite
  import opened Events
  import opened EventPromise
  import opened EventDeadlock

  /** The body of task j has not run. */
  predicate Undone(s: State, j: nat)
  {
    j < |s.tasks| && (s.tasks[j].phase.Pending? || s.tasks[j].phase.Blocked?)
  }

  /** A wait that has not returned. */
  predicate Waiting(s: State, w: nat)
  {
    Undone(s, w) && s.tasks[w].kind.Wait?
  }

  ghost predicate ReturnsBefore(s: State, w: nat, j: nat, ids: seq<nat>)
  {
    Returned(After(s, ids), w) && Undone(After(s, ids), j)
  }

  /** The workers can bring wait w to return before task j has run. */
  ghost predicate EarlyReturn(s: State, w: nat, j: nat)
  {
    exists ids: seq<nat> :: ReturnsBefore(s, w, j, ids)
  }

  ghost predicate Chain(r: (nat, nat) -> bool, p: seq<nat>, from: nat)
  {
    |p| > 0 && p[0] == from && forall k :: 0 <= k < |p| - 1 ==> r(p[k], p[k + 1])
  }

  /** No chain from w comes to j or comes back to where it has been. */
  ghost predicate Clear(r: (nat, nat) -> bool, w: nat, j: nat)
  {
    forall p: seq<nat> :: Chain(r, p, w) ==> Distinct(p) && p[|p| - 1] != j
  }

  ghost function NeedsOf(s: State): (nat, nat) -> bool
  {
    (i: nat, j: nat) => Needs(s, i, j)
  }

  lemma ClearSubset(r: (nat, nat) -> bool, r': (nat, nat) -> bool, w: nat, j: nat)
    requires Clear(r, w, j) && forall i: nat, k: nat :: r'(i, k) ==> r(i, k)
    ensures Clear(r', w, j)
  {
    forall p: seq<nat> | Chain(r', p, w) ensures Distinct(p) && p[|p| - 1] != j { assert Chain(r, p, w); }
  }

  // ---------- a wait can return early if its chains are clear

  /** Following the relation from w ends at a task that needs nobody, and that is not j. */
  lemma {:induction false} WalkFrom(s: State, w: nat, j: nat, p: seq<nat>) returns (i: nat)
    requires Clear(NeedsOf(s), w, j) && Chain(NeedsOf(s), p, w) && Open(s, w)
    ensures Free(s, i) && i != j
    decreases |s.tasks| - |p|
  {
    var n := |p| - 1;
    forall k | 0 <= k < |p| ensures Open(s, p[k]) { assert k > 0 ==> NeedsOf(s)(p[k - 1], p[k]); }
    DistinctCovers(p, |s.tasks|);
    i := p[n];
    if k: nat :| Needs(s, i, k) {
      assert Chain(NeedsOf(s), p + [k], w);
      DistinctCovers(p + [k], |s.tasks|);
      i := WalkFrom(s, w, j, p + [k]);
    }
  }

  lemma FreeWaitMoves(s: State, i: nat, w: nat)
    requires Inv(s) && Free(s, i) && Waiting(s, w)
    ensures var s' := Do(s, Step(i));
            Inv(s') && (Returned(s', w) || Waiting(s', w)) && forall j: nat :: Undone(s, j) && j != i ==> Undone(s', j)
  {
    StepInv(s, Step(i));
    if AtHead(s, i) { StepEffect(s, i); }
  }

  lemma {:induction false} ReleaseSteps(s: State, w: nat, j: nat) returns (ids: seq<nat>)
    requires Inv(s) && Waiting(s, w) && Undone(s, j) && Clear(NeedsOf(s), w, j)
    ensures ReturnsBefore(s, w, j, ids)
    decreases Sum(Ranks(s))
  {
    var i := WalkFrom(s, w, j, [w]);
    var s' := Do(s, Step(i));
    FreeStep(s, i);
    StepPays(s, i);
    FreeWaitMoves(s, i, w);
    if Returned(s', w) {
      ids := [i];
      assert After(s, ids) == After(s', ids[1..]);
    } else {
      forall k: nat, l: nat | NeedsOf(s')(k, l) ensures NeedsOf(s)(k, l) { NeedsShrink(s, i, k, l); }
      ClearSubset(NeedsOf(s), NeedsOf(s'), w, j);
      var rest := ReleaseSteps(s', w, j);
      ids := [i] + rest;
      assert ids[1..] == rest;
    }
  }

  // ---------- and only then

  lemma NeedyIsUndone(s: State, i: nat, k: nat)
    requires Inv(s) && Needs(s, i, k)
    ensures Undone(s, i)
  {
    assert TaskOk(s, i);
  }

  /** A need stays while the body of the needed task has not run. */
  lemma UndoneNeedStays(s: State, id: nat, i: nat, j: nat)
    requires Inv(s) && Needs(s, i, j) && Undone(Do(s, Step(id)), j)
    ensures Needs(Do(s, Step(id)), i, j)
  {
    if id == i {
      NeedyStep(s, i, j);
    } else if AtHead(s, id) {
      StepEffect(s, id);
      assert TaskOk(s, id);
      if WaitsFor(s, i, j) { assert EventOk(s, s.tasks[i].kind.event); }
    }
  }

  lemma StaysDone(s: State, id: nat, j: nat)
    requires Undone(Do(s, Step(id)), j)
    ensures Undone(s, j)
  {
    if AtHead(s, id) { StepEffect(s, id); }
  }

  lemma {:induction false} StaysDoneAfter(s: State, ids: seq<nat>, j: nat)
    requires Undone(After(s, ids), j)
    ensures Undone(s, j)
    decreases |ids|
  {
    if ids != [] {
      StaysDoneAfter(Do(s, Step(ids[0])), ids[1..], j);
      StaysDone(s, ids[0], j);
    }
  }

  /** A chain that comes to j, or comes back, survives every step until j has run. */
  lemma ChainToStays(s: State, id: nat, w: nat, j: nat, p: seq<nat>)
    requires Inv(s) && Chain(NeedsOf(s), p, w) && p[|p| - 1] == j && Undone(Do(s, Step(id)), j)
    ensures Chain(NeedsOf(Do(s, Step(id))), p, w)
  {
    forall k | 0 <= k < |p| - 1 ensures NeedsOf(Do(s, Step(id)))(p[k], p[k + 1]) {
      assert NeedsOf(s)(p[k], p[k + 1]);
      if k + 1 == |p| - 1 {
        UndoneNeedStays(s, id, p[k], j);
      } else {
        assert NeedsOf(s)(p[k + 1], p[k + 2]);
        NeedStays(s, id, p[k], p[k + 1], p[k + 2]);
      }
    }
  }

  lemma ChainBackStays(s: State, id: nat, w: nat, p: seq<nat>, a: nat, b: nat)
    requires Inv(s) && Chain(NeedsOf(s), p, w) && a < b < |p| && p[a] == p[b]
    ensures Chain(NeedsOf(Do(s, Step(id))), p[..b + 1], w) && !Distinct(p[..b + 1])
  {
    var q := p[..b + 1];
    assert q[a] == q[b];
    forall k | 0 <= k < b ensures NeedsOf(Do(s, Step(id)))(q[k], q[k + 1]) {
      var next := if k + 1 < b then k + 1 else a;
      assert NeedsOf(s)(p[k], p[k + 1]) && NeedsOf(s)(p[next], p[next + 1]);
      NeedStays(s, id, p[k], p[k + 1], p[next + 1]);
    }
  }

  lemma NotClearStays(s: State, id: nat, w: nat, j: nat)
    requires Inv(s) && Waiting(s, w) && !Clear(NeedsOf(s), w, j) && Undone(Do(s, Step(id)), j)
    ensures !Clear(NeedsOf(Do(s, Step(id))), w, j) && Waiting(Do(s, Step(id)), w)
  {
    var s' := Do(s, Step(id));
    StepInv(s, Step(id));
    var p: seq<nat> :| Chain(NeedsOf(s), p, w) && (!Distinct(p) || p[|p| - 1] == j);
    if p[|p| - 1] == j {
      ChainToStays(s, id, w, j, p);
    } else {
      var a: nat, b: nat :| a < b < |p| && p[a] == p[b];
      ChainBackStays(s, id, w, p, a, b);
      p := p[..b + 1];
    }
    if |p| > 1 {
      assert NeedsOf(s')(p[0], p[1]);
      NeedyIsUndone(s', w, p[1]);
    }
    if AtHead(s, id) { StepEffect(s, id); }
  }

  lemma {:induction false} NotClearHolds(s: State, w: nat, j: nat, ids: seq<nat>)
    requires Inv(s) && Waiting(s, w) && !Clear(NeedsOf(s), w, j)
    ensures !ReturnsBefore(s, w, j, ids)
    decreases |ids|
  {
    if ids != [] && ReturnsBefore(s, w, j, ids) {
      var s' := Do(s, Step(ids[0]));
      StaysDoneAfter(s', ids[1..], j);
      NotClearStays(s, ids[0], w, j);
      StepInv(s, Step(ids[0]));
      NotClearHolds(s', w, j, ids[1..]);
      assert ReturnsBefore(s', w, j, ids[1..]);
    }
  }

  /** The workers can bring a wait to return before task j has run exactly if no chain of needs leads
      from the wait to j or round in a circle. */
  lemma ReturnsEarlyIff(s: State, w: nat, j: nat)
    requires Inv(s) && Waiting(s, w) && Undone(s, j)
    ensures EarlyReturn(s, w, j) <==> Clear(NeedsOf(s), w, j)
  {
    if Clear(NeedsOf(s), w, j) {
      var ids := ReleaseSteps(s, w, j);
    } else {
      forall ids: seq<nat> ensures !ReturnsBefore(s, w, j, ids) { NotClearHolds(s, w, j, ids); }
    }
  }

  /** With task j in the queue before the enqueue that w waits for, that is a broken promise. */
  lemma EarlyIsBroken(s: State, w: nat, j: nat)
    requires Inv(s) && Returned(s, w) && Undone(s, j) && s.tasks[w].kind.count > 0
    requires s.tasks[w].kind.event < |s.events| && s.tasks[w].kind.count <= |s.events[s.tasks[w].kind.event].marks|
    requires var f := s.events[s.tasks[w].kind.event].marks[s.tasks[w].kind.count - 1];
             f.Of? && f.id < |s.tasks| && j < f.id && s.tasks[f.id].queue == s.tasks[j].queue
    ensures !Kept(s, w)
  {
    var k := s.events[s.tasks[w].kind.event].marks[s.tasks[w].kind.count - 1].id;
    assert !AllBefore(s, k);
  }

  // ---------- which enqueues bring it about

  /** Task i needs k for another reason than that k is the latest marker of event e. */
  predicate OtherwiseNeeds(s: State, e: nat, i: nat, k: nat)
  {
    && Open(s, i) && Open(s, k)
    && (|| (k < i && s.tasks[k].queue == s.tasks[i].queue)
        || (s.tasks[i].phase.Blocked? && s.tasks[i].phase.f == Of(k))
        || (WaitsFor(s, i, k) && s.tasks[i].kind.event != e))
  }

  ghost function Otherwise(s: State, e: nat): (nat, nat) -> bool
  {
    (i: nat, k: nat) => OtherwiseNeeds(s, e, i, k)
  }

  /** A chain of such needs leads from task i to a wait that is waiting for event e. */
  ghost predicate ToWait(s: State, e: nat, i: nat)
  {
    exists p: seq<nat> :: Chain(Otherwise(s, e), p, i) && Outstanding(s, p[|p| - 1], e)
  }

  lemma SameRelation(r: (nat, nat) -> bool, r': (nat, nat) -> bool, w: nat, j: nat)
    requires forall i: nat, k: nat :: r(i, k) <==> r'(i, k)
    ensures Clear(r, w, j) <==> Clear(r', w, j)
  {
    if Clear(r, w, j) { ClearSubset(r, r', w, j); }
    if Clear(r', w, j) { ClearSubset(r', r, w, j); }
  }

  lemma StepReleasesNothing(s: State, id: nat, w: nat, j: nat)
    requires EarlyReturn(Do(s, Step(id)), w, j)
    ensures EarlyReturn(s, w, j)
  {
    var ids: seq<nat> :| ReturnsBefore(Do(s, Step(id)), w, j, ids);
    assert ([id] + ids)[1..] == ids;
    assert ReturnsBefore(s, w, j, [id] + ids);
  }

  /** Work, waits and the workers' own steps never make an early return possible. */
  lemma OnlyEnqueuesRelease(s: State, a: Action, w: nat, j: nat)
    requires Inv(s) && !a.AddMarker? && !a.AddBlocking? && Waiting(s, w) && Undone(s, j)
    requires EarlyReturn(Do(s, a), w, j)
    ensures EarlyReturn(s, w, j)
  {
    if a.Step? {
      StepReleasesNothing(s, a.id, w, j);
    } else {
      StepInv(s, a);
      ReturnsEarlyIff(s, w, j);
      ReturnsEarlyIff(Do(s, a), w, j);
      NeedsAreKept(s, a);
      ClearSubset(NeedsOf(Do(s, a)), NeedsOf(s), w, j);
    }
  }

  lemma NeedsAreKept(s: State, a: Action)
    requires !a.Step? && !a.AddMarker? && !a.AddBlocking?
    ensures forall i: nat, k: nat :: NeedsOf(s)(i, k) ==> NeedsOf(Do(s, a))(i, k)
  {
  }

  /** An enqueue of event e into a blocking queue makes it possible exactly if no chain of needs other
      than for e's latest marker leads from w to j or in a circle. */
  lemma BlockingReleasesIff(s: State, e: nat, w: nat, j: nat)
    requires Inv(s) && e < |s.events| && Waiting(s, w) && Undone(s, j)
    ensures EarlyReturn(Do(s, AddBlocking(e)), w, j) <==> Clear(Otherwise(s, e), w, j)
  {
    var s' := Do(s, AddBlocking(e));
    StepInv(s, AddBlocking(e));
    ReturnsEarlyIff(s', w, j);
    FuturesAreOld(s);
    SameRelation(NeedsOf(s'), Otherwise(s, e), w, j);
  }

  /** The relation after event e was enqueued into queue q. */
  lemma MarkerNeeds(s: State, q: nat, e: nat, i: nat, k: nat)
    requires Inv(s) && e < |s.events|
    ensures var n := |s.tasks|;
            NeedsOf(Do(s, AddMarker(q, e)))(i, k) <==>
              if i == n then Open(s, k) && s.tasks[k].queue == q
              else if k == n then Outstanding(s, i, e)
              else Otherwise(s, e)(i, k)
  {
    FuturesAreOld(s);
  }

  /** Behind the new marker the chains have to be clear as well, if a chain comes to it at all. */
  ghost predicate ClearBehind(s: State, q: nat, e: nat, j: nat)
  {
    forall x: nat :: Open(s, x) && s.tasks[x].queue == q ==> Clear(Otherwise(s, e), x, j) && !ToWait(s, e, x)
  }

  /** The chains of the new state that avoid the new marker. */
  lemma OldChain(s: State, q: nat, e: nat, p: seq<nat>, from: nat)
    requires Inv(s) && e < |s.events| && |s.tasks| !in p
    ensures Chain(NeedsOf(Do(s, AddMarker(q, e))), p, from) <==> Chain(Otherwise(s, e), p, from)
  {
    forall k | 0 <= k < |p| - 1
      ensures NeedsOf(Do(s, AddMarker(q, e)))(p[k], p[k + 1]) <==> Otherwise(s, e)(p[k], p[k + 1])
    {
      MarkerNeeds(s, q, e, p[k], p[k + 1]);
    }
  }

  /** The members of a chain of old needs that starts at an old task are old tasks. */
  lemma OldMembers(s: State, e: nat, p: seq<nat>, from: nat)
    requires Chain(Otherwise(s, e), p, from) && from < |s.tasks|
    ensures |s.tasks| !in p
  {
    forall k | 0 <= k < |p| ensures p[k] < |s.tasks| { assert k > 0 ==> Otherwise(s, e)(p[k - 1], p[k]); }
  }

  /** A chain to a wait for e, the new marker, and a chain from behind it. */
  lemma ThroughMarker(s: State, q: nat, e: nat, w: nat, u: seq<nat>, x: nat, v: seq<nat>)
    requires Inv(s) && e < |s.events| && w < |s.tasks| && Open(s, x) && s.tasks[x].queue == q
    requires Chain(Otherwise(s, e), u, w) && Outstanding(s, u[|u| - 1], e) && Chain(Otherwise(s, e), v, x)
    ensures var r := NeedsOf(Do(s, AddMarker(q, e)));
            && Chain(r, u + [|s.tasks|] + v, w)
            && (Outstanding(s, v[|v| - 1], e) ==> Chain(r, u + [|s.tasks|] + v + [|s.tasks|], w))
  {
    var n, r := |s.tasks|, NeedsOf(Do(s, AddMarker(q, e)));
    OldMembers(s, e, u, w);
    OldMembers(s, e, v, x);
    OldChain(s, q, e, u, w);
    OldChain(s, q, e, v, x);
    MarkerNeeds(s, q, e, u[|u| - 1], n);
    MarkerNeeds(s, q, e, n, x);
    MarkerNeeds(s, q, e, v[|v| - 1], n);
    var p := u + [n] + v;
    forall k | 0 <= k < |p| - 1 ensures r(p[k], p[k + 1]) {
      if k < |u| - 1 { assert r(u[k], u[k + 1]); }
      if k > |u| { assert r(v[k - |u| - 1], v[k - |u|]); }
    }
  }

  lemma BehindChain(s: State, q: nat, e: nat, w: nat, j: nat, u: seq<nat>, x: nat, v: seq<nat>)
    requires Inv(s) && e < |s.events| && w < |s.tasks| && Clear(NeedsOf(Do(s, AddMarker(q, e))), w, j)
    requires Open(s, x) && s.tasks[x].queue == q
    requires Chain(Otherwise(s, e), u, w) && Outstanding(s, u[|u| - 1], e) && Chain(Otherwise(s, e), v, x)
    ensures Distinct(v) && v[|v| - 1] != j && !Outstanding(s, v[|v| - 1], e)
  {
    ThroughMarker(s, q, e, w, u, x, v);
    DistinctParts(u, |s.tasks|, v);
    assert (u + [|s.tasks|] + v)[|u| + |v|] == v[|v| - 1];
  }

  lemma DistinctParts(u: seq<nat>, n: nat, v: seq<nat>)
    ensures Distinct(u + [n] + v) ==> Distinct(v)
    ensures !Distinct(u + [n] + v + [n])
  {
    assert (u + [n] + v + [n])[|u|] == (u + [n] + v + [n])[|u| + |v| + 1];
    forall a, b | 0 <= a < b < |v| && Distinct(u + [n] + v) ensures v[a] != v[b] {
      assert (u + [n] + v)[|u| + 1 + a] != (u + [n] + v)[|u| + 1 + b];
    }
  }

  lemma MarkerClearThen(s: State, q: nat, e: nat, w: nat, j: nat)
    requires Inv(s) && e < |s.events| && w < |s.tasks| && Clear(NeedsOf(Do(s, AddMarker(q, e))), w, j)
    ensures Clear(Otherwise(s, e), w, j) && (ToWait(s, e, w) ==> ClearBehind(s, q, e, j))
  {
    forall p: seq<nat> | Chain(Otherwise(s, e), p, w) ensures Distinct(p) && p[|p| - 1] != j {
      OldMembers(s, e, p, w);
      OldChain(s, q, e, p, w);
    }
    if ToWait(s, e, w) {
      var u: seq<nat> :| Chain(Otherwise(s, e), u, w) && Outstanding(s, u[|u| - 1], e);
      forall x: nat, v: seq<nat> | Open(s, x) && s.tasks[x].queue == q && Chain(Otherwise(s, e), v, x)
        ensures Distinct(v) && v[|v| - 1] != j && !Outstanding(s, v[|v| - 1], e)
      {
        BehindChain(s, q, e, w, j, u, x, v);
      }
    }
  }

  /** What is behind the new marker and leads to no wait for e has nothing in common with a chain that does. */
  lemma PartsDiffer(s: State, e: nat, u: seq<nat>, v: seq<nat>, a: nat, b: nat)
    requires |u| > 0 && Chain(Otherwise(s, e), u, u[0]) && Outstanding(s, u[|u| - 1], e)
    requires |v| > 0 && Chain(Otherwise(s, e), v, v[0]) && !ToWait(s, e, v[0])
    requires a < |u| && b < |v|
    ensures u[a] != v[b]
  {
    if u[a] == v[b] {
      var c := v[..b] + u[a..];
      forall k | 0 <= k < |c| - 1 ensures Otherwise(s, e)(c[k], c[k + 1]) {
        var l := a + k - b;
        if k < b { assert Otherwise(s, e)(v[k], v[k + 1]); } else { assert Otherwise(s, e)(u[l], u[l + 1]); }
      }
      assert Chain(Otherwise(s, e), c, v[0]);
    }
  }

  lemma DistinctAround(p: seq<nat>, m: nat, u: seq<nat>, v: seq<nat>)
    requires m < |p| && u == p[..m] && v == p[m + 1..]
    requires Distinct(u) && Distinct(v) && p[m] !in u && p[m] !in v
    requires forall a: nat, b: nat :: a < |u| && b < |v| ==> u[a] != v[b]
    ensures Distinct(p)
  {
    forall a, b | 0 <= a < b < |p| ensures p[a] != p[b] {
      if a < m && b > m { assert u[a] != v[b - m - 1]; }
      if a < m && b < m { assert u[a] != u[b]; }
      if a > m { assert v[a - m - 1] != v[b - m - 1]; }
      if a == m { assert p[b] == v[b - m - 1]; }
      if b == m { assert p[a] == u[a]; }
    }
  }

  lemma FrontOfMarker(s: State, q: nat, e: nat, w: nat, p: seq<nat>, m: nat)
    requires Inv(s) && e < |s.events| && w < |s.tasks|
    requires Chain(NeedsOf(Do(s, AddMarker(q, e))), p, w) && 0 < m < |p| && p[m] == |s.tasks| && |s.tasks| !in p[..m]
    ensures Chain(Otherwise(s, e), p[..m], w) && Outstanding(s, p[m - 1], e) && ToWait(s, e, w)
  {
    var r := NeedsOf(Do(s, AddMarker(q, e)));
    SubChain(r, p, w, 0, m);
    assert r(p[m - 1], p[m]);
    BeforeMarker(s, q, e, w, p[..m]);
  }

  lemma BackOfMarker(s: State, q: nat, e: nat, w: nat, j: nat, p: seq<nat>, m: nat)
    requires Inv(s) && e < |s.events| && ClearBehind(s, q, e, j)
    requires Chain(NeedsOf(Do(s, AddMarker(q, e))), p, w) && m < |p| - 1 && p[m] == |s.tasks|
    ensures var v := p[m + 1..];
            && |s.tasks| !in v && Chain(Otherwise(s, e), v, v[0]) && Distinct(v) && v[|v| - 1] != j
            && !ToWait(s, e, v[0])
  {
    var r := NeedsOf(Do(s, AddMarker(q, e)));
    assert r(p[m], p[m + 1]);
    SubChain(r, p, w, m + 1, |p|);
    BehindMarker(s, q, e, j, p[m + 1..]);
  }

  lemma ChainThroughMarker(s: State, q: nat, e: nat, w: nat, j: nat, p: seq<nat>, m: nat)
    requires Inv(s) && e < |s.events| && w < |s.tasks| && j < |s.tasks| && Clear(Otherwise(s, e), w, j)
    requires ToWait(s, e, w) ==> ClearBehind(s, q, e, j)
    requires Chain(NeedsOf(Do(s, AddMarker(q, e))), p, w) && 0 < m < |p| && p[m] == |s.tasks| && |s.tasks| !in p[..m]
    ensures Distinct(p) && p[|p| - 1] != j
  {
    FrontOfMarker(s, q, e, w, p, m);
    var u, v := p[..m], p[m + 1..];
    if |v| > 0 {
      BackOfMarker(s, q, e, w, j, p, m);
      forall a: nat, b: nat | a < |u| && b < |v| ensures u[a] != v[b] { PartsDiffer(s, e, u, v, a, b); }
    }
    DistinctAround(p, m, u, v);
  }

  lemma BeforeMarker(s: State, q: nat, e: nat, w: nat, u: seq<nat>)
    requires Inv(s) && e < |s.events| && w < |s.tasks| && |s.tasks| !in u
    requires Chain(NeedsOf(Do(s, AddMarker(q, e))), u, w) && Needs(Do(s, AddMarker(q, e)), u[|u| - 1], |s.tasks|)
    ensures Chain(Otherwise(s, e), u, w) && Outstanding(s, u[|u| - 1], e) && ToWait(s, e, w)
  {
    OldChain(s, q, e, u, w);
    MarkerNeeds(s, q, e, u[|u| - 1], |s.tasks|);
  }

  lemma BehindMarker(s: State, q: nat, e: nat, j: nat, v: seq<nat>)
    requires Inv(s) && e < |s.events| && |v| > 0 && ClearBehind(s, q, e, j)
    requires Chain(NeedsOf(Do(s, AddMarker(q, e))), v, v[0]) && Needs(Do(s, AddMarker(q, e)), |s.tasks|, v[0])
    ensures |s.tasks| !in v && Chain(Otherwise(s, e), v, v[0]) && Distinct(v) && v[|v| - 1] != j && !ToWait(s, e, v[0])
  {
    MarkerNeeds(s, q, e, |s.tasks|, v[0]);
    NoSecondVisit(s, q, e, v);
    OldChain(s, q, e, v, v[0]);
  }

  lemma SubChain(r: (nat, nat) -> bool, p: seq<nat>, w: nat, a: nat, b: nat)
    requires Chain(r, p, w) && a < b <= |p|
    ensures Chain(r, p[a..b], p[a])
  {
    forall k | 0 <= k < b - a - 1 ensures r(p[a..b][k], p[a..b][k + 1]) { assert r(p[a + k], p[a + k + 1]); }
  }

  lemma {:induction false} NoSecondVisit(s: State, q: nat, e: nat, v: seq<nat>)
    requires Inv(s) && e < |s.events| && |v| > 0 && Open(s, v[0]) && !ToWait(s, e, v[0])
    requires Chain(NeedsOf(Do(s, AddMarker(q, e))), v, v[0])
    ensures |s.tasks| !in v
    decreases |v|
  {
    var k := |v| - 1;
    if k > 0 {
      NoSecondVisit(s, q, e, v[..k]);
      assert NeedsOf(Do(s, AddMarker(q, e)))(v[k - 1], v[k]);
      if v[k] == |s.tasks| { BeforeMarker(s, q, e, v[0], v[..k]); }
    }
  }

  lemma MarkerChainClear(s: State, q: nat, e: nat, w: nat, j: nat, p: seq<nat>)
    requires Inv(s) && e < |s.events| && w < |s.tasks| && j < |s.tasks| && Clear(Otherwise(s, e), w, j)
    requires ToWait(s, e, w) ==> ClearBehind(s, q, e, j)
    requires Chain(NeedsOf(Do(s, AddMarker(q, e))), p, w)
    ensures Distinct(p) && p[|p| - 1] != j
  {
    var n := |s.tasks|;
    if n in p {
      var m := First(p, n);
      ChainThroughMarker(s, q, e, w, j, p, m);
    } else {
      OldChain(s, q, e, p, w);
    }
  }

  lemma MarkerClearIf(s: State, q: nat, e: nat, w: nat, j: nat)
    requires Inv(s) && e < |s.events| && w < |s.tasks| && j < |s.tasks| && Clear(Otherwise(s, e), w, j)
    requires ToWait(s, e, w) ==> ClearBehind(s, q, e, j)
    ensures Clear(NeedsOf(Do(s, AddMarker(q, e))), w, j)
  {
    forall p: seq<nat> | Chain(NeedsOf(Do(s, AddMarker(q, e))), p, w) ensures Distinct(p) && p[|p| - 1] != j {
      MarkerChainClear(s, q, e, w, j, p);
    }
  }

  lemma {:induction false} First(p: seq<nat>, x: nat) returns (m: nat)
    requires x in p
    ensures m < |p| && p[m] == x && x !in p[..m]
  {
    m := 0;
    if p[0] != x {
      m := First(p[1..], x);
      m := m + 1;
      assert p[..m] == [p[0]] + p[1..][..m - 1];
    }
  }

  /** An enqueue of event e into queue q, busy or not, makes it possible exactly if the same holds and,
      in case such a chain leads from w to a wait for e, the tasks of queue q have no chain to j, to a
      wait for e, or in a circle either. */
  lemma MarkerReleasesIff(s: State, q: nat, e: nat, w: nat, j: nat)
    requires Inv(s) && e < |s.events| && Waiting(s, w) && Undone(s, j)
    ensures EarlyReturn(Do(s, AddMarker(q, e)), w, j)
       <==> Clear(Otherwise(s, e), w, j) && (ToWait(s, e, w) ==> ClearBehind(s, q, e, j))
  {
    StepInv(s, AddMarker(q, e));
    ReturnsEarlyIff(Do(s, AddMarker(q, e)), w, j);
    if Clear(NeedsOf(Do(s, AddMarker(q, e))), w, j) { MarkerClearThen(s, q, e, w, j); }
    if Clear(Otherwise(s, e), w, j) && (ToWait(s, e, w) ==> ClearBehind(s, q, e, j)) { MarkerClearIf(s, q, e, w, j); }
  }

  lemma FirstLink(r: (nat, nat) -> bool, p: seq<nat>, w: nat)
    requires Chain(r, p, w) && |p| > 1
    ensures r(w, p[1])
  {
    assert r(p[0], p[1]);
  }

  /** For a wait that is about to look at its event: a blocking enqueue always does, another one exactly
      if the chains behind the new marker are clear; always if its queue is idle. */
  lemma HeadReleasedIff(s: State, q: nat, w: nat, j: nat)
    requires Inv(s) && Waiting(s, w) && Undone(s, j) && j != w && AtHead(s, w) && s.tasks[w].phase.Pending?
    requires Outstanding(s, w, s.tasks[w].kind.event)
    ensures var e := s.tasks[w].kind.event;
            && EarlyReturn(Do(s, AddBlocking(e)), w, j)
            && (EarlyReturn(Do(s, AddMarker(q, e)), w, j) <==> ClearBehind(s, q, e, j))
  {
    var e := s.tasks[w].kind.event;
    assert forall k: nat :: !Otherwise(s, e)(w, k);
    forall p: seq<nat> | Chain(Otherwise(s, e), p, w) ensures p == [w] {
      if |p| > 1 { FirstLink(Otherwise(s, e), p, w); }
    }
    BlockingReleasesIff(s, e, w, j);
    MarkerReleasesIff(s, q, e, w, j);
    assert Chain(Otherwise(s, e), [w], w);
  }

  // ---------- whatever is enqueued

  function Later(s: State, more: seq<Action>): State
    decreases |more|
  {
    if more == [] then s else Later(Do(s, more[0]), more[1..])
  }

  /** A need that no enqueue can redirect: the order of a queue, and a future that a wait has copied. */
  predicate Firmly(s: State, i: nat, k: nat)
  {
    && Open(s, i) && Open(s, k)
    && ((k < i && s.tasks[k].queue == s.tasks[i].queue) || (s.tasks[i].phase.Blocked? && s.tasks[i].phase.f == Of(k)))
  }

  ghost function FirmOf(s: State): (nat, nat) -> bool
  {
    (i: nat, k: nat) => Firmly(s, i, k)
  }

  ghost predicate ReturnsBeforeIn(s: State, w: nat, j: nat, more: seq<Action>)
  {
    Returned(Later(s, more), w) && Undone(Later(s, more), j)
  }

  lemma {:induction false} LaterSteps(s: State, ids: seq<nat>)
    ensures Later(s, Steps(ids)) == After(s, ids)
    decreases |ids|
  {
    if ids != [] {
      LaterSteps(Do(s, Step(ids[0])), ids[1..]);
      assert Steps(ids)[1..] == Steps(ids[1..]);
    }
  }

  lemma {:induction false} LaterAppend(s: State, first: seq<Action>, second: seq<Action>)
    ensures Later(s, first + second) == Later(Later(s, first), second)
    decreases |first|
  {
    if first == [] {
      assert first + second == second;
    } else {
      LaterAppend(Do(s, first[0]), first[1..], second);
      assert (first + second)[1..] == first[1..] + second;
    }
  }

  /** Events below m have been enqueued into a blocking queue. */
  lemma {:induction false} EnqueueAll(s: State, m: nat) returns (more: seq<Action>)
    requires Inv(s) && m <= |s.events|
    ensures var s' := Later(s, more);
            && Inv(s') && s'.tasks == s.tasks && |s'.events| == |s.events|
            && forall e: nat :: e < m ==> IsReady(s'.events[e])
  {
    if m == 0 {
      more := [];
    } else {
      more := EnqueueAll(s, m - 1);
      var last := AddBlocking(m - 1);
      LaterAppend(s, more, [last]);
      StepInv(Later(s, more), last);
      more := more + [last];
    }
  }

  lemma FirmStays(s: State, a: Action, i: nat, k: nat)
    requires Inv(s) && Firmly(s, i, k) && Undone(Do(s, a), k)
    ensures Firmly(Do(s, a), i, k)
  {
    if a.Step? && AtHead(s, a.id) { StepEffect(s, a.id); assert TaskOk(s, i); }
  }

  lemma FirmUndone(s: State, a: Action, i: nat, k: nat)
    requires Inv(s) && Firmly(s, i, k)
    ensures Undone(Do(s, a), i)
  {
    assert TaskOk(s, i);
    if a.Step? && AtHead(s, a.id) { StepEffect(s, a.id); }
  }

  lemma FirmChainStays(s: State, a: Action, w: nat, p: seq<nat>, next: nat)
    requires Inv(s) && Chain(FirmOf(s), p, w) && (Undone(Do(s, a), p[|p| - 1]) || Firmly(s, p[|p| - 1], next))
    ensures Chain(FirmOf(Do(s, a)), p, w)
  {
    forall k | 0 <= k < |p| - 1 ensures FirmOf(Do(s, a))(p[k], p[k + 1]) {
      assert FirmOf(s)(p[k], p[k + 1]);
      if k + 2 < |p| { assert FirmOf(s)(p[k + 1], p[k + 2]); }
      if !Undone(Do(s, a), p[k + 1]) { FirmUndone(s, a, p[k + 1], if k + 2 < |p| then p[k + 2] else next); }
      FirmStays(s, a, p[k], p[k + 1]);
    }
  }

  lemma NotFirmlyClearStays(s: State, a: Action, w: nat, j: nat)
    requires Inv(s) && Waiting(s, w) && !Clear(FirmOf(s), w, j) && Undone(Do(s, a), j)
    ensures !Clear(FirmOf(Do(s, a)), w, j) && Waiting(Do(s, a), w)
  {
    var s' := Do(s, a);
    var p: seq<nat> :| Chain(FirmOf(s), p, w) && (!Distinct(p) || p[|p| - 1] == j);
    if p[|p| - 1] == j {
      FirmChainStays(s, a, w, p, j);
    } else {
      var c: nat, b: nat :| c < b < |p| && p[c] == p[b];
      assert FirmOf(s)(p[c], p[c + 1]);
      p := p[..b + 1];
      assert p[c] == p[b];
      FirmChainStays(s, a, w, p, p[c + 1]);
    }
    if |p| > 1 {
      assert FirmOf(s)(p[0], p[1]);
      FirmUndone(s, a, w, p[1]);
    }
    if a.Step? && AtHead(s, a.id) { StepEffect(s, a.id); }
  }

  lemma UndoneBefore(s: State, a: Action, j: nat)
    requires Undone(Do(s, a), j) && j < |s.tasks|
    ensures Undone(s, j)
  {
    if a.Step? { StaysDone(s, a.id, j); }
  }

  lemma {:induction false} UndoneEarlier(s: State, more: seq<Action>, j: nat)
    requires Undone(Later(s, more), j) && j < |s.tasks|
    ensures Undone(s, j)
    decreases |more|
  {
    if more != [] {
      UndoneEarlier(Do(s, more[0]), more[1..], j);
      UndoneBefore(s, more[0], j);
    }
  }

  lemma {:induction false} NotFirmlyClearHolds(s: State, w: nat, j: nat, more: seq<Action>)
    requires Inv(s) && Waiting(s, w) && j < |s.tasks| && !Clear(FirmOf(s), w, j)
    ensures !ReturnsBeforeIn(s, w, j, more)
    decreases |more|
  {
    if more != [] && ReturnsBeforeIn(s, w, j, more) {
      var s' := Do(s, more[0]);
      assert |s'.tasks| >= |s.tasks| by { if more[0].Step? && AtHead(s, more[0].id) { StepEffect(s, more[0].id); } }
      UndoneEarlier(s', more[1..], j);
      NotFirmlyClearStays(s, more[0], w, j);
      StepInv(s, more[0]);
      NotFirmlyClearHolds(s', w, j, more[1..]);
      assert ReturnsBeforeIn(s', w, j, more[1..]);
    }
  }

  /** Over all continuations, enqueues included: wait w can return before task j has run exactly if no
      chain of queue order and copied futures leads from w to j or round in a circle. */
  lemma EverReturnsEarlyIff(s: State, w: nat, j: nat)
    requires Inv(s) && Waiting(s, w) && Undone(s, j)
    ensures (exists more: seq<Action> :: ReturnsBeforeIn(s, w, j, more)) <==> Clear(FirmOf(s), w, j)
  {
    if Clear(FirmOf(s), w, j) {
      var enqueues := EnqueueAll(s, |s.events|);
      var s' := Later(s, enqueues);
      FuturesAreOld(s');
      SameRelation(NeedsOf(s'), FirmOf(s), w, j);
      var ids := ReleaseSteps(s', w, j);
      LaterSteps(s', ids);
      LaterAppend(s, enqueues, Steps(ids));
      assert ReturnsBeforeIn(s, w, j, enqueues + Steps(ids));
    } else {
      forall more: seq<Action> ensures !ReturnsBeforeIn(s, w, j, more) { NotFirmlyClearHolds(s, w, j, more); }
    }
  }

  /** So a wait that has copied the future of a marker behind task j never returns before j has run. */
  lemma CopiedFutureIsSafe(s: State, w: nat, k: nat, j: nat, more: seq<Action>)
    requires Inv(s) && Waiting(s, w) && s.tasks[w].phase == Blocked(Of(k)) && Open(s, k)
    requires Undone(s, j) && j < k && s.tasks[j].queue == s.tasks[k].queue
    ensures Returned(Later(s, more), w) ==> !Undone(Later(s, more), j)
  {
    assert FirmOf(s)(w, k) && FirmOf(s)(k, j);
    assert Chain(FirmOf(s), [w, k, j], w);
    NotFirmlyClearHolds(s, w, j, more);
  }
}
