/**
The barrier with predicate of include/alpaka/core/BarrierThread.hpp: `wait<TOp>(predicate)` returns
the count, conjunction or disjunction of the predicates of all callers of the same round.  Two result
slots, chosen by the parity of the generation, serve any number of rounds.
*/
module PredicateBarrier {
  import opened Arithmetic
  import opened Finite

  datatype Op = BlockCount | BlockAnd | BlockOr

  function InitialValue(op: Op): int
  {
    if op.BlockAnd? then 1 else 0
  }

  /** `result += b`, `result &= b` and `result |= b` for a predicate converted to 0 or 1. */
  function Combine(op: Op, result: int, b: bool): int
  {
    match op
    case BlockCount => if b then result + 1 else result
    case BlockAnd => if b then result % 2 else 0
    case BlockOr => if b && result % 2 == 0 then result + 1 else result
  }

  datatype Pc =
    | Outside
    | Loaded(gen: nat)               // read m_generation, about to take the mutex
    | Waiting(gen: nat, slot: nat)   // blocked on the condition variable

  datatype Shared = Shared(n: nat, m: nat, count: int, gen: nat, result: seq<int>)

  /** The section between taking the mutex and either returning or blocking. */
  function LockedStep(sh: Shared, g: nat, op: Op, vote: int): (r: (Shared, Pc, int))
    requires sh.m > 0 && |sh.result| == 2
    ensures |r.0.result| == 2 && r.0.n == sh.n && r.0.m == sh.m
  {
    var slot := sh.gen % 2;
    var before := if sh.count == sh.n then InitialValue(op) else sh.result[slot];
    var value := Combine(op, before, vote != 0);
    var result := sh.result[slot := value];
    if sh.count - 1 == 0 then
      (sh.(count := sh.n, gen := Next(sh.gen, sh.m), result := result), Outside, value)
    else
      (sh.(count := sh.count - 1, result := result), Waiting(g, slot), value)
  }

  /** The barrier object, updated in place. */
  class BarrierThreadWithPredicate {
    const threadCount: nat
    const modulus: nat
    var curThreadCount: int
    var generation: nat
    const result: array<int>

    ghost function View(): Shared
      reads this, result
    {
      Shared(threadCount, modulus, curThreadCount, generation, result[..])
    }

    constructor (n: nat, m: nat)
      requires n >= 1 && m >= 2
      ensures fresh(result) && result.Length == 2
      ensures View() == Shared(n, m, n, 0, result[..])
    {
      threadCount, modulus, curThreadCount, generation := n, m, n, 0;
      result := new int[2];
    }

    method Locked(g: nat, op: Op, vote: int) returns (pc: Pc, value: int)
      requires modulus > 0 && result.Length == 2
      modifies this, result
      ensures (View(), pc, value) == LockedStep(old(View()), g, op, vote)
    {
      var slot := generation % 2;
      if curThreadCount == threadCount {
        result[slot] := InitialValue(op);
      }
      result[slot] := Combine(op, result[slot], vote != 0);
      curThreadCount := curThreadCount - 1;
      if curThreadCount == 0 {
        curThreadCount := threadCount;
        generation := Next(generation, modulus);
        pc := Outside;
      } else {
        pc := Waiting(g, slot);
      }
      value := result[slot];
      assert result[..] == old(result[..])[slot := value];
    }
  }

  /** History: `votes[r]` holds the predicates brought to round r, by thread, and `answers[(r, t)]`
      the value returned to thread t from its r-th call. */
  datatype State = State(
    shared: Shared,
    pcs: seq<Pc>,
    returned: seq<nat>,
    rounds: nat,
    votes: seq<map<nat, bool>>,
    answers: map<(nat, nat), int>)

  /** Thread t takes its next step; if that step brings a predicate, it is this one. */
  datatype Action = Action(t: nat, vote: int)

  predicate Shape(s: State)
  {
    && |s.shared.result| == 2 && s.shared.m > 0
    && |s.pcs| == |s.returned| == s.shared.n >= 1
    && |s.votes| == s.rounds + 1
    && (forall t :: 0 <= t < |s.pcs| && s.pcs[t].Waiting? ==> s.pcs[t].slot < 2)
  }

  /** m_result starts with arbitrary contents. */
  function Init(n: nat, m: nat, garbage: seq<int>): (s: State)
    requires n >= 1 && m >= 1 && |garbage| == 2
    ensures Shape(s)
  {
    State(Shared(n, m, n, 0, garbage), seq(n, _ => Outside), seq(n, _ => 0), 0, [map[]], map[])
  }

  function Return(s: State, t: nat, value: int): State
    requires Shape(s) && t < |s.pcs|
  {
    var r := s.returned[t];
    s.(pcs := s.pcs[t := Outside], returned := s.returned[t := r + 1], answers := s.answers[(r, t) := value])
  }

  /** Round r uses the operation ops(r), for all threads alike. */
  function Do(ops: nat -> Op, s: State, a: Action): (s': State)
    requires Shape(s)
    ensures Shape(s') && s'.shared.n == s.shared.n && s'.shared.m == s.shared.m
  {
    var t: nat := a.t;
    if t >= |s.pcs| then s else
      match s.pcs[t]
      case Outside => s.(pcs := s.pcs[t := Loaded(s.shared.gen)])
      case Loaded(g) =>
        var (sh, pc, value) := LockedStep(s.shared, g, ops(s.returned[t]), a.vote);
        var cast: map<nat, bool> := s.votes[s.rounds][t := a.vote != 0];
        var s1 := s.(shared := sh, votes := s.votes[s.rounds := cast]);
        if pc.Outside? then
          Return(s1, t, value).(rounds := s.rounds + 1, votes := s1.votes + [map[]])
        else s1.(pcs := s.pcs[t := pc])
      case Waiting(g, slot) =>
        if g == s.shared.gen then s else Return(s, t, s.shared.result[slot])
  }

  // ---------- the meaning of a round

  /** Every one of the n threads, and nobody else, has voted. */
  ghost predicate Complete(votes: map<nat, bool>, n: nat)
  {
    forall t: nat :: t < n <==> t in votes
  }

  function Yes(votes: map<nat, bool>): set<nat>
  {
    set t | t in votes && votes[t]
  }

  /** What the callers of a round have to be told. */
  function Expected(op: Op, votes: map<nat, bool>): int
  {
    match op
    case BlockCount => |Yes(votes)|
    case BlockAnd => if Yes(votes) == votes.Keys then 1 else 0
    case BlockOr => if Yes(votes) != {} then 1 else 0
  }

  lemma OneMoreVote(op: Op, votes: map<nat, bool>, t: nat, b: bool)
    requires t !in votes
    ensures Combine(op, if votes == map[] then InitialValue(op) else Expected(op, votes), b)
         == Expected(op, votes[t := b])
  {
    var v := votes[t := b];
    assert Yes(v) == if b then Yes(votes) + {t} else Yes(votes);
    assert v.Keys == votes.Keys + {t};
    if op.BlockAnd? {
      assert t in v.Keys;
      assert b ==> (Yes(v) == v.Keys <==> Yes(votes) == votes.Keys);
    }
    if votes == map[] { assert Yes(votes) == {}; }
  }

  // ---------- the inductive invariant

  predicate Even(m: nat)
  {
    m == 0 || (m >= 2 && Even(m - 2))
  }

  /** The slot that round r uses. */
  function Slot(r: nat): (slot: nat)
    ensures slot < 2
  {
    if r == 0 then 0 else 1 - Slot(r - 1)
  }

  ghost predicate ThreadOk(s: State, t: nat)
    requires Shape(s) && t < |s.pcs|
  {
    match s.pcs[t]
    case Outside => s.returned[t] == s.rounds && t !in s.votes[s.rounds]
    case Loaded(g) => s.returned[t] == s.rounds && t !in s.votes[s.rounds] && g == s.shared.gen
    case Waiting(g, slot) =>
      && slot == Slot(s.returned[t]) && (g == s.shared.gen <==> s.returned[t] == s.rounds)
      && if t in s.votes[s.rounds] then s.returned[t] == s.rounds else s.returned[t] + 1 == s.rounds
  }

  ghost predicate AnswersOk(ops: nat -> Op, s: State)
    requires Shape(s)
  {
    && (forall r: nat, t: nat :: t < |s.pcs| && r < s.returned[t] ==> (r, t) in s.answers)
    && (forall r: nat, t: nat :: (r, t) in s.answers ==>
                                   t < |s.pcs| && r < s.rounds && s.answers[(r, t)] == Expected(ops(r), s.votes[r]))
  }

  ghost predicate SlotsOk(ops: nat -> Op, s: State)
    requires Shape(s)
  {
    && (s.votes[s.rounds] != map[] ==> s.shared.result[Slot(s.rounds)] == Expected(ops(s.rounds), s.votes[s.rounds]))
    && (s.rounds > 0 ==>
          s.shared.result[Slot(s.rounds - 1)] == Expected(ops(s.rounds - 1), s.votes[s.rounds - 1]))
  }

  ghost predicate RoundsOk(s: State)
    requires Shape(s)
  {
    && s.shared.m >= 2 && Even(s.shared.m)
    && s.shared.gen < s.shared.m && s.shared.gen % 2 == Slot(s.rounds)
    && s.shared.count == s.shared.n - |s.votes[s.rounds]| > 0
    && (forall t <- s.votes[s.rounds] :: t < |s.pcs|)
    && (forall r: nat :: r < s.rounds ==> Complete(s.votes[r], s.shared.n))
  }

  ghost predicate Inv(ops: nat -> Op, s: State)
  {
    && Shape(s)
    && RoundsOk(s)
    && (forall t: nat :: t < |s.pcs| ==> ThreadOk(s, t))
    && SlotsOk(ops, s)
    && AnswersOk(ops, s)
  }

  lemma {:induction false} EvenHalf(m: nat)
    ensures Even(m) <==> m % 2 == 0
  {
    if m >= 2 { EvenHalf(m - 2); }
  }

  /** Incrementing the generation changes its parity, even when it wraps at an even modulus. */
  lemma NextGeneration(g: nat, m: nat)
    requires g < m && m >= 2 && Even(m)
    ensures Next(g, m) % 2 == 1 - g % 2
  {
    EvenHalf(m);
  }

  lemma InitInv(ops: nat -> Op, n: nat, m: nat, garbage: seq<int>)
    requires n >= 1 && m >= 2 && Even(m) && |garbage| == 2
    ensures Inv(ops, Init(n, m, garbage))
  {
  }

  /** A vote in the open round, seen through the slot and the number of voters. */
  lemma VoteCounts(ops: nat -> Op, s: State, t: nat, vote: int)
    requires Shape(s) && RoundsOk(s) && SlotsOk(ops, s) && t < |s.pcs| && t !in s.votes[s.rounds]
    ensures var v := s.votes[s.rounds];
            var op := ops(s.rounds);
            var before := if s.shared.count == s.shared.n then InitialValue(op) else s.shared.result[Slot(s.rounds)];
            && Combine(op, before, vote != 0) == Expected(op, v[t := vote != 0])
            && v[t := vote != 0].Keys == v.Keys + {t}
            && |v[t := vote != 0]| == |v| + 1
  {
    var v := s.votes[s.rounds];
    assert v == map[] <==> s.shared.count == s.shared.n;
    assert v[t := vote != 0].Keys == v.Keys + {t};
    OneMoreVote(ops(s.rounds), v, t, vote != 0);
  }

  /** The state after thread t's vote b in the open round, seen through Expected. */
  function Voted(ops: nat -> Op, s: State, t: nat, b: bool): State
    requires Shape(s) && t < |s.pcs|
  {
    var r, sh := s.rounds, s.shared;
    var v: map<nat, bool> := s.votes[r][t := b];
    var result := sh.result[Slot(r) := Expected(ops(r), v)];
    if sh.count == 1 then
      s.(shared := Shared(sh.n, sh.m, sh.n, Next(sh.gen, sh.m), result),
         pcs := s.pcs[t := Outside], returned := s.returned[t := r + 1], rounds := r + 1,
         votes := s.votes[r := v] + [map[]], answers := s.answers[(r, t) := Expected(ops(r), v)])
    else
      s.(shared := sh.(count := sh.count - 1, result := result),
         pcs := s.pcs[t := Waiting(sh.gen, Slot(r))], votes := s.votes[r := v])
  }

  lemma SlotAfterVote(ops: nat -> Op, s: State, t: nat, vote: int)
    requires Inv(ops, s) && t < |s.pcs| && t !in s.votes[s.rounds]
    ensures var (sh, pc, value) := LockedStep(s.shared, s.shared.gen, ops(s.rounds), vote);
            && value == Expected(ops(s.rounds), s.votes[s.rounds][t := vote != 0])
            && sh.result == s.shared.result[Slot(s.rounds) := value]
            && pc == (if s.shared.count == 1 then Outside else Waiting(s.shared.gen, Slot(s.rounds)))
  {
    VoteCounts(ops, s, t, vote);
  }

  lemma ArrivalEffect(ops: nat -> Op, s: State, a: Action)
    requires Inv(ops, s) && a.t < |s.pcs| && s.pcs[a.t].Loaded?
    ensures s.returned[a.t] == s.rounds && a.t !in s.votes[s.rounds]
    ensures Do(ops, s, a) == Voted(ops, s, a.t, a.vote != 0)
  {
    assert ThreadOk(s, a.t);
    SlotAfterVote(ops, s, a.t, a.vote);
    if s.shared.count == 1 {
      assert Do(ops, s, a) == Voted(ops, s, a.t, a.vote != 0);
    }
  }

  lemma VotedThreads(ops: nat -> Op, s: State, t: nat, b: bool, u: nat)
    requires Inv(ops, s) && t < |s.pcs| && s.pcs[t].Loaded? && u < |s.pcs|
    requires s.shared.count == 1 ==> forall w: nat :: w < |s.pcs| && w != t ==> w in s.votes[s.rounds]
    ensures ThreadOk(Voted(ops, s, t, b), u)
  {
    assert ThreadOk(s, t) && ThreadOk(s, u);
  }

  lemma VotedAnswers(ops: nat -> Op, s: State, t: nat, b: bool)
    requires Inv(ops, s) && t < |s.pcs| && s.pcs[t].Loaded? && s.returned[t] == s.rounds
    ensures AnswersOk(ops, Voted(ops, s, t, b)) && SlotsOk(ops, Voted(ops, s, t, b))
  {
    var s' := Voted(ops, s, t, b);
    assert forall r: nat :: r < s.rounds ==> s'.votes[r] == s.votes[r];
    assert s.shared.count == 1 ==> s'.votes[s'.rounds] == map[];
  }

  /** The vote that brings the count to zero is the last one missing. */
  lemma LastVoteCompletes(ops: nat -> Op, s: State, t: nat, b: bool)
    requires Shape(s) && RoundsOk(s) && t < |s.pcs| && t !in s.votes[s.rounds] && s.shared.count == 1
    ensures Complete(s.votes[s.rounds][t := b], s.shared.n)
    ensures forall w: nat :: w < |s.pcs| && w != t ==> w in s.votes[s.rounds]
  {
    var v := s.votes[s.rounds];
    assert v[t := b].Keys == v.Keys + {t};
    SizeBelow(v.Keys + {t}, s.shared.n);
    assert forall w: nat :: w < |s.pcs| ==> w in Below(s.shared.n);
  }

  lemma LastVoteRounds(ops: nat -> Op, s: State, t: nat, b: bool)
    requires Shape(s) && RoundsOk(s) && t < |s.pcs| && t !in s.votes[s.rounds] && s.shared.count == 1
    ensures RoundsOk(Voted(ops, s, t, b))
  {
    var s' := Voted(ops, s, t, b);
    LastVoteCompletes(ops, s, t, b);
    NextGeneration(s.shared.gen, s.shared.m);
    assert s'.votes[s'.rounds] == map[];
    forall r: nat | r < s'.rounds ensures Complete(s'.votes[r], s.shared.n) {
      assert s'.votes[r] == if r < s.rounds then s.votes[r] else s.votes[r][t := b];
    }
  }

  lemma LastVoteInv(ops: nat -> Op, s: State, t: nat, b: bool)
    requires Inv(ops, s) && t < |s.pcs| && s.pcs[t].Loaded? && s.returned[t] == s.rounds && t !in s.votes[s.rounds]
    requires s.shared.count == 1
    ensures Inv(ops, Voted(ops, s, t, b))
  {
    LastVoteCompletes(ops, s, t, b);
    LastVoteRounds(ops, s, t, b);
    forall u: nat | u < |s.pcs| ensures ThreadOk(Voted(ops, s, t, b), u) {
      VotedThreads(ops, s, t, b, u);
    }
    VotedAnswers(ops, s, t, b);
  }

  lemma OneMoreVoter(v: map<nat, bool>, t: nat, b: bool)
    requires t !in v
    ensures v[t := b].Keys == v.Keys + {t} && |v[t := b]| == |v| + 1
  {
    assert v[t := b].Keys == v.Keys + {t};
  }

  lemma EarlierVoteRounds(ops: nat -> Op, s: State, t: nat, b: bool)
    requires Shape(s) && RoundsOk(s) && t < |s.pcs| && t !in s.votes[s.rounds] && s.shared.count != 1
    ensures RoundsOk(Voted(ops, s, t, b))
  {
    var s', v := Voted(ops, s, t, b), s.votes[s.rounds];
    OneMoreVoter(v, t, b);
    SizeBelow(v.Keys + {t}, |s.pcs|);
    assert s'.votes == s.votes[s.rounds := v[t := b]];
  }

  lemma EarlierVoteInv(ops: nat -> Op, s: State, t: nat, b: bool)
    requires Inv(ops, s) && t < |s.pcs| && s.pcs[t].Loaded? && s.returned[t] == s.rounds && t !in s.votes[s.rounds]
    requires s.shared.count != 1
    ensures Inv(ops, Voted(ops, s, t, b))
  {
    EarlierVoteRounds(ops, s, t, b);
    forall u: nat | u < |s.pcs| ensures ThreadOk(Voted(ops, s, t, b), u) {
      VotedThreads(ops, s, t, b, u);
    }
    VotedAnswers(ops, s, t, b);
  }

  /** Steps that leave the shared fields and the votes alone keep everything but the threads' part. */
  lemma SameRound(ops: nat -> Op, s: State, s': State)
    requires Inv(ops, s) && Shape(s')
    requires s'.shared == s.shared && s'.rounds == s.rounds && s'.votes == s.votes
    requires forall u: nat :: u < |s'.pcs| ==> ThreadOk(s', u)
    requires AnswersOk(ops, s')
    ensures Inv(ops, s')
  {
  }

  lemma EnterThreads(ops: nat -> Op, s: State, a: Action, u: nat)
    requires Inv(ops, s) && a.t < |s.pcs| && s.pcs[a.t].Outside? && u < |s.pcs|
    ensures ThreadOk(Do(ops, s, a), u)
  {
    assert ThreadOk(s, u) && ThreadOk(s, a.t);
  }

  lemma LeaveThreads(ops: nat -> Op, s: State, a: Action, u: nat)
    requires Inv(ops, s) && a.t < |s.pcs| && s.pcs[a.t].Waiting? && s.pcs[a.t].gen != s.shared.gen && u < |s.pcs|
    ensures ThreadOk(Do(ops, s, a), u)
  {
    assert ThreadOk(s, u) && ThreadOk(s, a.t);
  }

  lemma LeaveInv(ops: nat -> Op, s: State, a: Action)
    requires Inv(ops, s) && a.t < |s.pcs| && s.pcs[a.t].Waiting? && s.pcs[a.t].gen != s.shared.gen
    ensures Inv(ops, Do(ops, s, a))
  {
    var s' := Do(ops, s, a);
    assert ThreadOk(s, a.t);
    forall u: nat | u < |s.pcs| ensures ThreadOk(s', u) {
      LeaveThreads(ops, s, a, u);
    }
    assert s'.answers == s.answers[(s.rounds - 1, a.t) := Expected(ops(s.rounds - 1), s.votes[s.rounds - 1])];
    SameRound(ops, s, s');
  }

  lemma EnterInv(ops: nat -> Op, s: State, a: Action)
    requires Inv(ops, s) && a.t < |s.pcs| && s.pcs[a.t].Outside?
    ensures Inv(ops, Do(ops, s, a))
  {
    forall u: nat | u < |s.pcs| ensures ThreadOk(Do(ops, s, a), u) {
      EnterThreads(ops, s, a, u);
    }
    SameRound(ops, s, Do(ops, s, a));
  }

  lemma StepInv(ops: nat -> Op, s: State, a: Action)
    requires Inv(ops, s)
    ensures Inv(ops, Do(ops, s, a))
  {
    if a.t < |s.pcs| {
      match s.pcs[a.t]
      case Outside => EnterInv(ops, s, a);
      case Loaded(_) =>
        ArrivalEffect(ops, s, a);
        if s.shared.count == 1 {
          LastVoteInv(ops, s, a.t, a.vote != 0);
        } else {
          EarlierVoteInv(ops, s, a.t, a.vote != 0);
        }
      case Waiting(g, _) => if g != s.shared.gen { LeaveInv(ops, s, a); }
    }
  }

  function Run(ops: nat -> Op, n: nat, m: nat, garbage: seq<int>, schedule: seq<Action>): (s: State)
    requires n >= 1 && m >= 1 && |garbage| == 2
    ensures Shape(s) && s.shared.n == n && s.shared.m == m
  {
    if schedule == [] then Init(n, m, garbage)
    else Do(ops, Run(ops, n, m, garbage, schedule[..|schedule| - 1]), schedule[|schedule| - 1])
  }

  lemma {:induction false} RunInv(ops: nat -> Op, n: nat, m: nat, garbage: seq<int>, schedule: seq<Action>)
    requires n >= 1 && m >= 2 && Even(m) && |garbage| == 2
    ensures Inv(ops, Run(ops, n, m, garbage, schedule))
  {
    if schedule == [] {
      InitInv(ops, n, m, garbage);
    } else {
      RunInv(ops, n, m, garbage, schedule[..|schedule| - 1]);
      StepInv(ops, Run(ops, n, m, garbage, schedule[..|schedule| - 1]), schedule[|schedule| - 1]);
    }
  }

  /** In every interleaving over any number of rounds, a thread that returns from round r is told the
      combination of exactly the predicates that all n threads brought to round r; hence all callers
      of a round agree.  The generation may have wrapped any number of times. */
  lemma RoundAnswersCorrect(ops: nat -> Op, n: nat, m: nat, garbage: seq<int>, schedule: seq<Action>, r: nat, t: nat)
    requires n >= 1 && m >= 2 && Even(m) && |garbage| == 2 && t < n
    requires r < Run(ops, n, m, garbage, schedule).returned[t]
    ensures var s := Run(ops, n, m, garbage, schedule);
            && r < s.rounds
            && Complete(s.votes[r], n)
            && (r, t) in s.answers && s.answers[(r, t)] == Expected(ops(r), s.votes[r])
  {
    RunInv(ops, n, m, garbage, schedule);
  }

  /** Two slots suffice: while a thread has yet to read round r, nobody has brought a predicate to
      round r + 2. */
  lemma TwoSlotsSuffice(ops: nat -> Op, n: nat, m: nat, garbage: seq<int>, schedule: seq<Action>, t: nat)
    requires n >= 1 && m >= 2 && Even(m) && |garbage| == 2 && t < n
    ensures var s := Run(ops, n, m, garbage, schedule);
            && s.returned[t] <= s.rounds <= s.returned[t] + 1
            && (s.pcs[t].Waiting? ==>
                  s.shared.result[s.pcs[t].slot] == Expected(ops(s.returned[t]), s.votes[s.returned[t]]))
  {
    RunInv(ops, n, m, garbage, schedule);
    assert ThreadOk(Run(ops, n, m, garbage, schedule), t);
  }

  /** A waiter is not left behind: once its round is complete its next look at the generation takes it out,
      wrap-around included, with the answer of its round, whoever is inside or outside. */
  lemma Released(ops: nat -> Op, s: State, a: Action)
    requires Inv(ops, s) && a.t < |s.pcs| && s.pcs[a.t].Waiting?
    requires s.returned[a.t] < |s.votes| && Complete(s.votes[s.returned[a.t]], s.shared.n)
    ensures var s', r := Do(ops, s, a), s.returned[a.t];
            && s'.pcs[a.t].Outside? && s'.returned[a.t] == r + 1
            && (r, a.t) in s'.answers && s'.answers[(r, a.t)] == Expected(ops(r), s.votes[r])
  {
    assert ThreadOk(s, a.t);
    if s.returned[a.t] == s.rounds { CompleteIsFull(s.votes[s.rounds], s.shared.n); }
  }

  lemma CompleteIsFull(votes: map<nat, bool>, n: nat)
    requires Complete(votes, n)
    ensures |votes| >= n
  {
    assert Below(n) <= votes.Keys;
    SubsetSize(Below(n), votes.Keys);
    BelowSize(n);
  }

  /** When every thread is inside wait(), some thread can go on. */
  lemma NeverStuck(ops: nat -> Op, s: State)
    requires Inv(ops, s)
    requires forall t: nat :: t < |s.pcs| ==> !s.pcs[t].Outside?
    ensures exists a :: Do(ops, s, a) != s
  {
    if t: nat :| t < |s.pcs| && t !in s.votes[s.rounds] {
      assert ThreadOk(s, t);
      assert Do(ops, s, Action(t, 0)).pcs[t] != s.pcs[t];
    } else {
      assert Below(s.shared.n) <= s.votes[s.rounds].Keys;
      SubsetSize(Below(s.shared.n), s.votes[s.rounds].Keys);
      BelowSize(s.shared.n);
    }
  }

  // ---------- why the modulus has to be even

  /** What thread t was told in round r, if it has returned from it, is right. */
  ghost predicate Correct(ops: nat -> Op, s: State, r: nat, t: nat)
    requires Shape(s)
  {
    (r, t) in s.answers ==> r <= s.rounds && s.answers[(r, t)] == Expected(ops(r), s.votes[r])
  }

  ghost predicate AllAnswersCorrect(ops: nat -> Op, s: State)
    requires Shape(s)
  {
    forall r: nat, t: nat :: Correct(ops, s, r, t)
  }

  lemma RunStep(ops: nat -> Op, n: nat, m: nat, garbage: seq<int>, schedule: seq<Action>, a: Action)
    returns (longer: seq<Action>)
    requires n >= 1 && m >= 1 && |garbage| == 2
    ensures Run(ops, n, m, garbage, longer) == Do(ops, Run(ops, n, m, garbage, schedule), a)
  {
    longer := schedule + [a];
    assert longer[..|schedule|] == schedule;
  }

  /** In round r every thread below k has voted yes and waits, the others have not entered. */
  ghost predicate Voting(s: State, n: nat, m: nat, r: nat, k: nat)
  {
    && Shape(s) && s.shared.n == n && s.shared.m == m && s.shared.count == n - k && s.shared.gen == r && s.rounds == r
    && (forall t :: 0 <= t < n ==> s.returned[t] == r && s.pcs[t] == if t < k then Waiting(r, r % 2) else Outside)
    && VotedYes(s.votes[r], k)
  }

  ghost predicate VotedYes(votes: map<nat, bool>, k: nat)
  {
    (forall t: nat :: t in votes <==> t < k) && forall t <- votes :: votes[t]
  }

  /** All n threads have voted yes in round r; the last one and the first j have returned. */
  ghost predicate Leaving(s: State, n: nat, m: nat, r: nat, j: nat)
  {
    && Shape(s) && s.shared.n == n && s.shared.m == m && s.shared.count == n
    && s.shared.gen == Next(r, m) && s.rounds == r + 1
    && (forall t :: 0 <= t < n ==> if t < j || t == n - 1 then s.returned[t] == r + 1 && s.pcs[t] == Outside
                                   else s.returned[t] == r && s.pcs[t] == Waiting(r, r % 2))
    && VotedYes(s.votes[r], n) && s.votes[r + 1] == map[]
  }

  lemma VoteYes(ops: nat -> Op, s: State, n: nat, m: nat, r: nat, k: nat)
    requires k < n && r < m && m >= 2 && Voting(s, n, m, r, k)
    ensures var s' := Do(ops, Do(ops, s, Action(k, 1)), Action(k, 1));
            if k + 1 < n then Voting(s', n, m, r, k + 1) else Leaving(s', n, m, r, 0)
  {
    var s1 := Do(ops, s, Action(k, 1));
    assert s1 == s.(pcs := s.pcs[k := Loaded(r)]);
  }

  lemma WakeUp(ops: nat -> Op, s: State, n: nat, m: nat, r: nat, j: nat)
    requires j < n - 1 && r < m && m >= 2 && Leaving(s, n, m, r, j)
    ensures Leaving(Do(ops, s, Action(j, 0)), n, m, r, j + 1)
  {
  }

  /** All threads vote, and the last one completes the round. */
  lemma HalfRound(ops: nat -> Op, n: nat, m: nat, garbage: seq<int>, before: seq<Action>, r: nat)
    returns (schedule: seq<Action>)
    requires n >= 1 && r < m && m >= 2 && |garbage| == 2
    requires Voting(Run(ops, n, m, garbage, before), n, m, r, 0)
    ensures Leaving(Run(ops, n, m, garbage, schedule), n, m, r, 0)
  {
    schedule := before;
    for k := 0 to n
      invariant if k < n then Voting(Run(ops, n, m, garbage, schedule), n, m, r, k)
                else Leaving(Run(ops, n, m, garbage, schedule), n, m, r, 0)
    {
      VoteYes(ops, Run(ops, n, m, garbage, schedule), n, m, r, k);
      schedule := RunStep(ops, n, m, garbage, schedule, Action(k, 1));
      schedule := RunStep(ops, n, m, garbage, schedule, Action(k, 1));
    }
  }

  /** Everybody else wakes up. */
  lemma RestOfRound(ops: nat -> Op, n: nat, m: nat, garbage: seq<int>, before: seq<Action>, r: nat)
    returns (schedule: seq<Action>)
    requires n >= 1 && r + 1 < m && |garbage| == 2
    requires Leaving(Run(ops, n, m, garbage, before), n, m, r, 0)
    ensures Voting(Run(ops, n, m, garbage, schedule), n, m, r + 1, 0)
  {
    schedule := before;
    for j := 0 to n - 1
      invariant Leaving(Run(ops, n, m, garbage, schedule), n, m, r, j)
    {
      WakeUp(ops, Run(ops, n, m, garbage, schedule), n, m, r, j);
      schedule := RunStep(ops, n, m, garbage, schedule, Action(j, 0));
    }
  }

  /** Any number of complete rounds below the modulus. */
  lemma {:induction false} Rounds(ops: nat -> Op, n: nat, m: nat, garbage: seq<int>, r: nat)
    returns (schedule: seq<Action>)
    requires n >= 1 && r < m && m >= 2 && |garbage| == 2
    ensures Voting(Run(ops, n, m, garbage, schedule), n, m, r, 0)
  {
    if r == 0 {
      schedule := [];
    } else {
      schedule := Rounds(ops, n, m, garbage, r - 1);
      schedule := HalfRound(ops, n, m, garbage, schedule, r - 1);
      schedule := RestOfRound(ops, n, m, garbage, schedule, r - 1);
    }
  }

  /** The last thread votes no in the next round before the first one has read its answer. */
  lemma SlowReaderLoses(ops: nat -> Op, s: State, n: nat, m: nat)
    requires n >= 2 && m >= 2 && !Even(m) && Leaving(s, n, m, m - 1, 0)
    ensures var s2 := Do(ops, Do(ops, s, Action(n - 1, 0)), Action(n - 1, 0));
            !Correct(ops, Do(ops, s2, Action(0, 0)), m - 1, 0)
  {
    EvenHalf(m);
    var s1 := Do(ops, s, Action(n - 1, 0));
    assert s1 == s.(pcs := s.pcs[n - 1 := Loaded(0)]);
    var s2 := Do(ops, s1, Action(n - 1, 0));
    assert s2.shared.result[0] == 0 && s2.shared.gen == 0 && s2.pcs[0] == Waiting(m - 1, 0);
    var s3 := Do(ops, s2, Action(0, 0));
    assert s3.answers[(m - 1, 0)] == 0 && s3.votes[m - 1] == s.votes[m - 1];
    AllYes(ops(m - 1), s.votes[m - 1], n);
  }

  lemma AllYes(op: Op, votes: map<nat, bool>, n: nat)
    requires n >= 1 && VotedYes(votes, n)
    ensures Expected(op, votes) > 0
  {
    assert Yes(votes) == votes.Keys;
    assert 0 in Yes(votes);
  }

  /** At an odd modulus the wrap reuses a slot at once: whatever the operations, two or more threads
      have a run in which a fast one overwrites the answer of a round before a slow one has read it. */
  lemma OddModulusFails(ops: nat -> Op, n: nat, m: nat, garbage: seq<int>) returns (schedule: seq<Action>)
    requires n >= 2 && m >= 2 && !Even(m) && |garbage| == 2
    ensures !Correct(ops, Run(ops, n, m, garbage, schedule), m - 1, 0)
  {
    var last := LastRound(ops, n, m, garbage);
    SlowReaderLoses(ops, Run(ops, n, m, garbage, last), n, m);
    schedule := RunThree(ops, n, m, garbage, last, Action(n - 1, 0), Action(n - 1, 0), Action(0, 0));
  }

  /** The last round before the wrap is complete, and nobody else has woken up yet. */
  lemma LastRound(ops: nat -> Op, n: nat, m: nat, garbage: seq<int>) returns (schedule: seq<Action>)
    requires n >= 1 && m >= 2 && |garbage| == 2
    ensures Leaving(Run(ops, n, m, garbage, schedule), n, m, m - 1, 0)
  {
    var r: nat := m - 1;
    var before := Rounds(ops, n, m, garbage, r);
    schedule := HalfRound(ops, n, m, garbage, before, r);
    assert Leaving(Run(ops, n, m, garbage, schedule), n, m, r, 0);
  }

  lemma RunThree(ops: nat -> Op, n: nat, m: nat, garbage: seq<int>, schedule: seq<Action>, a: Action, b: Action,
                 c: Action)
    returns (longer: seq<Action>)
    requires n >= 1 && m >= 1 && |garbage| == 2
    ensures Run(ops, n, m, garbage, longer) == Do(ops, Do(ops, Do(ops, Run(ops, n, m, garbage, schedule), a), b), c)
  {
    longer := RunStep(ops, n, m, garbage, schedule, a);
    longer := RunStep(ops, n, m, garbage, longer, b);
    longer := RunStep(ops, n, m, garbage, longer, c);
  }

  ghost predicate AnswersCorrectIn(ops: nat -> Op, n: nat, m: nat, garbage: seq<int>, schedule: seq<Action>)
    requires n >= 1 && m >= 1 && |garbage| == 2
  {
    AllAnswersCorrect(ops, Run(ops, n, m, garbage, schedule))
  }

  /** For two or more threads and any operations, the answers of all runs are correct exactly when the
      modulus is even. */
  lemma ModulusMustBeEven(ops: nat -> Op, n: nat, m: nat, garbage: seq<int>)
    requires n >= 2 && m >= 2 && |garbage| == 2
    ensures Even(m) <==> forall schedule :: AnswersCorrectIn(ops, n, m, garbage, schedule)
  {
    if Even(m) {
      forall schedule ensures AnswersCorrectIn(ops, n, m, garbage, schedule) {
        RunInv(ops, n, m, garbage, schedule);
      }
    } else {
      var schedule := OddModulusFails(ops, n, m, garbage);
      assert !AnswersCorrectIn(ops, n, m, garbage, schedule);
    }
  }
}
