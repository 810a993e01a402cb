/** What the barrier guarantees over whole runs, and the barrier as an object. */
module BarrierRuns {
  import opened Counting
  import opened Barriers

  // ---- whole runs ----

  ghost predicate Steps(s: State, t: nat, s2: State) {
    Shaped(s) && t < |s.pcs| && (s.pcs[t].Subtract? ==> s.step > 0) && s2 == Next(s, t)
  }

  /** threads[i] is the thread that takes the i-th step. */
  ghost predicate IsRun(states: seq<State>, threads: seq<nat>, n: nat) {
    && n > 0 && |states| == |threads| + 1 && states[0] == Init(n)
    && (forall i :: 0 <= i < |threads| ==> Steps(states[i], threads[i], states[i + 1]))
  }

  /** The invariant holds in every state of every run. */
  lemma {:induction false} RunInv(states: seq<State>, threads: seq<nat>, n: nat, i: nat) returns (round: nat)
    requires IsRun(states, threads, n) && i < |states|
    ensures Inv(states[i], round) && |states[i].pcs| == n
  {
    if i == 0 {
      InitInv(n);
      round := 0;
    } else {
      var s, t := states[i - 1], threads[i - 1];
      round := RunInv(states, threads, n, i - 1);
      assert Steps(s, t, states[i]);
      StepKeeps(s, round, t);
      if s.pcs[t].StoreEnter? {
        round := round + 1;
      }
    }
  }

  /** No thread returns from its k-th call before every thread has begun its k-th. */
  lemma NobodyPassesEarly(states: seq<State>, threads: seq<nat>, n: nat, i: nat, t: nat, u: nat)
    requires IsRun(states, threads, n) && i < |states| && t < n && u < n
    ensures |states[i].pcs| == n && Shaped(states[i])
    ensures states[i].returned[t] <= states[i].begun[u] <= states[i].returned[t] + 2
    ensures states[i].begun[u] <= states[i].begun[t] + 1
  {
    var round := RunInv(states, threads, n, i);
  }

  /** Once a thread has seen a call's second phase, every thread is inside that same call: rounds never mix. */
  lemma PhasesApart(states: seq<State>, threads: seq<nat>, n: nat, i: nat, t: nat, u: nat)
    requires IsRun(states, threads, n) && i < |states| && t < n && u < n
    requires |states[i].pcs| == n && Shaped(states[i]) && states[i].pcs[t] in {Subtract, StoreEnter}
    ensures states[i].begun[u] == states[i].begun[t] && states[i].returned[u] + 1 == states[i].begun[u]
  {
    var round := RunInv(states, threads, n, i);
  }

  // ---- progress ----

  /** Everyone has begun k calls. */
  ghost predicate Due(s: State, k: nat)
    requires Shaped(s)
  {
    forall t :: 0 <= t < |s.pcs| ==> s.begun[t] == k
  }

  /** Everyone has returned from k calls. */
  ghost predicate Back(s: State, k: nat) {
    Shaped(s) && forall t :: 0 <= t < |s.pcs| ==> s.returned[t] == k
  }

  /** A step of thread t that belongs to its current call and is not a spin. */
  ghost predicate Moves(s: State, t: nat) {
    t < |s.pcs| && !s.pcs[t].Idle? && !Spins(s, t)
  }

  /** A spin is exactly an operation that changes nothing. */
  lemma SpinsIffStill(s: State, t: nat)
    requires Shaped(s) && t < |s.pcs| && (s.pcs[t].Subtract? ==> s.step > 0)
    ensures Spins(s, t) <==> Next(s, t) == s
  {
    assert Next(s, t).pcs[t] != s.pcs[t] || Next(s, t) == s;
  }

  ghost predicate Stuck(s: State) {
    forall t: nat :: !Moves(s, t)
  }

  /** While someone has not returned from the common call, someone can move. */
  lemma SomeoneMoves(s: State, round: nat, k: nat)
    requires Inv(s, round) && Due(s, k) && !Back(s, k)
    ensures !Stuck(s)
  {
    var t: nat :| t < |s.pcs| && s.returned[t] != k;
    TallyBounds(s.pcs, ENTERED);
    TallyBounds(s.pcs, NOT_LEFT);
    TallyBounds(s.pcs, {StoreLeave});
    TallyBounds(s.pcs, {StoreEnter});
    if !Moves(s, t) {
      if s.mode.Enter? {
        assert forall u :: 0 <= u < |s.pcs| ==> s.pcs[u] in ENTERED;
        var u: nat :| u < |s.pcs| && s.pcs[u] in {StoreLeave};
        assert Moves(s, u);
      } else if s.step == 0 {
        var u: nat :| u < |s.pcs| && s.pcs[u] in {StoreEnter};
        assert Moves(s, u);
      } else {
        var u: nat :| u < |s.pcs| && s.pcs[u] in NOT_LEFT;
        assert Moves(s, u);
      }
    }
  }

  function Cost(pc: Pc): nat {
    match pc
    case Idle => 0
    case AwaitEnter | StoreEnter => 1
    case Subtract => 2
    case AwaitLeave | StoreLeave => 3
  }

  function Work(pcs: seq<Pc>): nat {
    if pcs == [] then 0 else Work(pcs[..|pcs| - 1]) + Cost(pcs[|pcs| - 1])
  }

  lemma {:induction false} WorkUpdate(pcs: seq<Pc>, t: nat, pc: Pc)
    requires t < |pcs|
    ensures Work(pcs[t := pc]) + Cost(pcs[t]) == Work(pcs) + Cost(pc)
  {
    var n := |pcs| - 1;
    if t < n {
      WorkUpdate(pcs[..n], t, pc);
      assert pcs[t := pc][..n] == pcs[..n][t := pc];
    } else {
      assert pcs[t := pc][..n] == pcs[..n];
    }
  }

  lemma {:induction false} WorkBound(pcs: seq<Pc>)
    ensures Work(pcs) <= 3 * |pcs|
  {
    if pcs != [] {
      WorkBound(pcs[..|pcs| - 1]);
    }
  }

  /** Every move brings the end of the call nearer, and nobody begins another one by it. */
  lemma MoveShrinksWork(s: State, round: nat, t: nat)
    requires Inv(s, round) && Moves(s, t)
    ensures s.pcs[t].Subtract? ==> s.step > 0
    ensures Work(Next(s, t).pcs) < Work(s.pcs) && Next(s, t).begun == s.begun
  {
    NeverUnderflows(s, round, t);
    WorkUpdate(s.pcs, t, Next(s, t).pcs[t]);
  }

  ghost predicate Schedule(states: seq<State>, threads: seq<nat>) {
    && |states| == |threads| + 1
    && (forall i :: 0 <= i < |threads| ==> Moves(states[i], threads[i]) && Steps(states[i], threads[i], states[i + 1]))
  }

  /** However the moves are chosen, no more than three per thread are left. */
  lemma {:induction false} ScheduleBound(states: seq<State>, threads: seq<nat>, round: nat)
    requires Schedule(states, threads) && Inv(states[0], round)
    ensures |threads| <= Work(states[0].pcs) <= 3 * |states[0].pcs|
    decreases |threads|
  {
    WorkBound(states[0].pcs);
    if threads != [] {
      var s, t := states[0], threads[0];
      assert Moves(s, t) && Steps(s, t, states[1]);
      MoveShrinksWork(s, round, t);
      StepKeeps(s, round, t);
      ScheduleBound(states[1..], threads[1..], if s.pcs[t].StoreEnter? then round + 1 else round);
    }
  }

  lemma StepDue(s: State, t: nat, k: nat)
    requires Shaped(s) && Due(s, k) && Moves(s, t) && (s.pcs[t].Subtract? ==> s.step > 0)
    ensures Shaped(Next(s, t)) && Due(Next(s, t), k)
  {
  }

  /** A schedule that can go no further has brought everyone back from the common call. */
  lemma {:induction false} RoundCompletes(states: seq<State>, threads: seq<nat>, round: nat, k: nat)
    requires Schedule(states, threads) && Inv(states[0], round) && Due(states[0], k)
    requires Stuck(states[|threads|])
    ensures Back(states[|threads|], k)
    decreases |threads|
  {
    if threads == [] {
      if !Back(states[0], k) {
        SomeoneMoves(states[0], round, k);
      }
    } else {
      var s, t := states[0], threads[0];
      assert Moves(s, t) && Steps(s, t, states[1]);
      MoveShrinksWork(s, round, t);
      StepKeeps(s, round, t);
      StepDue(s, t, k);
      var rest, later := states[1..], threads[1..];
      assert rest[|later|] == states[|threads|];
      RoundCompletes(rest, later, if s.pcs[t].StoreEnter? then round + 1 else round, k);
    }
  }

  // ---- the barrier and its threads, updated in place ----

  class Barrier {
    const cardinal: nat
    var step: nat
    var mode: Mode
    var pcs: seq<Pc>
    ghost var begun: seq<nat>
    ghost var returned: seq<nat>
    ghost var round: nat

    ghost function View(): State
      reads this
    {
      State(step, mode, pcs, begun, returned)
    }

    ghost predicate Valid()
      reads this
    {
      |pcs| == cardinal && Inv(View(), round)
    }

    constructor (cardinal: nat)
      requires cardinal > 0
      ensures Valid() && this.cardinal == cardinal && View() == Init(cardinal)
    {
      this.cardinal := cardinal;
      step, mode := 0, Enter;
      pcs, begun, returned := seq(cardinal, _ => Idle), seq(cardinal, _ => 0), seq(cardinal, _ => 0);
      round := 0;
      new;
      InitInv(cardinal);
      assert View() == Init(cardinal);
    }

    /** One atomic operation of thread t, or one turn of the loop it spins in. */
    method Advance(t: nat)
      requires Valid() && t < cardinal
      modifies this
      ensures old(pcs[t]).Subtract? ==> old(step) > 0
      ensures Valid() && View() == Next(old(View()), t)
    {
      StepKeeps(View(), round, t);
      round := if pcs[t].StoreEnter? then round + 1 else round;
      Execute(t);
    }

    method Execute(t: nat)
      requires Shaped(View()) && t < |pcs| == cardinal && (pcs[t].Subtract? ==> step > 0)
      modifies this`step, this`mode, this`pcs, this`begun, this`returned
      ensures View() == Next(old(View()), t) && |pcs| == cardinal
    {
      match pcs[t] {
        case Idle =>
          step := step + 1;
          pcs := pcs[t := if step == cardinal then StoreLeave else AwaitLeave];
          begun := begun[t := begun[t] + 1];
        case StoreLeave =>
          mode := Leave;
          pcs := pcs[t := Subtract];
        case AwaitLeave =>
          if mode == Leave {
            pcs := pcs[t := Subtract];
          }
        case Subtract =>
          step := step - 1;
          pcs := pcs[t := if step == 0 then StoreEnter else AwaitEnter];
        case StoreEnter =>
          mode := Enter;
          pcs, returned := pcs[t := Idle], returned[t := returned[t] + 1];
        case AwaitEnter =>
          if mode == Enter {
            pcs, returned := pcs[t := Idle], returned[t := returned[t] + 1];
          }
      }
    }
  }
}
