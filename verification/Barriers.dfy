/** The reusable spin barrier: any number of threads, each atomic operation one step, in any interleaving. */
module Barriers {
  import opened Counting

  datatype Mode = Enter | Leave

  /** What a thread does next: Idle is between two calls of sync. */
  datatype Pc = Idle | StoreLeave | AwaitLeave | Subtract | StoreEnter | AwaitEnter

  datatype State = State(
    step: nat,
    mode: Mode,
    pcs: seq<Pc>,
    begun: seq<nat>,       // calls each thread has begun (history)
    returned: seq<nat>)    // calls each thread has returned from (history)

  function Init(n: nat): State {
    State(0, Enter, seq(n, _ => Idle), seq(n, _ => 0), seq(n, _ => 0))
  }

  predicate Shaped(s: State) {
    |s.pcs| == |s.begun| == |s.returned| > 0
  }

  function Goto(s: State, t: nat, pc: Pc): State
    requires t < |s.pcs|
  {
    s.(pcs := s.pcs[t := pc])
  }

  function Return(s: State, t: nat): State
    requires Shaped(s) && t < |s.pcs|
  {
    Goto(s, t, Idle).(returned := s.returned[t := s.returned[t] + 1])
  }

  /** The next atomic operation of thread t: for an idle one, the first of its next call. */
  function Next(s: State, t: nat): State
    requires Shaped(s) && t < |s.pcs| && (s.pcs[t].Subtract? ==> s.step > 0)
  {
    match s.pcs[t]
    case Idle =>
      Goto(s, t, if s.step + 1 == |s.pcs| then StoreLeave else AwaitLeave)
      .(step := s.step + 1, begun := s.begun[t := s.begun[t] + 1])
    case StoreLeave => Goto(s, t, Subtract).(mode := Leave)
    case AwaitLeave => if s.mode.Leave? then Goto(s, t, Subtract) else s
    case Subtract => Goto(s, t, if s.step == 1 then StoreEnter else AwaitEnter).(step := s.step - 1)
    case StoreEnter => Return(s, t).(mode := Enter)
    case AwaitEnter => if s.mode.Enter? then Return(s, t) else s
  }

  /** A thread that would only spin. */
  predicate Spins(s: State, t: nat)
    requires t < |s.pcs|
  {
    (s.pcs[t].AwaitLeave? && s.mode.Enter?) || (s.pcs[t].AwaitEnter? && s.mode.Leave?)
  }

  // ---- the invariant ----

  const ENTERED: set<Pc> := {StoreLeave, AwaitLeave}
  const NOT_LEFT: set<Pc> := {AwaitLeave, Subtract}

  /** While the mode is Enter, calls up to the round-th are over, up to threads that have not seen so yet. */
  ghost predicate Entering(s: State, round: nat)
    requires Shaped(s)
  {
    && s.mode.Enter?
    && (forall t :: 0 <= t < |s.pcs| ==>
          match s.pcs[t]
          case Idle => s.begun[t] == s.returned[t] == round
          case AwaitEnter => s.begun[t] == s.returned[t] + 1 == round
          case _ => s.pcs[t] in ENTERED && s.begun[t] == s.returned[t] + 1 == round + 1)
    && s.step == Tally(s.pcs, ENTERED)
    && Tally(s.pcs, {StoreLeave}) == if s.step == |s.pcs| then 1 else 0
  }

  /** While the mode is Leave, everyone is inside the same call. */
  ghost predicate Leaving(s: State, round: nat)
    requires Shaped(s)
  {
    && s.mode.Leave?
    && (forall t :: 0 <= t < |s.pcs| ==>
          s.pcs[t] in NOT_LEFT + {StoreEnter, AwaitEnter} && s.begun[t] == s.returned[t] + 1 == round + 1)
    && s.step == Tally(s.pcs, NOT_LEFT)
    && Tally(s.pcs, {StoreEnter}) == if s.step == 0 then 1 else 0
  }

  ghost predicate Inv(s: State, round: nat) {
    Shaped(s) && (Entering(s, round) || Leaving(s, round))
  }

  lemma InitInv(n: nat)
    requires n > 0
    ensures Inv(Init(n), 0)
  {
    TallyBounds(Init(n).pcs, ENTERED);
    TallyBounds(Init(n).pcs, {StoreLeave});
  }

  /** The subtraction never takes the counter below zero. */
  lemma NeverUnderflows(s: State, round: nat, t: nat)
    requires Inv(s, round) && t < |s.pcs|
    ensures s.pcs[t].Subtract? ==> s.step > 0
  {
    TallyBounds(s.pcs, NOT_LEFT);
  }

  // ---- one lemma for each atomic operation ----

  lemma ArriveKeeps(s: State, round: nat, t: nat)
    requires Inv(s, round) && t < |s.pcs| && s.pcs[t].Idle?
    ensures Inv(Next(s, t), round)
  {
    var n := Next(s, t);
    TallyBounds(s.pcs, ENTERED);
    TallyUpdate(s.pcs, ENTERED, t, n.pcs[t]);
    TallyUpdate(s.pcs, {StoreLeave}, t, n.pcs[t]);
  }

  lemma OthersAwait(pcs: seq<Pc>, t: nat)
    requires t < |pcs| && pcs[t].StoreLeave? && Tally(pcs, ENTERED) == |pcs| && Tally(pcs, {StoreLeave}) == 1
    ensures forall i :: 0 <= i < |pcs| && i != t ==> pcs[i].AwaitLeave?
  {
    TallyBounds(pcs, ENTERED);
    TallyUpdate(pcs, {StoreLeave}, t, Subtract);
    TallyBounds(pcs[t := Subtract], {StoreLeave});
    forall i | 0 <= i < |pcs| && i != t ensures pcs[i].AwaitLeave? {
      assert pcs[t := Subtract][i] == pcs[i] && pcs[i] in ENTERED;
    }
  }

  lemma OpenTallies(pcs: seq<Pc>, t: nat)
    requires t < |pcs| && forall i :: 0 <= i < |pcs| && i != t ==> pcs[i].AwaitLeave?
    ensures Tally(pcs[t := Subtract], NOT_LEFT) == |pcs| && Tally(pcs[t := Subtract], {StoreEnter}) == 0
  {
    TallyBounds(pcs[t := Subtract], NOT_LEFT);
    TallyBounds(pcs[t := Subtract], {StoreEnter});
  }

  lemma LastHasEntered(s: State, round: nat, t: nat)
    requires Inv(s, round) && t < |s.pcs| && s.pcs[t].StoreLeave?
    ensures s.mode.Enter? && s.step == Tally(s.pcs, ENTERED) == |s.pcs| && Tally(s.pcs, {StoreLeave}) == 1
  {
    TallyBounds(s.pcs, {StoreLeave});
  }

  lemma OpenKeeps(s: State, round: nat, t: nat)
    requires Inv(s, round) && t < |s.pcs| && s.pcs[t].StoreLeave?
    ensures Inv(Next(s, t), round)
  {
    LastHasEntered(s, round, t);
    OthersAwait(s.pcs, t);
    OpenTallies(s.pcs, t);
    assert Next(s, t).pcs == s.pcs[t := Subtract];
  }

  lemma PassKeeps(s: State, round: nat, t: nat)
    requires Inv(s, round) && t < |s.pcs| && s.pcs[t].AwaitLeave?
    ensures Inv(Next(s, t), round)
  {
    if s.mode.Leave? {
      TallyUpdate(s.pcs, NOT_LEFT, t, Subtract);
      TallyUpdate(s.pcs, {StoreEnter}, t, Subtract);
    }
  }

  lemma SubtractKeeps(s: State, round: nat, t: nat)
    requires Inv(s, round) && t < |s.pcs| && s.pcs[t].Subtract?
    ensures s.step > 0 && Inv(Next(s, t), round)
  {
    NeverUnderflows(s, round, t);
    TallyUpdate(s.pcs, NOT_LEFT, t, Next(s, t).pcs[t]);
    TallyUpdate(s.pcs, {StoreEnter}, t, Next(s, t).pcs[t]);
  }

  lemma OthersWait(pcs: seq<Pc>, t: nat)
    requires t < |pcs| && pcs[t].StoreEnter? && Tally(pcs, NOT_LEFT) == 0 && Tally(pcs, {StoreEnter}) == 1
    requires forall i :: 0 <= i < |pcs| ==> pcs[i] in NOT_LEFT + {StoreEnter, AwaitEnter}
    ensures forall i :: 0 <= i < |pcs| && i != t ==> pcs[i].AwaitEnter?
  {
    TallyBounds(pcs, NOT_LEFT);
    TallyUpdate(pcs, {StoreEnter}, t, Idle);
    TallyBounds(pcs[t := Idle], {StoreEnter});
    forall i | 0 <= i < |pcs| && i != t ensures pcs[i].AwaitEnter? {
      assert pcs[t := Idle][i] == pcs[i];
    }
  }

  lemma CloseTallies(pcs: seq<Pc>, t: nat)
    requires t < |pcs| && forall i :: 0 <= i < |pcs| && i != t ==> pcs[i].AwaitEnter?
    ensures Tally(pcs[t := Idle], ENTERED) == 0 && Tally(pcs[t := Idle], {StoreLeave}) == 0
  {
    TallyBounds(pcs[t := Idle], ENTERED);
    TallyBounds(pcs[t := Idle], {StoreLeave});
  }

  lemma LastHasLeft(s: State, round: nat, t: nat)
    requires Inv(s, round) && t < |s.pcs| && s.pcs[t].StoreEnter?
    ensures s.mode.Leave? && s.step == Tally(s.pcs, NOT_LEFT) == 0 && Tally(s.pcs, {StoreEnter}) == 1
  {
    TallyBounds(s.pcs, {StoreEnter});
  }

  lemma CloseKeeps(s: State, round: nat, t: nat)
    requires Inv(s, round) && t < |s.pcs| && s.pcs[t].StoreEnter?
    ensures Inv(Next(s, t), round + 1)
  {
    LastHasLeft(s, round, t);
    OthersWait(s.pcs, t);
    CloseTallies(s.pcs, t);
    assert Next(s, t).pcs == s.pcs[t := Idle];
  }

  lemma ReturnKeeps(s: State, round: nat, t: nat)
    requires Inv(s, round) && t < |s.pcs| && s.pcs[t].AwaitEnter?
    ensures Inv(Next(s, t), round)
  {
    if s.mode.Enter? {
      TallyUpdate(s.pcs, ENTERED, t, Idle);
      TallyUpdate(s.pcs, {StoreLeave}, t, Idle);
    }
  }

  /** Every step keeps the invariant, and only the store of the Enter mode moves on to the next round. */
  lemma StepKeeps(s: State, round: nat, t: nat)
    requires Inv(s, round) && t < |s.pcs|
    ensures s.pcs[t].Subtract? ==> s.step > 0
    ensures Inv(Next(s, t), if s.pcs[t].StoreEnter? then round + 1 else round)
  {
    NeverUnderflows(s, round, t);
    match s.pcs[t]
    case Idle => ArriveKeeps(s, round, t);
    case StoreLeave => OpenKeeps(s, round, t);
    case AwaitLeave => PassKeeps(s, round, t);
    case Subtract => SubtractKeeps(s, round, t);
    case StoreEnter => CloseKeeps(s, round, t);
    case AwaitEnter => ReturnKeeps(s, round, t);
  }
}
