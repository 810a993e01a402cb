/** Every round ends: a measure that each operation other than a spin lowers. */
module RoundProgress {
  import opened Counting
  import opened Rounds
  import opened RoundSteps
  import opened RoundRuns

  // ---- the measure ----

  /** An upper bound on the operations a worker in this place still has before it until its round, or its life, is over:
      behind tells whether it has yet to finish the current round, quit whether it is told to leave. */
  function PlaceCost(pc: Pc, behind: bool, quit: bool): nat {
    match pc
    case Idle => if behind then 12 else if quit then 1 else 0
    case Joining => 11
    case ResettingReady => 10
    case Starting => 9
    case Awaiting => 9
    case Working => 8
    case Blaming => 7
    case Aborting => 6
    case Reporting => 5
    case ClearingReady => 4
    case Judging => 3
    case StoringDone => 2
    case StoringFail => 2
    case Raising => 1
    case Gone => 0
  }

  function Cost(s: State, w: nat): nat
    requires Shaped(s) && w < |s.pcs|
  {
    PlaceCost(s.pcs[w], s.finished[w] < s.round, s.status.Quit?)
  }

  /** The same for the first n workers together. */
  function Costs(s: State, n: nat): nat
    requires Shaped(s) && n <= |s.pcs|
  {
    if n == 0 then 0 else Costs(s, n - 1) + Cost(s, n - 1)
  }

  function MasterCost(m: Master): nat {
    match m
    case WaitingLatch => 3
    case ReadingStatus => 2
    case ReadingError => 1
    case _ => 0
  }

  function Work(s: State): nat
    requires Shaped(s)
  {
    Costs(s, |s.pcs|) + MasterCost(s.master)
  }

  lemma {:induction false} CostsBound(s: State, n: nat)
    requires Shaped(s) && n <= |s.pcs|
    ensures Costs(s, n) <= 12 * n
  {
    if n > 0 {
      CostsBound(s, n - 1);
    }
  }

  lemma {:induction false} CostsSame(s: State, s2: State, n: nat)
    requires Shaped(s) && Shaped(s2) && n <= |s.pcs| == |s2.pcs|
    requires forall v :: 0 <= v < n ==> Cost(s2, v) == Cost(s, v)
    ensures Costs(s2, n) == Costs(s, n)
  {
    if n > 0 {
      CostsSame(s, s2, n - 1);
    }
  }

  lemma {:induction false} CostsLess(s: State, s2: State, w: nat, n: nat)
    requires Shaped(s) && Shaped(s2) && w < n <= |s.pcs| == |s2.pcs|
    requires Cost(s2, w) < Cost(s, w) && forall v :: 0 <= v < n && v != w ==> Cost(s2, v) == Cost(s, v)
    ensures Costs(s2, n) < Costs(s, n)
    decreases n
  {
    if w < n - 1 {
      CostsLess(s, s2, w, n - 1);
    } else {
      CostsSame(s, s2, n - 1);
    }
  }

  // ---- every operation lowers it ----

  /** A step of the current round: the master opens no other one, and calls nobody home. */
  ghost predicate Moves(s: State, st: Step) {
    CanMove(s, st) && !st.Notify? && !st.Join?
  }

  /** No operation of a worker stores or removes Quit. */
  lemma QuitKept(s: State, w: nat)
    requires Inv(s) && Enabled(s, Act(w))
    ensures DoAct(s, w).status.Quit? <==> s.status.Quit?
  {
  }

  /** Whoever wakes up has the round before it; whoever goes home has just finished it. */
  lemma AtTheEnds(s: State, w: nat)
    requires Inv(s) && w < |s.pcs|
    ensures s.pcs[w].Idle? && s.status.Wait? ==> s.finished[w] < s.round
    ensures s.pcs[w].Reporting? ==> s.finished[w] + 1 == s.round && !s.status.Quit?
    ensures s.pcs[w].Raising? ==> s.finished[w] == s.round && !s.status.Quit?
  {
    assert s.pcs[w].Reporting? ==> s.pcs[w] in INSIDE;
  }

  lemma OthersKeepPlace(s: State, w: nat, v: nat)
    requires Shaped(s) && Enabled(s, Act(w)) && v < |s.pcs| && v != w
    ensures var s2 := DoAct(s, w);
      && Shaped(s2) && |s2.pcs| == |s.pcs| && s2.round == s.round && s2.master == s.master
      && s2.pcs[v] == s.pcs[v] && s2.finished[v] == s.finished[v]
  {
  }

  lemma ActShape(s: State, w: nat)
    requires Shaped(s) && Enabled(s, Act(w))
    ensures var s2 := DoAct(s, w);
      Shaped(s2) && |s2.pcs| == |s.pcs| && s2.round == s.round && s2.master == s.master
  {
  }

  /** Where a worker's own operation takes it. */
  lemma OwnPlace(s: State, w: nat)
    requires Shaped(s) && Enabled(s, Act(w)) && !Spins(s, Act(w))
    ensures var s2, pc := DoAct(s, w), s.pcs[w];
      && Shaped(s2) && w < |s2.pcs|
      && s2.finished[w] == (if pc.Reporting? then s.finished[w] + 1 else s.finished[w])
      && (pc.Reporting? || pc.Raising? ==> s2.pcs[w] != if s.leaves[w] then Idle else Gone)
      && s2.pcs[w] in match pc
           case Idle => if s.status.Wait? then {Joining} else {Gone}
           case Joining => {ResettingReady, Awaiting}
           case ResettingReady => {Starting}
           case Starting => {Working}
           case Awaiting => {Working}
           case Blaming => {Aborting}
           case Aborting => {Reporting}
           case Reporting => {ClearingReady, Idle, Gone}
           case ClearingReady => {Judging}
           case Judging => {StoringFail, StoringDone}
           case StoringDone => {Raising}
           case StoringFail => {Raising}
           case _ => {Idle, Gone}
  {
  }

  lemma SpinChangesNothing(s: State, w: nat)
    requires Shaped(s) && Enabled(s, Act(w)) && Spins(s, Act(w))
    ensures DoAct(s, w) == s
  {
  }

  lemma MasterMoves(s: State, st: Step)
    requires Shaped(s) && Enabled(s, st) && !st.Act? && !st.Finish?
    ensures Next(s, st).master != s.master
  {
  }

  /** A spin is exactly an enabled step that changes nothing. */
  lemma SpinsIffStill(s: State, st: Step)
    requires Shaped(s) && Enabled(s, st)
    ensures Spins(s, st) <==> Next(s, st) == s
  {
    match st
    case Act(w) => if Spins(s, st) { SpinChangesNothing(s, w); } else { OwnPlace(s, w); }
    case Finish(w, outcome) => assert DoFinish(s, w, outcome).pcs[w] != Working;
    case _ => MasterMoves(s, st);
  }

  lemma OwnCost(s: State, w: nat, pc: Pc, finished: nat, quit: bool)
    requires Shaped(s) && Enabled(s, Act(w)) && !Spins(s, Act(w)) && quit == s.status.Quit?
    requires s.pcs[w].Idle? ==> (s.status.Wait? && s.finished[w] < s.round) || quit
    requires s.pcs[w].Reporting? ==> finished == s.round && !quit
    requires s.pcs[w].Raising? ==> s.finished[w] == s.round && !quit
    requires Shaped(DoAct(s, w)) && w < |DoAct(s, w).pcs|
    requires pc == DoAct(s, w).pcs[w] && finished == DoAct(s, w).finished[w]
    ensures PlaceCost(pc, finished < s.round, quit) < Cost(s, w)
  {
    OwnPlace(s, w);
  }

  lemma ActShrinks(s: State, w: nat)
    requires Inv(s) && Moves(s, Act(w))
    ensures Shaped(DoAct(s, w)) && Work(DoAct(s, w)) < Work(s)
  {
    var s2 := DoAct(s, w);
    AtTheEnds(s, w);
    QuitKept(s, w);
    ActShape(s, w);
    OwnPlace(s, w);
    OwnCost(s, w, s2.pcs[w], s2.finished[w], s2.status.Quit?);
    forall v | 0 <= v < |s.pcs| && v != w ensures Cost(s2, v) == Cost(s, v) {
      OthersKeepPlace(s, w, v);
    }
    CostsLess(s, s2, w, |s.pcs|);
  }

  lemma FinishShrinks(s: State, w: nat, outcome: Outcome)
    requires Shaped(s) && Enabled(s, Finish(w, outcome))
    ensures Shaped(DoFinish(s, w, outcome)) && Work(DoFinish(s, w, outcome)) < Work(s)
  {
    CostsLess(s, DoFinish(s, w, outcome), w, |s.pcs|);
  }

  lemma MasterShrinks(s: State, st: Step)
    requires Shaped(s) && Enabled(s, st) && st in {Wake, GiveUp, ReadStatus, ReadError}
    ensures Shaped(Next(s, st)) && Work(Next(s, st)) < Work(s)
  {
    CostsSame(s, Next(s, st), |s.pcs|);
  }

  /** Every step of a round that is not a spin brings its end nearer. */
  lemma MoveShrinksWork(s: State, st: Step)
    requires Inv(s) && Moves(s, st)
    ensures Shaped(Next(s, st)) && Work(Next(s, st)) < Work(s)
  {
    match st
    case Act(w) => ActShrinks(s, w);
    case Finish(w, outcome) => FinishShrinks(s, w, outcome);
    case Notify =>
    case Join =>
    case _ => MasterShrinks(s, st);
  }

  // ---- schedules ----

  /** Moves of master and workers, chosen in any way, with any number of spins left out. */
  ghost predicate Schedule(states: seq<State>, steps: seq<Step>) {
    && |states| == |steps| + 1
    && (forall i :: 0 <= i < |steps| ==> Moves(states[i], steps[i]) && Takes(states[i], steps[i], states[i + 1]))
  }

  /** However they are chosen, no more than twelve per worker and three of the master are left. */
  lemma {:induction false} ScheduleBound(states: seq<State>, steps: seq<Step>)
    requires Schedule(states, steps) && Inv(states[0])
    ensures |steps| <= Work(states[0]) <= 12 * |states[0].pcs| + 3
    decreases |steps|
  {
    CostsBound(states[0], |states[0].pcs|);
    if steps != [] {
      assert Moves(states[0], steps[0]) && Takes(states[0], steps[0], states[1]);
      MoveShrinksWork(states[0], steps[0]);
      TakesKeeps(states[0], steps[0], states[1]);
      ScheduleBound(states[1..], steps[1..]);
    }
  }

  ghost predicate Stuck(s: State) {
    forall st :: !Moves(s, st)
  }

  /** The round is over: every worker has begun and finished its body for it as often as the master has opened a round,
      and is back or gone; the master has its verdict, or has given up. */
  ghost predicate RoundOver(s: State) {
    && Shaped(s) && s.nbready == 0
    && (forall w :: 0 <= w < |s.pcs| ==>
          && (s.pcs[w].Idle? || s.pcs[w].Gone?)
          && s.joined[w] == s.started[w] == s.finished[w] == s.round)
    && (s.master.Free? || s.master.Failed? || s.master.GaveUp?
        || (s.master.Joined? && forall w :: 0 <= w < |s.pcs| ==> s.pcs[w].Gone?))
  }

  lemma GatheringGoesOn(s: State)
    requires Shaped(s) && Gathering(s)
    ensures !Stuck(s)
  {
    GatheringBounds(s.pcs);
    TallyBounds(s.pcs, IN);
    var w: nat :| w < |s.pcs| && !s.pcs[w].Awaiting?;
    assert Moves(s, Act(w));
  }

  lemma RunningGoesOn(s: State)
    requires Shaped(s) && Running(s)
    ensures !Stuck(s)
  {
    var w := SomeoneInside(s.pcs, s.nbready);
    assert Moves(s, if s.pcs[w].Working? then Finish(w, Success) else Act(w));
  }

  lemma SignallingGoesOn(s: State)
    requires Shaped(s) && Signalling(s)
    ensures !Stuck(s)
  {
    TallyBounds(s.pcs, {Raising});
    var w: nat :| w < |s.pcs| && s.pcs[w] in {Raising};
    assert Moves(s, Act(w));
  }

  lemma EndedGoesOn(s: State)
    requires Shaped(s) && Ended(s) && s.master in {WaitingLatch, ReadingStatus, ReadingError}
    ensures !Stuck(s)
  {
    assert Moves(s, if s.master.WaitingLatch? then Wake else if s.master.ReadingStatus? then ReadStatus else ReadError);
  }

  lemma QuittingGoesOn(s: State)
    requires Shaped(s) && Quitting(s) && exists w :: 0 <= w < |s.pcs| && !s.pcs[w].Gone?
    ensures !Stuck(s)
  {
    var w: nat :| w < |s.pcs| && !s.pcs[w].Gone?;
    assert Moves(s, Act(w));
  }

  lemma HomeIsOver(s: State)
    requires Shaped(s) && AllHome(s, {Idle, Gone})
    ensures forall w :: 0 <= w < |s.pcs| ==>
      (s.pcs[w].Idle? || s.pcs[w].Gone?) && s.joined[w] == s.started[w] == s.finished[w] == s.round
  {
  }

  /** A round in which nobody can do more than spin is over. */
  lemma StuckIsOver(s: State)
    requires Inv(s) && Stuck(s)
    ensures RoundOver(s)
  {
    if Gathering(s) {
      GatheringGoesOn(s);
    } else if Running(s) {
      RunningGoesOn(s);
    } else if Signalling(s) {
      SignallingGoesOn(s);
    } else if Ended(s) {
      if s.master in {WaitingLatch, ReadingStatus, ReadingError} { EndedGoesOn(s); }
      HomeIsOver(s);
    } else {
      if exists w :: 0 <= w < |s.pcs| && !s.pcs[w].Gone? { QuittingGoesOn(s); }
      HomeIsOver(s);
    }
  }

  lemma SameRound(s: State, st: Step, s2: State)
    requires Takes(s, st, s2) && !st.Notify?
    ensures s2.round == s.round
  {
  }

  lemma StepOfRound(s: State, st: Step, s2: State)
    requires Inv(s) && Moves(s, st) && Takes(s, st, s2)
    ensures Inv(s2) && s2.round == s.round
  {
    TakesKeeps(s, st, s2);
    SameRound(s, st, s2);
  }

  /** Whatever the schedule, when it can go no further the round is over, and nobody opened another one meanwhile. */
  lemma {:induction false} RoundCompletes(states: seq<State>, steps: seq<Step>)
    requires Schedule(states, steps) && Inv(states[0]) && Stuck(states[|steps|])
    ensures RoundOver(states[|steps|]) && states[|steps|].round == states[0].round
    decreases |steps|
  {
    if steps == [] {
      StuckIsOver(states[0]);
    } else {
      assert Moves(states[0], steps[0]) && Takes(states[0], steps[0], states[1]);
      StepOfRound(states[0], steps[0], states[1]);
      var rest, later := states[1..], steps[1..];
      assert rest[|later|] == states[|steps|];
      RoundCompletes(rest, later);
    }
  }

  // ---- rounds and bodies, counted over the steps ----

  /** How many of the first i steps end a body of worker w. */
  function Bodies(steps: seq<Step>, i: nat, w: nat): nat
    requires i <= |steps|
  {
    if i == 0 then 0
    else Bodies(steps, i - 1, w) + (if steps[i - 1].Finish? && steps[i - 1].w == w then 1 else 0)
  }

  /** How many of the first i steps open a round. */
  function Openings(steps: seq<Step>, i: nat): nat
    requires i <= |steps|
  {
    if i == 0 then 0 else Openings(steps, i - 1) + (if steps[i - 1].Notify? then 1 else 0)
  }

  const ENDING: set<Pc> := {Blaming, Aborting, Reporting}

  /** The bodies a worker has ended: those it has counted itself out of, and the one it is about to. */
  ghost predicate BodiesAre(s: State, w: nat, bodies: nat)
    requires Shaped(s) && w < |s.pcs|
  {
    bodies == s.finished[w] + if s.pcs[w] in ENDING then 1 else 0
  }

  lemma FinishPlace(s: State, w: nat, outcome: Outcome, v: nat)
    requires Shaped(s) && Enabled(s, Finish(w, outcome)) && v < |s.pcs|
    ensures var s2 := DoFinish(s, w, outcome);
      && Shaped(s2) && |s2.pcs| == |s.pcs| && s2.finished == s.finished && s2.round == s.round
      && s2.pcs[v] in if v == w then ENDING else {s.pcs[v]}
  {
  }

  lemma StepBodies(s: State, st: Step, s2: State, w: nat, bodies: nat)
    requires Takes(s, st, s2) && w < |s.pcs| && BodiesAre(s, w, bodies)
    ensures Shaped(s2) && |s2.pcs| == |s.pcs|
    ensures BodiesAre(s2, w, if st.Finish? && st.w == w then bodies + 1 else bodies)
  {
    match st
    case Act(v) =>
      ActShape(s, v);
      if v != w { OthersKeepPlace(s, v, w); }
      if Spins(s, st) { SpinsIffStill(s, st); } else { OwnPlace(s, v); }
    case Finish(v, outcome) => FinishPlace(s, v, outcome, w);
    case _ =>
  }

  lemma NextBodies(states: seq<State>, steps: seq<Step>, n: nat, i: nat, w: nat, bodies: nat)
    requires IsRun(states, steps, n) && 0 < i < |states| && w < n
    requires Shaped(states[i - 1]) && |states[i - 1].pcs| == n && BodiesAre(states[i - 1], w, bodies)
    ensures Shaped(states[i]) && |states[i].pcs| == n
    ensures BodiesAre(states[i], w, if steps[i - 1].Finish? && steps[i - 1].w == w then bodies + 1 else bodies)
  {
    assert Takes(states[i - 1], steps[i - 1], states[i]);
    StepBodies(states[i - 1], steps[i - 1], states[i], w, bodies);
  }

  lemma {:induction false} RunBodies(states: seq<State>, steps: seq<Step>, n: nat, i: nat, w: nat)
    requires IsRun(states, steps, n) && i < |states| && w < n
    ensures Shaped(states[i]) && |states[i].pcs| == n && BodiesAre(states[i], w, Bodies(steps, i, w))
  {
    if i > 0 {
      RunBodies(states, steps, n, i - 1, w);
      NextBodies(states, steps, n, i, w, Bodies(steps, i - 1, w));
    }
  }

  lemma StepOpens(s: State, st: Step, s2: State)
    requires Takes(s, st, s2)
    ensures s2.round == s.round + if st.Notify? then 1 else 0
  {
    if !st.Notify? { SameRound(s, st, s2); }
  }

  lemma {:induction false} RunOpenings(states: seq<State>, steps: seq<Step>, n: nat, i: nat)
    requires IsRun(states, steps, n) && i < |states|
    ensures states[i].round == Openings(steps, i)
  {
    if i > 0 {
      RunOpenings(states, steps, n, i - 1);
      assert Takes(states[i - 1], steps[i - 1], states[i]);
      StepOpens(states[i - 1], steps[i - 1], states[i]);
    }
  }

  /** Whenever a round is over, every worker has ended exactly one body for each time the master opened one. */
  lemma OneBodyPerRound(states: seq<State>, steps: seq<Step>, n: nat, i: nat, w: nat)
    requires IsRun(states, steps, n) && i < |states| && w < n && RoundOver(states[i])
    ensures Bodies(steps, i, w) == Openings(steps, i)
  {
    RunBodies(states, steps, n, i, w);
    RunOpenings(states, steps, n, i);
  }
}
