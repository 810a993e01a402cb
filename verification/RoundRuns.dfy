/** Whole runs of the round protocol, of any length. */
module RoundRuns {
  import opened Counting
  import opened Rounds
  import opened RoundSteps

  ghost predicate Takes(s: State, st: Step, s2: State) {
    Shaped(s) && Enabled(s, st) && s2 == Next(s, st)
  }

  ghost predicate IsRun(states: seq<State>, steps: seq<Step>, n: nat) {
    && n > 0 && |states| == |steps| + 1 && states[0] == Init(n)
    && (forall i :: 0 <= i < |steps| ==> Takes(states[i], steps[i], states[i + 1]))
  }

  lemma TakesKeeps(s: State, st: Step, s2: State)
    requires Inv(s) && Takes(s, st, s2)
    ensures Inv(s2) && |s2.pcs| == |s.pcs|
  {
    StepKeeps(s, st);
  }

  lemma {:induction false} RunInv(states: seq<State>, steps: seq<Step>, n: nat, i: nat)
    requires IsRun(states, steps, n) && i < |states|
    ensures Inv(states[i]) && |states[i].pcs| == n
  {
    if i == 0 {
      InitInv(n);
    } else {
      RunInv(states, steps, n, i - 1);
      assert Takes(states[i - 1], steps[i - 1], states[i]);
      TakesKeeps(states[i - 1], steps[i - 1], states[i]);
    }
  }

  /** No worker starts its k-th body before every worker has arrived for the k-th round,
      and none arrives for the next round before every worker has finished this one. */
  lemma RoundsApart(states: seq<State>, steps: seq<Step>, n: nat, i: nat, w: nat, u: nat)
    requires IsRun(states, steps, n) && i < |states| && w < n && u < n
    ensures Shaped(states[i]) && |states[i].pcs| == n
    ensures states[i].started[w] <= states[i].joined[u] <= states[i].finished[w] + 1
  {
    RunInv(states, steps, n, i);
    var s := states[i];
    assert s.pcs[w] in INSIDE || s.pcs[w] !in INSIDE;
    assert s.pcs[u] in INSIDE || s.pcs[u] !in INSIDE;
  }

  /** Once some worker has started a body, every worker still waiting to start it sees Run or Abort, and begins its
      own with its next operation: the window stays open until the last one is through. */
  lemma NobodyMissesTheStart(states: seq<State>, steps: seq<Step>, n: nat, i: nat, w: nat, u: nat)
    requires IsRun(states, steps, n) && i < |states| && w < n && u < n
    requires Shaped(states[i]) && |states[i].pcs| == n && states[i].pcs[w].Awaiting?
    requires states[i].started[u] >= states[i].joined[w]
    ensures !Spins(states[i], Act(w)) && Enabled(states[i], Act(w))
    ensures Next(states[i], Act(w)).pcs == states[i].pcs[w := Working]
    ensures Next(states[i], Act(w)).started == states[i].started[w := states[i].started[w] + 1]
  {
    RunInv(states, steps, n, i);
    var s := states[i];
    assert s.pcs[u] in INSIDE || s.pcs[u] !in INSIDE;
    assert s.pcs[u] in COMING || s.pcs[u] !in COMING;
  }

  lemma GatheringCounter(s: State)
    requires Shaped(s) && Gathering(s)
    ensures s.nbready <= |s.pcs| && ((exists w :: 0 <= w < |s.pcs| && s.pcs[w].Starting?) ==> s.nbready == 0)
  {
    GatheringBounds(s.pcs);
  }

  lemma RunningCounter(q: seq<Pc>, nbready: nat)
    requires RunCounts(q, nbready)
    ensures nbready <= |q|
  {
    RunningBounds(q);
  }

  lemma CounterOf(s: State)
    requires Inv(s)
    ensures s.nbready <= |s.pcs| && ((exists w :: 0 <= w < |s.pcs| && s.pcs[w].Starting?) ==> s.nbready == 0)
    ensures s.master !in {WaitingLatch, GaveUp} || s.raised ==> s.nbready == 0
  {
    if Gathering(s) {
      GatheringCounter(s);
    } else if Running(s) {
      RunningCounter(s.pcs, s.nbready);
    }
  }

  /** The counter is zero again when a round's bodies start and once they have ended. */
  lemma CounterIsClear(states: seq<State>, steps: seq<Step>, n: nat, i: nat)
    requires IsRun(states, steps, n) && i < |states|
    ensures states[i].nbready <= n == |states[i].pcs|
    ensures (exists w :: 0 <= w < n && states[i].pcs[w].Starting?) ==> states[i].nbready == 0
    ensures states[i].master !in {WaitingLatch, GaveUp} || states[i].raised ==> states[i].nbready == 0
  {
    RunInv(states, steps, n, i);
    CounterOf(states[i]);
  }

  /** master_wait returns an error exactly if some worker reported one in that round, and then one that was reported;
      its last branch is never taken, and it throws exactly when its time limit has run out. */
  lemma VerdictIsRight(states: seq<State>, steps: seq<Step>, n: nat, i: nat)
    requires IsRun(states, steps, n) && i < |states|
    ensures states[i].verdict != Unreachable
    ensures states[i].verdict == Overrun <==> states[i].master.GaveUp?
    ensures states[i].verdict !in {None, Overrun} ==> (states[i].verdict.Bad? <==> states[i].errors != [])
    ensures states[i].verdict.Bad? ==> states[i].verdict.m in states[i].errors
  {
    RunInv(states, steps, n, i);
  }

  ghost predicate CanMove(s: State, st: Step) {
    Enabled(s, st) && !Spins(s, st)
  }

  lemma GatheringMoves(s: State)
    requires Shaped(s) && Gathering(s)
    ensures exists st :: CanMove(s, st)
  {
    GatheringBounds(s.pcs);
    TallyBounds(s.pcs, IN);
    var w: nat :| w < |s.pcs| && !s.pcs[w].Awaiting?;
    assert CanMove(s, Act(w));
  }

  lemma AllOut(q: seq<Pc>)
    requires forall t :: 0 <= t < |q| ==> q[t] in {Idle, Gone}
    ensures Tally(q, OUT) == |q| && Tally(q, LAST) == 0 && Tally(q, {ClearingReady}) == 0
  {
    RunningBounds(q);
  }

  lemma SomeoneInside(q: seq<Pc>, nbready: nat) returns (w: nat)
    requires RunCounts(q, nbready) && q != []
    ensures w < |q| && q[w] !in {Idle, Gone}
  {
    if forall t :: 0 <= t < |q| ==> q[t] in {Idle, Gone} {
      AllOut(q);
    }
    w :| w < |q| && q[w] !in {Idle, Gone};
  }

  lemma RunningMoves(s: State)
    requires Shaped(s) && Running(s)
    ensures exists st :: CanMove(s, st)
  {
    var w := SomeoneInside(s.pcs, s.nbready);
    assert CanMove(s, if s.pcs[w].Working? then Finish(w, Success) else Act(w));
  }

  /** The master has joined and everyone is gone, or it gave up and the round it gave up has ended. */
  ghost predicate Over(s: State) {
    || (s.master.Joined? && forall w :: 0 <= w < |s.pcs| ==> s.pcs[w].Gone?)
    || (s.master.GaveUp? && s.raised)
  }

  lemma EndedMoves(s: State)
    requires Shaped(s) && Ended(s) && !Over(s)
    ensures exists st :: CanMove(s, st)
  {
    assert CanMove(s, match s.master
      case Free => Notify
      case Failed => Join
      case WaitingLatch => Wake
      case ReadingStatus => ReadStatus
      case _ => ReadError);
  }

  lemma RestMoves(s: State)
    requires Inv(s) && !Gathering(s) && !Running(s) && !Over(s)
    ensures exists st :: CanMove(s, st)
  {
    if Signalling(s) {
      TallyBounds(s.pcs, {Raising});
      var w: nat :| w < |s.pcs| && s.pcs[w] in {Raising};
      assert CanMove(s, Act(w));
    } else if Quitting(s) {
      var w: nat :| w < |s.pcs| && !s.pcs[w].Gone?;
      assert CanMove(s, Act(w));
    } else {
      EndedMoves(s);
    }
  }

  lemma OverIsStill(s: State, st: Step)
    requires Inv(s) && Over(s)
    ensures !CanMove(s, st)
  {
  }

  /** Nothing ever gets stuck: somebody can do more than spin until it is all over, and nobody afterwards. */
  lemma SomeoneMoves(s: State)
    requires Inv(s)
    ensures Over(s) <==> !exists st :: CanMove(s, st)
  {
    if Over(s) {
      forall st ensures !CanMove(s, st) {
        OverIsStill(s, st);
      }
    } else if Gathering(s) {
      GatheringMoves(s);
    } else if Running(s) {
      RunningMoves(s);
    } else {
      RestMoves(s);
    }
  }
}
