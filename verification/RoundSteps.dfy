/** Every step of the round protocol keeps its invariant, phase by phase. */
module RoundSteps {
  import opened Counting
  import opened Rounds

  // ---- the counts after one worker moves ----

  lemma GatheringTallies(q: seq<Pc>, w: nat, pc: Pc)
    requires w < |q|
    ensures Tally(q[w := pc], IN) + (if q[w] in IN then 1 else 0) == Tally(q, IN) + (if pc in IN then 1 else 0)
    ensures Tally(q[w := pc], {Starting}) + (if q[w].Starting? then 1 else 0)
      == Tally(q, {Starting}) + (if pc.Starting? then 1 else 0)
    ensures Tally(q[w := pc], {ResettingReady}) + (if q[w].ResettingReady? then 1 else 0)
      == Tally(q, {ResettingReady}) + (if pc.ResettingReady? then 1 else 0)
    ensures Tally(q[w := pc], {Starting, Awaiting}) + (if q[w] in {Starting, Awaiting} then 1 else 0)
      == Tally(q, {Starting, Awaiting}) + (if pc in {Starting, Awaiting} then 1 else 0)
  {
    TallyUpdate(q, IN, w, pc);
    TallyUpdate(q, {Starting}, w, pc);
    TallyUpdate(q, {ResettingReady}, w, pc);
    TallyUpdate(q, {Starting, Awaiting}, w, pc);
  }

  lemma GatheringBounds(q: seq<Pc>)
    ensures Tally(q, IN) == |q| <==> forall t :: 0 <= t < |q| ==> q[t] in IN
    ensures Tally(q, {Starting}) == 0 <==> forall t :: 0 <= t < |q| ==> !q[t].Starting?
    ensures Tally(q, {ResettingReady}) == 0 <==> forall t :: 0 <= t < |q| ==> !q[t].ResettingReady?
    ensures Tally(q, {Starting, Awaiting}) == |q| <==> forall t :: 0 <= t < |q| ==> q[t] in {Starting, Awaiting}
    ensures Tally(q, IN) <= |q|
  {
    TallyBounds(q, IN);
    TallyBounds(q, {Starting});
    TallyBounds(q, {ResettingReady});
    TallyBounds(q, {Starting, Awaiting});
  }

  // ---- gathering ----

  lemma WakingKeeps(s: State, w: nat)
    requires Shaped(s) && Gathering(s) && w < |s.pcs| && s.pcs[w].Idle?
    ensures Gathering(DoAct(s, w))
  {
    GatheringBounds(s.pcs);
    GatheringTallies(s.pcs, w, Joining);
  }

  lemma JoiningKeeps(s: State, w: nat)
    requires Shaped(s) && Gathering(s) && w < |s.pcs| && s.pcs[w].Joining?
    ensures Gathering(DoAct(s, w))
  {
    GatheringBounds(s.pcs);
    GatheringTallies(s.pcs, w, if s.nbready + 1 == |s.pcs| then ResettingReady else Awaiting);
  }

  lemma ResettingKeeps(s: State, w: nat)
    requires Shaped(s) && Gathering(s) && w < |s.pcs| && s.pcs[w].ResettingReady?
    ensures Gathering(DoAct(s, w))
  {
    var q := s.pcs[w := Starting];
    GatheringBounds(s.pcs);
    GatheringTallies(s.pcs, w, Starting);
    GatheringBounds(q);
  }

  /** Whoever stores Run is the only one to do so, and everyone else waits for it. */
  lemma AllStarting(s: State, w: nat)
    requires Shaped(s) && Gathering(s) && w < |s.pcs| && s.pcs[w].Starting?
    ensures s.nbready == 0 && forall t :: 0 <= t < |s.pcs| && t != w ==> s.pcs[t].Awaiting?
  {
    var q := s.pcs[w := Working];
    GatheringBounds(s.pcs);
    GatheringTallies(s.pcs, w, Working);
    GatheringBounds(q);
    forall t | 0 <= t < |s.pcs| && t != w ensures s.pcs[t].Awaiting? {
      assert q[t] == s.pcs[t];
    }
  }

  lemma RunningBounds(q: seq<Pc>)
    ensures Tally(q, LAST) == 0 <==> forall t :: 0 <= t < |q| ==> q[t] !in LAST
    ensures Tally(q, OUT) == 0 <==> forall t :: 0 <= t < |q| ==> q[t] !in OUT
    ensures Tally(q, OUT) == |q| <==> forall t :: 0 <= t < |q| ==> q[t] in OUT
    ensures Tally(q, OUT) <= |q|
    ensures Tally(q, LAST + {Idle, Gone}) == |q| <==> forall t :: 0 <= t < |q| ==> q[t] in LAST + {Idle, Gone}
    ensures Tally(q, {ClearingReady}) == 0 <==> forall t :: 0 <= t < |q| ==> !q[t].ClearingReady?
  {
    TallyBounds(q, LAST);
    TallyBounds(q, OUT);
    TallyBounds(q, LAST + {Idle, Gone});
    TallyBounds(q, {ClearingReady});
  }

  lemma BlameBounds(q: seq<Pc>)
    ensures Tally(q, {Blaming, Aborting}) == 0 <==> forall t :: 0 <= t < |q| ==> q[t] !in {Blaming, Aborting}
    ensures Tally(q, {Blaming}) == 0 <==> forall t :: 0 <= t < |q| ==> !q[t].Blaming?
    ensures Tally(q, {StoringFail}) == 0 <==> forall t :: 0 <= t < |q| ==> !q[t].StoringFail?
    ensures Tally(q, {StoringDone}) == 0 <==> forall t :: 0 <= t < |q| ==> !q[t].StoringDone?
  {
    TallyBounds(q, {Blaming, Aborting});
    TallyBounds(q, {Blaming});
    TallyBounds(q, {StoringFail});
    TallyBounds(q, {StoringDone});
  }

  lemma JustStarted(s: State)
    requires Shaped(s) && RunPlaces(s) && s.status.Run? && s.errors == [] && s.nbready == 0 && Staying(s)
    requires forall t :: 0 <= t < |s.pcs| ==> s.pcs[t] in {Awaiting, Working}
    ensures Running(s)
  {
    RunningBounds(s.pcs);
    BlameBounds(s.pcs);
  }

  lemma StartingKeeps(s: State, w: nat)
    requires Shaped(s) && Gathering(s) && w < |s.pcs| && s.pcs[w].Starting?
    ensures Running(DoAct(s, w))
  {
    AllStarting(s, w);
    JustStarted(DoAct(s, w));
  }

  lemma GatheringKeeps(s: State, w: nat)
    requires Shaped(s) && Gathering(s) && Enabled(s, Act(w))
    ensures Inv(DoAct(s, w))
  {
    match s.pcs[w]
    case Idle => WakingKeeps(s, w);
    case Joining => JoiningKeeps(s, w);
    case ResettingReady => ResettingKeeps(s, w);
    case Starting => StartingKeeps(s, w);
    case _ =>
  }

  // ---- running ----

  lemma RunTallies(q: seq<Pc>, w: nat, pc: Pc)
    requires w < |q|
    ensures Tally(q[w := pc], LAST) + (if q[w] in LAST then 1 else 0) == Tally(q, LAST) + (if pc in LAST then 1 else 0)
    ensures Tally(q[w := pc], OUT) + (if q[w] in OUT then 1 else 0) == Tally(q, OUT) + (if pc in OUT then 1 else 0)
    ensures Tally(q[w := pc], {ClearingReady}) + (if q[w].ClearingReady? then 1 else 0)
      == Tally(q, {ClearingReady}) + (if pc.ClearingReady? then 1 else 0)
    ensures Tally(q[w := pc], LAST + {Idle, Gone}) + (if q[w] in LAST + {Idle, Gone} then 1 else 0)
      == Tally(q, LAST + {Idle, Gone}) + (if pc in LAST + {Idle, Gone} then 1 else 0)
  {
    TallyUpdate(q, LAST, w, pc);
    TallyUpdate(q, OUT, w, pc);
    TallyUpdate(q, {ClearingReady}, w, pc);
    TallyUpdate(q, LAST + {Idle, Gone}, w, pc);
  }

  lemma BlameTallies(q: seq<Pc>, w: nat, pc: Pc)
    requires w < |q|
    ensures Tally(q[w := pc], {Blaming, Aborting}) + (if q[w] in {Blaming, Aborting} then 1 else 0)
      == Tally(q, {Blaming, Aborting}) + (if pc in {Blaming, Aborting} then 1 else 0)
    ensures Tally(q[w := pc], {Blaming}) + (if q[w].Blaming? then 1 else 0) ==
      Tally(q, {Blaming}) + (if pc.Blaming? then 1 else 0)
    ensures Tally(q[w := pc], {StoringFail}) + (if q[w].StoringFail? then 1 else 0)
      == Tally(q, {StoringFail}) + (if pc.StoringFail? then 1 else 0)
    ensures Tally(q[w := pc], {StoringDone}) + (if q[w].StoringDone? then 1 else 0)
      == Tally(q, {StoringDone}) + (if pc.StoringDone? then 1 else 0)
  {
    TallyUpdate(q, {Blaming, Aborting}, w, pc);
    TallyUpdate(q, {Blaming}, w, pc);
    TallyUpdate(q, {StoringFail}, w, pc);
    TallyUpdate(q, {StoringDone}, w, pc);
  }

  /** Moves inside the body leave the count of those out alone, and happen only before the last one is out. */
  lemma InsideCounts(q: seq<Pc>, nbready: nat, w: nat, pc: Pc)
    requires RunCounts(q, nbready) && w < |q| && q[w] in INSIDE && pc in INSIDE
    ensures RunCounts(q[w := pc], nbready)
  {
    RunTallies(q, w, pc);
  }

  lemma ReportingCounts(q: seq<Pc>, nbready: nat, w: nat, pc: Pc)
    requires RunCounts(q, nbready) && w < |q| && q[w].Reporting?
    requires pc in if nbready + 1 == |q| then {ClearingReady} else {Idle, Gone}
    ensures RunCounts(q[w := pc], nbready + 1)
  {
    RunTallies(q, w, pc);
    RunningBounds(q);
  }

  lemma ClearingCounts(q: seq<Pc>, nbready: nat, w: nat)
    requires RunCounts(q, nbready) && w < |q| && q[w].ClearingReady? && forall t :: 0 <= t < |q| ==> !q[t].Raising?
    ensures RunCounts(q[w := Judging], 0)
  {
    var r := q[w := Judging];
    RunTallies(q, w, Judging);
    RunningBounds(q);
    RunningBounds(r);
    forall t | 0 <= t < |r| ensures r[t] in LAST + {Idle, Gone} {
      assert t != w ==> r[t] == q[t];
    }
  }

  lemma JudgingCounts(q: seq<Pc>, nbready: nat, w: nat, pc: Pc)
    requires RunCounts(q, nbready) && w < |q| && q[w].Judging? && pc in {StoringDone, StoringFail}
    ensures RunCounts(q[w := pc], nbready)
  {
    RunTallies(q, w, pc);
    RunningBounds(q);
  }

  /** Once someone has cleared the counter, everyone else is out. */
  lemma LastAlone(q: seq<Pc>, nbready: nat, w: nat)
    requires RunCounts(q, nbready) && w < |q| && q[w] in LAST
    ensures nbready == 0 && forall t :: 0 <= t < |q| && t != w ==> q[t] in {Idle, Gone}
  {
    RunningBounds(q);
    RunTallies(q, w, Idle);
    RunningBounds(q[w := Idle]);
    forall t | 0 <= t < |q| && t != w ensures q[t] in {Idle, Gone} {
      assert q[w := Idle][t] == q[t];
    }
  }

  lemma ReleasedKeeps(s: State, w: nat)
    requires Shaped(s) && Running(s) && w < |s.pcs| && s.pcs[w].Awaiting?
    ensures Running(DoAct(s, w))
  {
    InsideCounts(s.pcs, s.nbready, w, Working);
    BlameTallies(s.pcs, w, Working);
  }

  lemma FinishPlaces(s: State, w: nat, outcome: Outcome)
    requires Shaped(s) && RunPlaces(s) && w < |s.pcs| && s.pcs[w].Working?
    ensures RunPlaces(DoFinish(s, w, outcome))
  {
  }

  lemma FinishKeeps(s: State, w: nat, outcome: Outcome)
    requires Shaped(s) && Running(s) && w < |s.pcs| && s.pcs[w].Working?
    ensures Running(DoFinish(s, w, outcome))
  {
    var pc := DoFinish(s, w, outcome).pcs[w];
    InsideCounts(s.pcs, s.nbready, w, pc);
    FinishPlaces(s, w, outcome);
    BlameTallies(s.pcs, w, pc);
  }

  lemma BlamingKeeps(s: State, w: nat)
    requires Shaped(s) && Running(s) && w < |s.pcs| && s.pcs[w].Blaming?
    ensures Running(DoAct(s, w))
  {
    InsideCounts(s.pcs, s.nbready, w, Aborting);
    BlameTallies(s.pcs, w, Aborting);
  }

  /** While someone is inside the body, nobody judges. */
  lemma NoStoresYet(q: seq<Pc>, nbready: nat, w: nat)
    requires RunCounts(q, nbready) && w < |q| && q[w] in INSIDE
    ensures Tally(q, {StoringDone}) == Tally(q, {StoringFail}) == 0
  {
    RunningBounds(q);
    BlameBounds(q);
  }

  /** A worker that counts itself out is out; any other one stays where it was relative to the round. */
  lemma PlacesKept(s: State, w: nat)
    requires Shaped(s) && RunPlaces(s) && w < |s.pcs|
    requires s.pcs[w] in {Aborting, Reporting, ClearingReady, Judging}
    ensures RunPlaces(DoAct(s, w))
  {
  }

  lemma AbortingKeeps(s: State, w: nat)
    requires Shaped(s) && Running(s) && w < |s.pcs| && s.pcs[w].Aborting?
    ensures Running(DoAct(s, w))
  {
    InsideCounts(s.pcs, s.nbready, w, Reporting);
    PlacesKept(s, w);
    BlameTallies(s.pcs, w, Reporting);
    NoStoresYet(s.pcs, s.nbready, w);
  }

  lemma ReportingKeeps(s: State, w: nat)
    requires Shaped(s) && Running(s) && w < |s.pcs| && s.pcs[w].Reporting?
    ensures Running(DoAct(s, w))
  {
    var pc := DoAct(s, w).pcs[w];
    ReportingCounts(s.pcs, s.nbready, w, pc);
    PlacesKept(s, w);
    BlameTallies(s.pcs, w, pc);
  }

  lemma ClearingKeeps(s: State, w: nat)
    requires Shaped(s) && Running(s) && w < |s.pcs| && s.pcs[w].ClearingReady?
    ensures Running(DoAct(s, w))
  {
    ClearingCounts(s.pcs, s.nbready, w);
    PlacesKept(s, w);
    BlameTallies(s.pcs, w, Judging);
  }

  lemma NoOtherStores(q: seq<Pc>, nbready: nat, w: nat)
    requires RunCounts(q, nbready) && w < |q| && q[w].Judging?
    ensures Tally(q, {StoringDone}) == Tally(q, {StoringFail}) == 0
  {
    LastAlone(q, nbready, w);
    BlameBounds(q);
  }

  lemma JudgingKeeps(s: State, w: nat)
    requires Shaped(s) && Running(s) && w < |s.pcs| && s.pcs[w].Judging?
    ensures Running(DoAct(s, w))
  {
    var pc := DoAct(s, w).pcs[w];
    JudgingCounts(s.pcs, s.nbready, w, pc);
    PlacesKept(s, w);
    BlameTallies(s.pcs, w, pc);
    NoOtherStores(s.pcs, s.nbready, w);
  }

  lemma EveryoneHome(s: State, w: nat)
    requires Shaped(s) && RunPlaces(s) && w < |s.pcs| && s.pcs[w] in {StoringDone, StoringFail}
    requires forall t :: 0 <= t < |s.pcs| && t != w ==> s.pcs[t] in {Idle, Gone}
    ensures AllHome(DoAct(s, w), {Idle, Gone, Raising})
  {
    var n := DoAct(s, w);
    forall t | 0 <= t < |n.pcs| ensures n.pcs[t] in {Idle, Gone, Raising} && Counts(n, t, n.round, n.round, n.round) {
      assert s.pcs[t] !in INSIDE;
    }
  }

  /** The last worker stores Fail exactly if an error was reported in this round. */
  lemma JudgedRight(s: State, w: nat)
    requires Shaped(s) && Running(s) && w < |s.pcs| && s.pcs[w] in {StoringDone, StoringFail}
    requires s.nbready == 0 && forall t :: 0 <= t < |s.pcs| && t != w ==> s.pcs[t] in {Idle, Gone}
    ensures Judged(DoAct(s, w))
  {
    BlameBounds(s.pcs);
    assert s.status.Abort? <==> s.errors != [];
    assert s.pcs[w].StoringFail? <==> s.status.Abort?;
  }

  lemma OnlyRaising(q: seq<Pc>, w: nat)
    requires w < |q| && q[w].Raising? && forall t :: 0 <= t < |q| && t != w ==> !q[t].Raising?
    ensures Tally(q, {Raising}) == 1
  {
    TallyBounds(q[w := Idle], {Raising});
    TallyUpdate(q, {Raising}, w, Idle);
  }

  lemma StoringKeeps(s: State, w: nat)
    requires Shaped(s) && Running(s) && w < |s.pcs| && s.pcs[w] in {StoringDone, StoringFail}
    ensures Signalling(DoAct(s, w))
  {
    LastAlone(s.pcs, s.nbready, w);
    JudgedRight(s, w);
    EveryoneHome(s, w);
    OnlyRaising(DoAct(s, w).pcs, w);
  }

  lemma RunningKeeps(s: State, w: nat)
    requires Shaped(s) && Running(s) && Enabled(s, Act(w))
    ensures Inv(DoAct(s, w))
  {
    match s.pcs[w]
    case Idle =>
    case Awaiting => ReleasedKeeps(s, w);
    case Blaming => BlamingKeeps(s, w);
    case Aborting => AbortingKeeps(s, w);
    case Reporting => ReportingKeeps(s, w);
    case ClearingReady => ClearingKeeps(s, w);
    case Judging => JudgingKeeps(s, w);
    case StoringDone => StoringKeeps(s, w);
    case StoringFail => StoringKeeps(s, w);
  }

  // ---- after the round ----

  lemma RaisingKeeps(s: State, w: nat)
    requires Shaped(s) && Signalling(s) && w < |s.pcs| && s.pcs[w].Raising?
    ensures Ended(DoAct(s, w))
  {
    var n := DoAct(s, w);
    TallyUpdate(s.pcs, {Raising}, w, n.pcs[w]);
    TallyBounds(n.pcs, {Raising});
    forall t | 0 <= t < |n.pcs| ensures n.pcs[t] in {Idle, Gone} {
      assert n.pcs[t] !in {Raising};
    }
  }

  lemma SignallingKeeps(s: State, w: nat)
    requires Shaped(s) && Signalling(s) && Enabled(s, Act(w))
    ensures Inv(DoAct(s, w))
  {
    if s.pcs[w].Raising? { RaisingKeeps(s, w); }
  }

  lemma EndedKeeps(s: State, w: nat)
    requires Shaped(s) && Ended(s) && Enabled(s, Act(w))
    ensures Ended(DoAct(s, w))
  {
  }

  lemma QuittingKeeps(s: State, w: nat)
    requires Shaped(s) && Quitting(s) && Enabled(s, Act(w))
    ensures Quitting(DoAct(s, w))
  {
  }

  lemma NotifyKeeps(s: State)
    requires Shaped(s) && Ended(s) && s.master.Free?
    ensures Gathering(Next(s, Notify))
  {
    GatheringBounds(s.pcs);
    TallyBounds(s.pcs, IN);
  }

  lemma JoinKeeps(s: State)
    requires Inv(s) && (s.master.Free? || s.master.Failed?)
    ensures Quitting(Next(s, Join))
  {
    assert Ended(s);
    var n := Next(s, Join);
    forall t | 0 <= t < |n.pcs| ensures n.pcs[t] in {Idle, Gone} && Counts(n, t, n.round, n.round, n.round) {
      assert Counts(s, t, s.round, s.round, s.round);
    }
  }

  lemma MasterKeeps(s: State, st: Step)
    requires Inv(s) && Enabled(s, st) && st in {Wake, ReadStatus, ReadError}
    ensures Ended(Next(s, st))
  {
    assert Ended(s);
    var n := Next(s, st);
    forall t | 0 <= t < |n.pcs| ensures n.pcs[t] in {Idle, Gone} && Counts(n, t, n.round, n.round, n.round) {
      assert Counts(s, t, s.round, s.round, s.round);
    }
  }

  lemma GiveUpKeeps(s: State)
    requires Inv(s) && Enabled(s, GiveUp)
    ensures Inv(Next(s, GiveUp))
  {
    var n := Next(s, GiveUp);
    forall w | 0 <= w < |n.pcs| && Counts(s, w, s.round, s.round, s.round)
      ensures Counts(n, w, n.round, n.round, n.round)
    {
    }
    assert Gathering(s) ==> Gathering(n);
    assert Running(s) ==> Running(n);
    assert Signalling(s) ==> Signalling(n);
  }

  lemma OnlyRunningWorks(s: State, w: nat)
    requires Inv(s) && w < |s.pcs| && s.pcs[w].Working?
    ensures Running(s)
  {
  }

  lemma ActKeeps(s: State, w: nat)
    requires Inv(s) && Enabled(s, Act(w))
    ensures Inv(DoAct(s, w))
  {
    if Gathering(s) {
      GatheringKeeps(s, w);
    } else if Running(s) {
      RunningKeeps(s, w);
    } else if Signalling(s) {
      SignallingKeeps(s, w);
    } else if Ended(s) {
      EndedKeeps(s, w);
    } else {
      QuittingKeeps(s, w);
    }
  }

  /** Every step keeps the invariant. */
  lemma StepKeeps(s: State, st: Step)
    requires Inv(s) && Enabled(s, st)
    ensures Inv(Next(s, st))
  {
    match st
    case Act(w) => ActKeeps(s, w);
    case Finish(w, outcome) =>
      OnlyRunningWorks(s, w);
      FinishKeeps(s, w, outcome);
    case Notify => NotifyKeeps(s);
    case Join => JoinKeeps(s);
    case GiveUp => GiveUpKeeps(s);
    case _ => MasterKeeps(s, st);
  }
}
