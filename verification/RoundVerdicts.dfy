/** What master_wait returns, judged by what the workers did since the master opened the round. */
module RoundVerdicts {
  import opened Counting
  import opened Rounds
  import opened RoundRuns
  import opened RoundProgress

  /** Step j is the last one before state i in which the master opened a round. */
  ghost predicate Opening(steps: seq<Step>, i: nat, j: nat) {
    j < i <= |steps| && steps[j].Notify? && forall l :: j < l < i ==> !steps[l].Notify?
  }

  /** In this step a worker's body ends with an error. */
  predicate Fails(st: Step) {
    st.Finish? && !st.outcome.Success?
  }

  // ---- the errors of a round are those of its steps ----

  lemma StepErrors(s: State, st: Step, s2: State)
    requires Takes(s, st, s2) && !st.Notify?
    ensures s2.errors == if Fails(st) then s.errors + [st.outcome.m] else s.errors
  {
  }

  /** m is recorded exactly if a step since the opening reported it. */
  lemma {:induction false} ErrorsAreReports(states: seq<State>, steps: seq<Step>, n: nat, i: nat, j: nat, m: Message)
    requires IsRun(states, steps, n) && Opening(steps, i, j)
    ensures m in states[i].errors <==> exists l :: j < l < i && Fails(steps[l]) && steps[l].outcome.m == m
    decreases i
  {
    var s, st, s2 := states[i - 1], steps[i - 1], states[i];
    assert Takes(s, st, s2);
    if i > j + 1 {
      ErrorsAreReports(states, steps, n, i - 1, j, m);
      StepErrors(s, st, s2);
    }
  }

  /** At any state of any run, if the master_wait of the round has returned, it returned an error exactly if some
      worker's body has ended with one, or thrown, since the master opened the round, and then the message of such a
      one. */
  lemma VerdictOfSteps(states: seq<State>, steps: seq<Step>, n: nat, i: nat, j: nat)
    requires IsRun(states, steps, n) && Opening(steps, i, j) && states[i].verdict !in {None, Overrun}
    ensures states[i].verdict.Bad? || states[i].verdict.Good?
    ensures states[i].verdict.Bad? <==>
      exists l :: j < l < i && steps[l].Finish? && (steps[l].outcome.Error? || steps[l].outcome.Throws?)
    ensures states[i].verdict.Bad? ==>
      exists l :: j < l < i && steps[l].Finish? && (steps[l].outcome.Error? || steps[l].outcome.Throws?)
        && steps[l].outcome.m == states[i].verdict.m
  {
    var s := states[i];
    VerdictIsRight(states, steps, n, i);
    if s.verdict.Bad? {
      ErrorsAreReports(states, steps, n, i, j, s.verdict.m);
      var l :| j < l < i && Fails(steps[l]) && steps[l].outcome.m == s.verdict.m;
      assert steps[l].outcome.Error? || steps[l].outcome.Throws?;
    }
    forall l | j < l < i && Fails(steps[l]) ensures s.errors != [] {
      ErrorsAreReports(states, steps, n, i, j, steps[l].outcome.m);
    }
  }

  // ---- which of several messages ----

  /** In this step a worker stores its message. */
  ghost predicate Stores(s: State, st: Step) {
    st.Act? && st.w < |s.pcs| && s.pcs[st.w].Blaming?
  }

  /** Step l is the last one between the opening j and state i in which a worker stores its message. */
  ghost predicate LastStore(states: seq<State>, steps: seq<Step>, i: nat, j: nat, l: nat)
    requires |states| == |steps| + 1 && i <= |steps|
  {
    j < l < i && Stores(states[l], steps[l]) && forall q :: l < q < i ==> !Stores(states[q], steps[q])
  }

  predicate FailsOf(st: Step, w: nat) {
    Fails(st) && st.w == w
  }

  /** Step k is the last one before state i in which worker w's body ends with an error. */
  ghost predicate LastFail(steps: seq<Step>, i: nat, w: nat, k: nat)
    requires i <= |steps|
  {
    k < i && FailsOf(steps[k], w) && forall q :: k < q < i ==> !FailsOf(steps[q], w)
  }

  lemma ActMessages(s: State, w: nat)
    requires Shaped(s) && Enabled(s, Act(w))
    ensures var s2 := DoAct(s, w);
      && Shaped(s2) && |s2.pcs| == |s.pcs| && s2.messages == s.messages && s2.leaves == s.leaves
      && s2.errors == s.errors && s2.verdict == s.verdict
      && s2.errmsg == (if s.pcs[w].Blaming? then s.messages[w] else s.errmsg)
  {
  }

  lemma FinishMessages(s: State, w: nat, outcome: Outcome)
    requires Shaped(s) && Enabled(s, Finish(w, outcome))
    ensures var s2 := DoFinish(s, w, outcome);
      && Shaped(s2) && |s2.pcs| == |s.pcs| && s2.errmsg == s.errmsg && s2.verdict == s.verdict
      && s2.messages == (if outcome.Success? then s.messages else s.messages[w := outcome.m])
      && s2.leaves == (if outcome.Throws? then s.leaves[w := true] else s.leaves)
      && s2.pcs == s.pcs[w := if outcome.Success? then Reporting else Blaming]
  {
  }

  lemma StepMessages(s: State, st: Step, s2: State, w: nat)
    requires Takes(s, st, s2) && w < |s.pcs|
    ensures Shaped(s2) && |s2.pcs| == |s.pcs|
    ensures s2.messages[w] == if FailsOf(st, w) then st.outcome.m else s.messages[w]
    ensures s2.errmsg == if Stores(s, st) then s.messages[st.w] else s.errmsg
  {
    match st
    case Act(v) => ActMessages(s, v);
    case Finish(v, outcome) => FinishMessages(s, v, outcome);
    case _ =>
  }

  lemma {:induction false} ErrmsgIsLast(states: seq<State>, steps: seq<Step>, n: nat, i: nat, j: nat, l: nat)
    requires IsRun(states, steps, n) && i <= |steps| && LastStore(states, steps, i, j, l)
    ensures Shaped(states[l]) && states[i].errmsg == states[l].messages[steps[l].w]
    decreases i
  {
    assert Takes(states[i - 1], steps[i - 1], states[i]) && Takes(states[l], steps[l], states[l + 1]);
    StepMessages(states[i - 1], steps[i - 1], states[i], 0);
    if l < i - 1 {
      ErrmsgIsLast(states, steps, n, i - 1, j, l);
    }
  }

  lemma {:induction false} MessageIsLast(states: seq<State>, steps: seq<Step>, n: nat, i: nat, w: nat, k: nat)
    requires IsRun(states, steps, n) && i <= |steps| && w < n && LastFail(steps, i, w, k)
    ensures Shaped(states[i]) && |states[i].pcs| == n && states[i].messages[w] == steps[k].outcome.m
    decreases i
  {
    RunInv(states, steps, n, i - 1);
    assert Takes(states[i - 1], steps[i - 1], states[i]);
    StepMessages(states[i - 1], steps[i - 1], states[i], w);
    if k < i - 1 {
      MessageIsLast(states, steps, n, i - 1, w, k);
    }
  }

  lemma ActPlaces(s: State, w: nat, v: nat)
    requires Shaped(s) && Enabled(s, Act(w)) && v < |s.pcs|
    ensures |DoAct(s, w).pcs| == |s.pcs| && (v != w ==> DoAct(s, w).pcs[v] == s.pcs[v])
    ensures DoAct(s, w).pcs[w].Blaming? ==> s.pcs[w].Blaming?
  {
    ActShape(s, w);
    if v != w { OthersKeepPlace(s, w, v); }
    if Spins(s, Act(w)) { SpinsIffStill(s, Act(w)); } else { OwnPlace(s, w); }
  }

  lemma BlamingComesFrom(s: State, st: Step, s2: State, w: nat)
    requires Takes(s, st, s2) && w < |s.pcs| == |s2.pcs| && s2.pcs[w].Blaming? && !FailsOf(st, w)
    ensures s.pcs[w].Blaming?
  {
    match st
    case Act(v) => ActPlaces(s, v, w);
    case Finish(v, outcome) => FinishMessages(s, v, outcome);
    case _ =>
  }

  lemma OpenedHome(s: State, s2: State, w: nat)
    requires Inv(s) && Takes(s, Notify, s2) && w < |s2.pcs|
    ensures !s2.pcs[w].Blaming? && s2.errors == []
  {
  }

  lemma RunShaped(states: seq<State>, steps: seq<Step>, n: nat, i: nat)
    requires IsRun(states, steps, n) && i < |states|
    ensures Shaped(states[i]) && |states[i].pcs| == n
  {
    RunInv(states, steps, n, i);
  }

  /** When the master opens a round nobody is about to store a message, and no error has been reported. */
  lemma JustOpened(states: seq<State>, steps: seq<Step>, n: nat, j: nat, w: nat)
    requires IsRun(states, steps, n) && j < |steps| && steps[j].Notify? && w < n
    ensures Shaped(states[j + 1]) && |states[j + 1].pcs| == n
    ensures !states[j + 1].pcs[w].Blaming? && states[j + 1].errors == []
  {
    RunInv(states, steps, n, j);
    RunShaped(states, steps, n, j + 1);
    assert Takes(states[j], steps[j], states[j + 1]);
    OpenedHome(states[j], states[j + 1], w);
  }

  lemma BlamingBefore(states: seq<State>, steps: seq<Step>, n: nat, i: nat, w: nat)
    requires IsRun(states, steps, n) && 0 < i < |states| && w < n && Shaped(states[i]) && |states[i].pcs| == n
    requires states[i].pcs[w].Blaming? && !FailsOf(steps[i - 1], w)
    ensures Shaped(states[i - 1]) && |states[i - 1].pcs| == n && states[i - 1].pcs[w].Blaming?
  {
    RunShaped(states, steps, n, i - 1);
    assert Takes(states[i - 1], steps[i - 1], states[i]);
    BlamingComesFrom(states[i - 1], steps[i - 1], states[i], w);
  }

  /** Whoever is about to store a message has failed in this round. */
  lemma {:induction false} BlamingFailed(states: seq<State>, steps: seq<Step>, n: nat, i: nat, j: nat, w: nat)
    returns (k: nat)
    requires IsRun(states, steps, n) && Opening(steps, i, j) && w < n && Shaped(states[i]) && |states[i].pcs| == n
    requires states[i].pcs[w].Blaming?
    ensures j < k && LastFail(steps, i, w, k)
    decreases i
  {
    JustOpened(states, steps, n, j, w);
    k := i - 1;
    assert i != j + 1;
    if !FailsOf(steps[k], w) {
      BlamingBefore(states, steps, n, i, w);
      k := BlamingFailed(states, steps, n, i - 1, j, w);
    }
  }

  /** The last store between the opening and state i, if there is one. */
  lemma {:induction false} FindStore(states: seq<State>, steps: seq<Step>, i: nat, j: nat) returns (found: bool, l: nat)
    requires |states| == |steps| + 1 && j < i <= |steps|
    ensures found ==> LastStore(states, steps, i, j, l)
    ensures !found ==> forall q :: j < q < i ==> !Stores(states[q], steps[q])
    decreases i
  {
    found, l := false, i - 1;
    if j < i - 1 {
      if Stores(states[l], steps[l]) {
        found := true;
      } else {
        found, l := FindStore(states, steps, i - 1, j);
      }
    }
  }

  // ---- while nothing is stored, everyone who failed is about to store ----

  lemma ActTally(s: State, w: nat)
    requires Shaped(s) && Enabled(s, Act(w)) && !s.pcs[w].Blaming?
    ensures Tally(DoAct(s, w).pcs, {Blaming}) == Tally(s.pcs, {Blaming})
  {
    var s2 := DoAct(s, w);
    ActPlaces(s, w, w);
    ActShape(s, w);
    forall v | 0 <= v < |s.pcs| && v != w ensures s2.pcs[v] == s.pcs[v] {
      ActPlaces(s, w, v);
    }
    assert s2.pcs == s.pcs[w := s2.pcs[w]];
    TallyUpdate(s.pcs, {Blaming}, w, s2.pcs[w]);
  }

  lemma StepTally(s: State, st: Step, s2: State)
    requires Takes(s, st, s2) && !Stores(s, st) && !st.Notify? && |s.errors| == Tally(s.pcs, {Blaming})
    ensures |s2.errors| == Tally(s2.pcs, {Blaming})
  {
    StepErrors(s, st, s2);
    match st
    case Act(w) => ActTally(s, w);
    case Finish(w, outcome) =>
      FinishMessages(s, w, outcome);
      TallyUpdate(s.pcs, {Blaming}, w, s2.pcs[w]);
    case _ =>
  }

  lemma {:induction false} NothingStored(states: seq<State>, steps: seq<Step>, n: nat, i: nat, j: nat)
    requires IsRun(states, steps, n) && Opening(steps, i, j)
    requires forall q :: j < q < i ==> !Stores(states[q], steps[q])
    ensures |states[i].errors| == Tally(states[i].pcs, {Blaming})
    decreases i
  {
    if i == j + 1 {
      RunShaped(states, steps, n, i);
      forall w | 0 <= w < n ensures states[i].pcs[w] !in {Blaming} {
        JustOpened(states, steps, n, j, w);
      }
      JustOpened(states, steps, n, j, 0);
      TallyBounds(states[i].pcs, {Blaming});
    } else {
      NothingStored(states, steps, n, i - 1, j);
      assert Takes(states[i - 1], steps[i - 1], states[i]);
      StepTally(states[i - 1], steps[i - 1], states[i]);
    }
  }

  // ---- the verdict is the message last stored ----

  /** After a bad verdict the round is over, and nobody stores a message. */
  lemma BadIsLate(s: State)
    requires Inv(s) && s.verdict.Bad?
    ensures s.errors != [] && forall w :: 0 <= w < |s.pcs| ==> !s.pcs[w].Blaming?
  {
    assert Ended(s) || Quitting(s);
  }

  lemma StepBad(s: State, st: Step, s2: State)
    requires Inv(s) && Takes(s, st, s2) && s2.verdict.Bad? && (s.verdict.Bad? ==> s.verdict.m == s.errmsg)
    ensures s2.verdict.m == s2.errmsg
  {
    match st
    case Act(w) =>
      ActMessages(s, w);
      BadIsLate(s);
    case Finish(w, outcome) => FinishMessages(s, w, outcome);
    case _ =>
  }

  lemma {:induction false} BadIsErrmsg(states: seq<State>, steps: seq<Step>, n: nat, i: nat)
    requires IsRun(states, steps, n) && i < |states|
    ensures states[i].verdict.Bad? ==> states[i].verdict.m == states[i].errmsg
  {
    if i > 0 && states[i].verdict.Bad? {
      BadIsErrmsg(states, steps, n, i - 1);
      RunInv(states, steps, n, i - 1);
      assert Takes(states[i - 1], steps[i - 1], states[i]);
      StepBad(states[i - 1], steps[i - 1], states[i]);
    }
  }

  /** The error master_wait returns is the one stored last in the round: some worker w stored it in step l, none stored
      another one after that, and it is the message with which w's body ended in this round, in step k. */
  lemma LastStoreWins(states: seq<State>, steps: seq<Step>, n: nat, i: nat, j: nat) returns (l: nat, k: nat)
    requires IsRun(states, steps, n) && Opening(steps, i, j) && states[i].verdict.Bad?
    ensures LastStore(states, steps, i, j, l) && j < k < l && LastFail(steps, l, steps[l].w, k)
    ensures steps[k].Finish? && (steps[k].outcome.Error? || steps[k].outcome.Throws?)
    ensures steps[k].outcome.m == states[i].verdict.m
  {
    var found;
    found, l := FindStore(states, steps, i, j);
    BadIsErrmsg(states, steps, n, i);
    if !found {
      NothingStored(states, steps, n, i, j);
      RunInv(states, steps, n, i);
      BadIsLate(states[i]);
      TallyBounds(states[i].pcs, {Blaming});
    }
    RunShaped(states, steps, n, l);
    k := BlamingFailed(states, steps, n, l, j, steps[l].w);
    ErrmsgIsLast(states, steps, n, i, j, l);
    MessageIsLast(states, steps, n, l, steps[l].w, k);
  }

  // ---- exceptions ----

  lemma StepLeaves(s: State, st: Step, s2: State, w: nat)
    requires Takes(s, st, s2) && w < |s.pcs| == |s2.pcs| && Shaped(s2)
    ensures s2.leaves[w] <==> s.leaves[w] || (exists m :: st == Finish(w, Throws(m)))
  {
    match st
    case Act(v) => ActMessages(s, v);
    case Finish(v, outcome) => FinishMessages(s, v, outcome);
    case _ =>
  }

  lemma {:induction false} LeavesAreThrows(states: seq<State>, steps: seq<Step>, n: nat, i: nat, w: nat)
    requires IsRun(states, steps, n) && i < |states| && w < n
    ensures Shaped(states[i]) && |states[i].pcs| == n
    ensures states[i].leaves[w] <==> exists l, m :: 0 <= l < i && steps[l] == Finish(w, Throws(m))
  {
    RunShaped(states, steps, n, i);
    if i > 0 {
      LeavesAreThrows(states, steps, n, i - 1, w);
      assert Takes(states[i - 1], steps[i - 1], states[i]);
      StepLeaves(states[i - 1], steps[i - 1], states[i], w);
    }
  }

  /** On the way out after an exception, or gone. */
  const OUTWARDS: set<Pc> :=
    {Blaming, Aborting, Reporting, ClearingReady, Judging, StoringDone, StoringFail, Raising, Gone}

  lemma StepOutwards(s: State, st: Step, s2: State, w: nat)
    requires Takes(s, st, s2) && w < |s.pcs| == |s2.pcs| && Shaped(s2)
    requires s.leaves[w] ==> s.pcs[w] in OUTWARDS
    ensures s2.leaves[w] ==> s2.pcs[w] in OUTWARDS
  {
    match st
    case Act(v) =>
      ActMessages(s, v);
      if v != w { OthersKeepPlace(s, v, w); }
      if Spins(s, st) { SpinsIffStill(s, st); } else { OwnPlace(s, v); }
    case Finish(v, outcome) => FinishMessages(s, v, outcome);
    case _ =>
  }

  lemma GoneFor(s: State, w: nat)
    requires Inv(s) && w < |s.pcs| && s.pcs[w].Gone?
    ensures s.leaves[w] || s.master.Joined?
  {
  }

  lemma {:induction false} RunOutwards(states: seq<State>, steps: seq<Step>, n: nat, i: nat, w: nat)
    requires IsRun(states, steps, n) && i < |states| && w < n
    ensures Shaped(states[i]) && |states[i].pcs| == n && (states[i].leaves[w] ==> states[i].pcs[w] in OUTWARDS)
  {
    RunShaped(states, steps, n, i);
    if i > 0 {
      RunOutwards(states, steps, n, i - 1, w);
      assert Takes(states[i - 1], steps[i - 1], states[i]);
      StepOutwards(states[i - 1], steps[i - 1], states[i], w);
    }
  }

  /** A worker whose body has thrown reports its error and never comes back for another round; nobody else goes before
      the master has told everyone to. */
  lemma ThrowersGo(states: seq<State>, steps: seq<Step>, n: nat, i: nat, w: nat)
    requires IsRun(states, steps, n) && i < |states| && w < n
    ensures Shaped(states[i]) && |states[i].pcs| == n
    ensures (exists l, m :: 0 <= l < i && steps[l] == Finish(w, Throws(m))) ==> states[i].pcs[w] in OUTWARDS
    ensures states[i].pcs[w].Gone? && (forall l, m :: 0 <= l < i ==> steps[l] != Finish(w, Throws(m))) ==>
      states[i].master.Joined?
  {
    LeavesAreThrows(states, steps, n, i, w);
    RunOutwards(states, steps, n, i, w);
    RunInv(states, steps, n, i);
    if states[i].pcs[w].Gone? { GoneFor(states[i], w); }
  }
}
