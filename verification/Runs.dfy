/** Runs of any length, and the invariant over all of them. */
module Runs {
  import opened Protocol
  import opened Invariant
  import opened Steps
  import opened Arrivals
  import opened Settle

  lemma LeaveIsCounted(s: Stm, st: Step)
    requires Inv(s) && Enabled(s, st)
    ensures st.Leave? ==> s.batcher.remaining > 0
  {
    if st.Leave? {
      RunningIsCounted(s, st.k);
    }
  }

  /** Every step keeps the invariant. */
  lemma StepKeeps(s: Stm, st: Step)
    requires Inv(s) && Enabled(s, st)
    ensures s.align > 0 && (st.Leave? ==> s.batcher.remaining > 0)
    ensures Inv(Do(s, st))
  {
    LeaveIsCounted(s, st);
    match st
    case Begin(readOnly) =>
      if s.batcher.remaining == 0 { StartKeeps(s, readOnly); } else { WaitKeeps(s, readOnly); }
    case ReadWord(k, a) => ReadKeeps(s, k, a);
    case WriteWord(k, a, v) => WriteKeeps(s, k, a, v);
    case Allocate(k, count) => AllocateKeeps(s, k, count);
    case Release(k, start) => ReleaseKeeps(s, k, start);
    case Leave(k) =>
      if s.batcher.remaining == 1 { LastLeaveKeeps(s, k); } else { EarlyLeaveKeeps(s, k); }
  }

  lemma CreateInv(align: nat, count: nat)
    requires align > 0 && count > 0
    ensures Inv(Create(align, count))
  {
    NewCellsFacts(1, count, align);
    assert count * align > 0;
    var s := Create(align, count);
    assert Pending([]) == {};
    forall a | a in s.cells ensures WordInv(s.cells[a].word, s.members, a) {
      CleanWordInv(s.cells[a].word, s.members, a);
    }
  }

  /** A run: the states it goes through and the steps between them. */
  datatype Run = Run(states: seq<Stm>, steps: seq<Step>)

  ghost predicate Next(s: Stm, st: Step, s2: Stm) {
    Enabled(s, st) && s.align > 0 && (st.Leave? ==> s.batcher.remaining > 0) && s2 == Do(s, st)
  }

  ghost predicate IsRun(r: Run) {
    && |r.states| == |r.steps| + 1
    && (exists align: nat, count: nat :: align > 0 && count > 0 && r.states[0] == Create(align, count))
    && (forall i :: 0 <= i < |r.steps| ==> Next(r.states[i], r.steps[i], r.states[i + 1]))
  }

  /** The invariant holds in every state of every run, whatever the interleaving. */
  lemma {:induction false} RunInv(r: Run, i: nat)
    requires IsRun(r) && i < |r.states|
    ensures Inv(r.states[i])
  {
    if i == 0 {
      var align: nat, count: nat :| align > 0 && count > 0 && r.states[0] == Create(align, count);
      CreateInv(align, count);
    } else {
      RunInv(r, i - 1);
      assert Next(r.states[i - 1], r.steps[i - 1], r.states[i]);
      StepKeeps(r.states[i - 1], r.steps[i - 1]);
    }
  }

  /** A departure never takes the count of remaining transactions below zero. */
  lemma NeverUnderflows(r: Run, i: nat, k: nat)
    requires IsRun(r) && i < |r.states| && k < |r.states[i].members| && !r.states[i].members[k].left
    ensures r.states[i].batcher.remaining == |Pending(r.states[i].members)| > 0
  {
    RunInv(r, i);
    RunningIsCounted(r.states[i], k);
  }

  // ---- states some run leads to ----

  /** A run that ends in state s. */
  ghost predicate Reachable(s: Stm) {
    exists r :: IsRun(r) && r.states[|r.states| - 1] == s
  }

  lemma Extend(s: Stm, st: Step, s2: Stm)
    requires Reachable(s) && Next(s, st, s2)
    ensures Reachable(s2)
  {
    var r :| IsRun(r) && r.states[|r.states| - 1] == s;
    var r2 := Run(r.states + [s2], r.steps + [st]);
    assert r2.states[0] == r.states[0];
    forall i | 0 <= i < |r2.steps| ensures Next(r2.states[i], r2.steps[i], r2.states[i + 1]) {
      if i < |r.steps| {
        assert Next(r.states[i], r.steps[i], r.states[i + 1]);
      }
    }
    assert IsRun(r2);
    assert r2.states[|r2.states| - 1] == s2;
  }

  lemma Created(s: Stm, align: nat, count: nat)
    requires align > 0 && count > 0 && s == Create(align, count)
    ensures Reachable(s)
  {
    var r := Run([s], []);
    assert IsRun(r);
    assert r.states[|r.states| - 1] == s;
  }

  lemma ReachableInv(s: Stm)
    requires Reachable(s)
    ensures Inv(s)
  {
    var r :| IsRun(r) && r.states[|r.states| - 1] == s;
    RunInv(r, |r.states| - 1);
  }
}
