/** When an epoch is bound to commit someone. */
module Commits {
  import opened Words
  import opened Protocol
  import opened Invariant
  import opened Settle
  import opened Conflicts
  import opened Runs
  import opened Theorems

  /** At most one member is read-write. */
  ghost predicate FewWriters(ms: seq<Tx>) {
    forall j, k :: 0 <= j < |ms| && 0 <= k < |ms| && !ms[j].readOnly && !ms[k].readOnly ==> j == k
  }

  ghost predicate NoneAborted(ms: seq<Tx>) {
    forall k :: 0 <= k < |ms| ==> !ms[k].aborted
  }

  lemma AccessSpares(s: Stm, k: nat, st: Step)
    requires Inv(s) && Enabled(s, st) && (st.ReadWord? || st.WriteWord?) && st.k == k
    requires FewWriters(s.members) && NoneAborted(s.members)
    ensures st.ReadWord? ==> NoneAborted(DoRead(s, k, st.addr).members)
    ensures st.WriteWord? ==> NoneAborted(DoWrite(s, k, st.addr, st.val).members)
  {
    if !s.members[k].readOnly {
      AloneNeverAborts(s, k, st);
    }
  }

  lemma BeginSpares(s: Stm, readOnly: bool)
    requires FewWriters(DoBegin(s, readOnly).members)
    requires FewWriters(s.members) ==> NoneAborted(s.members)
    ensures NoneAborted(DoBegin(s, readOnly).members)
  {
  }

  lemma SameKinds(s: Stm, s2: Stm)
    requires |s2.members| == |s.members| && FewWriters(s2.members)
    requires forall k :: 0 <= k < |s.members| ==> s2.members[k].readOnly == s.members[k].readOnly
    ensures FewWriters(s.members)
  {
    forall j, k | 0 <= j < |s.members| && 0 <= k < |s.members| && !s.members[j].readOnly && !s.members[k].readOnly
      ensures j == k
    {
      assert !s2.members[j].readOnly && !s2.members[k].readOnly;
    }
  }

  lemma LeaveSpares(s: Stm, k: nat)
    requires BatchInv(s) && Enabled(s, Leave(k)) && s.batcher.remaining > 0 && FewWriters(DoLeave(s, k).members)
    requires FewWriters(s.members) ==> NoneAborted(s.members)
    ensures NoneAborted(DoLeave(s, k).members)
  {
    if s.batcher.remaining > 1 {
      SameKinds(s, DoLeave(s, k));
    }
  }

  lemma ReadSpares(s: Stm, k: nat, a: nat)
    requires Inv(s) && Enabled(s, ReadWord(k, a)) && FewWriters(DoRead(s, k, a).members)
    requires FewWriters(s.members) ==> NoneAborted(s.members)
    ensures NoneAborted(DoRead(s, k, a).members)
  {
    SameKinds(s, DoRead(s, k, a));
    AccessSpares(s, k, ReadWord(k, a));
  }

  lemma WriteSpares(s: Stm, k: nat, a: nat, v: Bytes)
    requires Inv(s) && Enabled(s, WriteWord(k, a, v)) && FewWriters(DoWrite(s, k, a, v).members)
    requires FewWriters(s.members) ==> NoneAborted(s.members)
    ensures NoneAborted(DoWrite(s, k, a, v).members)
  {
    SameKinds(s, DoWrite(s, k, a, v));
    AccessSpares(s, k, WriteWord(k, a, v));
  }

  lemma StepSpares(s: Stm, st: Step, s2: Stm)
    requires Inv(s) && Next(s, st, s2) && FewWriters(s2.members)
    requires FewWriters(s.members) ==> NoneAborted(s.members)
    ensures NoneAborted(s2.members)
  {
    match st
    case Begin(readOnly) => BeginSpares(s, readOnly);
    case Leave(k) => LeaveSpares(s, k);
    case ReadWord(k, a) => ReadSpares(s, k, a);
    case WriteWord(k, a, v) => WriteSpares(s, k, a, v);
    case Allocate(_, _) => SameKinds(s, s2);
    case Release(_, _) => SameKinds(s, s2);
  }

  lemma NextSpares(r: Run, i: nat)
    requires IsRun(r) && 0 < i < |r.states| && FewWriters(r.states[i].members)
    requires FewWriters(r.states[i - 1].members) ==> NoneAborted(r.states[i - 1].members)
    ensures NoneAborted(r.states[i].members)
  {
    var s, st, s2 := r.states[i - 1], r.steps[i - 1], r.states[i];
    RunInv(r, i - 1);
    assert Next(s, st, s2);
    StepSpares(s, st, s2);
  }

  lemma {:induction false} FewWritersNeverAbort(r: Run, i: nat)
    requires IsRun(r) && i < |r.states| && FewWriters(r.states[i].members)
    ensures NoneAborted(r.states[i].members)
  {
    if i > 0 {
      if FewWriters(r.states[i - 1].members) {
        FewWritersNeverAbort(r, i - 1);
      }
      NextSpares(r, i);
    }
  }

  lemma ReadersNeverAbort(r: Run, i: nat, k: nat)
    requires IsRun(r) && i < |r.states| && k < |r.states[i].members| && r.states[i].members[k].readOnly
    ensures !r.states[i].members[k].aborted
  {
    RunInv(r, i);
    assert TxInv(r.states[i], r.states[i].members[k]);
  }

  /** An epoch in which nobody committed had two read-write members or more, and no read-only one. */
  ghost predicate Crowded(ms: seq<Tx>) {
    !FewWriters(ms) && forall k :: 0 <= k < |ms| ==> !ms[k].readOnly
  }

  ghost predicate SomeoneCommitted(ms: seq<Tx>) {
    exists k :: 0 <= k < |ms| && !ms[k].aborted
  }

  lemma EndedEpochCommits(r: Run, i: nat, l: nat)
    requires IsRun(r) && i < |r.states| && l < |r.states[i].members|
    ensures SomeoneCommitted(Done(r.states[i], l)) || Crowded(Done(r.states[i], l))
  {
    var s := r.states[i];
    var ms := Done(s, l);
    assert forall k :: 0 <= k < |ms| ==>
      ms[k].aborted == s.members[k].aborted && ms[k].readOnly == s.members[k].readOnly;
    if k: nat :| k < |ms| && s.members[k].readOnly {
      ReadersNeverAbort(r, i, k);
      assert !ms[k].aborted;
    } else if FewWriters(s.members) {
      FewWritersNeverAbort(r, i);
      assert !ms[l].aborted;
    } else {
      var j, k :| 0 <= j < |s.members| && 0 <= k < |s.members| && j != k;
      assert !ms[j].readOnly && !ms[k].readOnly;
    }
  }

  /** Every epoch of every run commits someone, unless all its members are read-write and there are at least two. */
  lemma {:induction false} EpochCommits(r: Run, i: nat, e: nat)
    requires IsRun(r) && i < |r.states| && e < |r.states[i].past|
    ensures SomeoneCommitted(r.states[i].past[e]) || Crowded(r.states[i].past[e])
  {
    if i > 0 {
      PastStep(r, i, e);
      if e < |r.states[i - 1].past| {
        EpochCommits(r, i - 1, e);
      } else {
        EndedEpochCommits(r, i - 1, r.steps[i - 1].k);
      }
    }
  }
}
