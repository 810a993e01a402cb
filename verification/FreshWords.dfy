/** Memory nobody has written reads as zero bytes. */
module FreshWords {
  import opened Words
  import opened Serial
  import opened Protocol
  import opened Invariant
  import opened Settle
  import opened Runs
  import opened Serializability
  import opened History
  import opened Wholeness
  import opened Persistence
  import opened RoundTrips

  /** No transaction that committed in an ended epoch wrote a. */
  ghost predicate NeverWritten(past: seq<seq<Tx>>, a: nat) {
    forall e, k: nat :: 0 <= e < |past| ==> !CommittedWrote(past[e], k, a)
  }

  /** Every word that no committed transaction wrote reads as when it was new. */
  ghost predicate ZeroUnlessWritten(s: Stm) {
    forall a :: a in s.cells && NeverWritten(s.past, a) ==> s.cells[a].word.Readable() == Zero(s.align)
  }

  lemma QuietZero(s: Stm, s2: Stm)
    requires Quiet(s, s2) && ZeroUnlessWritten(s)
    ensures ZeroUnlessWritten(s2)
  {
  }

  lemma EarlierUnwritten(past: seq<seq<Tx>>, ms: seq<Tx>, a: nat)
    requires NeverWritten(past + [ms], a)
    ensures NeverWritten(past, a) && forall k: nat :: !CommittedWrote(ms, k, a)
  {
    assert (past + [ms])[|past|] == ms;
    forall e, k: nat | 0 <= e < |past| ensures !CommittedWrote(past[e], k, a) {
      assert (past + [ms])[e] == past[e];
    }
  }

  lemma EpochEndZero(s: Stm, l: nat)
    requires Inv(s) && LastLeave(s, l) && ZeroUnlessWritten(s)
    ensures ZeroUnlessWritten(DoLeave(s, l))
  {
    var s2, ms := DoLeave(s, l), Done(s, l);
    forall a | a in s2.cells && NeverWritten(s2.past, a) ensures s2.cells[a].word.Readable() == Zero(s.align) {
      EarlierUnwritten(s.past, ms, a);
      WordAtEpochEnd(s, l, a);
      SomeoneWrote(s, l, a);
    }
  }

  lemma StepZero(s: Stm, st: Step, s2: Stm)
    requires Inv(s) && Next(s, st, s2) && ZeroUnlessWritten(s)
    ensures ZeroUnlessWritten(s2)
  {
    Quiescence(s, st, s2);
    if EndsEpoch(s, st) { EpochEndZero(s, st.k); } else { QuietZero(s, s2); }
  }

  lemma NextZero(r: Run, i: nat)
    requires IsRun(r) && 0 < i < |r.states| && ZeroUnlessWritten(r.states[i - 1])
    ensures ZeroUnlessWritten(r.states[i])
  {
    RunInv(r, i - 1);
    assert Next(r.states[i - 1], r.steps[i - 1], r.states[i]);
    StepZero(r.states[i - 1], r.steps[i - 1], r.states[i]);
  }

  lemma {:induction false} RunZero(r: Run, i: nat)
    requires IsRun(r) && i < |r.states|
    ensures ZeroUnlessWritten(r.states[i])
  {
    if i > 0 {
      RunZero(r, i - 1);
      NextZero(r, i);
    }
  }

  /** In every run, a read of a word that the reader has not written and that no committed transaction of an earlier
      epoch wrote returns as many bytes as the alignment says, each of them 0: in the first segment, in segments other
      transactions published, and in those the reader allocated itself. */
  lemma UnwrittenReadsZero(r: Run, i: nat, k: nat, q: nat)
    requires IsRun(r) && i < |r.states| && k < |r.states[i].members| && q < |r.states[i].members[k].ops|
    requires r.states[i].members[k].ops[q].Read?
    requires var ops := r.states[i].members[k].ops;
      forall j :: 0 <= j < q && ops[j].Write? ==> ops[j].addr != ops[q].addr
    requires var past, a := r.states[i].past, r.states[i].members[k].ops[q].addr;
      forall e, w :: 0 <= e < |past| && 0 <= w < |past[e]| && !past[e][w].aborted ==> a !in Buffer(past[e][w].ops)
    ensures var v := r.states[i].members[k].ops[q].val;
      |v| == r.states[i].align && forall b :: 0 <= b < |v| ==> v[b] == 0
  {
    var s := r.states[i];
    RunInv(r, i);
    RunWhole(r, i);
    RunZero(r, i);
    FirstRead(s, k, q);
    assert NeverWritten(s.past, s.members[k].ops[q].addr);
  }
}
