/** Real-time order in full: whoever enters after a transaction has left finds what it committed. */
module Visibility {
  import opened Words
  import opened Serial
  import opened Epochs
  import opened Protocol
  import opened Invariant
  import opened Settle
  import opened Runs
  import opened RealTime
  import opened Wholeness
  import opened Persistence

  /** The record of member k of an epoch, while the epoch lasts and ever after. */
  ghost predicate Recorded(s: Stm, epoch: nat, k: nat, tx: Tx) {
    if epoch == s.batcher.counter then k < |s.members| && s.members[k] == tx
    else epoch < |s.past| && k < |s.past[epoch]| && s.past[epoch][k] == tx
  }

  lemma BeginRecord(s: Stm, readOnly: bool, epoch: nat, k: nat, tx: Tx)
    requires BatchInv(s) && Recorded(s, epoch, k, tx)
    ensures Recorded(DoBegin(s, readOnly), epoch, k, tx)
  {
  }

  lemma LeaveRecord(s: Stm, l: nat, epoch: nat, k: nat, tx: Tx)
    requires BatchInv(s) && Enabled(s, Leave(l)) && s.batcher.remaining > 0
    requires Recorded(s, epoch, k, tx) && tx.left && epoch <= s.batcher.counter
    ensures Recorded(DoLeave(s, l), epoch, k, tx) && epoch <= DoLeave(s, l).batcher.counter
  {
    if LastLeave(s, l) {
      assert DoLeave(s, l).past == s.past + [Done(s, l)];
    }
  }

  /** Whatever another member does, short of leaving. */
  lemma OtherRecord(s: Stm, s2: Stm, l: nat, epoch: nat, k: nat, tx: Tx)
    requires Recorded(s, epoch, k, tx) && tx.left && l < |s.members| == |s2.members| && !s.members[l].left
    requires s2.past == s.past && s2.batcher == s.batcher && s2.members == s.members[l := s2.members[l]]
    ensures Recorded(s2, epoch, k, tx)
  {
  }

  /** Nothing changes the record of a member that has left. */
  lemma RecordStays(s: Stm, st: Step, s2: Stm, epoch: nat, k: nat, tx: Tx)
    requires BatchInv(s) && Next(s, st, s2) && Recorded(s, epoch, k, tx) && tx.left && epoch <= s.batcher.counter
    ensures Recorded(s2, epoch, k, tx) && epoch <= s2.batcher.counter
  {
    match st
    case Begin(readOnly) => BeginRecord(s, readOnly, epoch, k, tx);
    case ReadWord(l, a) => OtherRecord(s, s2, l, epoch, k, tx);
    case WriteWord(l, a, v) => OtherRecord(s, s2, l, epoch, k, tx);
    case Allocate(l, count) => OtherRecord(s, s2, l, epoch, k, tx);
    case Release(l, start) => OtherRecord(s, s2, l, epoch, k, tx);
    case Leave(l) => LeaveRecord(s, l, epoch, k, tx);
  }

  lemma LeaverIsRecorded(s: Stm, k: nat)
    requires Inv(s) && Enabled(s, Leave(k)) && s.batcher.remaining > 0
    ensures Recorded(DoLeave(s, k), s.batcher.counter, k, s.members[k].(left := true))
    ensures s.batcher.counter <= DoLeave(s, k).batcher.counter
  {
    if LastLeave(s, k) {
      assert DoLeave(s, k).past == s.past + [Done(s, k)];
    }
  }

  lemma NextRecord(r: Run, j: nat, epoch: nat, k: nat, tx: Tx)
    requires IsRun(r) && 0 < j < |r.states| && tx.left
    requires Recorded(r.states[j - 1], epoch, k, tx) && epoch <= r.states[j - 1].batcher.counter
    ensures Recorded(r.states[j], epoch, k, tx) && epoch <= r.states[j].batcher.counter
  {
    var s, st, s2 := r.states[j - 1], r.steps[j - 1], r.states[j];
    AtStep(r, j, s, st, s2);
    RecordStays(s, st, s2, epoch, k, tx);
  }

  /** The transaction that leaves in step i of a run. */
  ghost function Leaver(r: Run, i: nat): Tx
    requires i < |r.steps| && i < |r.states| && r.steps[i].Leave? && r.steps[i].k < |r.states[i].members|
  {
    r.states[i].members[r.steps[i].k].(left := true)
  }

  ghost predicate Leaves(r: Run, i: nat) {
    IsRun(r) && i < |r.steps| && r.steps[i].Leave? && r.steps[i].k < |r.states[i].members|
  }

  lemma FirstRecord(r: Run, i: nat)
    requires Leaves(r, i)
    ensures Recorded(r.states[i + 1], r.states[i].batcher.counter, r.steps[i].k, Leaver(r, i))
    ensures r.states[i].batcher.counter <= r.states[i + 1].batcher.counter
  {
    AtStep(r, i + 1, r.states[i], r.steps[i], r.states[i + 1]);
    LeaverIsRecorded(r.states[i], r.steps[i].k);
  }

  lemma {:induction false} LeaverStaysRecorded(r: Run, i: nat, j: nat)
    requires Leaves(r, i) && i < j < |r.states|
    ensures Recorded(r.states[j], r.states[i].batcher.counter, r.steps[i].k, Leaver(r, i))
    ensures r.states[i].batcher.counter <= r.states[j].batcher.counter
    decreases j
  {
    if j == i + 1 {
      FirstRecord(r, i);
    } else {
      LeaverStaysRecorded(r, i, j - 1);
      NextRecord(r, j, r.states[i].batcher.counter, r.steps[i].k, Leaver(r, i));
    }
  }

  /** What a transaction that has left and committed wrote to a, judged from a later epoch: the word is in the memory
      the epoch starts from exactly if its segment is still shared, and holds that value unless it was overwritten. */
  ghost predicate Included(s: Stm, epoch: nat, tx: Tx, a: nat)
    requires a in Buffer(tx.ops)
  {
    && (a in Mem(s) <==> SegOfWrite(tx.ops, a) in s.shared)
    && (a in Mem(s) && !Overwritten(s.past, epoch, a) ==> Mem(s)[a] == Buffer(tx.ops)[a])
  }

  lemma LaterEpochsInclude(r: Run, i: nat, j: nat, a: nat)
    requires Leaves(r, i) && i < j < |r.states| && r.states[i].batcher.counter < r.states[j].batcher.counter
    requires !Leaver(r, i).aborted && a in Buffer(Leaver(r, i).ops)
    ensures Included(r.states[j], r.states[i].batcher.counter, Leaver(r, i), a)
  {
    var e, k := r.states[i].batcher.counter, r.steps[i].k;
    LeaverStaysRecorded(r, i, j);
    CommittedWriteStays(r, j, e, k, a);
  }

  /** If a transaction enters (step j) after another has left and committed (step i), its epoch is a later one, and in
      every state l of that epoch the memory that serves its reads includes every write of the earlier one. */
  lemma EarlierCommitsAreVisible(r: Run, i: nat, j: nat, l: nat, a: nat)
    requires Leaves(r, i) && i < j < |r.steps| && r.steps[j].Begin? && j < l < |r.states|
    requires r.states[l].batcher.counter == Place(r.states[j].batcher).epoch
    requires !Leaver(r, i).aborted && a in Buffer(Leaver(r, i).ops)
    ensures r.states[i].batcher.counter < r.states[l].batcher.counter
    ensures Included(r.states[l], r.states[i].batcher.counter, Leaver(r, i), a)
  {
    RealTimeOrder(r, i, j);
    LaterEpochsInclude(r, i, l, a);
  }
}
