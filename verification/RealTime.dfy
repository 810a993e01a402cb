/** Order of epochs in real time, release of waiting transactions, and the life of segments. */
module RealTime {
  import opened Words
  import opened Epochs
  import opened Protocol
  import opened Invariant
  import opened Settle
  import opened Runs
  import opened Serializability
  import opened History

  /** A member that has left its epoch, or whose epoch is over. */
  ghost predicate Gone(s: Stm, epoch: nat, k: nat) {
    epoch < s.batcher.counter || (epoch == s.batcher.counter && k < |s.members| && s.members[k].left)
  }

  lemma GoneStays(s: Stm, st: Step, s2: Stm, epoch: nat, k: nat)
    requires Inv(s) && Next(s, st, s2) && Gone(s, epoch, k)
    ensures Gone(s2, epoch, k)
  {
    if st.Begin? && s.batcher.remaining == 0 {
      assert s.members == [];
    }
  }

  lemma GoneNext(r: Run, j: nat, epoch: nat, k: nat)
    requires IsRun(r) && 0 < j < |r.states| && Gone(r.states[j - 1], epoch, k)
    ensures Gone(r.states[j], epoch, k)
  {
    var s, st, s2 := r.states[j - 1], r.steps[j - 1], r.states[j];
    RunInv(r, j - 1);
    assert Next(s, st, s2);
    GoneStays(s, st, s2, epoch, k);
  }

  lemma {:induction false} GoneForever(r: Run, i: nat, j: nat, epoch: nat, k: nat)
    requires IsRun(r) && i <= j < |r.states| && Gone(r.states[i], epoch, k)
    ensures Gone(r.states[j], epoch, k)
    decreases j
  {
    if i < j {
      GoneForever(r, i, j - 1, epoch, k);
      GoneNext(r, j, epoch, k);
    }
  }

  /** A transaction that enters after another has left belongs to a strictly later epoch. */
  lemma RealTimeOrder(r: Run, i: nat, j: nat)
    requires IsRun(r) && i < j < |r.steps| && r.steps[i].Leave? && r.steps[j].Begin?
    ensures r.states[i].batcher.counter < Place(r.states[j].batcher).epoch
  {
    var s, k := r.states[i], r.steps[i].k;
    RunInv(r, i);
    RunInv(r, j);
    assert Next(s, r.steps[i], r.states[i + 1]);
    assert Gone(r.states[i + 1], s.batcher.counter, k);
    GoneForever(r, i + 1, j, s.batcher.counter, k);
  }

  /** The k-th waiting transaction keeps its place until an epoch ends, and then runs at once,
      as member k of the very next epoch. */
  lemma WaitingIsReleased(s: Stm, st: Step, s2: Stm, k: nat)
    requires Inv(s) && Next(s, st, s2) && k < |s.batcher.blocked|
    ensures s.batcher.remaining > 0
    ensures if EndsEpoch(s, st)
      then k < |s2.members| && s2.members[k] == s.batcher.blocked[k] && s2.batcher.counter == s2.members[k].epoch
      else k < |s2.batcher.blocked| && s2.batcher.blocked[k] == s.batcher.blocked[k]
  {
  }

  /** Members of an epoch carry distinct positive numbers, in the order in which they arrived. */
  lemma Tickets(s: Stm, i: nat)
    requires Inv(s)
    ensures i < |s.members| ==> s.members[i].trNum == i + 1 && s.members[i].epoch == s.batcher.counter
    ensures i < |s.batcher.blocked| ==>
      s.batcher.blocked[i].trNum == i + 1 && s.batcher.blocked[i].epoch == s.batcher.counter + 1
    ensures s.batcher.remaining == 0 ==> s.members == [] && s.batcher.blocked == []
    ensures s.batcher.remaining == |Pending(s.members)|
  {
  }

  // ---- segments ----

  /** Segment starts settled by one ended epoch. */
  ghost predicate BornIn(ms: seq<Tx>, seg: nat) {
    exists k :: 0 <= k < |ms| && !ms[k].aborted && seg in ms[k].owned
  }

  ghost predicate FreedIn(ms: seq<Tx>, seg: nat) {
    exists k :: 0 <= k < |ms| && !ms[k].aborted && seg in ms[k].freed
  }

  /** seg is the first segment, or a committed transaction of epoch e allocated it. */
  ghost predicate Born(past: seq<seq<Tx>>, seg: nat, e: nat) {
    (seg == 1 && e == 0) || (e < |past| && BornIn(past[e], seg))
  }

  ghost predicate FreedSince(past: seq<seq<Tx>>, seg: nat, e: nat) {
    exists f :: e <= f < |past| && FreedIn(past[f], seg)
  }

  lemma EpochEndSegments(s: Stm, k: nat, seg: nat)
    requires Inv(s) && LastLeave(s, k)
    ensures seg in DoLeave(s, k).shared <==> (seg in s.shared || BornIn(Done(s, k), seg)) && !FreedIn(Done(s, k), seg)
  {
    var b, ms := Depart(s.batcher, k, s.members[k].aborted), Done(s, k);
    SortedAtLastLeave(s, k);
    assert OwnedBy(ms, b.committed, seg) <==> BornIn(ms, seg);
    assert FreedBy(ms, b.committed, seg) <==> FreedIn(ms, seg);
    OwnedExist(s, k, b.committed, seg);
  }

  lemma HistoryGrows(past: seq<seq<Tx>>, ms: seq<Tx>, seg: nat, before: bool)
    requires before <==> exists e: nat :: Born(past, seg, e) && !FreedSince(past, seg, e)
    ensures (exists e: nat :: Born(past + [ms], seg, e) && !FreedSince(past + [ms], seg, e))
      <==> (before || BornIn(ms, seg)) && !FreedIn(ms, seg)
  {
    var p2, n := past + [ms], |past|;
    assert forall e: nat :: e < n ==> p2[e] == past[e];
    assert p2[n] == ms;
    forall e: nat
      ensures (Born(past, seg, e) ==> Born(p2, seg, e))
      ensures (Born(p2, seg, e) ==> Born(past, seg, e) || (e == n && BornIn(ms, seg)))
      ensures e <= n ==> (FreedSince(p2, seg, e) <==> FreedSince(past, seg, e) || FreedIn(ms, seg))
    {
      if FreedSince(past, seg, e) {
        var f :| e <= f < n && FreedIn(past[f], seg);
        assert FreedIn(p2[f], seg);
      }
      if e <= n && FreedIn(ms, seg) {
        assert FreedIn(p2[n], seg);
      }
    }
    if before {
      var e: nat :| Born(past, seg, e) && !FreedSince(past, seg, e);
      assert Born(p2, seg, e);
    }
    if BornIn(ms, seg) {
      assert Born(p2, seg, n);
    }
  }

  /** In every reachable state a segment is shared exactly when a committed transaction allocated it
      (or it is the first one) and none that committed in that epoch or later has freed it. */
  lemma {:induction false} SharedIff(r: Run, i: nat, seg: nat)
    requires IsRun(r) && i < |r.states|
    ensures seg in r.states[i].shared <==>
      exists e: nat :: Born(r.states[i].past, seg, e) && !FreedSince(r.states[i].past, seg, e)
  {
    var s2 := r.states[i];
    if i == 0 {
      assert seg == 1 ==> Born(s2.past, seg, 0) && !FreedSince(s2.past, seg, 0);
    } else {
      var s, st := r.states[i - 1], r.steps[i - 1];
      RunInv(r, i - 1);
      assert Next(s, st, s2);
      Quiescence(s, st, s2);
      SharedIff(r, i - 1, seg);
      if EndsEpoch(s, st) {
        EpochEndSegments(s, st.k, seg);
        HistoryGrows(s.past, Done(s, st.k), seg, seg in s.shared);
      }
    }
  }

  lemma NextUnused(r: Run, j: nat, a: nat)
    requires IsRun(r) && 0 < j < |r.states| && a < r.states[j - 1].endAddress && a !in r.states[j - 1].cells
    ensures a < r.states[j].endAddress && a !in r.states[j].cells
  {
    var s, st, s2 := r.states[j - 1], r.steps[j - 1], r.states[j];
    RunInv(r, j - 1);
    assert Next(s, st, s2);
    Quiescence(s, st, s2);
  }

  lemma ZeroUnused(r: Run, j: nat)
    requires IsRun(r) && j < |r.states|
    ensures 0 !in r.states[j].cells
  {
    RunInv(r, j);
  }

  /** An address that was handed out and has been freed or dropped never exists again. */
  lemma {:induction false} NeverReused(r: Run, i: nat, j: nat, a: nat)
    requires IsRun(r) && i <= j < |r.states| && a < r.states[i].endAddress && a !in r.states[i].cells
    ensures a < r.states[j].endAddress && a !in r.states[j].cells
    ensures 0 !in r.states[j].cells
    decreases j
  {
    ZeroUnused(r, j);
    if i < j {
      NeverReused(r, i, j - 1, a);
      NextUnused(r, j, a);
    }
  }

  /** Between epochs every word is clean and every segment that exists is shared:
      nothing of an aborted transaction is left. */
  lemma EpochEndIsClean(s: Stm, k: nat)
    requires Inv(s) && LastLeave(s, k)
    ensures forall a :: a in DoLeave(s, k).cells ==>
      DoLeave(s, k).cells[a].word.Clean() && DoLeave(s, k).cells[a].seg in DoLeave(s, k).shared
  {
    LastLeaveWords(s, k);
    LastLeaveCells(s, k);
  }
}
