/** The last departure of an epoch: what onEpochEnd achieves, and that it keeps the invariant. */
module Settle {
  import opened Words
  import opened Epochs
  import opened Protocol
  import opened Invariant
  import opened Preserve
  import opened Arrivals

  /** The epoch's members once the last of them has left. */
  ghost function Done(s: Stm, k: nat): seq<Tx>
    requires k < |s.members|
  {
    s.members[k := s.members[k].(left := true)]
  }

  ghost predicate LastLeave(s: Stm, k: nat) {
    k < |s.members| && !s.members[k].left && s.batcher.remaining == 1
  }

  lemma AllLeft(s: Stm, k: nat)
    requires BatchInv(s) && LastLeave(s, k)
    ensures forall i :: 0 <= i < |s.members| ==> Done(s, k)[i].left
  {
    RunningIsCounted(s, k);
    forall i | 0 <= i < |s.members| ensures Done(s, k)[i].left {
      assert i !in Pending(Done(s, k));
    }
  }

  /** Members that are all gone, split into two lists by outcome. */
  ghost predicate Sorted(ms: seq<Tx>, committed: seq<nat>, aborted: seq<nat>) {
    && (forall i :: 0 <= i < |ms| ==> ms[i].left)
    && Lists(ms, committed, false) && Lists(ms, aborted, true)
  }

  lemma SortedAtLastLeave(s: Stm, k: nat)
    requires BatchInv(s) && LastLeave(s, k)
    ensures var b := Depart(s.batcher, k, s.members[k].aborted); Sorted(Done(s, k), b.committed, b.aborted)
  {
    AllLeft(s, k);
    DepartureLists(s, k);
  }

  // ---- words ----

  lemma SettledClean(w: WordState, ms: seq<Tx>, a: nat, c: seq<nat>, d: seq<nat>)
    requires WordInv(w, ms, a) && Sorted(ms, c, d)
    ensures Settled(w, Wrote(ms, c, a), Touched(ms, c + d, a)).Clean()
  {
    if w.last != 0 {
      var i := w.last - 1;
      assert i in c || i in d;
      assert i in c + d;
    }
  }

  lemma CleanWordInv(w: WordState, ms: seq<Tx>, a: nat)
    requires w.Clean() && forall i :: 0 <= i < |ms| ==> Unused(ms[i])
    ensures WordInv(w, ms, a)
  {
  }

  // ---- segments ----

  lemma SurvivorsShared(s: Stm, c: seq<nat>, d: seq<nat>, a: nat)
    requires CellsInv(s) && OwnersInv(s) && Sorted(s.members, c, d) && a in EpochEnd(s, c, d).cells
    ensures s.cells[a].seg in EpochEnd(s, c, d).shared
  {
    var seg := s.cells[a].seg;
    if seg !in s.shared {
      assert Owned(s.members, seg);
      var i :| 0 <= i < |s.members| && seg in s.members[i].owned;
      assert i in c || i in d;
      assert OwnedBy(s.members, c, seg);
      assert seg in Segments(s);
    }
  }

  lemma SharedSurvive(s: Stm, c: seq<nat>, d: seq<nat>, seg: nat)
    requires CellsInv(s) && OwnersInv(s) && Sorted(s.members, c, d) && seg in EpochEnd(s, c, d).shared
    ensures seg in EpochEnd(s, c, d).cells && s.cells[seg].seg == seg
  {
    assert !OwnedBy(s.members, d, seg);
  }

  lemma EpochEndCells(s: Stm, c: seq<nat>, d: seq<nat>)
    requires CellsInv(s) && OwnersInv(s) && Sorted(s.members, c, d)
    ensures CellsInv(EpochEnd(s, c, d))
    ensures forall a :: a in EpochEnd(s, c, d).cells ==>
      a in s.cells && EpochEnd(s, c, d).cells[a].seg == s.cells[a].seg && s.cells[a].seg in EpochEnd(s, c, d).shared
  {
    var s2 := EpochEnd(s, c, d);
    forall a | a in s2.cells ensures s.cells[a].seg in s2.shared {
      SurvivorsShared(s, c, d, a);
    }
    forall seg | seg in s2.shared ensures seg in s2.cells && s2.cells[seg].seg == seg {
      SharedSurvive(s, c, d, seg);
    }
  }

  // ---- the new batch ----

  /** The first n numbers. */
  ghost function Below(n: nat): (r: set<nat>)
    ensures |r| == n && forall k: nat :: k in r <==> k < n
  {
    if n == 0 then {} else Below(n - 1) + {n - 1}
  }

  lemma PastExtended(past: seq<seq<Tx>>, ms: seq<Tx>)
    requires PastInv(past) && EndedIn(ms, |past|)
    ensures PastInv(past + [ms])
  {
    forall e | 0 <= e < |past + [ms]| ensures EndedIn((past + [ms])[e], e) {
      if e < |past| { assert EndedIn(past[e], e); }
    }
  }

  lemma NobodyLeft(blocked: seq<Tx>)
    requires forall i :: 0 <= i < |blocked| ==> Unused(blocked[i])
    ensures |Pending(blocked)| == |blocked|
  {
    assert Pending(blocked) == Below(|blocked|);
  }

  lemma LastLeaveBatch(s: Stm, k: nat)
    requires BatchInv(s) && LastLeave(s, k)
    ensures BatchInv(DoLeave(s, k))
  {
    AllLeft(s, k);
    assert EndedIn(Done(s, k), |s.past|);
    PastExtended(s.past, Done(s, k));
    NobodyLeft(s.batcher.blocked);
    assert DoLeave(s, k).past == s.past + [Done(s, k)];
  }

  lemma LastLeaveWords(s: Stm, k: nat)
    requires BatchInv(s) && CellsInv(s) && OwnersInv(s) && WordsInv(s) && LastLeave(s, k)
    ensures WordsInv(DoLeave(s, k))
    ensures forall a :: a in DoLeave(s, k).cells ==> DoLeave(s, k).cells[a].word.Clean()
  {
    var b := Depart(s.batcher, k, s.members[k].aborted);
    var s1 := With(s, k, s.members[k].(left := true));
    var s2 := DoLeave(s, k);
    SortedAtLastLeave(s, k);
    forall a | a in s2.cells ensures s2.cells[a].word.Clean() && WordInv(s2.cells[a].word, s2.members, a) {
      assert WordInv(s.cells[a].word, s.members, a);
      KeepWord(s.cells[a].word, s.members, k, s1.members[k], a);
      SettledClean(s.cells[a].word, s1.members, a, b.committed, b.aborted);
      CleanWordInv(s2.cells[a].word, s2.members, a);
    }
  }

  lemma LastLeaveCells(s: Stm, k: nat)
    requires BatchInv(s) && CellsInv(s) && OwnersInv(s) && LastLeave(s, k)
    ensures var s2 := DoLeave(s, k);
      CellsInv(s2) && OwnersInv(s2) && FreshInv(s2) && forall a :: a in s2.cells ==> s2.cells[a].seg in s2.shared
  {
    var b := Depart(s.batcher, k, s.members[k].aborted);
    var s1 := With(s, k, s.members[k].(left := true));
    SortedAtLastLeave(s, k);
    OwnersKept(s, s1, k, s1.members[k]);
    EpochEndCells(s1, b.committed, b.aborted);
  }

  lemma LastLeaveTxs(s: Stm, k: nat)
    requires BatchInv(s) && LastLeave(s, k)
    ensures TxsInv(DoLeave(s, k))
  {
    var s2 := DoLeave(s, k);
    forall i | 0 <= i < |s2.members| ensures TxInv(s2, s2.members[i]) {
      FreshTxInv(s2, s2.members[i]);
    }
  }

  lemma LastLeaveKeeps(s: Stm, k: nat)
    requires Inv(s) && LastLeave(s, k)
    ensures Inv(DoLeave(s, k))
  {
    LastLeaveBatch(s, k);
    LastLeaveCells(s, k);
    LastLeaveWords(s, k);
    LastLeaveTxs(s, k);
  }
}
