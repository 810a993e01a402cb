/** Entering the batcher, allocating, and leaving before the epoch ends keep the invariant. */
module Arrivals {
  import opened Words
  import opened Serial
  import opened Epochs
  import opened Protocol
  import opened Invariant
  import opened Preserve
  import opened Steps

  // ---- entering ----

  lemma BatcherAloneWords(s: Stm, s2: Stm)
    requires WordsInv(s) && s2 == s.(batcher := s2.batcher)
    ensures WordsInv(s2)
  {
    assert forall a :: a in s.cells ==> WordInv(s.cells[a].word, s.members, a);
  }

  /** Only the batcher changed. */
  lemma BatcherAlone(s: Stm, s2: Stm)
    requires CellsInv(s) && OwnersInv(s) && WordsInv(s) && FreshInv(s)
    requires s2 == s.(batcher := s2.batcher)
    ensures CellsInv(s2) && OwnersInv(s2) && WordsInv(s2) && FreshInv(s2)
  {
    BatcherAloneWords(s, s2);
    assert forall a :: a in s.cells ==> s.cells[a].seg in s.shared || Owned(s.members, s.cells[a].seg);
  }

  lemma BatcherAloneTxs(s: Stm, s2: Stm)
    requires TxsInv(s) && s2 == s.(batcher := s2.batcher)
    ensures TxsInv(s2)
  {
    KeepMem(s, s2);
    assert forall i :: 0 <= i < |s.members| ==> TxInv(s, s.members[i]);
  }

  lemma WaitKeeps(s: Stm, readOnly: bool)
    requires Inv(s) && s.batcher.remaining > 0
    ensures Inv(DoBegin(s, readOnly))
  {
    BatcherAlone(s, DoBegin(s, readOnly));
    BatcherAloneTxs(s, DoBegin(s, readOnly));
  }

  lemma FreshTxInv(s: Stm, tx: Tx)
    requires Unused(tx)
    ensures TxInv(s, tx)
  {
  }

  lemma IdleWords(s: Stm, tx: Tx)
    requires WordsInv(s) && s.members == [] && Unused(tx)
    ensures forall a :: a in s.cells ==> s.cells[a].word.Clean() && WordInv(s.cells[a].word, [tx], a)
  {
    forall a | a in s.cells ensures s.cells[a].word.Clean() && WordInv(s.cells[a].word, [tx], a) {
      assert WordInv(s.cells[a].word, s.members, a);
    }
  }

  /** Nothing is private while nobody runs. */
  lemma IdleSegments(s: Stm)
    requires OwnersInv(s) && s.members == []
    ensures forall a :: a in s.cells ==> s.cells[a].seg in s.shared
  {
    forall a | a in s.cells ensures s.cells[a].seg in s.shared {
      assert s.cells[a].seg in s.shared || Owned(s.members, s.cells[a].seg);
    }
  }

  lemma StartBatch(s: Stm, readOnly: bool)
    requires BatchInv(s) && s.batcher.remaining == 0
    ensures BatchInv(DoBegin(s, readOnly))
  {
    assert Pending(DoBegin(s, readOnly).members) == {0};
  }

  lemma StartOwners(s: Stm, readOnly: bool)
    requires OwnersInv(s) && s.members == [] && s.batcher.remaining == 0
    ensures OwnersInv(DoBegin(s, readOnly))
  {
    IdleSegments(s);
  }

  lemma StartWords(s: Stm, readOnly: bool)
    requires WordsInv(s) && s.members == [] && s.batcher.remaining == 0
    ensures WordsInv(DoBegin(s, readOnly))
  {
    IdleWords(s, DoBegin(s, readOnly).members[0]);
  }

  lemma StartTxs(s: Stm, readOnly: bool)
    requires s.batcher.remaining == 0
    ensures TxsInv(DoBegin(s, readOnly))
  {
    var s2 := DoBegin(s, readOnly);
    FreshTxInv(s2, s2.members[0]);
  }

  lemma StartKeeps(s: Stm, readOnly: bool)
    requires Inv(s) && s.batcher.remaining == 0
    ensures Inv(DoBegin(s, readOnly))
  {
    var s2 := DoBegin(s, readOnly);
    assert BatchInv(s2) by { StartBatch(s, readOnly); }
    assert CellsInv(s2) && FreshInv(s2);
    assert OwnersInv(s2) by { StartOwners(s, readOnly); }
    assert WordsInv(s2) by { StartWords(s, readOnly); }
    assert TxsInv(s2) by { StartTxs(s, readOnly); }
  }

  // ---- allocating ----

  lemma NewCellsFacts(start: nat, count: nat, align: nat)
    requires align > 0 && count > 0
    ensures start in NewCells(start, count, align)
    ensures forall a :: a in NewCells(start, count, align) ==>
      start <= a < start + count * align && NewCells(start, count, align)[a] == Cell(NewWord(align), start)
  {
    assert count * align > 0;
    assert IsWord(start, start, align);
  }

  /** Old words stay as they are; new ones start at the end address. */
  lemma AllocatedCells(s: Stm, k: nat, count: nat)
    requires CellsInv(s) && Active(s, k) && count > 0
    ensures var s2, start := DoAllocate(s, k, count), s.endAddress;
      && start < s2.endAddress && start !in s.cells
      && (forall a :: a in s2.cells <==> a in s.cells || a in NewCells(start, count, s.align))
      && (forall a :: a in s.cells ==> s2.cells[a] == s.cells[a])
      && (forall a :: a in NewCells(start, count, s.align) ==>
            a !in s.cells && start <= a < s2.endAddress && s2.cells[a] == Cell(NewWord(s.align), start))
      && start in s2.cells
  {
    NewCellsFacts(s.endAddress, count, s.align);
    assert count * s.align > 0;
  }

  lemma AllocateKeepsCells(s: Stm, k: nat, count: nat)
    requires CellsInv(s) && FreshInv(s) && Active(s, k) && count > 0
    ensures CellsInv(DoAllocate(s, k, count)) && FreshInv(DoAllocate(s, k, count))
    ensures s.endAddress < DoAllocate(s, k, count).endAddress
  {
    AllocatedCells(s, k, count);
  }

  lemma AllocateKeepsMem(s: Stm, k: nat, count: nat)
    requires CellsInv(s) && Active(s, k) && count > 0
    ensures Mem(DoAllocate(s, k, count)) == Mem(s)
  {
    AllocatedCells(s, k, count);
    KeepMem(s, DoAllocate(s, k, count));
  }

  lemma AllocateOwnerFound(s: Stm, k: nat, count: nat, a: nat)
    requires OwnersInv(s) && Active(s, k) && s.align > 0
    requires a in DoAllocate(s, k, count).cells && DoAllocate(s, k, count).cells[a].seg !in s.shared
    ensures Owned(DoAllocate(s, k, count).members, DoAllocate(s, k, count).cells[a].seg)
  {
    var s2 := DoAllocate(s, k, count);
    var seg := s2.cells[a].seg;
    if seg == s.endAddress {
      assert seg in s2.members[k].owned;
    } else {
      assert Owned(s.members, seg);
      var i :| 0 <= i < |s.members| && seg in s.members[i].owned;
      assert seg in s2.members[i].owned;
    }
  }

  lemma AllocateOwned(s: Stm, k: nat, count: nat, i: nat, seg: nat)
    requires CellsInv(s) && OwnersInv(s) && Active(s, k) && count > 0
    requires i < |s.members| && seg in DoAllocate(s, k, count).members[i].owned
    ensures var s2 := DoAllocate(s, k, count); seg !in s2.shared && seg in s2.cells && s2.cells[seg].seg == seg
  {
    AllocatedCells(s, k, count);
    NewCellsFacts(s.endAddress, count, s.align);
    assert s.endAddress !in s.shared;
    assert seg != s.endAddress ==> seg in s.members[i].owned;
  }

  lemma AllocateOneOwner(s: Stm, k: nat, count: nat)
    requires CellsInv(s) && OwnersInv(s) && Active(s, k) && count > 0
    ensures var ms := DoAllocate(s, k, count).members;
      forall i, j, seg :: 0 <= i < |ms| && 0 <= j < |ms| && seg in ms[i].owned && seg in ms[j].owned ==> i == j
  {
    var ms := DoAllocate(s, k, count).members;
    forall i, j, seg | 0 <= i < |ms| && 0 <= j < |ms| && seg in ms[i].owned && seg in ms[j].owned ensures i == j {
      assert s.endAddress !in s.cells;
      assert seg != s.endAddress ==> seg in s.members[i].owned && seg in s.members[j].owned;
    }
  }

  lemma AllocateKeepsOwners(s: Stm, k: nat, count: nat)
    requires CellsInv(s) && OwnersInv(s) && Active(s, k) && count > 0
    ensures OwnersInv(DoAllocate(s, k, count))
  {
    var s2 := DoAllocate(s, k, count);
    forall i, seg | 0 <= i < |s2.members| && seg in s2.members[i].owned
      ensures seg !in s2.shared && seg in s2.cells && s2.cells[seg].seg == seg
    {
      AllocateOwned(s, k, count, i, seg);
    }
    AllocateOneOwner(s, k, count);
    forall a | a in s2.cells && s2.cells[a].seg !in s2.shared ensures Owned(s2.members, s2.cells[a].seg) {
      AllocateOwnerFound(s, k, count, a);
    }
  }

  /** Nobody has accessed an address that does not exist yet. */
  lemma Untouched(s: Stm, ms2: seq<Tx>, a: nat, k: nat)
    requires TxsInv(s) && a !in s.cells && k < |s.members| == |ms2|
    requires forall i :: 0 <= i < |ms2| ==> ms2[i].read == s.members[i].read && ms2[i].written == s.members[i].written
    ensures forall i :: 0 <= i < |ms2| ==> !Acc(ms2[i], a)
  {
    forall i | 0 <= i < |ms2| ensures !Acc(ms2[i], a) {
      assert TxInv(s, s.members[i]);
    }
  }

  lemma AllocateKeepsWords(s: Stm, k: nat, count: nat)
    requires CellsInv(s) && OwnersInv(s) && WordsInv(s) && TxsInv(s) && Active(s, k) && count > 0
    ensures WordsInv(DoAllocate(s, k, count))
  {
    var s2 := DoAllocate(s, k, count);
    NewCellsFacts(s.endAddress, count, s.align);
    forall a | a in s2.cells ensures WordInv(s2.cells[a].word, s2.members, a) {
      if a in s.cells {
        assert WordInv(s.cells[a].word, s.members, a);
        KeepWord(s.cells[a].word, s.members, k, s2.members[k], a);
      } else {
        Untouched(s, s2.members, a, k);
      }
    }
  }

  lemma AllocateKeepsTxs(s: Stm, k: nat, count: nat)
    requires CellsInv(s) && OwnersInv(s) && FreshInv(s) && TxsInv(s) && Active(s, k) && !s.members[k].readOnly
    requires count > 0
    ensures TxsInv(DoAllocate(s, k, count))
  {
    var s2 := DoAllocate(s, k, count);
    AllocateKeepsMem(s, k, count);
    NewCellsFacts(s.endAddress, count, s.align);
    assert TxInv(s, s.members[k]);
    LogOther(s, s.members[k], Alloc(s.endAddress, count));
    assert TxInv(s2, s2.members[k]);
    TxsKept(s, s2, k, s2.members[k]);
  }

  lemma AllocateKeeps(s: Stm, k: nat, count: nat)
    requires Inv(s) && Active(s, k) && !s.members[k].readOnly && count > 0
    ensures Inv(DoAllocate(s, k, count))
  {
    KeepBatch(s, DoAllocate(s, k, count), k, DoAllocate(s, k, count).members[k]);
    AllocateKeepsCells(s, k, count);
    AllocateKeepsOwners(s, k, count);
    AllocateKeepsWords(s, k, count);
    AllocateKeepsTxs(s, k, count);
  }

  // ---- leaving before the epoch ends ----

  /** Every departure is counted: a running transaction is pending, so remaining is positive. */
  lemma RunningIsCounted(s: Stm, k: nat)
    requires BatchInv(s) && k < |s.members| && !s.members[k].left
    ensures s.batcher.remaining > 0
    ensures |Pending(With(s, k, s.members[k].(left := true)).members)| == s.batcher.remaining - 1
  {
    var ms2 := With(s, k, s.members[k].(left := true)).members;
    assert k in Pending(s.members);
    assert Pending(ms2) == Pending(s.members) - {k};
  }

  lemma DepartureLists(s: Stm, k: nat)
    requires BatchInv(s) && k < |s.members| && !s.members[k].left && s.batcher.remaining > 0
    ensures var b := Depart(s.batcher, k, s.members[k].aborted);
      var ms2 := s.members[k := s.members[k].(left := true)];
      Lists(ms2, b.committed, false) && Lists(ms2, b.aborted, true)
  {
    var ms2 := s.members[k := s.members[k].(left := true)];
    var b := Depart(s.batcher, k, s.members[k].aborted);
    assert k !in s.batcher.committed && k !in s.batcher.aborted;
    assert forall j: nat :: j in b.committed <==> j in s.batcher.committed || (j == k && !s.members[k].aborted);
    assert forall j: nat :: j in b.aborted <==> j in s.batcher.aborted || (j == k && s.members[k].aborted);
  }

  lemma EarlyLeaveKeeps(s: Stm, k: nat)
    requires Inv(s) && k < |s.members| && !s.members[k].left && s.batcher.remaining > 1
    ensures Inv(DoLeave(s, k))
  {
    var y := s.members[k].(left := true);
    var s2 := DoLeave(s, k);
    RunningIsCounted(s, k);
    DepartureLists(s, k);
    assert TxInv(s, s.members[k]);
    RecordKeepsRest(s, s2, k, y);
  }
}
