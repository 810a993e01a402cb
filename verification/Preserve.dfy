/** Each step of the protocol keeps the invariant. */
module Preserve {
  import opened Words
  import opened Protocol
  import opened Invariant

  /** y is x after an operation of a running transaction. */
  ghost predicate SameTicket(x: Tx, y: Tx) {
    y.epoch == x.epoch && y.trNum == x.trNum && y.readOnly == x.readOnly && y.left == x.left == false && !x.aborted
  }

  /** s2 is s after member k became y, and perhaps words changed. */
  ghost predicate OpStep(s: Stm, s2: Stm, k: int, y: Tx) {
    && 0 <= k < |s.members| && s2.members == s.members[k := y]
    && s2.shared == s.shared && s2.align == s.align
  }

  lemma KeepBatch(s: Stm, s2: Stm, k: int, y: Tx)
    requires BatchInv(s) && OpStep(s, s2, k, y) && SameTicket(s.members[k], y)
    requires s2.batcher == s.batcher && s2.past == s.past
    ensures BatchInv(s2)
  {
    assert Pending(s2.members) == Pending(s.members);
  }

  lemma KeepMem(s: Stm, s2: Stm)
    requires s2.shared == s.shared
    requires forall a :: a in s.cells ==>
      a in s2.cells && s2.cells[a].seg == s.cells[a].seg && s2.cells[a].word.Readable() == s.cells[a].word.Readable()
    requires forall a :: a in s2.cells && s2.cells[a].seg in s.shared ==> a in s.cells
    ensures Mem(s2) == Mem(s)
  {
  }

  /** A step of member k that does not touch address a. */
  lemma KeepWord(w: WordState, ms: seq<Tx>, k: int, y: Tx, a: nat)
    requires WordInv(w, ms, a) && 0 <= k < |ms|
    requires (a in y.read <==> a in ms[k].read) && (a in y.written <==> a in ms[k].written)
    ensures WordInv(w, ms[k := y], a)
  {
    var ms2 := ms[k := y];
    assert forall i :: 0 <= i < |ms| ==> (Acc(ms2[i], a) <==> Acc(ms[i], a));
    if w.many {
      var i :| 0 <= i < |ms| && i != w.last - 1 && Acc(ms[i], a);
      assert Acc(ms2[i], a);
    }
  }

  lemma RecordedWord(w: WordState, ms: seq<Tx>, k: int, y: Tx, a: nat, writing: bool)
    requires WordInv(w, ms, a) && 0 <= k < |ms| && !w.written && (writing ==> !w.many)
    requires writing ==> a in y.written && y.read == ms[k].read
    requires !writing ==> a in y.read && y.written == ms[k].written
    ensures WordInv(w.Recorded(k + 1, writing), ms[k := y], a)
  {
    var ms2 := ms[k := y];
    assert Acc(ms2[k], a);
    assert forall i :: 0 <= i < |ms| && i != k ==> ms2[i] == ms[i];
    if w.many {
      var i :| 0 <= i < |ms| && i != w.last - 1 && Acc(ms[i], a);
      assert Acc(ms[w.last - 1], a);
      if i != k { assert Acc(ms2[i], a); } else { assert Acc(ms2[w.last - 1], a); }
    } else if w.last != 0 && w.last != k + 1 {
      assert Acc(ms2[w.last - 1], a);
    }
  }

  // ---- steps that only touch the member's own record ----

  lemma OwnersKept(s: Stm, s2: Stm, k: int, y: Tx)
    requires OwnersInv(s) && OpStep(s, s2, k, y) && y.owned == s.members[k].owned
    requires s2.cells.Keys == s.cells.Keys && forall a :: a in s.cells ==> s2.cells[a].seg == s.cells[a].seg
    ensures OwnersInv(s2)
  {
    forall a | a in s2.cells && s2.cells[a].seg !in s2.shared ensures Owned(s2.members, s2.cells[a].seg) {
      assert Owned(s.members, s.cells[a].seg);
      var i :| 0 <= i < |s.members| && s.cells[a].seg in s.members[i].owned;
      assert s.cells[a].seg in s2.members[i].owned;
    }
  }

  lemma TxsKept(s: Stm, s2: Stm, k: int, y: Tx)
    requires TxsInv(s) && OpStep(s, s2, k, y) && Mem(s2) == Mem(s)
    requires TxInv(s2, y)
    requires forall a :: a in s.cells ==> a in s2.cells && s2.cells[a].seg == s.cells[a].seg
    requires forall i, a :: 0 <= i < |s.members| && i != k && a in s.members[i].written && a in s.cells ==>
      s2.cells[a].word.Writable() == s.cells[a].word.Writable()
    ensures TxsInv(s2)
  {
    forall i | 0 <= i < |s2.members| ensures TxInv(s2, s2.members[i]) {
      if i != k {
        assert TxInv(s, s.members[i]);
      }
    }
  }

  lemma RecordKeepsRest(s: Stm, s2: Stm, k: int, y: Tx)
    requires CellsInv(s) && OwnersInv(s) && WordsInv(s) && FreshInv(s) && TxsInv(s)
    requires OpStep(s, s2, k, y) && s2.cells == s.cells && s2.endAddress == s.endAddress
    requires y.read == s.members[k].read && y.written == s.members[k].written && y.owned == s.members[k].owned
    requires TxInv(s, y)
    ensures CellsInv(s2) && OwnersInv(s2) && WordsInv(s2) && FreshInv(s2) && TxsInv(s2)
  {
    KeepMem(s, s2);
    forall a | a in s.cells ensures WordInv(s2.cells[a].word, s2.members, a) {
      assert WordInv(s.cells[a].word, s.members, a);
      KeepWord(s.cells[a].word, s.members, k, y, a);
    }
    OwnersKept(s, s2, k, y);
    TxsKept(s, s2, k, y);
  }

  /** The member aborts, reads without being recorded, or frees. */
  lemma KeepOnRecord(s: Stm, k: int, y: Tx)
    requires Inv(s) && 0 <= k < |s.members| && SameTicket(s.members[k], y)
    requires y.read == s.members[k].read && y.written == s.members[k].written && y.owned == s.members[k].owned
    requires TxInv(s, y)
    ensures Inv(With(s, k, y))
  {
    var s2 := With(s, k, y);
    KeepBatch(s, s2, k, y);
    RecordKeepsRest(s, s2, k, y);
  }

  // ---- word accesses ----

  ghost function WithWord(s: Stm, k: int, y: Tx, a: nat, w: WordState): Stm
    requires 0 <= k < |s.members| && a in s.cells
  {
    With(s.(cells := s.cells[a := s.cells[a].(word := w)]), k, y)
  }

  /** y's maps differ from x's at most at a. */
  ghost predicate OnlyAt(x: Tx, y: Tx, a: nat) {
    && y.owned == x.owned
    && (forall b :: b != a ==> (b in y.read <==> b in x.read) && (b in y.written <==> b in x.written))
  }

  lemma AccessKeepsWords(s: Stm, k: int, y: Tx, a: nat, w: WordState)
    requires WordsInv(s) && 0 <= k < |s.members| && a in s.cells && OnlyAt(s.members[k], y, a)
    requires WordInv(w, s.members[k := y], a)
    ensures WordsInv(WithWord(s, k, y, a, w))
  {
    forall b | b in s.cells && b != a ensures WordInv(s.cells[b].word, s.members[k := y], b) {
      KeepWord(s.cells[b].word, s.members, k, y, b);
    }
  }

  /** The only writer of a word is the one allowed to change its writable copy. */
  lemma AccessKeepsOthers(s: Stm, k: int, y: Tx, a: nat, w: WordState)
    requires TxsInv(s) && 0 <= k < |s.members| && SameTicket(s.members[k], y) && a in s.cells
    requires OnlyAt(s.members[k], y, a) && WordInv(w, s.members[k := y], a)
    requires w.Readable() == s.cells[a].word.Readable()
    requires w.Writable() == s.cells[a].word.Writable() || a in y.written
    requires TxInv(WithWord(s, k, y, a, w), y)
    ensures TxsInv(WithWord(s, k, y, a, w))
  {
    var s2 := WithWord(s, k, y, a, w);
    KeepMem(s, s2);
    var ms2 := s.members[k := y];
    forall i | 0 <= i < |ms2| && i != k && a in s.members[i].written
      ensures w.Writable() == s.cells[a].word.Writable()
    {
      assert a in ms2[i].written && ms2[k] == y;
    }
    TxsKept(s, s2, k, y);
  }

  lemma AccessKeepsBatch(s: Stm, k: int, y: Tx, a: nat, w: WordState)
    requires BatchInv(s) && OwnersInv(s) && 0 <= k < |s.members| && a in s.cells
    requires SameTicket(s.members[k], y) && OnlyAt(s.members[k], y, a)
    ensures BatchInv(WithWord(s, k, y, a, w)) && OwnersInv(WithWord(s, k, y, a, w))
  {
    var s2 := WithWord(s, k, y, a, w);
    KeepBatch(s, s2, k, y);
    OwnersKept(s, s2, k, y);
  }

  lemma AccessKeepsCells(s: Stm, k: int, y: Tx, a: nat, w: WordState)
    requires CellsInv(s) && FreshInv(s) && 0 <= k < |s.members| && a in s.cells
    requires w.Readable() == s.cells[a].word.Readable() && w.Sized(s.align)
    ensures CellsInv(WithWord(s, k, y, a, w)) && FreshInv(WithWord(s, k, y, a, w))
  {
  }

  /** The member performed an access of address a that changed the word to w. */
  lemma KeepOnAccess(s: Stm, k: int, y: Tx, a: nat, w: WordState)
    requires Inv(s) && 0 <= k < |s.members| && SameTicket(s.members[k], y) && a in s.cells
    requires OnlyAt(s.members[k], y, a) && WordInv(w, s.members[k := y], a)
    requires w.Readable() == s.cells[a].word.Readable() && w.Sized(s.align)
    requires w.Writable() == s.cells[a].word.Writable() || a in y.written
    requires TxInv(WithWord(s, k, y, a, w), y)
    ensures Inv(WithWord(s, k, y, a, w))
  {
    var s2 := WithWord(s, k, y, a, w);
    assert BatchInv(s2) && OwnersInv(s2) by { AccessKeepsBatch(s, k, y, a, w); }
    assert CellsInv(s2) && FreshInv(s2) by { AccessKeepsCells(s, k, y, a, w); }
    assert WordsInv(s2) by { AccessKeepsWords(s, k, y, a, w); }
    assert TxsInv(s2) by { AccessKeepsOthers(s, k, y, a, w); }
  }
}
