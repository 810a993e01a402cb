/** What the control fields of a word say, who aborts and why, and what members see. */
module Conflicts {
  import opened Words
  import opened Serial
  import opened Orders
  import opened Protocol
  import opened Invariant

  // ---- the three control fields characterise the epoch's accesses ----

  /** Member i of the epoch has accessed the word in a recorded way, judged from its own log. */
  ghost predicate Accessed(s: Stm, i: int, a: nat)
    requires 0 <= i < |s.members|
  {
    !s.members[i].readOnly && (a in SnapReads(s.members[i].ops) || a in Buffer(s.members[i].ops))
  }

  ghost predicate HasWritten(s: Stm, i: int, a: nat)
    requires 0 <= i < |s.members|
  {
    a in Buffer(s.members[i].ops)
  }

  lemma LogsAreMaps(s: Stm, a: nat)
    requires TxsInv(s)
    ensures forall i :: 0 <= i < |s.members| ==> (Accessed(s, i, a) <==> Acc(s.members[i], a))
    ensures forall i :: 0 <= i < |s.members| ==> (HasWritten(s, i, a) <==> a in s.members[i].written)
  {
    forall i | 0 <= i < |s.members|
      ensures (Accessed(s, i, a) <==> Acc(s.members[i], a)) && (HasWritten(s, i, a) <==> a in s.members[i].written)
    {
      assert TxInv(s, s.members[i]);
    }
  }

  lemma FlagsCharacterise(s: Stm, a: nat)
    requires Inv(s) && a in s.cells
    ensures var w, n := s.cells[a].word, |s.members|;
      && (w.last == 0 <==> forall i :: 0 <= i < n ==> !Accessed(s, i, a))
      && (w.last != 0 ==> w.last <= n && Accessed(s, w.last - 1, a))
      && (w.many <==> exists i, j :: 0 <= i < j < n && Accessed(s, i, a) && Accessed(s, j, a))
      && (w.written <==> exists i :: 0 <= i < n && HasWritten(s, i, a))
      && (forall i :: 0 <= i < n && HasWritten(s, i, a) ==> s.members[i].trNum == w.last)
  {
    var w, n := s.cells[a].word, |s.members|;
    LogsAreMaps(s, a);
    assert WordInv(w, s.members, a);
    if w.last != 0 {
      assert Accessed(s, w.last - 1, a);
    }
    if w.many {
      var i :| 0 <= i < n && i != w.last - 1 && Acc(s.members[i], a);
      assert Accessed(s, i, a);
      if i < w.last - 1 { assert Accessed(s, w.last - 1, a); }
    }
    if w.written {
      assert HasWritten(s, w.last - 1, a);
    }
  }

  // ---- no lost update ----

  lemma OneWriter(s: Stm, a: nat, i: nat, j: nat)
    requires a in s.cells && i < |s.members| && j < |s.members| && i != j && HasWritten(s, i, a) && Accessed(s, j, a)
    requires WordInv(s.cells[a].word, s.members, a) && Maps(s.members[i]) && Maps(s.members[j])
    ensures a !in s.members[j].written && a in s.members[j].read && a !in s.members[i].read
    ensures forall h :: 0 <= h < |s.members| && h != i && Acc(s.members[h], a) ==> h == j
  {
    var w := s.cells[a].word;
    assert w.last - 1 == i && w.many;
  }

  /** A member that read a word and then wrote it is alone on that word;
      a written word has one writer and at most one other accessor, which read it before,
      and then the writer had not read it first. */
  lemma NoLostUpdate(s: Stm, a: nat, i: nat, j: nat)
    requires Inv(s) && a in s.cells && i < |s.members| && j < |s.members| && i != j
    requires HasWritten(s, i, a) && Accessed(s, j, a)
    ensures !HasWritten(s, j, a) && a in SnapReads(s.members[j].ops)
    ensures a !in SnapReads(s.members[i].ops)
    ensures forall h :: 0 <= h < |s.members| && h != i && Accessed(s, h, a) ==> h == j
  {
    LogsAreMaps(s, a);
    assert TxInv(s, s.members[i]) && TxInv(s, s.members[j]);
    OneWriter(s, a, i, j);
  }

  // ---- every abort is justified ----

  /** A read-write read aborts exactly when another member has written the word. */
  lemma ReadAborts(s: Stm, k: nat, a: nat)
    requires Inv(s) && Active(s, k) && Accessible(s, k, a) && !s.members[k].readOnly
    ensures DoRead(s, k, a).members[k].aborted <==> exists j :: 0 <= j < |s.members| && j != k && HasWritten(s, j, a)
  {
    LogsAreMaps(s, a);
    var w := s.cells[a].word;
    assert WordInv(w, s.members, a);
    if w.written {
      assert HasWritten(s, w.last - 1, a);
    }
  }

  /** A write aborts exactly when the word is not the writer's own and another member has written it
      or two members have accessed it. */
  lemma WriteAborts(s: Stm, k: nat, a: nat, v: Bytes)
    requires Inv(s) && Active(s, k) && Accessible(s, k, a) && !s.members[k].readOnly
    ensures DoWrite(s, k, a, v).members[k].aborted <==>
      && !HasWritten(s, k, a)
      && ((exists j :: 0 <= j < |s.members| && HasWritten(s, j, a))
          || (exists i, j :: 0 <= i < j < |s.members| && Accessed(s, i, a) && Accessed(s, j, a)))
  {
    LogsAreMaps(s, a);
    FlagsCharacterise(s, a);
    assert WordInv(s.cells[a].word, s.members, a);
  }

  /** So the only read-write member of an epoch never aborts. */
  lemma AloneNeverAborts(s: Stm, k: nat, st: Step)
    requires Inv(s) && Active(s, k) && Enabled(s, st) && (st.ReadWord? || st.WriteWord?) && st.k == k
    requires forall j :: 0 <= j < |s.members| && j != k ==> s.members[j].readOnly
    ensures st.ReadWord? ==> !DoRead(s, k, st.addr).members[k].aborted
    ensures st.WriteWord? ==> !DoWrite(s, k, st.addr, st.val).members[k].aborted
  {
    LogsAreMaps(s, st.addr);
    forall j | 0 <= j < |s.members| && j != k ensures !HasWritten(s, j, st.addr) {
      assert TxInv(s, s.members[j]);
    }
    if st.ReadWord? && !s.members[k].readOnly {
      ReadAborts(s, k, st.addr);
    } else if st.WriteWord? {
      WriteAborts(s, k, st.addr, st.val);
    }
  }

  // ---- what members see ----

  lemma {:induction false} BufferGrows(ops: seq<Op>, n: nat)
    requires n <= |ops|
    ensures Buffer(ops[..n]).Keys <= Buffer(ops).Keys
  {
    if n < |ops| {
      BufferGrows(Front(ops), n);
      assert Front(ops)[..n] == ops[..n];
    } else {
      assert ops[..n] == ops;
    }
  }

  lemma {:induction false} ReadIsSnap(ops: seq<Op>, n: nat)
    requires n < |ops| && ops[n].Read? && Buffer(ops) == map[]
    ensures ops[n].addr in SnapReads(ops)
  {
    if ops != [] {
      BufferGrows(ops, |ops| - 1);
      assert ops[..|ops| - 1] == Front(ops);
      if n < |ops| - 1 {
        assert Buffer(Front(ops)).Keys == {};
        assert Buffer(Front(ops)) == map[];
        ReadIsSnap(Front(ops), n);
      }
    }
  }

  /** Every read a member made, aborted later or not, returned its own latest write
      or the value the word had when the epoch began. */
  lemma ReadsAreIsolated(s: Stm, i: nat, n: nat)
    requires Inv(s) && i < |s.members| && n < |s.members[i].ops| && s.members[i].ops[n].Read?
    ensures var op, own := s.members[i].ops[n], Buffer(s.members[i].ops[..n]);
      op.val == if op.addr in own then own[op.addr] else Get(Mem(s), Zero(s.align), op.addr)
    ensures s.members[i].readOnly ==> !s.members[i].aborted
    ensures s.members[i].readOnly ==> var op := s.members[i].ops[n]; op.addr in Mem(s) && op.val == Mem(s)[op.addr]
  {
    var tx := s.members[i];
    assert TxInv(s, tx);
    ReadValue(Snapshot(s), Zero(s.align), tx.ops, n);
    if tx.readOnly {
      BufferGrows(tx.ops, n);
      ReadIsSnap(tx.ops, n);
    }
  }
}
