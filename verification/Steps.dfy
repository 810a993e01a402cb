/** What accesses and releases do to the logs, and that they keep the invariant. */
module Steps {
  import opened Words
  import opened Serial
  import opened Protocol
  import opened Invariant
  import opened Preserve

  // ---- logs ----

  /** What a transaction sees at an address: its own write, else the snapshot. */
  ghost function View(s: Stm, tx: Tx, a: nat): Bytes
    requires a in s.cells
  {
    if a in tx.written then s.cells[a].word.Writable() else s.cells[a].word.Readable()
  }

  lemma LogRead(s: Stm, tx: Tx, a: nat)
    requires FreshInv(s) && TxInv(s, tx)
    requires a in s.cells && (s.cells[a].seg in s.shared || s.cells[a].seg in tx.owned)
    ensures var ops := tx.ops + [Read(a, s.cells[a].seg, View(s, tx, a))];
      && Legal(Snapshot(s), Zero(s.align), ops)
      && Buffer(ops) == Buffer(tx.ops) && Allocs(ops) == Allocs(tx.ops) && Frees(ops) == Frees(tx.ops)
      && SnapReads(ops) == if a in tx.written then SnapReads(tx.ops) else SnapReads(tx.ops) + {a}
  {
    var op := Read(a, s.cells[a].seg, View(s, tx, a));
    assert Front(tx.ops + [op]) == tx.ops && Last(tx.ops + [op]) == op;
    ReplayIsOverlay(Snapshot(s), tx.ops);
  }

  lemma LogWrite(s: Stm, tx: Tx, a: nat, v: Bytes)
    requires TxInv(s, tx)
    requires a in s.cells && (s.cells[a].seg in s.shared || s.cells[a].seg in tx.owned)
    ensures var ops := tx.ops + [Write(a, s.cells[a].seg, v)];
      && Legal(Snapshot(s), Zero(s.align), ops)
      && Buffer(ops) == Buffer(tx.ops)[a := v] && Buffer(ops).Keys == Buffer(tx.ops).Keys + {a}
      && Allocs(ops) == Allocs(tx.ops) && Frees(ops) == Frees(tx.ops)
      && SnapReads(ops) == SnapReads(tx.ops)
  {
    var op := Write(a, s.cells[a].seg, v);
    assert Front(tx.ops + [op]) == tx.ops && Last(tx.ops + [op]) == op;
    ReplayIsOverlay(Snapshot(s), tx.ops);
  }

  lemma LogOther(s: Stm, tx: Tx, op: Op)
    requires TxInv(s, tx) && (op.Alloc? || op.Free?)
    requires op.Alloc? ==> op.seg !in s.shared && op.seg !in tx.owned
    ensures var ops := tx.ops + [op];
      && Legal(Snapshot(s), Zero(s.align), ops)
      && Buffer(ops) == Buffer(tx.ops) && SnapReads(ops) == SnapReads(tx.ops)
      && Allocs(ops) == (if op.Alloc? then Allocs(tx.ops)[op.seg := op.count] else Allocs(tx.ops))
      && Frees(ops) == (if op.Free? then Frees(tx.ops) + {op.seg} else Frees(tx.ops))
  {
    assert Front(tx.ops + [op]) == tx.ops && Last(tx.ops + [op]) == op;
    ReplayIsOverlay(Snapshot(s), tx.ops);
  }

  // ---- reads ----

  lemma AbortKeeps(s: Stm, k: nat)
    requires Inv(s) && Active(s, k) && !s.members[k].readOnly
    ensures Inv(With(s, k, s.members[k].(aborted := true)))
  {
    assert TxInv(s, s.members[k]);
    KeepOnRecord(s, k, s.members[k].(aborted := true));
  }

  lemma ReadOnlyReadKeeps(s: Stm, k: nat, a: nat)
    requires Inv(s) && Active(s, k) && Accessible(s, k, a) && s.members[k].readOnly
    ensures Inv(DoRead(s, k, a))
  {
    var tx, c := s.members[k], s.cells[a];
    assert TxInv(s, tx);
    LogRead(s, tx, a);
    KeepOnRecord(s, k, tx.(ops := tx.ops + [Read(a, c.seg, c.word.Readable())]));
  }

  /** A transaction's read of its own write leaves the word as it was. */
  lemma OwnReadShape(s: Stm, k: nat, a: nat)
    requires Active(s, k) && a in s.cells && !s.members[k].readOnly
    requires s.cells[a].word.written && s.cells[a].word.last == s.members[k].trNum
    ensures DoRead(s, k, a) ==
      With(s, k, s.members[k].(ops := s.members[k].ops + [Read(a, s.cells[a].seg, s.cells[a].word.Writable())]))
  {
    assert s.cells[a := s.cells[a].(word := s.cells[a].word)] == s.cells;
  }

  lemma OwnReadKeeps(s: Stm, k: nat, a: nat)
    requires Inv(s) && Active(s, k) && Accessible(s, k, a) && !s.members[k].readOnly
    requires s.cells[a].word.written && s.cells[a].word.last == s.members[k].trNum
    ensures Inv(DoRead(s, k, a))
  {
    var tx, c := s.members[k], s.cells[a];
    assert WordInv(c.word, s.members, a);
    assert TxInv(s, tx);
    LogRead(s, tx, a);
    OwnReadShape(s, k, a);
    KeepOnRecord(s, k, tx.(ops := tx.ops + [Read(a, c.seg, c.word.Writable())]));
  }

  lemma IsolatedAfter(s: Stm, k: nat, y: Tx, a: nat, w: WordState)
    requires k < |s.members| && a in s.cells && Maps(y)
    requires w.Readable() == s.cells[a].word.Readable()
    requires Legal(Snapshot(s), Zero(s.align), y.ops)
    requires forall b :: b in SnapReads(y.ops) || b in y.written ==>
      b in s.cells && (s.cells[b].seg in s.shared || s.cells[b].seg in y.owned)
    requires forall b :: b in y.written && b != a ==> s.cells[b].word.Writable() == Buffer(y.ops)[b]
    requires a in y.written ==> w.Writable() == Buffer(y.ops)[a]
    ensures Isolated(WithWord(s, k, y, a, w), y)
  {
    KeepMem(s, WithWord(s, k, y, a, w));
  }

  /** The record of member k after a read of the readable copy at a. */
  ghost function Reader(s: Stm, k: nat, a: nat): Tx
    requires k < |s.members| && a in s.cells
  {
    var tx := s.members[k];
    tx.(read := tx.read + {a}, ops := tx.ops + [Read(a, s.cells[a].seg, s.cells[a].word.Readable())])
  }

  lemma ReaderIsolated(s: Stm, k: nat, a: nat, w: WordState)
    requires k < |s.members| && Accessible(s, k, a) && TxInv(s, s.members[k]) && FreshInv(s)
    requires !s.members[k].readOnly && a !in s.members[k].written
    requires w.Readable() == s.cells[a].word.Readable()
    ensures TxInv(WithWord(s, k, Reader(s, k, a), a, w), Reader(s, k, a))
  {
    LogRead(s, s.members[k], a);
    assert Maps(Reader(s, k, a));
    IsolatedAfter(s, k, Reader(s, k, a), a, w);
  }

  lemma SnapReadShape(s: Stm, k: nat, a: nat)
    requires Active(s, k) && a in s.cells && s.members[k].trNum == k + 1 && !s.members[k].readOnly
    requires !s.cells[a].word.written
    ensures DoRead(s, k, a) == WithWord(s, k, Reader(s, k, a), a, s.cells[a].word.Recorded(k + 1, false))
  {
  }

  /** What KeepOnAccess asks for. */
  ghost predicate Ready(s: Stm, k: nat, y: Tx, a: nat, w: WordState)
    requires k < |s.members| && a in s.cells
  {
    && SameTicket(s.members[k], y) && OnlyAt(s.members[k], y, a)
    && WordInv(w, s.members[k := y], a) && TxInv(WithWord(s, k, y, a, w), y)
    && w.Readable() == s.cells[a].word.Readable() && w.Sized(s.align)
    && (w.Writable() == s.cells[a].word.Writable() || a in y.written)
  }

  lemma ReaderReady(s: Stm, k: nat, a: nat)
    requires Active(s, k) && Accessible(s, k, a) && TxInv(s, s.members[k]) && FreshInv(s)
    requires WordInv(s.cells[a].word, s.members, a) && s.cells[a].word.Sized(s.align)
    requires !s.members[k].readOnly && !s.cells[a].word.written
    ensures Ready(s, k, Reader(s, k, a), a, s.cells[a].word.Recorded(k + 1, false))
  {
    RecordedWord(s.cells[a].word, s.members, k, Reader(s, k, a), a, false);
    ReaderIsolated(s, k, a, s.cells[a].word.Recorded(k + 1, false));
  }

  lemma SnapReadKeeps(s: Stm, k: nat, a: nat)
    requires Inv(s) && Active(s, k) && Accessible(s, k, a) && !s.members[k].readOnly && !s.cells[a].word.written
    ensures Inv(DoRead(s, k, a))
  {
    assert WordInv(s.cells[a].word, s.members, a) && TxInv(s, s.members[k]);
    ReaderReady(s, k, a);
    SnapReadShape(s, k, a);
    KeepOnAccess(s, k, Reader(s, k, a), a, s.cells[a].word.Recorded(k + 1, false));
  }

  lemma ReadKeeps(s: Stm, k: nat, a: nat)
    requires Inv(s) && Active(s, k) && Accessible(s, k, a)
    ensures Inv(DoRead(s, k, a))
  {
    if s.members[k].readOnly {
      ReadOnlyReadKeeps(s, k, a);
    } else if !s.cells[a].word.written {
      SnapReadKeeps(s, k, a);
    } else if s.cells[a].word.last == s.members[k].trNum {
      OwnReadKeeps(s, k, a);
    } else {
      AbortKeeps(s, k);
    }
  }

  // ---- writes ----

  /** The record of member k after writing v at a. */
  ghost function Writer(s: Stm, k: nat, a: nat, v: Bytes): Tx
    requires k < |s.members| && a in s.cells
  {
    var tx := s.members[k];
    tx.(written := tx.written + {a}, ops := tx.ops + [Write(a, s.cells[a].seg, v)])
  }

  lemma WriterIsolated(s: Stm, k: nat, a: nat, v: Bytes, w: WordState)
    requires k < |s.members| && Accessible(s, k, a) && TxInv(s, s.members[k])
    requires !s.members[k].readOnly
    requires w.Readable() == s.cells[a].word.Readable() && w.Writable() == v
    ensures TxInv(WithWord(s, k, Writer(s, k, a, v), a, w), Writer(s, k, a, v))
  {
    LogWrite(s, s.members[k], a, v);
    assert Maps(Writer(s, k, a, v));
    IsolatedAfter(s, k, Writer(s, k, a, v), a, w);
  }

  lemma FirstWriteShape(s: Stm, k: nat, a: nat, v: Bytes)
    requires Active(s, k) && a in s.cells && s.members[k].trNum == k + 1
    requires !s.cells[a].word.written && !s.cells[a].word.many
    ensures DoWrite(s, k, a, v) ==
      WithWord(s, k, Writer(s, k, a, v), a, s.cells[a].word.WithWritable(v).Recorded(k + 1, true))
  {
  }

  lemma WrittenWord(w: WordState, v: Bytes, ms: seq<Tx>, a: nat)
    requires WordInv(w, ms, a)
    ensures WordInv(w.WithWritable(v), ms, a)
  {
  }

  lemma FirstWriterReady(s: Stm, k: nat, a: nat, v: Bytes)
    requires Active(s, k) && Accessible(s, k, a) && TxInv(s, s.members[k]) && |v| == s.align
    requires WordInv(s.cells[a].word, s.members, a) && s.cells[a].word.Sized(s.align)
    requires !s.members[k].readOnly && !s.cells[a].word.written && !s.cells[a].word.many
    ensures Ready(s, k, Writer(s, k, a, v), a, s.cells[a].word.WithWritable(v).Recorded(k + 1, true))
  {
    var c, y := s.cells[a].word, Writer(s, k, a, v);
    WrittenWord(c, v, s.members, a);
    RecordedWord(c.WithWritable(v), s.members, k, y, a, true);
    WriterIsolated(s, k, a, v, c.WithWritable(v).Recorded(k + 1, true));
  }

  lemma FirstWriteKeeps(s: Stm, k: nat, a: nat, v: Bytes)
    requires Inv(s) && Active(s, k) && Accessible(s, k, a) && !s.members[k].readOnly && |v| == s.align
    requires !s.cells[a].word.written && !s.cells[a].word.many
    ensures Inv(DoWrite(s, k, a, v))
  {
    assert WordInv(s.cells[a].word, s.members, a) && TxInv(s, s.members[k]);
    FirstWriterReady(s, k, a, v);
    FirstWriteShape(s, k, a, v);
    KeepOnAccess(s, k, Writer(s, k, a, v), a, s.cells[a].word.WithWritable(v).Recorded(k + 1, true));
  }

  lemma NextWriteKeeps(s: Stm, k: nat, a: nat, v: Bytes)
    requires Inv(s) && Active(s, k) && Accessible(s, k, a) && !s.members[k].readOnly && |v| == s.align
    requires s.cells[a].word.written && s.cells[a].word.last == s.members[k].trNum
    ensures Inv(DoWrite(s, k, a, v))
  {
    var c, y := s.cells[a].word, Writer(s, k, a, v);
    var w := c.WithWritable(v);
    assert WordInv(c, s.members, a);
    assert y.written == s.members[k].written;
    assert WordInv(w, s.members[k := y], a) by {
      WrittenWord(c, v, s.members, a);
      KeepWord(w, s.members, k, y, a);
    }
    assert TxInv(s, s.members[k]);
    WriterIsolated(s, k, a, v, w);
    KeepOnAccess(s, k, y, a, w);
  }

  lemma WriteKeeps(s: Stm, k: nat, a: nat, v: Bytes)
    requires Inv(s) && Active(s, k) && Accessible(s, k, a) && !s.members[k].readOnly && |v| == s.align
    ensures Inv(DoWrite(s, k, a, v))
  {
    var w := s.cells[a].word;
    if !w.written && !w.many {
      FirstWriteKeeps(s, k, a, v);
    } else if w.written && w.last == s.members[k].trNum {
      NextWriteKeeps(s, k, a, v);
    } else {
      AbortKeeps(s, k);
    }
  }

  lemma ReleaseKeeps(s: Stm, k: nat, start: nat)
    requires Inv(s) && Active(s, k) && !s.members[k].readOnly
    ensures Inv(DoRelease(s, k, start))
  {
    var tx := s.members[k];
    assert TxInv(s, tx);
    LogOther(s, tx, Free(start));
    var y := tx.(freed := tx.freed + [start], ops := tx.ops + [Free(start)]);
    assert forall seg :: seg in y.freed <==> seg in tx.freed || seg == start;
    KeepOnRecord(s, k, y);
  }
}
