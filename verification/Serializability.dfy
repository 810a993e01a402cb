/** Conditional serializability, for one epoch and for whole runs. */
module Serializability {
  import opened Words
  import opened Serial
  import opened Orders
  import opened Epochs
  import opened Protocol
  import opened Invariant
  import opened Settle
  import opened Wholeness

  function Logs(ms: seq<Tx>, order: seq<nat>): (logs: seq<seq<Op>>)
    requires forall i :: 0 <= i < |order| ==> order[i] < |ms|
    ensures |logs| == |order| && forall i :: 0 <= i < |order| ==> logs[i] == ms[order[i]].ops
  {
    seq(|order|, i requires 0 <= i < |order| => ms[order[i]].ops)
  }

  /** order names the committed members of an epoch, each once. */
  ghost predicate CommitOrder(ms: seq<Tx>, order: seq<nat>) {
    && Distinct(order)
    && (forall i :: 0 <= i < |order| ==> order[i] < |ms| && ms[order[i]].left && !ms[order[i]].aborted)
    && (forall k: nat :: k < |ms| && ms[k].left && !ms[k].aborted ==> k in order)
  }

  ghost predicate SameSegments(m: Memory, s: Stm) {
    m.live.Keys == s.shared && forall seg :: seg in s.shared ==> seg in s.sizes && m.live[seg] == s.sizes[seg]
  }

  /** A shared word exists exactly where a live segment of the memory has one. */
  ghost predicate SameWordsIn(m: Memory, s: Stm)
    requires s.align > 0
  {
    && (forall seg, a: nat {:trigger Covers(seg, m.live[seg], s.align, a)} ::
          seg in m.live && Covers(seg, m.live[seg], s.align, a) ==> a in s.cells && s.cells[a].seg == seg)
    && (forall a :: a in s.cells && s.cells[a].seg in m.live ==>
          Covers(s.cells[a].seg, m.live[s.cells[a].seg], s.align, a))
  }

  /** A replayed memory that shows what the region holds: the same segments, with the same words in them,
      holding the same bytes. */
  ghost predicate Shows(m: Memory, s: Stm) {
    && s.align > 0 && SameSegments(m, s) && SameWordsIn(m, s)
    && (forall a: nat :: a in s.cells ==> Get(m.vals, Zero(s.align), a) == s.cells[a].word.Readable())
    && (forall a: nat :: a >= s.endAddress ==> a !in m.vals)
  }

  lemma WholeIsExact(m: Memory, s: Stm)
    requires Whole(s) && SameSegments(m, s)
    ensures SameWordsIn(m, s)
  {
    forall seg | seg in m.live ensures WordsThere(s, seg) {
      assert Held(s, seg);
    }
  }

  /** Frees of committed transactions take effect together. */
  function AfterFrees(m: Memory, logs: seq<seq<Op>>): Memory {
    m.(live := m.live - AllFrees(logs))
  }

  // ---- one epoch ----

  lemma MembersDisjoint(s: Stm, i: nat, j: nat)
    requires Inv(s) && i < |s.members| && j < |s.members| && i != j
    ensures Buffer(s.members[i].ops).Keys !! Buffer(s.members[j].ops).Keys
    ensures Allocs(s.members[i].ops).Keys !! Allocs(s.members[j].ops).Keys
  {
    assert TxInv(s, s.members[i]) && TxInv(s, s.members[j]);
    forall a | a in s.members[i].written ensures a !in s.members[j].written {
      assert WordInv(s.cells[a].word, s.members, a);
    }
  }

  lemma LogsDisjoint(s: Stm, k: nat, order: seq<nat>)
    requires Inv(s) && LastLeave(s, k) && CommitOrder(Done(s, k), order)
    ensures var logs := Logs(Done(s, k), order);
      forall i, j :: 0 <= i < j < |logs| ==>
        Buffer(logs[i]).Keys !! Buffer(logs[j]).Keys && Allocs(logs[i]).Keys !! Allocs(logs[j]).Keys
  {
    var logs := Logs(Done(s, k), order);
    forall i, j | 0 <= i < j < |logs|
      ensures Buffer(logs[i]).Keys !! Buffer(logs[j]).Keys && Allocs(logs[i]).Keys !! Allocs(logs[j]).Keys
    {
      MembersDisjoint(s, order[i], order[j]);
    }
  }

  lemma ReadsExist(s: Stm, tx: Tx)
    requires TxInv(s, tx)
    ensures forall a :: a in SnapReads(tx.ops) || a in Buffer(tx.ops) ==> a in s.cells
  {
  }

  lemma MemberLegal(s: Stm, m: Memory, i: nat)
    requires Inv(s) && Shows(m, s) && i < |s.members|
    ensures Legal(m, Zero(s.align), s.members[i].ops)
  {
    var ops, z := s.members[i].ops, Zero(s.align);
    assert TxInv(s, s.members[i]);
    AllocsFresh(Snapshot(s), z, ops);
    LegalElsewhere(Snapshot(s), m, z, ops);
    assert SnapReads(ops) <= s.cells.Keys by { ReadsExist(s, s.members[i]); }
  }

  /** The committed logs of an epoch, in any order, are legal on their own and disjoint. */
  lemma EpochCompatible(s: Stm, k: nat, m: Memory, order: seq<nat>)
    requires Inv(s) && LastLeave(s, k) && Shows(m, s) && CommitOrder(Done(s, k), order)
    ensures Compatible(m, Zero(s.align), Logs(Done(s, k), order))
  {
    var ms, z := Done(s, k), Zero(s.align);
    var logs := Logs(ms, order);
    forall i | 0 <= i < |logs| ensures Legal(m, z, logs[i]) {
      MemberLegal(s, m, order[i]);
    }
    LogsDisjoint(s, k, order);
  }

  /** In any order of the committed members, serial execution shows each of them what it saw
      exactly when no overwriting is noticed. */
  lemma EpochSerializable(s: Stm, k: nat, m: Memory, order: seq<nat>)
    requires Inv(s) && LastLeave(s, k) && Shows(m, s) && CommitOrder(Done(s, k), order)
    ensures var logs := Logs(Done(s, k), order);
      && (Legal(m, Zero(s.align), Concat(logs)) <==> Unnoticed(m, Zero(s.align), logs))
      && (ReadersFirst(logs) ==> Legal(m, Zero(s.align), Concat(logs)))
  {
    var logs := Logs(Done(s, k), order);
    EpochCompatible(s, k, m, order);
    SerialIff(m, Zero(s.align), logs);
    if ReadersFirst(logs) {
      ReadersFirstUnnoticed(m, Zero(s.align), logs);
    }
  }

  // ---- the memory an epoch leaves ----

  /** Done members in the two lists of the batcher, with maps that agree with their logs. */
  ghost predicate Ended(ms: seq<Tx>, committed: seq<nat>, aborted: seq<nat>) {
    Sorted(ms, committed, aborted) && forall i :: 0 <= i < |ms| ==> Maps(ms[i])
  }

  lemma EndedAtLastLeave(s: Stm, k: nat)
    requires Inv(s) && LastLeave(s, k)
    ensures var b := Depart(s.batcher, k, s.members[k].aborted); Ended(Done(s, k), b.committed, b.aborted)
  {
    SortedAtLastLeave(s, k);
    forall i | 0 <= i < |s.members| ensures Maps(s.members[i]) {
      assert TxInv(s, s.members[i]);
    }
  }

  lemma PublishedIsAllocated(ms: seq<Tx>, c: seq<nat>, d: seq<nat>, order: seq<nat>, seg: nat)
    requires Ended(ms, c, d) && CommitOrder(ms, order)
    ensures seg in AllAllocs(Logs(ms, order)) <==> OwnedBy(ms, c, seg)
  {
    AllAllocsAt(Logs(ms, order), seg);
    if OwnedBy(ms, c, seg) {
      var j :| j in c && j < |ms| && seg in ms[j].owned;
      var i :| 0 <= i < |order| && order[i] == j;
      assert seg in Allocs(Logs(ms, order)[i]);
    }
  }

  lemma FreedIsFreed(ms: seq<Tx>, c: seq<nat>, d: seq<nat>, order: seq<nat>, seg: nat)
    requires Ended(ms, c, d) && CommitOrder(ms, order)
    ensures seg in AllFrees(Logs(ms, order)) <==> FreedBy(ms, c, seg)
  {
    AllFreesAt(Logs(ms, order), seg);
    if FreedBy(ms, c, seg) {
      var j :| j in c && j < |ms| && seg in ms[j].freed;
      var i :| 0 <= i < |order| && order[i] == j;
      assert seg in Frees(Logs(ms, order)[i]);
    }
  }

  lemma WrittenByOrder(ms: seq<Tx>, c: seq<nat>, d: seq<nat>, order: seq<nat>, a: nat)
    requires Ended(ms, c, d) && CommitOrder(ms, order)
    ensures Wrote(ms, c, a) <==> exists i :: 0 <= i < |order| && a in Buffer(Logs(ms, order)[i])
  {
    if Wrote(ms, c, a) {
      var j :| j in c && j < |ms| && a in ms[j].written;
      var i :| 0 <= i < |order| && order[i] == j;
      assert a in Buffer(Logs(ms, order)[i]);
    }
  }

  lemma WritableIsBuffer(s: Stm, i: nat, a: nat)
    requires Inv(s) && i < |s.members| && a in Buffer(s.members[i].ops)
    ensures a in s.cells && s.cells[a].word.Writable() == Buffer(s.members[i].ops)[a]
  {
    assert TxInv(s, s.members[i]);
  }

  /** What the end of the epoch does to a word. */
  lemma WordAtEpochEnd(s: Stm, k: nat, a: nat)
    requires LastLeave(s, k) && a in DoLeave(s, k).cells
    ensures a in s.cells
    ensures DoLeave(s, k).cells[a].word.Readable() ==
      var w := s.cells[a].word;
      if Wrote(Done(s, k), Depart(s.batcher, k, s.members[k].aborted).committed, a) then w.Writable() else w.Readable()
  {
  }

  lemma OverlaidOrder(vals: map<nat, Bytes>, z: Bytes, ms: seq<Tx>, c: seq<nat>, d: seq<nat>, order: seq<nat>, a: nat)
    returns (i: nat)
    requires Ended(ms, c, d) && CommitOrder(ms, order)
    requires forall i, j :: 0 <= i < j < |order| ==> Buffer(Logs(ms, order)[i]).Keys !! Buffer(Logs(ms, order)[j]).Keys
    ensures var v := Overlaid(vals, Logs(ms, order));
      if Wrote(ms, c, a) then i < |ms| && a in Buffer(ms[i].ops) && Get(v, z, a) == Buffer(ms[i].ops)[a] && a in v
      else Get(v, z, a) == Get(vals, z, a) && (a in v <==> a in vals)
  {
    i := 0;
    OverlaidAt(vals, z, Logs(ms, order), a);
    WrittenByOrder(ms, c, d, order, a);
    if Wrote(ms, c, a) {
      var n :| 0 <= n < |order| && a in Buffer(Logs(ms, order)[n]);
      i := order[n];
    }
  }

  /** The overlaid memory holds the writer's copy of a word a committed member wrote. */
  lemma OverlaidWord(s: Stm, k: nat, m: Memory, order: seq<nat>, a: nat)
    requires Inv(s) && LastLeave(s, k) && CommitOrder(Done(s, k), order)
    ensures var v, z := Overlaid(m.vals, Logs(Done(s, k), order)), Zero(s.align);
      if Wrote(Done(s, k), Depart(s.batcher, k, s.members[k].aborted).committed, a)
      then a in s.cells && Get(v, z, a) == s.cells[a].word.Writable()
      else Get(v, z, a) == Get(m.vals, z, a) && (a in v <==> a in m.vals)
  {
    var b, ms := Depart(s.batcher, k, s.members[k].aborted), Done(s, k);
    LogsDisjoint(s, k, order);
    EndedAtLastLeave(s, k);
    var i := OverlaidOrder(m.vals, Zero(s.align), ms, b.committed, b.aborted, order, a);
    if Wrote(ms, b.committed, a) {
      WritableIsBuffer(s, i, a);
    }
  }

  lemma EpochValues(s: Stm, k: nat, m: Memory, order: seq<nat>, a: nat)
    requires Inv(s) && LastLeave(s, k) && Shows(m, s) && CommitOrder(Done(s, k), order)
    ensures var v := Overlaid(m.vals, Logs(Done(s, k), order));
      && (a in DoLeave(s, k).cells ==> Get(v, Zero(s.align), a) == DoLeave(s, k).cells[a].word.Readable())
      && (a >= s.endAddress ==> a !in v)
  {
    OverlaidWord(s, k, m, order, a);
    if a in DoLeave(s, k).cells {
      WordAtEpochEnd(s, k, a);
    }
  }

  lemma OwnedExist(s: Stm, k: nat, c: seq<nat>, seg: nat)
    requires OwnersInv(s) && LastLeave(s, k)
    ensures OwnedBy(Done(s, k), c, seg) ==> seg in Segments(s)
  {
    if OwnedBy(Done(s, k), c, seg) {
      var j :| j in c && j < |s.members| && seg in Done(s, k)[j].owned;
      assert seg in s.members[j].owned;
      assert s.cells[seg].seg == seg;
    }
  }

  lemma EpochLiveAt(s: Stm, k: nat, order: seq<nat>, seg: nat)
    requires Inv(s) && LastLeave(s, k) && CommitOrder(Done(s, k), order)
    ensures var logs := Logs(Done(s, k), order);
      seg in DoLeave(s, k).shared <==> (seg in s.shared || seg in AllAllocs(logs)) && seg !in AllFrees(logs)
  {
    var b, ms := Depart(s.batcher, k, s.members[k].aborted), Done(s, k);
    EndedAtLastLeave(s, k);
    PublishedIsAllocated(ms, b.committed, b.aborted, order, seg);
    FreedIsFreed(ms, b.committed, b.aborted, order, seg);
    OwnedExist(s, k, b.committed, seg);
  }

  /** The size a committed log records for a segment is the segment's. */
  lemma AllocatedSize(s: Stm, k: nat, order: seq<nat>, seg: nat)
    requires LogsFit(s) && LastLeave(s, k) && CommitOrder(Done(s, k), order)
    ensures var logs := Logs(Done(s, k), order);
      seg in AllAllocs(logs) ==> seg in s.sizes && AllAllocs(logs)[seg] == s.sizes[seg]
  {
    var logs := Logs(Done(s, k), order);
    AllAllocsAt(logs, seg);
    if seg in AllAllocs(logs) {
      var i :| 0 <= i < |logs| && seg in Allocs(logs[i]) && AllAllocs(logs)[seg] == Allocs(logs[i])[seg];
      assert LogFits(s, s.members[order[i]].ops);
      AllocsFit(s, logs[i]);
    }
  }

  lemma EpochLiveKeys(s: Stm, k: nat, m: Memory, order: seq<nat>, logs: seq<seq<Op>>)
    requires Inv(s) && LastLeave(s, k) && SameSegments(m, s) && CommitOrder(Done(s, k), order)
    requires logs == Logs(Done(s, k), order)
    ensures (m.live + AllAllocs(logs) - AllFrees(logs)).Keys == DoLeave(s, k).shared
  {
    forall seg: nat
      ensures seg in (m.live + AllAllocs(logs) - AllFrees(logs)).Keys <==> seg in DoLeave(s, k).shared
    {
      EpochLiveAt(s, k, order, seg);
    }
  }

  lemma EpochLive(s: Stm, k: nat, m: Memory, order: seq<nat>)
    requires Inv(s) && Whole(s) && LogsFit(s) && LastLeave(s, k) && SameSegments(m, s) && CommitOrder(Done(s, k), order)
    ensures var logs := Logs(Done(s, k), order);
      SameSegments(Memory(m.vals, m.live + AllAllocs(logs) - AllFrees(logs)), DoLeave(s, k))
  {
    var logs := Logs(Done(s, k), order);
    EpochLiveKeys(s, k, m, order, logs);
    forall seg | seg in AllAllocs(logs) ensures seg in s.sizes && AllAllocs(logs)[seg] == s.sizes[seg] {
      AllocatedSize(s, k, order, seg);
    }
  }

  lemma EpochBytes(s: Stm, k: nat, m: Memory, order: seq<nat>)
    requires Inv(s) && LastLeave(s, k) && Shows(m, s) && CommitOrder(Done(s, k), order)
    ensures var v := Overlaid(m.vals, Logs(Done(s, k), order));
      && (forall a: nat :: a in DoLeave(s, k).cells ==>
            Get(v, Zero(s.align), a) == DoLeave(s, k).cells[a].word.Readable())
      && (forall a: nat :: a >= s.endAddress ==> a !in v)
  {
    forall a: nat ensures var v := Overlaid(m.vals, Logs(Done(s, k), order));
      && (a in DoLeave(s, k).cells ==> Get(v, Zero(s.align), a) == DoLeave(s, k).cells[a].word.Readable())
      && (a >= s.endAddress ==> a !in v)
    {
      EpochValues(s, k, m, order, a);
    }
  }

  /** Replaying the committed logs, in any order, then applying their frees, gives exactly the memory
      the next epoch starts from: the same segments, the same words in them, the same bytes. */
  lemma EpochMemory(s: Stm, k: nat, m: Memory, order: seq<nat>)
    requires Inv(s) && Whole(s) && LogsFit(s) && LastLeave(s, k) && Shows(m, s) && CommitOrder(Done(s, k), order)
    ensures var logs := Logs(Done(s, k), order); Shows(AfterFrees(Replay(m, Concat(logs)), logs), DoLeave(s, k))
  {
    var logs, s2 := Logs(Done(s, k), order), DoLeave(s, k);
    var m2 := AfterFrees(Replay(m, Concat(logs)), logs);
    SerialResult(m, logs);
    assert SameSegments(m2, s2) by { EpochLive(s, k, m, order); }
    assert SameWordsIn(m2, s2) by {
      LastLeaveWhole(s, k);
      WholeIsExact(m2, s2);
    }
    EpochBytes(s, k, m, order);
  }
}
