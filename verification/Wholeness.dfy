/** Every segment that is shared or private holds all its words and no others, from its allocation until it is freed,
    and what transactions recorded about words and segments is right. */
module Wholeness {
  import opened Arithmetic
  import opened Words
  import opened Serial
  import opened Epochs
  import opened Protocol
  import opened Invariant
  import opened Arrivals
  import opened Settle
  import opened Runs

  /** The shared segments, and those private to a member of the current epoch. */
  ghost predicate Held(s: Stm, seg: nat) {
    seg in s.shared || Owned(s.members, seg)
  }

  function SegmentEnd(start: nat, count: nat, align: nat): nat {
    start + count * align
  }

  ghost predicate WordsThere(s: Stm, seg: nat)
    requires s.align > 0 && seg in s.sizes
  {
    forall a: nat {:trigger Covers(seg, s.sizes[seg], s.align, a)} ::
      Covers(seg, s.sizes[seg], s.align, a) ==> a in s.cells && s.cells[a].seg == seg
  }

  ghost predicate Whole(s: Stm) {
    && s.align > 0
    && (forall seg {:trigger Held(s, seg)} :: Held(s, seg) ==> seg in s.sizes && WordsThere(s, seg))
    && (forall a :: a in s.cells ==>
          s.cells[a].seg in s.sizes && Covers(s.cells[a].seg, s.sizes[s.cells[a].seg], s.align, a))
    && (forall seg :: seg in s.sizes ==> seg < s.endAddress && SegmentEnd(seg, s.sizes[seg], s.align) <= s.endAddress)
  }

  // ---- what one step adds and removes ----

  /** No word changes its segment and no segment its size. */
  ghost predicate Extends(s: Stm, s2: Stm) {
    && s2.align == s.align
    && (forall a :: a in s.cells ==> a in s2.cells && s2.cells[a].seg == s.cells[a].seg)
    && (forall seg :: seg in s.sizes ==> seg in s2.sizes && s2.sizes[seg] == s.sizes[seg])
  }

  /** The same words and segments, held by no more. */
  lemma SameWords(s: Stm, s2: Stm)
    requires Whole(s) && s2.align == s.align && s2.sizes == s.sizes && s2.endAddress == s.endAddress
    requires s2.cells.Keys == s.cells.Keys && forall a :: a in s.cells ==> s2.cells[a].seg == s.cells[a].seg
    requires forall seg :: Held(s2, seg) ==> Held(s, seg)
    ensures Whole(s2)
  {
  }

  lemma SameOwners(s: Stm, s2: Stm, k: nat)
    requires k < |s.members| && s2.shared == s.shared && |s2.members| == |s.members|
    requires s2.members == s.members[k := s2.members[k]]
    requires s2.members[k].owned == s.members[k].owned
    ensures forall seg :: Held(s2, seg) ==> Held(s, seg)
  {
    forall seg | Held(s2, seg) && seg !in s.shared ensures Owned(s.members, seg) {
      var i :| 0 <= i < |s2.members| && seg in s2.members[i].owned;
      assert seg in s.members[i].owned;
    }
  }

  lemma NewWords(start: nat, count: nat, align: nat)
    requires align > 0
    ensures forall a: nat :: a in NewCells(start, count, align) <==> Covers(start, count, align, a)
  {
  }

  lemma AllocateHeld(s: Stm, k: nat, count: nat, seg: nat)
    requires Active(s, k) && s.align > 0 && Held(DoAllocate(s, k, count), seg) && seg != s.endAddress
    ensures Held(s, seg)
  {
    var s2 := DoAllocate(s, k, count);
    if seg !in s.shared {
      var i :| 0 <= i < |s2.members| && seg in s2.members[i].owned;
      assert seg in s.members[i].owned;
    }
  }

  lemma AllocateWhole(s: Stm, k: nat, count: nat)
    requires CellsInv(s) && Whole(s) && Active(s, k) && count > 0
    ensures Whole(DoAllocate(s, k, count)) && Extends(s, DoAllocate(s, k, count))
  {
    var s2, start := DoAllocate(s, k, count), s.endAddress;
    NewWords(start, count, s.align);
    NewCellsFacts(start, count, s.align);
    assert count * s.align > 0;
    assert start !in s.sizes;
    forall seg | Held(s2, seg) ensures seg in s2.sizes && WordsThere(s2, seg) {
      if seg != start {
        AllocateHeld(s, k, count, seg);
      }
    }
  }

  // ---- the end of an epoch ----

  lemma WasHeld(s: Stm, k: nat, seg: nat)
    requires LastLeave(s, k) && seg in DoLeave(s, k).shared
    ensures Held(s, seg)
  {
    if seg !in s.shared {
      var b := Depart(s.batcher, k, s.members[k].aborted);
      var j :| j in b.committed && j < |s.members| && seg in Done(s, k)[j].owned;
      assert Done(s, k)[j].owned == s.members[j].owned;
      assert Owned(s.members, seg);
    }
  }

  lemma OwnerUnique(s: Stm, ms: seq<Tx>, c: seq<nat>, d: seq<nat>, seg: nat)
    requires OwnersInv(s) && |ms| == |s.members| && Sorted(ms, c, d)
    requires forall i :: 0 <= i < |ms| ==> ms[i].owned == s.members[i].owned
    requires seg in s.shared || OwnedBy(ms, c, seg)
    ensures !OwnedBy(ms, d, seg)
  {
    forall i | i in d && i < |ms| ensures seg !in ms[i].owned {
      if seg !in s.shared {
        var j :| j in c && j < |ms| && seg in ms[j].owned;
        assert ms[i].aborted && !ms[j].aborted;
        assert seg in s.members[j].owned;
      }
    }
  }

  /** No aborted member owns a segment that is shared after the epoch. */
  lemma NotAborted(s: Stm, k: nat, seg: nat)
    requires BatchInv(s) && OwnersInv(s) && LastLeave(s, k) && seg in DoLeave(s, k).shared
    ensures !OwnedBy(Done(s, k), Depart(s.batcher, k, s.members[k].aborted).aborted, seg)
  {
    var b := Depart(s.batcher, k, s.members[k].aborted);
    SortedAtLastLeave(s, k);
    OwnerUnique(s, Done(s, k), b.committed, b.aborted, seg);
  }

  /** A shared segment keeps all its words over the end of an epoch. */
  lemma SurvivesWhole(s: Stm, k: nat, seg: nat)
    requires Inv(s) && Whole(s) && LastLeave(s, k) && seg in DoLeave(s, k).shared
    ensures seg in s.sizes && WordsThere(DoLeave(s, k), seg)
  {
    NotAborted(s, k, seg);
    WasHeld(s, k, seg);
  }

  lemma NewMembersOwnNothing(s: Stm, k: nat)
    requires BatchInv(s) && LastLeave(s, k)
    ensures forall seg :: !Owned(DoLeave(s, k).members, seg)
  {
  }

  lemma LastLeaveWhole(s: Stm, k: nat)
    requires Inv(s) && Whole(s) && LastLeave(s, k)
    ensures Whole(DoLeave(s, k))
  {
    var s2 := DoLeave(s, k);
    LastLeaveCells(s, k);
    LastLeaveBatch(s, k);
    forall seg | Held(s2, seg) ensures seg in s2.sizes && WordsThere(s2, seg) {
      assert seg in s2.shared by { NewMembersOwnNothing(s, k); }
      SurvivesWhole(s, k, seg);
    }
  }

  // ---- every step ----

  /** Steps of member k that allocate nothing. */
  lemma RecordWhole(s: Stm, s2: Stm, k: nat)
    requires Whole(s) && s2.align == s.align && s2.sizes == s.sizes && s2.endAddress == s.endAddress
    requires s2.shared == s.shared
    requires s2.cells.Keys == s.cells.Keys && forall a :: a in s.cells ==> s2.cells[a].seg == s.cells[a].seg
    requires k < |s.members| == |s2.members| && s2.members == s.members[k := s2.members[k]]
    requires s2.members[k].owned == s.members[k].owned
    ensures Whole(s2)
  {
    SameOwners(s, s2, k);
    SameWords(s, s2);
  }

  lemma LeaveWhole(s: Stm, k: nat)
    requires Inv(s) && Whole(s) && Enabled(s, Leave(k)) && s.batcher.remaining > 0
    ensures Whole(DoLeave(s, k))
  {
    if s.batcher.remaining == 1 {
      LastLeaveWhole(s, k);
    } else {
      RecordWhole(s, DoLeave(s, k), k);
    }
  }

  lemma BeginWhole(s: Stm, readOnly: bool)
    requires Whole(s)
    ensures Whole(DoBegin(s, readOnly))
  {
    SameWords(s, DoBegin(s, readOnly));
  }

  lemma ReadWhole(s: Stm, k: nat, a: nat)
    requires Whole(s) && Active(s, k) && a in s.cells
    ensures Whole(DoRead(s, k, a))
  {
    RecordWhole(s, DoRead(s, k, a), k);
  }

  lemma WriteWhole(s: Stm, k: nat, a: nat, v: Bytes)
    requires Whole(s) && Active(s, k) && a in s.cells
    ensures Whole(DoWrite(s, k, a, v))
  {
    RecordWhole(s, DoWrite(s, k, a, v), k);
  }

  lemma ReleaseWhole(s: Stm, k: nat, start: nat)
    requires Whole(s) && Active(s, k)
    ensures Whole(DoRelease(s, k, start))
  {
    RecordWhole(s, DoRelease(s, k, start), k);
  }

  lemma StepWhole(s: Stm, st: Step, s2: Stm)
    requires Inv(s) && Next(s, st, s2) && Whole(s)
    ensures Whole(s2)
  {
    match st
    case Begin(readOnly) => BeginWhole(s, readOnly);
    case ReadWord(k, a) => ReadWhole(s, k, a);
    case WriteWord(k, a, v) => WriteWhole(s, k, a, v);
    case Allocate(k, count) => AllocateWhole(s, k, count);
    case Release(k, start) => ReleaseWhole(s, k, start);
    case Leave(k) => LeaveWhole(s, k);
  }

  lemma CreateWhole(align: nat, count: nat)
    requires align > 0 && count > 0
    ensures Whole(Create(align, count))
  {
    NewWords(1, count, align);
    NewCellsFacts(1, count, align);
    assert count * align > 0;
  }

  // ---- what the logs say ----

  /** An entry of a log names the segment its word is in, or the size of the segment handed out. */
  ghost predicate OpFits(s: Stm, op: Op) {
    match op
    case Read(a, seg, v) => a in s.cells && s.cells[a].seg == seg && |v| == s.align
    case Write(a, seg, v) => a in s.cells && s.cells[a].seg == seg && |v| == s.align
    case Alloc(seg, count) => seg in s.sizes && s.sizes[seg] == count
    case Free(_) => true
  }

  ghost predicate LogFits(s: Stm, ops: seq<Op>) {
    forall n {:trigger OpFits(s, ops[n])} :: 0 <= n < |ops| ==> OpFits(s, ops[n])
  }

  ghost predicate LogsFit(s: Stm) {
    forall i {:trigger LogFits(s, s.members[i].ops)} :: 0 <= i < |s.members| ==> LogFits(s, s.members[i].ops)
  }

  lemma LogKept(s: Stm, s2: Stm, ops: seq<Op>)
    requires LogFits(s, ops) && Extends(s, s2)
    ensures LogFits(s2, ops)
  {
    assert forall n :: 0 <= n < |ops| ==> OpFits(s, ops[n]);
  }

  /** Member k may have done one more operation. */
  lemma LogsKept(s: Stm, s2: Stm, k: nat)
    requires LogsFit(s) && Extends(s, s2) && k < |s.members| == |s2.members|
    requires forall i :: 0 <= i < |s.members| && i != k ==> s2.members[i].ops == s.members[i].ops
    requires s2.members[k].ops == s.members[k].ops
      || (&& s2.members[k].ops != [] && Front(s2.members[k].ops) == s.members[k].ops
          && OpFits(s2, Last(s2.members[k].ops)))
    ensures LogsFit(s2)
  {
    forall i | 0 <= i < |s2.members| ensures LogFits(s2, s2.members[i].ops) {
      assert LogFits(s, s.members[i].ops);
      LogKept(s, s2, s.members[i].ops);
      var ops := s2.members[i].ops;
      if ops != s.members[i].ops {
        forall n | 0 <= n < |ops| ensures OpFits(s2, ops[n]) {
          if n < |ops| - 1 { assert OpFits(s2, Front(ops)[n]); }
        }
      }
    }
  }

  lemma AllocateFits(s: Stm, k: nat, count: nat)
    requires CellsInv(s) && Whole(s) && LogsFit(s) && Active(s, k) && count > 0
    ensures LogsFit(DoAllocate(s, k, count))
  {
    var s2 := DoAllocate(s, k, count);
    AllocateWhole(s, k, count);
    assert Front(s2.members[k].ops) == s.members[k].ops;
    LogsKept(s, s2, k);
  }

  lemma ReleaseFits(s: Stm, k: nat, start: nat)
    requires LogsFit(s) && Active(s, k)
    ensures LogsFit(DoRelease(s, k, start))
  {
    var s2 := DoRelease(s, k, start);
    assert Front(s2.members[k].ops) == s.members[k].ops;
    LogsKept(s, s2, k);
  }

  lemma LeaveFits(s: Stm, k: nat)
    requires BatchInv(s) && LogsFit(s) && Enabled(s, Leave(k)) && s.batcher.remaining > 0
    ensures LogsFit(DoLeave(s, k))
  {
    if s.batcher.remaining > 1 {
      LogsKept(s, DoLeave(s, k), k);
    } else {
      forall i | 0 <= i < |s.batcher.blocked| ensures LogFits(DoLeave(s, k), s.batcher.blocked[i].ops) {
        assert Unused(s.batcher.blocked[i]);
      }
    }
  }

  lemma BeginFits(s: Stm, readOnly: bool)
    requires Inv(s) && LogsFit(s)
    ensures LogsFit(DoBegin(s, readOnly))
  {
    var s2 := DoBegin(s, readOnly);
    forall i | 0 <= i < |s2.members| ensures LogFits(s2, s2.members[i].ops) {
      if s.batcher.remaining > 0 {
        assert LogFits(s, s.members[i].ops);
        LogKept(s, s2, s.members[i].ops);
      }
    }
  }

  lemma ReadFits(s: Stm, k: nat, a: nat)
    requires Inv(s) && LogsFit(s) && Enabled(s, ReadWord(k, a))
    ensures LogsFit(DoRead(s, k, a))
  {
    var s2 := DoRead(s, k, a);
    if s2.members[k].ops != s.members[k].ops {
      assert Front(s2.members[k].ops) == s.members[k].ops;
    }
    LogsKept(s, s2, k);
  }

  lemma WriteFits(s: Stm, k: nat, a: nat, v: Bytes)
    requires Inv(s) && LogsFit(s) && Enabled(s, WriteWord(k, a, v))
    ensures LogsFit(DoWrite(s, k, a, v))
  {
    var s2 := DoWrite(s, k, a, v);
    if s2.members[k].ops != s.members[k].ops {
      assert Front(s2.members[k].ops) == s.members[k].ops;
    }
    LogsKept(s, s2, k);
  }

  lemma StepFits(s: Stm, st: Step, s2: Stm)
    requires Inv(s) && Next(s, st, s2) && Whole(s) && LogsFit(s)
    ensures LogsFit(s2)
  {
    match st
    case Begin(readOnly) => BeginFits(s, readOnly);
    case ReadWord(k, a) => ReadFits(s, k, a);
    case WriteWord(k, a, v) => WriteFits(s, k, a, v);
    case Allocate(k, count) => AllocateFits(s, k, count);
    case Release(k, start) => ReleaseFits(s, k, start);
    case Leave(k) => LeaveFits(s, k);
  }

  lemma NextWhole(r: Run, i: nat)
    requires IsRun(r) && 0 < i < |r.states| && Whole(r.states[i - 1]) && LogsFit(r.states[i - 1])
    ensures Whole(r.states[i]) && LogsFit(r.states[i])
  {
    var s, st, s2 := r.states[i - 1], r.steps[i - 1], r.states[i];
    RunInv(r, i - 1);
    assert Next(s, st, s2);
    StepWhole(s, st, s2);
    StepFits(s, st, s2);
  }

  /** Every segment that is shared or private holds exactly its words, in every state of every run. */
  lemma {:induction false} RunWhole(r: Run, i: nat)
    requires IsRun(r) && i < |r.states|
    ensures Whole(r.states[i]) && LogsFit(r.states[i])
  {
    if i == 0 {
      var align: nat, count: nat :| align > 0 && count > 0 && r.states[0] == Create(align, count);
      CreateWhole(align, count);
    } else {
      RunWhole(r, i - 1);
      NextWhole(r, i);
    }
  }

  /** What is known of a step of a run. */
  lemma AtStep(r: Run, i: nat, s: Stm, st: Step, s2: Stm)
    requires IsRun(r) && 0 < i < |r.states| && s == r.states[i - 1] && st == r.steps[i - 1] && s2 == r.states[i]
    ensures Next(s, st, s2) && Inv(s) && Whole(s) && LogsFit(s) && Whole(s2) && LogsFit(s2)
  {
    assert Next(r.states[i - 1], r.steps[i - 1], r.states[i]);
    RunInv(r, i - 1);
    RunWhole(r, i - 1);
    RunWhole(r, i);
  }

  /** So the sizes in a log are those of the segments handed out. */
  lemma {:induction false} AllocsFit(s: Stm, ops: seq<Op>)
    requires LogFits(s, ops)
    ensures forall seg :: seg in Allocs(ops) ==> seg in s.sizes && s.sizes[seg] == Allocs(ops)[seg]
  {
    if ops != [] {
      assert OpFits(s, Last(ops));
      forall n | 0 <= n < |Front(ops)| ensures OpFits(s, Front(ops)[n]) {
        assert OpFits(s, ops[n]);
      }
      AllocsFit(s, Front(ops));
    }
  }

  // ---- what this says of words and segments ----

  lemma SizesStay(s: Stm, st: Step, s2: Stm, seg: nat)
    requires Inv(s) && Whole(s) && Next(s, st, s2) && seg in s.sizes
    ensures seg in s2.sizes && s2.sizes[seg] == s.sizes[seg] && s2.align == s.align
  {
  }

  /** A word exists as long as its segment is shared: no step loses it or moves it to another segment. */
  lemma WordsSurvive(s: Stm, st: Step, s2: Stm, a: nat)
    requires Inv(s) && Whole(s) && Next(s, st, s2) && a in s.cells && s.cells[a].seg in s2.shared
    ensures a in s2.cells && s2.cells[a].seg == s.cells[a].seg
  {
    var seg := s.cells[a].seg;
    StepWhole(s, st, s2);
    assert Held(s2, seg);
    SizesStay(s, st, s2, seg);
    assert Covers(seg, s2.sizes[seg], s2.align, a);
  }

  function WordAt(start: nat, j: nat, align: nat): nat {
    start + j * align
  }

  lemma CoversIff(start: nat, count: nat, align: nat, a: nat)
    requires align > 0
    ensures Covers(start, count, align, a) <==> exists j: nat :: j < count && a == WordAt(start, j, align)
  {
    if Covers(start, count, align, a) {
      var j := (a - start) / align;
      assert a - start == j * align;
      SmallerMultiple(j, count, align);
      assert a == WordAt(start, j, align);
    }
    if j: nat :| j < count && a == WordAt(start, j, align) {
      SmallerMultiple(j, count, align);
      DivideExact(j, align);
    }
  }

  /** In every state of every run the words of a segment in use are exactly those at its start,
      one alignment further, and so on, as many as it was handed out with. */
  lemma WordsOfSegment(r: Run, i: nat, seg: nat, a: nat)
    requires IsRun(r) && i < |r.states| && Held(r.states[i], seg)
    ensures var s := r.states[i];
      && s.align > 0 && seg in s.sizes
      && ((a in s.cells && s.cells[a].seg == seg) <==>
          exists j: nat :: j < s.sizes[seg] && a == WordAt(seg, j, s.align))
  {
    var s := r.states[i];
    RunWhole(r, i);
    CoversIff(seg, s.sizes[seg], s.align, a);
    assert WordsThere(s, seg);
  }

  /** An allocation of count words adds exactly those, at the end address and after it, zero and private to the
      caller. */
  lemma AllocatesExactly(s: Stm, k: nat, count: nat, a: nat)
    requires CellsInv(s) && Active(s, k) && count > 0 && a !in s.cells
    ensures var s2 := DoAllocate(s, k, count);
      && (a in s2.cells <==> exists j: nat :: j < count && a == WordAt(s.endAddress, j, s.align))
      && (a in s2.cells ==> s2.cells[a] == Cell(NewWord(s.align), s.endAddress))
      && (a in s2.cells ==> |s2.cells[a].word.Readable()| == s.align && s2.cells[a].word.Clean())
      && (a in s2.cells ==> forall b :: 0 <= b < s.align ==> s2.cells[a].word.Readable()[b] == 0)
      && s.endAddress in s2.members[k].owned
  {
    AllocatedCells(s, k, count);
    NewWords(s.endAddress, count, s.align);
    CoversIff(s.endAddress, count, s.align, a);
  }

  // ---- segments do not overlap ----

  ghost predicate Stacked(s: Stm) {
    && s.align > 0
    && forall t, u {:trigger t in s.sizes, u in s.sizes} :: t in s.sizes && u in s.sizes && t < u ==>
         SegmentEnd(t, s.sizes[t], s.align) <= u
  }

  lemma AllocateStacked(s: Stm, k: nat, count: nat)
    requires Whole(s) && Stacked(s) && Active(s, k)
    ensures Stacked(DoAllocate(s, k, count))
  {
    assert s.endAddress !in s.sizes;
  }

  lemma SizesSame(s: Stm, st: Step, s2: Stm)
    requires Next(s, st, s2) && !st.Allocate?
    ensures s2.sizes == s.sizes && s2.align == s.align
  {
  }

  lemma StepStacked(s: Stm, st: Step, s2: Stm)
    requires Whole(s) && Next(s, st, s2) && Stacked(s)
    ensures Stacked(s2)
  {
    if st.Allocate? {
      AllocateStacked(s, st.k, st.count);
    } else {
      SizesSame(s, st, s2);
    }
  }

  /** In every state of every run no segment ever handed out begins before an earlier one has ended. */
  lemma {:induction false} RunStacked(r: Run, i: nat)
    requires IsRun(r) && i < |r.states|
    ensures Stacked(r.states[i])
  {
    if i > 0 {
      RunStacked(r, i - 1);
      AtStep(r, i, r.states[i - 1], r.steps[i - 1], r.states[i]);
      StepStacked(r.states[i - 1], r.steps[i - 1], r.states[i]);
    }
  }

  lemma ReachableWhole(s: Stm)
    requires Reachable(s)
    ensures Inv(s) && Whole(s) && LogsFit(s) && Stacked(s)
  {
    var r :| IsRun(r) && r.states[|r.states| - 1] == s;
    var i := |r.states| - 1;
    RunInv(r, i);
    RunWhole(r, i);
    RunStacked(r, i);
  }
}
