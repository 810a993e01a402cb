/** What a committed transaction wrote is what every later epoch finds, until one of them overwrites it. */
module Persistence {
  import opened Words
  import opened Serial
  import opened Epochs
  import opened Protocol
  import opened Invariant
  import opened Settle
  import opened Runs
  import opened Serializability
  import opened History
  import opened RealTime
  import opened Wholeness

  ghost predicate CommittedWrote(ms: seq<Tx>, k: nat, a: nat) {
    k < |ms| && !ms[k].aborted && a in Buffer(ms[k].ops)
  }

  ghost predicate Overwritten(past: seq<seq<Tx>>, e: nat, a: nat) {
    exists f, k: nat :: e < f < |past| && CommittedWrote(past[f], k, a)
  }

  /** The segment of the last write a log makes to an address. */
  ghost function SegOfWrite(ops: seq<Op>, a: nat): nat
    requires a in Buffer(ops)
  {
    if Last(ops).Write? && Last(ops).addr == a then Last(ops).seg else SegOfWrite(Front(ops), a)
  }

  lemma {:induction false} SegFits(s: Stm, ops: seq<Op>, a: nat)
    requires LogFits(s, ops) && a in Buffer(ops)
    ensures a in s.cells && s.cells[a].seg == SegOfWrite(ops, a)
  {
    assert OpFits(s, Last(ops));
    if !(Last(ops).Write? && Last(ops).addr == a) {
      forall n | 0 <= n < |Front(ops)| ensures OpFits(s, Front(ops)[n]) {
        assert OpFits(s, ops[n]);
      }
      SegFits(s, Front(ops), a);
    }
  }

  /** a is a word of segment seg, there exactly while seg is shared. */
  ghost predicate InPlace(s: Stm, seg: nat, a: nat) {
    && a < s.endAddress && s.align > 0 && seg in s.sizes && Covers(seg, s.sizes[seg], s.align, a)
    && (a in s.cells <==> seg in s.shared)
    && (a in s.cells ==> s.cells[a].seg == seg)
  }

  /** The word member k of epoch e wrote exists exactly as long as its segment is shared, and holds what k left in it
      unless a transaction of a later ended epoch wrote it too. */
  ghost predicate Stays(s: Stm, e: nat, k: nat, a: nat)
    requires e < |s.past| && CommittedWrote(s.past[e], k, a)
  {
    var ops := s.past[e][k].ops;
    && InPlace(s, SegOfWrite(ops, a), a)
    && (a in s.cells && !Overwritten(s.past, e, a) ==> s.cells[a].word.Readable() == Buffer(ops)[a])
  }

  lemma QuietStays(s: Stm, s2: Stm, e: nat, k: nat, a: nat)
    requires Quiet(s, s2) && e < |s.past| && CommittedWrote(s.past[e], k, a) && Stays(s, e, k, a)
    requires forall seg :: seg in s.sizes ==> seg in s2.sizes && s2.sizes[seg] == s.sizes[seg]
    ensures Stays(s2, e, k, a)
  {
  }

  /** Where a word is after the end of an epoch. */
  lemma PlaceAtEnd(s: Stm, l: nat, seg: nat, a: nat)
    requires Inv(s) && Whole(s) && LastLeave(s, l)
    requires a < s.endAddress && seg in s.sizes && Covers(seg, s.sizes[seg], s.align, a)
    requires a in s.cells ==> s.cells[a].seg == seg
    ensures InPlace(DoLeave(s, l), seg, a)
  {
    var s2 := DoLeave(s, l);
    EpochEndIsClean(s, l);
    LastLeaveWhole(s, l);
    assert Held(s2, seg) <==> seg in s2.shared by { NewMembersOwnNothing(s, l); }
  }

  lemma WriterCommitted(s: Stm, l: nat, k: nat, a: nat)
    requires Inv(s) && LastLeave(s, l) && CommittedWrote(Done(s, l), k, a)
    ensures Wrote(Done(s, l), Depart(s.batcher, l, s.members[l].aborted).committed, a)
    ensures a in s.cells && a < s.endAddress && s.cells[a].word.Writable() == Buffer(Done(s, l)[k].ops)[a]
  {
    SortedAtLastLeave(s, l);
    assert TxInv(s, s.members[k]);
    WritableIsBuffer(s, k, a);
  }

  lemma JustEnded(s: Stm, l: nat, k: nat, a: nat)
    requires Inv(s) && Whole(s) && LogsFit(s) && LastLeave(s, l) && CommittedWrote(Done(s, l), k, a)
    ensures DoLeave(s, l).past == s.past + [Done(s, l)] && Stays(DoLeave(s, l), |s.past|, k, a)
  {
    var ops := s.members[k].ops;
    WriterCommitted(s, l, k, a);
    assert LogFits(s, ops);
    SegFits(s, ops, a);
    PlaceAtEnd(s, l, SegOfWrite(ops, a), a);
    if a in DoLeave(s, l).cells {
      WordAtEpochEnd(s, l, a);
    }
  }

  lemma SomeoneWrote(s: Stm, l: nat, a: nat)
    requires Inv(s) && LastLeave(s, l)
    ensures Wrote(Done(s, l), Depart(s.batcher, l, s.members[l].aborted).committed, a) ==>
      exists k: nat :: CommittedWrote(Done(s, l), k, a)
  {
    var ms, c := Done(s, l), Depart(s.batcher, l, s.members[l].aborted).committed;
    if Wrote(ms, c, a) {
      SortedAtLastLeave(s, l);
      var j :| j in c && j < |ms| && a in ms[j].written;
      assert TxInv(s, s.members[j]);
      assert CommittedWrote(ms, j, a);
    }
  }

  lemma OverwrittenGrows(past: seq<seq<Tx>>, ms: seq<Tx>, e: nat, a: nat)
    requires e < |past|
    ensures Overwritten(past, e, a) ==> Overwritten(past + [ms], e, a)
    ensures (exists k: nat :: CommittedWrote(ms, k, a)) ==> Overwritten(past + [ms], e, a)
  {
    var p2 := past + [ms];
    assert p2[|past|] == ms;
    if Overwritten(past, e, a) {
      var f, k: nat :| e < f < |past| && CommittedWrote(past[f], k, a);
      assert CommittedWrote(p2[f], k, a);
    }
  }

  lemma EarlierStays(s: Stm, l: nat, e: nat, k: nat, a: nat)
    requires Inv(s) && Whole(s) && LastLeave(s, l) && e < |s.past| && CommittedWrote(s.past[e], k, a)
    requires Stays(s, e, k, a)
    ensures DoLeave(s, l).past == s.past + [Done(s, l)] && Stays(DoLeave(s, l), e, k, a)
  {
    var s2, ms := DoLeave(s, l), Done(s, l);
    PlaceAtEnd(s, l, SegOfWrite(s.past[e][k].ops, a), a);
    OverwrittenGrows(s.past, ms, e, a);
    if a in s2.cells {
      WordAtEpochEnd(s, l, a);
      SomeoneWrote(s, l, a);
    }
  }

  lemma StepStays(s: Stm, st: Step, s2: Stm, e: nat, k: nat, a: nat)
    requires Inv(s) && Whole(s) && LogsFit(s) && Next(s, st, s2)
    requires e < |s2.past| && CommittedWrote(s2.past[e], k, a)
    requires e < |s.past| && CommittedWrote(s.past[e], k, a) ==> Stays(s, e, k, a)
    ensures Stays(s2, e, k, a)
  {
    Quiescence(s, st, s2);
    if !EndsEpoch(s, st) {
      forall seg | seg in s.sizes ensures seg in s2.sizes && s2.sizes[seg] == s.sizes[seg] {
        SizesStay(s, st, s2, seg);
      }
      QuietStays(s, s2, e, k, a);
    } else {
      assert s2.past == s.past + [Done(s, st.k)];
      if e < |s.past| { EarlierStays(s, st.k, e, k, a); } else { JustEnded(s, st.k, k, a); }
    }
  }

  /** In every reachable state: a word written by a committed transaction exists exactly as long as its segment is
      shared, and reads as that transaction left it, for everyone, unless a later epoch overwrote it. */
  lemma {:induction false} CommittedWriteStays(r: Run, i: nat, e: nat, k: nat, a: nat)
    requires IsRun(r) && i < |r.states| && e < |r.states[i].past| && CommittedWrote(r.states[i].past[e], k, a)
    ensures Stays(r.states[i], e, k, a)
    decreases i
  {
    if i > 0 {
      if e < |r.states[i - 1].past| && CommittedWrote(r.states[i - 1].past[e], k, a) {
        CommittedWriteStays(r, i - 1, e, k, a);
      }
      AtStep(r, i, r.states[i - 1], r.steps[i - 1], r.states[i]);
      StepStays(r.states[i - 1], r.steps[i - 1], r.states[i], e, k, a);
    }
  }
}
