/** The objects of the memory at the end of an epoch, seen as a state of the protocol: the loops over the leaving
    transactions do what the protocol's epoch end does. */
module Abstraction {
  import opened Words
  import opened Serial
  import Epochs
  import opened Protocol
  import opened Invariant
  import opened Preserve
  import opened Arrivals
  import opened Settle
  import opened Runs
  import opened Wholeness
  import opened Objects
  import Batching

  type Leaver = Batching.Leaver

  // ---- what shows what ----

  /** The segment object sg is segment start of s; W holds the word objects by address. */
  ghost predicate SegmentShown(s: Stm, W: map<nat, Word>, start: nat, sg: Segment) {
    && start in s.sizes && sg.Fits(s.align) && sg.startAddress == start && sg.numWords == s.sizes[start]
    && (forall w :: w in sg.words ==>
        w.addr in W && W[w.addr] == w && w.addr in s.cells && s.cells[w.addr].seg == start)
    && (forall a :: a in s.cells && s.cells[a].seg == start ==> a in W && W[a] in sg.words)
  }

  ghost predicate SegmentsShown(s: Stm, W: map<nat, Word>, m: map<nat, Segment>) {
    forall start {:trigger SegmentShown(s, W, start, m[start])} :: start in m ==> SegmentShown(s, W, start, m[start])
  }

  /** The states of the word objects are those of the words. */
  ghost predicate WordsShown(s: Stm, W: map<nat, Word>, states: map<Word, WordState>) {
    forall a {:trigger W[a]} {:trigger s.cells[a]} :: a in s.cells ==>
      a in W && W[a] in states && s.cells[a].word == states[W[a]]
  }

  ghost predicate Addressed(W: map<nat, Word>) {
    forall a :: a in W ==> W[a].addr == a
  }

  ghost predicate SharedShown(s: Stm, W: map<nat, Word>, segments: map<nat, Segment>) {
    segments.Keys == s.shared && SegmentsShown(s, W, segments)
  }

  ghost predicate WordsOf(W: map<nat, Word>, m: map<nat, Word>, keys: set<nat>) {
    m.Keys == keys && forall a :: a in m ==> a in W && m[a] == W[a]
  }

  ghost predicate MemberShown(s: Stm, W: map<nat, Word>, tx: Tx, l: Leaver) {
    && WordsOf(W, l.written, tx.written) && WordsOf(W, l.read, tx.read)
    && l.owned.Keys == tx.owned && SegmentsShown(s, W, l.owned) && IndexOk(l.owned, l.ends)
    && (forall seg :: seg in l.freed <==> seg in tx.freed)
  }

  ghost predicate LeaversShown(s: Stm, W: map<nat, Word>, ids: seq<nat>, ls: seq<Leaver>) {
    && |ids| == |ls|
    && (forall i {:trigger ids[i]} {:trigger ls[i]} :: 0 <= i < |ids| ==>
          ids[i] < |s.members| && MemberShown(s, W, s.members[ids[i]], ls[i]))
  }

  // ---- unions over leavers are unions over members ----

  lemma InWrites(s: Stm, W: map<nat, Word>, ids: seq<nat>, ls: seq<Leaver>, a: nat)
    requires LeaversShown(s, W, ids, ls) && Addressed(W) && a in W
    ensures W[a] in Batching.Union(Batching.Writes(ls)) <==> Wrote(s.members, ids, a)
  {
    Batching.UnionMember(Batching.Writes(ls), W[a]);
    if W[a] in Batching.Union(Batching.Writes(ls)) {
      var i :| 0 <= i < |ls| && W[a] in Batching.Writes(ls)[i];
      var b :| b in ls[i].written && ls[i].written[b] == W[a];
      assert ids[i] in ids && a in s.members[ids[i]].written;
    }
    if Wrote(s.members, ids, a) {
      var k :| k in ids && k < |s.members| && a in s.members[k].written;
      var i :| 0 <= i < |ids| && ids[i] == k;
      assert ls[i].written[a] == W[a];
      assert W[a] in Batching.Writes(ls)[i];
    }
  }

  lemma InTouches(s: Stm, W: map<nat, Word>, ids: seq<nat>, ls: seq<Leaver>, a: nat)
    requires LeaversShown(s, W, ids, ls) && Addressed(W) && a in W
    ensures W[a] in Batching.Union(Batching.Touches(ls)) <==> Touched(s.members, ids, a)
  {
    Batching.UnionMember(Batching.Touches(ls), W[a]);
    if W[a] in Batching.Union(Batching.Touches(ls)) {
      var i :| 0 <= i < |ls| && W[a] in Batching.Touches(ls)[i];
      var m := if W[a] in ls[i].written.Values then ls[i].written else ls[i].read;
      var b :| b in m && m[b] == W[a];
      assert ids[i] in ids && b == a;
    }
    if Touched(s.members, ids, a) {
      var k :| k in ids && k < |s.members| && (a in s.members[k].written || a in s.members[k].read);
      var i :| 0 <= i < |ids| && ids[i] == k;
      assert a in ls[i].written ==> ls[i].written[a] == W[a];
      assert a in ls[i].read ==> ls[i].read[a] == W[a];
      assert W[a] in Batching.Touches(ls)[i];
    }
  }

  lemma InFrees(s: Stm, W: map<nat, Word>, ids: seq<nat>, ls: seq<Leaver>, seg: nat)
    requires LeaversShown(s, W, ids, ls)
    ensures seg in Batching.Union(Batching.Frees(ls)) <==> FreedBy(s.members, ids, seg)
  {
    Batching.UnionMember(Batching.Frees(ls), seg);
    if seg in Batching.Union(Batching.Frees(ls)) {
      var i :| 0 <= i < |ls| && seg in Batching.Frees(ls)[i];
      assert ids[i] in ids && seg in ls[i].freed;
    }
    if FreedBy(s.members, ids, seg) {
      var k :| k in ids && k < |s.members| && seg in s.members[k].freed;
      var i :| 0 <= i < |ids| && ids[i] == k;
      assert seg in Batching.Frees(ls)[i];
    }
  }

  // ---- published segments ----

  lemma OneOwner(s: Stm, W: map<nat, Word>, ids: seq<nat>, ls: seq<Leaver>, seg: nat)
    requires OwnersInv(s) && LeaversShown(s, W, ids, ls) && Distinct(ids)
    ensures forall i, j :: 0 <= i < j < |ls| && seg in Batching.Owns(ls)[i] ==> seg !in Batching.Owns(ls)[j]
  {
    forall i, j | 0 <= i < j < |ls| && seg in Batching.Owns(ls)[i] ensures seg !in Batching.Owns(ls)[j] {
      assert ids[i] != ids[j];
      assert seg in s.members[ids[i]].owned;
    }
  }

  lemma InPublished(s: Stm, W: map<nat, Word>, ids: seq<nat>, ls: seq<Leaver>, segments: map<nat, Segment>, seg: nat)
    requires OwnersInv(s) && LeaversShown(s, W, ids, ls) && Distinct(ids) && SharedShown(s, W, segments)
    ensures var p := Batching.Published(segments, Batching.Owns(ls));
      && (seg in p <==> seg in s.shared || OwnedBy(s.members, ids, seg))
      && (seg in p ==> SegmentShown(s, W, seg, p[seg]))
  {
    OneOwner(s, W, ids, ls, seg);
    Batching.PublishedAt(segments, Batching.Owns(ls), seg);
    if OwnedBy(s.members, ids, seg) {
      var k :| k in ids && k < |s.members| && seg in s.members[k].owned;
      var i :| 0 <= i < |ids| && ids[i] == k;
      assert seg in Batching.Owns(ls)[i];
      assert SegmentShown(s, W, seg, ls[i].owned[seg]);
    } else {
      forall i | 0 <= i < |ls| ensures seg !in Batching.Owns(ls)[i] {
        assert ids[i] in ids;
      }
      assert seg in segments ==> SegmentShown(s, W, seg, segments[seg]);
    }
  }

  // ---- the end of an epoch ----

  lemma TouchedByEither(ms: seq<Tx>, c: seq<nat>, d: seq<nat>, a: nat)
    ensures Touched(ms, c + d, a) <==> Touched(ms, c, a) || Touched(ms, d, a)
  {
    if Touched(ms, c, a) {
      var k :| k in c && k < |ms| && (a in ms[k].written || a in ms[k].read);
      assert k in c + d;
    }
    if Touched(ms, d, a) {
      var k :| k in d && k < |ms| && (a in ms[k].written || a in ms[k].read);
      assert k in c + d;
    }
  }

  lemma WordsSettle(s: Stm, W: map<nat, Word>, states: map<Word, WordState>, c: seq<nat>, d: seq<nat>,
                    commits: seq<Leaver>, aborts: seq<Leaver>)
    requires Addressed(W) && WordsShown(s, W, states) && LeaversShown(s, W, c, commits) && LeaversShown(s, W, d, aborts)
    ensures WordsShown(EpochEnd(s, c, d), W, Batching.WordsAfter(states, commits, aborts))
  {
    var s2 := EpochEnd(s, c, d);
    forall a | a in s2.cells
      ensures a in W && W[a] in states && s2.cells[a].word == Batching.WordsAfter(states, commits, aborts)[W[a]]
    {
      assert a in s.cells;
      InWrites(s, W, c, commits, a);
      InTouches(s, W, c, commits, a);
      InTouches(s, W, d, aborts, a);
      TouchedByEither(s.members, c, d, a);
    }
  }

  lemma EndShared(s: Stm, c: seq<nat>, d: seq<nat>, seg: nat)
    requires OwnersInv(s)
    ensures seg in EpochEnd(s, c, d).shared <==>
      (seg in s.shared || OwnedBy(s.members, c, seg)) && !FreedBy(s.members, c, seg)
  {
    if OwnedBy(s.members, c, seg) {
      var k :| k in c && k < |s.members| && seg in s.members[k].owned;
      assert s.cells[seg].seg == seg;
      assert seg in Segments(s);
    }
  }

  lemma SharedAfter(s: Stm, W: map<nat, Word>, segments: map<nat, Segment>, c: seq<nat>, commits: seq<Leaver>, seg: nat)
    requires OwnersInv(s) && Distinct(c) && SharedShown(s, W, segments) && LeaversShown(s, W, c, commits)
    ensures var after := Batching.SegmentsAfter(segments, commits);
      && (seg in after <==> (seg in s.shared || OwnedBy(s.members, c, seg)) && !FreedBy(s.members, c, seg))
      && (seg in after ==> SegmentShown(s, W, seg, after[seg]))
  {
    InPublished(s, W, c, commits, segments, seg);
    InFrees(s, W, c, commits, seg);
  }

  /** A segment that is shared afterwards keeps all its words. */
  lemma SegmentKept(s: Stm, W: map<nat, Word>, c: seq<nat>, d: seq<nat>, seg: nat, sg: Segment)
    requires OwnersInv(s) && Sorted(s.members, c, d) && SegmentShown(s, W, seg, sg)
    requires !FreedBy(s.members, c, seg) && (seg in s.shared || OwnedBy(s.members, c, seg))
    ensures SegmentShown(EpochEnd(s, c, d), W, seg, sg)
  {
    OwnerUnique(s, s.members, c, d, seg);
  }

  /** The loops at the end of an epoch do to the objects what the protocol's epoch end does to the state they show. */
  lemma EpochEndShown(s: Stm, W: map<nat, Word>, states: map<Word, WordState>, segments: map<nat, Segment>,
                      c: seq<nat>, d: seq<nat>, commits: seq<Leaver>, aborts: seq<Leaver>)
    requires OwnersInv(s) && Sorted(s.members, c, d) && Addressed(W)
    requires WordsShown(s, W, states) && SharedShown(s, W, segments)
    requires LeaversShown(s, W, c, commits) && LeaversShown(s, W, d, aborts)
    ensures WordsShown(EpochEnd(s, c, d), W, Batching.WordsAfter(states, commits, aborts))
    ensures SharedShown(EpochEnd(s, c, d), W, Batching.SegmentsAfter(segments, commits))
  {
    WordsSettle(s, W, states, c, d, commits, aborts);
    var after := Batching.SegmentsAfter(segments, commits);
    forall seg ensures seg in after <==> seg in EpochEnd(s, c, d).shared {
      SharedAfter(s, W, segments, c, commits, seg);
      EndShared(s, c, d, seg);
    }
    forall seg | seg in after ensures SegmentShown(EpochEnd(s, c, d), W, seg, after[seg]) {
      SharedAfter(s, W, segments, c, commits, seg);
      SegmentKept(s, W, c, d, seg, after[seg]);
    }
  }

  // ---- the members of an epoch can be settled ----

  lemma SegmentsDiffer(s: Stm, W: map<nat, Word>, m: map<nat, Segment>, n: map<nat, Segment>)
    requires Stacked(s) && SegmentsShown(s, W, m) && SegmentsShown(s, W, n) && m.Keys !! n.Keys
    ensures Batching.MapsApart(m, n)
  {
    forall t, u | t in m && u in n ensures m[t].end <= u || n[u].end <= t {
      assert SegmentShown(s, W, t, m[t]) && SegmentShown(s, W, u, n[u]);
      assert m[t].end == SegmentEnd(t, s.sizes[t], s.align) && n[u].end == SegmentEnd(u, s.sizes[u], s.align);
      assert t != u && t in s.sizes && u in s.sizes;
    }
  }

  lemma CanPublish(s: Stm, W: map<nat, Word>, k: nat, l: Leaver)
    requires CellsInv(s) && OwnersInv(s) && Whole(s) && k < |s.members| && MemberShown(s, W, s.members[k], l)
    ensures Batching.Publishable(l, s.endAddress, s.align)
  {
    forall seg | seg in l.owned ensures 0 < seg && l.owned[seg].end <= s.endAddress && l.owned[seg].Fits(s.align) {
      assert SegmentShown(s, W, seg, l.owned[seg]);
      assert SegmentEnd(seg, s.sizes[seg], s.align) <= s.endAddress;
      assert seg in s.members[k].owned && s.cells[seg].seg == seg;
    }
  }

  lemma WritesApart(s: Stm, W: map<nat, Word>, i: nat, j: nat, l: Leaver, m: Leaver)
    requires WordsInv(s) && TxsInv(s) && i < |s.members| && j < |s.members| && i != j && Addressed(W)
    requires MemberShown(s, W, s.members[i], l) && MemberShown(s, W, s.members[j], m)
    ensures l.written.Values !! m.written.Values
  {
    forall w | w in l.written.Values ensures w !in m.written.Values {
      var a :| a in l.written && l.written[a] == w;
      assert TxInv(s, s.members[i]);
      assert WordInv(s.cells[a].word, s.members, a);
      assert a !in s.members[j].written;
    }
  }

  lemma OwnersApart(s: Stm, i: nat, j: nat)
    requires OwnersInv(s) && i < |s.members| && j < |s.members| && i != j
    ensures s.members[i].owned !! s.members[j].owned
  {
  }

  lemma OwnedNotShared(s: Stm, i: nat)
    requires OwnersInv(s) && i < |s.members|
    ensures s.shared !! s.members[i].owned
  {
  }

  lemma PairSettles(s: Stm, W: map<nat, Word>, i: nat, j: nat, l: Leaver, m: Leaver)
    requires Inv(s) && Stacked(s) && Addressed(W) && i < |s.members| && j < |s.members| && i != j
    requires MemberShown(s, W, s.members[i], l) && MemberShown(s, W, s.members[j], m)
    ensures l.written.Values !! m.written.Values && Batching.MapsApart(l.owned, m.owned)
  {
    WritesApart(s, W, i, j, l, m);
    OwnersApart(s, i, j);
    SegmentsDiffer(s, W, l.owned, m.owned);
  }

  lemma OneSettles(s: Stm, W: map<nat, Word>, segments: map<nat, Segment>, i: nat, l: Leaver)
    requires Inv(s) && Whole(s) && Stacked(s) && SharedShown(s, W, segments)
    requires i < |s.members| && MemberShown(s, W, s.members[i], l)
    ensures Batching.MapsApart(segments, l.owned) && Batching.Publishable(l, s.endAddress, s.align)
  {
    OwnedNotShared(s, i);
    SegmentsDiffer(s, W, segments, l.owned);
    CanPublish(s, W, i, l);
  }

  /** What the loops at the end of an epoch ask of the transactions that committed holds of the members of an epoch. */
  lemma MembersSettleable(s: Stm, W: map<nat, Word>, segments: map<nat, Segment>, ids: seq<nat>, ls: seq<Leaver>)
    requires Inv(s) && Whole(s) && Stacked(s) && Addressed(W) && Distinct(ids)
    requires SharedShown(s, W, segments) && LeaversShown(s, W, ids, ls)
    ensures Batching.Settleable(segments, s.endAddress, s.align, ls)
  {
    forall i, j | 0 <= i < j < |ls|
      ensures ls[i].written.Values !! ls[j].written.Values && Batching.MapsApart(ls[i].owned, ls[j].owned)
    {
      PairSettles(s, W, ids[i], ids[j], ls[i], ls[j]);
    }
    forall i | 0 <= i < |ls|
      ensures Batching.MapsApart(segments, ls[i].owned) && Batching.Publishable(ls[i], s.endAddress, s.align)
    {
      OneSettles(s, W, segments, ids[i], ls[i]);
    }
  }

  // ---- a departure ----

  ghost function StatesOf(W: map<nat, Word>): map<Word, WordState>
    reads W.Values
  {
    map w | w in W.Values :: w.State()
  }

  /** The objects show the state s of the protocol; W holds the word objects by address. */
  ghost predicate Depicts(stm: DualStm, W: map<nat, Word>, s: Stm)
    reads stm, W.Values
  {
    && stm.alignment == s.align && stm.endAddress == s.endAddress && Addressed(W)
    && SharedShown(s, W, stm.segments) && WordsShown(s, W, StatesOf(W))
  }

  lemma SegmentsSame(s: Stm, s2: Stm, W: map<nat, Word>, m: map<nat, Segment>)
    requires SegmentsShown(s, W, m) && s2.cells == s.cells && s2.sizes == s.sizes && s2.align == s.align
    ensures SegmentsShown(s2, W, m)
  {
    forall seg | seg in m ensures SegmentShown(s2, W, seg, m[seg]) {
      assert SegmentShown(s, W, seg, m[seg]);
    }
  }

  /** What the protocol knows of a departure does not include who has left. */
  lemma LeaversAfter(s: Stm, W: map<nat, Word>, k: nat, ids: seq<nat>, ls: seq<Leaver>)
    requires k < |s.members| && LeaversShown(s, W, ids, ls)
    ensures LeaversShown(With(s, k, s.members[k].(left := true)), W, ids, ls)
  {
    var s1 := With(s, k, s.members[k].(left := true));
    forall i | 0 <= i < |ids| ensures ids[i] < |s1.members| && MemberShown(s1, W, s1.members[ids[i]], ls[i]) {
      assert MemberShown(s, W, s.members[ids[i]], ls[i]);
      SegmentsSame(s, s1, W, ls[i].owned);
    }
  }

  /** The state whose epoch end is the last departure of member k. */
  lemma Departed(s: Stm, k: nat) returns (s1: Stm)
    requires BatchInv(s) && OwnersInv(s) && LastLeave(s, k)
    ensures s1 == With(s, k, s.members[k].(left := true)) && OwnersInv(s1)
    ensures var b := Epochs.Depart(s.batcher, k, s.members[k].aborted);
      var e := EpochEnd(s1, b.committed, b.aborted);
      && Sorted(s1.members, b.committed, b.aborted)
      && DoLeave(s, k).cells == e.cells && DoLeave(s, k).shared == e.shared
      && DoLeave(s, k).sizes == e.sizes && DoLeave(s, k).align == e.align
  {
    s1 := With(s, k, s.members[k].(left := true));
    SortedAtLastLeave(s, k);
    OwnersKept(s, s1, k, s1.members[k]);
  }

  lemma ShownSame(s: Stm, s2: Stm, W: map<nat, Word>, states: map<Word, WordState>, segments: map<nat, Segment>)
    requires WordsShown(s, W, states) && SharedShown(s, W, segments)
    requires s2.cells == s.cells && s2.shared == s.shared && s2.sizes == s.sizes && s2.align == s.align
    ensures WordsShown(s2, W, states) && SharedShown(s2, W, segments)
  {
    SegmentsSame(s, s2, W, segments);
  }

  /** After the last departure the objects show the protocol's next state. */
  lemma LastLeaveShown(s: Stm, k: nat, W: map<nat, Word>, states: map<Word, WordState>, segments: map<nat, Segment>,
                       c: seq<nat>, d: seq<nat>, commits: seq<Leaver>, aborts: seq<Leaver>)
    requires BatchInv(s) && OwnersInv(s) && LastLeave(s, k)
    requires Addressed(W) && WordsShown(s, W, states) && SharedShown(s, W, segments)
    requires var b := Epochs.Depart(s.batcher, k, s.members[k].aborted); c == b.committed && d == b.aborted
    requires LeaversShown(s, W, c, commits) && LeaversShown(s, W, d, aborts)
    ensures WordsShown(DoLeave(s, k), W, Batching.WordsAfter(states, commits, aborts))
    ensures SharedShown(DoLeave(s, k), W, Batching.SegmentsAfter(segments, commits))
  {
    var s1 := Departed(s, k);
    LeaversAfter(s, W, k, c, commits);
    LeaversAfter(s, W, k, d, aborts);
    ShownSame(s, s1, W, states, segments);
    EpochEndShown(s1, W, states, segments, c, d, commits, aborts);
    ShownSame(EpochEnd(s1, c, d), DoLeave(s, k), W, Batching.WordsAfter(states, commits, aborts),
              Batching.SegmentsAfter(segments, commits));
  }

  lemma TouchesKnown(s: Stm, W: map<nat, Word>, ids: seq<nat>, ls: seq<Leaver>)
    requires LeaversShown(s, W, ids, ls)
    ensures Batching.Union(Batching.Touches(ls)) <= W.Values
  {
    forall w | w in Batching.Union(Batching.Touches(ls)) ensures w in W.Values {
      Batching.UnionMember(Batching.Touches(ls), w);
      var i :| 0 <= i < |ls| && w in Batching.Touches(ls)[i];
      assert ids[i] < |s.members|;
    }
  }

  /** commits and aborts are the members that have left once member k has. */
  ghost predicate MembersDepart(s: Stm, k: nat, W: map<nat, Word>, commits: seq<Leaver>, aborts: seq<Leaver>)
    requires k < |s.members| && s.batcher.remaining > 0
  {
    var b := Epochs.Depart(s.batcher, k, s.members[k].aborted);
    LeaversShown(s, W, b.committed, commits) && LeaversShown(s, W, b.aborted, aborts)
  }

  /** Words and segments of the protocol's next state, from those of the objects. */
  lemma LeaveShown(s: Stm, k: nat, W: map<nat, Word>, states: map<Word, WordState>, segments: map<nat, Segment>,
                   commits: seq<Leaver>, aborts: seq<Leaver>)
    requires Reachable(s) && Enabled(s, Step.Leave(k)) && s.batcher.remaining > 0
    requires MembersDepart(s, k, W, commits, aborts)
    requires Addressed(W) && WordsShown(s, W, states) && SharedShown(s, W, segments)
    ensures var s2, last := DoLeave(s, k), s.batcher.remaining == 1;
      && s2.align == s.align && s2.endAddress == s.endAddress
      && WordsShown(s2, W, if last then Batching.WordsAfter(states, commits, aborts) else states)
      && SharedShown(s2, W, if last then Batching.SegmentsAfter(segments, commits) else segments)
  {
    if s.batcher.remaining == 1 {
      var b := Epochs.Depart(s.batcher, k, s.members[k].aborted);
      ReachableWhole(s);
      LastLeaveShown(s, k, W, states, segments, b.committed, b.aborted, commits, aborts);
    } else {
      ShownSame(s, DoLeave(s, k), W, states, segments);
    }
  }

  /** What the objects' departure asks for. */
  lemma LeaveAllowed(s: Stm, k: nat, W: map<nat, Word>, segments: map<nat, Segment>, commits: seq<Leaver>,
                     aborts: seq<Leaver>)
    requires Reachable(s) && Enabled(s, Step.Leave(k)) && s.batcher.remaining > 0
    requires MembersDepart(s, k, W, commits, aborts)
    requires Addressed(W) && SharedShown(s, W, segments)
    ensures Batching.Settleable(segments, s.endAddress, s.align, commits)
    ensures Batching.AllTouched(commits, aborts) <= W.Values
  {
    var b := Epochs.Depart(s.batcher, k, s.members[k].aborted);
    ReachableWhole(s);
    TouchesKnown(s, W, b.committed, commits);
    TouchesKnown(s, W, b.aborted, aborts);
    DepartureLists(s, k);
    MembersSettleable(s, W, segments, b.committed, commits);
  }

  ghost predicate Counts(batcher: Batching.Batcher, s: Stm)
    reads batcher
  {
    && batcher.counter == s.batcher.counter && batcher.remaining == s.batcher.remaining
    && |batcher.blocked| == |s.batcher.blocked|
  }

  lemma StatesSettled(W: map<nat, Word>, states: map<Word, WordState>, commits: seq<Leaver>, aborts: seq<Leaver>,
                      early: bool)
    requires states.Keys == W.Values
    requires Batching.SettledSo(W.Values, states, if early then {} else Batching.Union(Batching.Writes(commits)),
                                if early then {} else Batching.AllTouched(commits, aborts))
    ensures StatesOf(W) == if early then states else Batching.WordsAfter(states, commits, aborts)
  {
  }

  /** A departure, told by the states of all words. */
  method LeaveObjects(batcher: Batching.Batcher, tx: Transaction, ghost s: Stm, ghost k: nat, ghost W: map<nat, Word>,
                      ghost b: Epochs.BatcherState<Batching.BThread, Transaction>, ghost commits: seq<Leaver>,
                      ghost aborts: seq<Leaver>)
    requires batcher.remaining > 0 && batcher.stm.Valid() && b == Epochs.Depart(batcher.State(), tx, tx.aborted)
    requires Batching.Views(b.committed, commits, false) && Batching.Views(b.aborted, aborts, true)
    requires Reachable(s) && Enabled(s, Step.Leave(k)) && s.batcher.remaining > 0
    requires MembersDepart(s, k, W, commits, aborts)
    requires Addressed(W) && SharedShown(s, W, batcher.stm.segments)
    requires batcher.stm.alignment == s.align && batcher.stm.endAddress == s.endAddress
    modifies batcher, batcher.blocked, batcher.stm`segments, batcher.stm`addresses, W.Values
    ensures batcher.stm.Valid() && batcher.State() == if b.remaining > 0 then b else Epochs.NextEpoch(b)
    ensures StatesOf(W) ==
      if b.remaining > 0 then old(StatesOf(W)) else Batching.WordsAfter(old(StatesOf(W)), commits, aborts)
    ensures batcher.stm.segments ==
      if b.remaining > 0 then old(batcher.stm.segments) else Batching.SegmentsAfter(old(batcher.stm.segments), commits)
  {
    ghost var states := StatesOf(W);
    LeaveAllowed(s, k, W, batcher.stm.segments, commits, aborts);
    batcher.Leave(tx, b, commits, aborts, W.Values, states);
    StatesSettled(W, states, commits, aborts, b.remaining > 0);
  }

  /** The departure of transaction tx, which is member k: if objects and batcher show a reachable state of the protocol
      before, they show its next state afterwards. */
  method Leave(batcher: Batching.Batcher, tx: Transaction, ghost s: Stm, ghost k: nat, ghost W: map<nat, Word>,
               ghost commits: seq<Leaver>, ghost aborts: seq<Leaver>)
    requires Reachable(s) && Enabled(s, Step.Leave(k)) && s.batcher.remaining > 0
    requires batcher.stm.Valid() && Depicts(batcher.stm, W, s) && Counts(batcher, s)
    requires tx.aborted == s.members[k].aborted
    requires var b := Epochs.Depart(batcher.State(), tx, tx.aborted);
      Batching.Views(b.committed, commits, false) && Batching.Views(b.aborted, aborts, true)
    requires MembersDepart(s, k, W, commits, aborts)
    modifies batcher, batcher.blocked, batcher.stm`segments, batcher.stm`addresses, W.Values
    ensures batcher.stm.Valid() && Depicts(batcher.stm, W, DoLeave(s, k)) && Counts(batcher, DoLeave(s, k))
  {
    LeaveShown(s, k, W, StatesOf(W), batcher.stm.segments, commits, aborts);
    LeaveObjects(batcher, tx, s, k, W, Epochs.Depart(batcher.State(), tx, tx.aborted), commits, aborts);
  }

  // ---- word accesses ----

  ghost predicate Played(W: map<nat, Word>, tx: Tx, trNum: nat, readOnly: bool, aborted: bool,
                         written: map<nat, Word>, read: map<nat, Word>)
  {
    && trNum == tx.trNum && readOnly == tx.readOnly && aborted == tx.aborted
    && WordsOf(W, written, tx.written) && WordsOf(W, read, tx.read)
  }

  /** The object tx is member k: its number, kind, outcome so far and access maps. */
  ghost predicate Plays(tx: Transaction, W: map<nat, Word>, s: Stm, k: nat)
    reads tx
  {
    k < |s.members| && Played(W, s.members[k], tx.trNum, tx.isReadOnly, tx.aborted, tx.written, tx.read)
  }

  /** One word differs. */
  lemma WordChanged(s: Stm, s2: Stm, W: map<nat, Word>, states: map<Word, WordState>, a: nat, w: WordState)
    requires Addressed(W) && WordsShown(s, W, states) && a in s.cells && a in W
    requires s2.cells == s.cells[a := s.cells[a].(word := w)]
    ensures WordsShown(s2, W, states[W[a] := w])
  {
    forall b | b in s2.cells ensures b in W && W[b] in states && s2.cells[b].word == states[W[a] := w][W[b]] {
      assert b != a ==> W[b] != W[a];
    }
  }

  lemma SegmentsReseen(s: Stm, s2: Stm, W: map<nat, Word>, m: map<nat, Segment>)
    requires SegmentsShown(s, W, m) && s2.sizes == s.sizes && s2.align == s.align
    requires s2.cells.Keys == s.cells.Keys && forall a :: a in s.cells ==> s2.cells[a].seg == s.cells[a].seg
    ensures SegmentsShown(s2, W, m)
  {
    forall seg | seg in m ensures SegmentShown(s2, W, seg, m[seg]) {
      assert SegmentShown(s, W, seg, m[seg]);
    }
  }

  lemma AccessShown(s: Stm, s2: Stm, W: map<nat, Word>, states: map<Word, WordState>, segments: map<nat, Segment>,
                    a: nat, w: WordState)
    requires Addressed(W) && WordsShown(s, W, states) && SharedShown(s, W, segments) && a in s.cells && a in W
    requires s2.cells == s.cells[a := s.cells[a].(word := w)]
    requires s2.shared == s.shared && s2.sizes == s.sizes && s2.align == s.align
    ensures WordsShown(s2, W, states[W[a] := w]) && SharedShown(s2, W, segments)
  {
    WordChanged(s, s2, W, states, a, w);
    SegmentsReseen(s, s2, W, segments);
  }

  lemma ReadIs(s: Stm, k: nat, a: nat)
    requires Active(s, k) && a in s.cells
    ensures var s2, tx := DoRead(s, k, a), s.members[k];
      var r := ReadFor(s.cells[a].word, tx.trNum, tx.readOnly);
      && s2.cells == s.cells[a := s.cells[a].(word := r.word)] && |s2.members| == |s.members|
      && s2.members[k].written == tx.written && s2.members[k].read == (if r.recorded then tx.read + {a} else tx.read)
      && s2.members[k].trNum == tx.trNum && s2.members[k].readOnly == tx.readOnly && s2.members[k].aborted == !r.ok
      && (r.ok ==> s2.members[k].ops == tx.ops + [Read(a, s.cells[a].seg, r.val)])
  {
    assert s.cells[a := s.cells[a].(word := s.cells[a].word)] == s.cells;
  }

  lemma WriteIs(s: Stm, k: nat, a: nat, v: Bytes)
    requires Active(s, k) && a in s.cells
    ensures var s2, tx, r := DoWrite(s, k, a, v), s.members[k], WriteBy(s.cells[a].word, s.members[k].trNum, v);
      && s2.cells == s.cells[a := s.cells[a].(word := r.word)] && |s2.members| == |s.members|
      && s2.members[k].read == tx.read && s2.members[k].written == (if r.recorded then tx.written + {a} else tx.written)
      && s2.members[k].trNum == tx.trNum && s2.members[k].readOnly == tx.readOnly && s2.members[k].aborted == !r.ok
      && (r.ok ==> s2.members[k].ops == tx.ops + [Write(a, s.cells[a].seg, v)])
  {
    assert s.cells[a := s.cells[a].(word := s.cells[a].word)] == s.cells;
  }

  /** What a read makes of words, segments, record and log. */
  lemma ReadShown(s: Stm, k: nat, s2: Stm, W: map<nat, Word>, states: map<Word, WordState>, segments: map<nat, Segment>,
                  a: nat, word: Word, written: map<nat, Word>, read: map<nat, Word>)
    requires Addressed(W) && WordsShown(s, W, states) && SharedShown(s, W, segments)
    requires Active(s, k) && a in s.cells && W[a] == word && s2 == DoRead(s, k, a)
    requires WordsOf(W, written, s.members[k].written) && WordsOf(W, read, s.members[k].read)
    ensures var tx := s.members[k];
      var r := ReadFor(states[word], tx.trNum, tx.readOnly);
      && WordsShown(s2, W, states[word := r.word]) && SharedShown(s2, W, segments) && k < |s2.members|
      && Played(W, s2.members[k], tx.trNum, tx.readOnly, !r.ok, written, if r.recorded then read[a := word] else read)
      && (r.ok ==> s2.members[k].ops == tx.ops + [Read(a, s.cells[a].seg, r.val)])
  {
    ReadIs(s, k, a);
    AccessShown(s, s2, W, states, segments, a, ReadFor(states[word], s.members[k].trNum, s.members[k].readOnly).word);
  }

  lemma WriteShown(s: Stm, k: nat, s2: Stm, W: map<nat, Word>, states: map<Word, WordState>,
                   segments: map<nat, Segment>, a: nat, word: Word, v: Bytes,
                   written: map<nat, Word>, read: map<nat, Word>)
    requires Addressed(W) && WordsShown(s, W, states) && SharedShown(s, W, segments)
    requires Active(s, k) && a in s.cells && W[a] == word && s2 == DoWrite(s, k, a, v)
    requires WordsOf(W, written, s.members[k].written) && WordsOf(W, read, s.members[k].read)
    ensures var tx := s.members[k];
      var r := WriteBy(states[word], tx.trNum, v);
      && WordsShown(s2, W, states[word := r.word]) && SharedShown(s2, W, segments) && k < |s2.members|
      && Played(W, s2.members[k], tx.trNum, tx.readOnly, !r.ok,
                if r.recorded then written[a := word] else written, read)
      && (r.ok ==> s2.members[k].ops == tx.ops + [Write(a, s.cells[a].seg, v)])
  {
    WriteIs(s, k, a, v);
    AccessShown(s, s2, W, states, segments, a, WriteBy(states[word], s.members[k].trNum, v).word);
  }

  /** One word's read, told by the states of all words. */
  method ReadOne(word: Word, tx: Transaction, ghost W: map<nat, Word>) returns (ok: bool, target: Bytes)
    requires word in W.Values
    modifies word, tx`written, tx`read, tx`aborted
    ensures var r := ReadFor(old(word.State()), tx.trNum, tx.isReadOnly);
      && StatesOf(W) == old(StatesOf(W))[word := r.word] && ok == r.ok && (ok ==> target == r.val)
      && tx.read == (if r.recorded then old(tx.read)[word.addr := word] else old(tx.read))
      && tx.written == old(tx.written) && tx.aborted == (old(tx.aborted) || !ok)
  {
    ok, target := word.Read(tx);
  }

  method WriteOne(word: Word, tx: Transaction, source: Bytes, ghost W: map<nat, Word>) returns (ok: bool)
    requires word in W.Values
    modifies word, tx`written, tx`read, tx`aborted, tx`hasWritten
    ensures var r := WriteBy(old(word.State()), tx.trNum, source);
      && StatesOf(W) == old(StatesOf(W))[word := r.word] && ok == r.ok
      && tx.written == (if r.recorded then old(tx.written)[word.addr := word] else old(tx.written))
      && tx.read == old(tx.read) && tx.aborted == (old(tx.aborted) || !ok)
  {
    ok := word.Write(tx, source);
  }

  /** A locked read of one word by the transaction that is member k is the protocol's read: the same word, the same
      record, and the value the protocol logs. */
  method ReadWord(stm: DualStm, word: Word, tx: Transaction, ghost s: Stm, ghost k: nat, ghost s2: Stm,
                  ghost W: map<nat, Word>)
    returns (ok: bool, target: Bytes)
    requires Depicts(stm, W, s) && Plays(tx, W, s, k)
    requires word.addr in s.cells && W[word.addr] == word && Enabled(s, Step.ReadWord(k, word.addr))
    requires s2 == DoRead(s, k, word.addr)
    modifies word, tx`written, tx`read, tx`aborted
    ensures Depicts(stm, W, s2) && Plays(tx, W, s2, k) && ok == !s2.members[k].aborted
    ensures ok ==> s2.members[k].ops == s.members[k].ops + [Read(word.addr, s.cells[word.addr].seg, target)]
  {
    ReadShown(s, k, s2, W, StatesOf(W), stm.segments, word.addr, word, tx.written, tx.read);
    ok, target := ReadOne(word, tx, W);
  }

  /** A locked write of one word, in the same way. */
  method WriteWord(stm: DualStm, word: Word, tx: Transaction, source: Bytes, ghost s: Stm, ghost k: nat, ghost s2: Stm,
                   ghost W: map<nat, Word>)
    returns (ok: bool)
    requires Depicts(stm, W, s) && Plays(tx, W, s, k)
    requires word.addr in s.cells && W[word.addr] == word && Enabled(s, Step.WriteWord(k, word.addr, source))
    requires s2 == DoWrite(s, k, word.addr, source)
    modifies word, tx`written, tx`read, tx`aborted, tx`hasWritten
    ensures Depicts(stm, W, s2) && Plays(tx, W, s2, k) && ok == !s2.members[k].aborted
    ensures ok ==> s2.members[k].ops == s.members[k].ops + [Write(word.addr, s.cells[word.addr].seg, source)]
  {
    WriteShown(s, k, s2, W, StatesOf(W), stm.segments, word.addr, word, source, tx.written, tx.read);
    ok := WriteOne(word, tx, source, W);
  }
}
