/** The two-copy machine refines a machine with one memory per epoch and private write buffers. */
module Snapshots {
  import opened Words
  import opened Serial
  import opened Epochs
  import opened Protocol
  import opened Invariant
  import opened Arrivals
  import opened Settle
  import opened Runs
  import opened Serializability
  import opened Wholeness
  import opened History
  import opened RealTime

  // ---- the abstract machine ----

  datatype SnapTx = SnapTx(
    readOnly: bool,
    aborted: bool,
    left: bool,
    buffer: map<nat, Bytes>,
    owned: set<nat>,
    freed: set<nat>)

  datatype Snap = Snap(
    zero: Bytes,
    mem: map<nat, Bytes>,     // the memory the epoch started from: every word of a live segment
    live: set<nat>,           // starts of the segments everyone can reach
    sizes: map<nat, nat>,     // number of words of every segment handed out so far
    members: seq<SnapTx>,
    waiting: seq<bool>)       // read-only or not, in order of arrival

  /** What the caller of a word access is told. */
  datatype Answer = Value(v: Bytes) | Refused | Silent

  function Blank(readOnly: bool): SnapTx {
    SnapTx(readOnly, false, false, map[], {}, {})
  }

  /** a is a word of the segment at seg. */
  ghost predicate WordOfSegment(x: Snap, seg: nat, a: nat) {
    seg in x.sizes && |x.zero| > 0 && Covers(seg, x.sizes[seg], |x.zero|, a)
  }

  ghost predicate LiveWord(x: Snap, a: nat) {
    exists seg :: seg in x.live && WordOfSegment(x, seg, a)
  }

  ghost predicate MayRun(x: Snap, k: nat) {
    k < |x.members| && !x.members[k].left && !x.members[k].aborted
  }

  /** A running member may access the words of live segments and of its own. */
  ghost predicate MayAccess(x: Snap, k: nat, a: nat) {
    && MayRun(x, k)
    && exists seg :: (seg in x.live || seg in x.members[k].owned) && WordOfSegment(x, seg, a)
  }

  /** The region as created: one live segment of zero words. */
  ghost predicate SnapInit(x: Snap, align: nat, count: nat) {
    && |x.zero| == align && (forall b :: 0 <= b < align ==> x.zero[b] == 0)
    && x.live == {1} && x.sizes == map[1 := count] && x.members == [] && x.waiting == []
    && (forall a :: a in x.mem <==> LiveWord(x, a))
    && (forall a :: a in x.mem ==> x.mem[a] == x.zero)
  }

  ghost predicate Changes(x: Snap, x2: Snap, k: nat, y: SnapTx) {
    k < |x.members| && x2 == x.(members := x.members[k := y])
  }

  ghost predicate SnapRead(x: Snap, x2: Snap, k: nat, a: nat, ans: Answer)
    requires k < |x.members|
  {
    var tx := x.members[k];
    match ans
    case Value(v) => x2 == x && v == (if a in tx.buffer then tx.buffer[a] else Get(x.mem, x.zero, a))
    case Refused => !tx.readOnly && Changes(x, x2, k, tx.(aborted := true))
    case Silent => false
  }

  /** A write goes to the writer's own buffer; nobody else has the word in theirs. */
  ghost predicate SnapWrite(x: Snap, x2: Snap, k: nat, a: nat, v: Bytes, ans: Answer)
    requires k < |x.members|
  {
    var tx := x.members[k];
    match ans
    case Value(_) =>
      && Changes(x, x2, k, tx.(buffer := tx.buffer[a := v]))
      && forall j :: 0 <= j < |x.members| && j != k ==> a !in x.members[j].buffer
    case Refused => Changes(x, x2, k, tx.(aborted := true))
    case Silent => false
  }

  ghost predicate BufferedBy(ms: seq<SnapTx>, j: int, a: nat) {
    0 <= j < |ms| && !ms[j].aborted && a in ms[j].buffer
  }

  ghost predicate Buffered(ms: seq<SnapTx>, a: nat) {
    exists j :: BufferedBy(ms, j, a)
  }

  /** What a word holds after the epoch: what a committed member has in its buffer, else what it held before. */
  ghost predicate EndValue(x: Snap, ms: seq<SnapTx>, a: nat, v: Bytes) {
    && (forall j :: BufferedBy(ms, j, a) ==> v == ms[j].buffer[a])
    && (!Buffered(ms, a) ==> v == Get(x.mem, x.zero, a))
  }

  ghost predicate Commits(ms: seq<SnapTx>, seg: nat) {
    exists j :: 0 <= j < |ms| && !ms[j].aborted && seg in ms[j].owned
  }

  ghost predicate CommitsFree(ms: seq<SnapTx>, seg: nat) {
    exists j :: 0 <= j < |ms| && !ms[j].aborted && seg in ms[j].freed
  }

  /** The next epoch, once everyone in ms has left: committed allocations, frees and buffers take effect, and
      there is a word for every place in a live segment. */
  ghost predicate EpochEnds(x: Snap, x2: Snap, ms: seq<SnapTx>) {
    && x2.zero == x.zero && x2.sizes == x.sizes
    && x2.waiting == []
    && |x2.members| == |x.waiting|
    && (forall j :: 0 <= j < |x.waiting| ==> x2.members[j] == Blank(x.waiting[j]))
    && (forall seg :: seg in x2.live <==> (seg in x.live || Commits(ms, seg)) && !CommitsFree(ms, seg))
    && (forall a :: a in x2.mem <==> LiveWord(x2, a))
    && (forall a :: a in x2.mem ==> EndValue(x, ms, a, x2.mem[a]))
  }

  ghost predicate SnapLeave(x: Snap, x2: Snap, k: nat)
    requires k < |x.members|
  {
    var ms := x.members[k := x.members[k].(left := true)];
    if exists j :: 0 <= j < |ms| && !ms[j].left then x2 == x.(members := ms) else EpochEnds(x, x2, ms)
  }

  /** An address above every segment ever handed out. */
  ghost predicate Unclaimed(x: Snap, seg: nat) {
    && 0 < seg && seg !in x.live && seg !in x.sizes
    && (forall j :: 0 <= j < |x.members| ==> seg !in x.members[j].owned)
    && (forall t :: t in x.sizes ==> SegmentEnd(t, x.sizes[t], |x.zero|) <= seg)
  }

  /** x2 is x after member k got a new segment of count words at seg. */
  ghost predicate Allocates(x: Snap, x2: Snap, k: nat, seg: nat, count: nat)
    requires k < |x.members|
  {
    var tx := x.members[k];
    x2 == x.(sizes := x.sizes[seg := count], members := x.members[k := tx.(owned := tx.owned + {seg})])
  }

  ghost predicate SnapNext(x: Snap, st: Step, ans: Answer, x2: Snap) {
    match st
    case Begin(readOnly) =>
      if x.members == [] then x2 == x.(members := [Blank(readOnly)])
      else x2 == x.(waiting := x.waiting + [readOnly])
    case ReadWord(k, a) => MayAccess(x, k, a) && SnapRead(x, x2, k, a, ans)
    case WriteWord(k, a, v) =>
      MayAccess(x, k, a) && !x.members[k].readOnly && |v| == |x.zero| && SnapWrite(x, x2, k, a, v, ans)
    case Allocate(k, count) =>
      && MayRun(x, k) && !x.members[k].readOnly && count > 0
      && exists seg :: Unclaimed(x, seg) && Allocates(x, x2, k, seg, count)
    case Release(k, start) =>
      MayRun(x, k) && !x.members[k].readOnly && Changes(x, x2, k, x.members[k].(freed := x.members[k].freed + {start}))
    case Leave(k) => k < |x.members| && !x.members[k].left && SnapLeave(x, x2, k)
  }

  // ---- the abstraction ----

  ghost function AbsTx(s: Stm, tx: Tx): SnapTx {
    SnapTx(tx.readOnly, tx.aborted, tx.left,
           map a | a in tx.written && a in s.cells :: s.cells[a].word.Writable(),
           tx.owned, set seg | seg in tx.freed)
  }

  /** Readable copies are the epoch's memory, writable copies the writers' buffers. */
  ghost function Abs(s: Stm): Snap {
    Snap(Zero(s.align), Mem(s), s.shared, s.sizes,
         seq(|s.members|, i requires 0 <= i < |s.members| => AbsTx(s, s.members[i])),
         seq(|s.batcher.blocked|, i requires 0 <= i < |s.batcher.blocked| => s.batcher.blocked[i].readOnly))
  }

  ghost function Told(s: Stm, st: Step): Answer
    requires Enabled(s, st)
  {
    match st
    case ReadWord(k, a) =>
      var tx, w := s.members[k], s.cells[a].word;
      if tx.readOnly then Value(w.Readable())
      else if ReadBy(w, tx.trNum).ok then Value(ReadBy(w, tx.trNum).val) else Refused
    case WriteWord(k, a, v) => if WriteBy(s.cells[a].word, s.members[k].trNum, v).ok then Value(v) else Refused
    case _ => Silent
  }

  /** Steps of member k that leave words, shared index and batcher's queue as they are for the others. */
  lemma AbsMember(s: Stm, s2: Stm, k: nat, y: Tx)
    requires k < |s.members| && s2.members == s.members[k := y]
    requires Mem(s2) == Mem(s) && s2.align == s.align && s2.shared == s.shared && s2.sizes == s.sizes
    requires s2.batcher.blocked == s.batcher.blocked
    requires forall i :: 0 <= i < |s.members| && i != k ==> AbsTx(s2, s.members[i]) == AbsTx(s, s.members[i])
    ensures Abs(s2) == Abs(s).(members := Abs(s).members[k := AbsTx(s2, y)])
  {
  }

  lemma SameBuffers(s: Stm, s2: Stm, tx: Tx)
    requires forall a :: a in tx.written ==>
      (a in s2.cells <==> a in s.cells) && (a in s.cells ==> s2.cells[a].word.Writable() == s.cells[a].word.Writable())
    ensures AbsTx(s2, tx) == AbsTx(s, tx)
  {
  }

  lemma QuietMem(s: Stm, s2: Stm)
    requires Quiet(s, s2)
    ensures Mem(s2) == Mem(s)
  {
  }

  lemma ReadKeepsBuffers(s: Stm, k: nat, a: nat)
    requires Active(s, k) && a in s.cells
    ensures var s2 := DoRead(s, k, a); Abs(s2) == Abs(s).(members := Abs(s).members[k := AbsTx(s, s2.members[k])])
  {
    var s2 := DoRead(s, k, a);
    QuietRead(s, k, a);
    QuietMem(s, s2);
    forall tx: Tx ensures AbsTx(s2, tx) == AbsTx(s, tx) {
      SameBuffers(s, s2, tx);
    }
    AbsMember(s, s2, k, s2.members[k]);
  }

  lemma ReadTold(s: Stm, k: nat, a: nat)
    requires Enabled(s, ReadWord(k, a)) && s.members[k].trNum == k + 1 && FreshInv(s)
    requires WordInv(s.cells[a].word, s.members, a) && TxInv(s, s.members[k])
    ensures var tx, ans := AbsTx(s, s.members[k]), Told(s, ReadWord(k, a));
      if ans.Value? then ans.v == (if a in tx.buffer then tx.buffer[a] else Get(Mem(s), Zero(s.align), a))
      else ans == Refused && !tx.readOnly
  {
  }

  /** What member k knows of its own number, of a word and of itself. */
  lemma AtAccess(s: Stm, k: nat, a: nat)
    requires Inv(s) && k < |s.members| && a in s.cells
    ensures s.members[k].trNum == k + 1 && FreshInv(s) && WordInv(s.cells[a].word, s.members, a)
    ensures TxInv(s, s.members[k])
  {
  }

  lemma ReadAnswered(s: Stm, k: nat, a: nat)
    requires Enabled(s, ReadWord(k, a)) && s.members[k].trNum == k + 1 && FreshInv(s)
    requires WordInv(s.cells[a].word, s.members, a) && TxInv(s, s.members[k])
    ensures SnapRead(Abs(s), Abs(DoRead(s, k, a)), k, a, Told(s, ReadWord(k, a)))
  {
    ReadKeepsBuffers(s, k, a);
    ReadTold(s, k, a);
  }

  lemma ReadRefines(s: Stm, k: nat, a: nat)
    requires Inv(s) && Enabled(s, ReadWord(k, a))
    ensures SnapRead(Abs(s), Abs(DoRead(s, k, a)), k, a, Told(s, ReadWord(k, a)))
  {
    AtAccess(s, k, a);
    ReadAnswered(s, k, a);
  }

  lemma WriterAlone(s: Stm, k: nat, a: nat, v: Bytes)
    requires Inv(s) && Enabled(s, WriteWord(k, a, v))
    ensures WriteBy(s.cells[a].word, s.members[k].trNum, v).ok ==>
      forall i :: 0 <= i < |s.members| && i != k ==> a !in s.members[i].written
  {
    assert WordInv(s.cells[a].word, s.members, a);
  }

  lemma WriteKeepsBuffers(s: Stm, k: nat, a: nat, v: Bytes)
    requires Inv(s) && Enabled(s, WriteWord(k, a, v))
    ensures var s2 := DoWrite(s, k, a, v); Abs(s2) == Abs(s).(members := Abs(s).members[k := AbsTx(s2, s2.members[k])])
  {
    var s2 := DoWrite(s, k, a, v);
    QuietWrite(s, k, a, v);
    QuietMem(s, s2);
    WriterAlone(s, k, a, v);
    forall i | 0 <= i < |s.members| && i != k ensures AbsTx(s2, s.members[i]) == AbsTx(s, s.members[i]) {
      SameBuffers(s, s2, s.members[i]);
    }
    AbsMember(s, s2, k, s2.members[k]);
  }

  lemma WriteBuffered(s: Stm, k: nat, a: nat, v: Bytes)
    requires Enabled(s, WriteWord(k, a, v)) && s.members[k].trNum == k + 1 && WordInv(s.cells[a].word, s.members, a)
    ensures var s2, tx := DoWrite(s, k, a, v), AbsTx(s, s.members[k]);
      AbsTx(s2, s2.members[k]) ==
        if Told(s, WriteWord(k, a, v)).Value? then tx.(buffer := tx.buffer[a := v]) else tx.(aborted := true)
  {
  }

  lemma WriteRefines(s: Stm, k: nat, a: nat, v: Bytes)
    requires Inv(s) && Enabled(s, WriteWord(k, a, v))
    ensures SnapWrite(Abs(s), Abs(DoWrite(s, k, a, v)), k, a, v, Told(s, WriteWord(k, a, v)))
  {
    WriteKeepsBuffers(s, k, a, v);
    WriterAlone(s, k, a, v);
    AtAccess(s, k, a);
    WriteBuffered(s, k, a, v);
  }

  lemma AllocateKeepsBuffers(s: Stm, k: nat, count: nat)
    requires Inv(s) && Enabled(s, Allocate(k, count))
    ensures var s2 := DoAllocate(s, k, count);
      && (forall i :: 0 <= i < |s.members| ==> AbsTx(s2, s.members[i]) == AbsTx(s, s.members[i]))
      && AbsTx(s2, s2.members[k]) == AbsTx(s, s.members[k]).(owned := s.members[k].owned + {s.endAddress})
  {
    var s2 := DoAllocate(s, k, count);
    NewCellsFacts(s.endAddress, count, s.align);
    forall i | 0 <= i < |s.members| ensures AbsTx(s2, s.members[i]) == AbsTx(s, s.members[i]) {
      assert TxInv(s, s.members[i]);
      SameBuffers(s, s2, s.members[i]);
    }
  }

  lemma AllocateShape(s: Stm, k: nat, count: nat)
    requires Inv(s) && Enabled(s, Allocate(k, count))
    ensures Allocates(Abs(s), Abs(DoAllocate(s, k, count)), k, s.endAddress, count)
  {
    var s2 := DoAllocate(s, k, count);
    AllocateKeepsMem(s, k, count);
    AllocateKeepsBuffers(s, k, count);
    var x, x2 := Abs(s), Abs(s2);
    var y := x.members[k].(owned := x.members[k].owned + {s.endAddress});
    assert x2.members == x.members[k := y];
  }

  lemma EndIsUnclaimed(s: Stm)
    requires CellsInv(s) && OwnersInv(s) && Whole(s)
    ensures Unclaimed(Abs(s), s.endAddress)
  {
    assert s.endAddress !in s.cells;
  }

  lemma AllocateRefines(s: Stm, k: nat, count: nat)
    requires Inv(s) && Whole(s) && Enabled(s, Allocate(k, count))
    ensures SnapNext(Abs(s), Allocate(k, count), Silent, Abs(DoAllocate(s, k, count)))
  {
    var x, x2 := Abs(s), Abs(DoAllocate(s, k, count));
    EndIsUnclaimed(s);
    AllocateShape(s, k, count);
    assert Unclaimed(x, s.endAddress) && Allocates(x, x2, k, s.endAddress, count);
  }

  /** What the client contract allows, the abstract machine allows. */
  lemma AccessAllowed(s: Stm, k: nat, a: nat)
    requires Whole(s) && Active(s, k) && Accessible(s, k, a)
    ensures MayAccess(Abs(s), k, a)
  {
    assert WordOfSegment(Abs(s), s.cells[a].seg, a);
  }

  lemma ReleaseRefines(s: Stm, k: nat, start: nat)
    requires Inv(s) && Enabled(s, Release(k, start))
    ensures SnapNext(Abs(s), Release(k, start), Silent, Abs(DoRelease(s, k, start)))
  {
    var s2 := DoRelease(s, k, start);
    forall tx: Tx ensures AbsTx(s2, tx) == AbsTx(s, tx) {
      SameBuffers(s, s2, tx);
    }
    AbsMember(s, s2, k, s2.members[k]);
    var y := AbsTx(s, s.members[k]);
    assert AbsTx(s2, s2.members[k]) == y.(freed := y.freed + {start});
  }

  lemma RunningMember(s: Stm)
    requires BatchInv(s) && s.batcher.remaining > 0
    ensures s.members != []
  {
    assert s.members == [] ==> Pending(s.members) == {};
  }

  lemma BeginAlone(s: Stm, readOnly: bool)
    requires s.batcher.remaining == 0
    ensures Abs(DoBegin(s, readOnly)) == Abs(s).(members := [Blank(readOnly)])
  {
    var s2 := DoBegin(s, readOnly);
    assert Mem(s2) == Mem(s);
    assert AbsTx(s2, s2.members[0]) == Blank(readOnly);
    assert Abs(s2).members == [Blank(readOnly)];
  }

  lemma BeginWaits(s: Stm, readOnly: bool)
    requires s.batcher.remaining > 0
    ensures Abs(DoBegin(s, readOnly)) == Abs(s).(waiting := Abs(s).waiting + [readOnly])
  {
    var s2 := DoBegin(s, readOnly);
    assert Mem(s2) == Mem(s);
    assert forall tx: Tx :: AbsTx(s2, tx) == AbsTx(s, tx);
    assert Abs(s2).members == Abs(s).members;
    assert Abs(s2).waiting == Abs(s).waiting + [readOnly];
  }

  lemma BeginRefines(s: Stm, readOnly: bool)
    requires Inv(s)
    ensures SnapNext(Abs(s), Begin(readOnly), Silent, Abs(DoBegin(s, readOnly)))
  {
    if s.batcher.remaining == 0 {
      BeginAlone(s, readOnly);
    } else {
      RunningMember(s);
      BeginWaits(s, readOnly);
    }
  }

  lemma SomeoneStays(s: Stm, k: nat)
    requires BatchInv(s) && k < |s.members| && !s.members[k].left && s.batcher.remaining > 1
    ensures exists j :: 0 <= j < |s.members| && j != k && !s.members[j].left
  {
    RunningIsCounted(s, k);
    var p := Pending(s.members[k := s.members[k].(left := true)]);
    assert p != {};
    var j :| j in p;
  }

  lemma EarlyLeaveRefines(s: Stm, k: nat)
    requires Inv(s) && Enabled(s, Leave(k)) && s.batcher.remaining > 1
    ensures SnapNext(Abs(s), Leave(k), Silent, Abs(DoLeave(s, k)))
  {
    var s2 := DoLeave(s, k);
    assert Mem(s2) == Mem(s);
    forall tx: Tx ensures AbsTx(s2, tx) == AbsTx(s, tx) {
      SameBuffers(s, s2, tx);
    }
    AbsMember(s, s2, k, s2.members[k]);
    SomeoneStays(s, k);
    var j :| 0 <= j < |s.members| && j != k && !s.members[j].left;
    var x := Abs(s);
    var ms := x.members[k := x.members[k].(left := true)];
    assert AbsTx(s2, s2.members[k]) == x.members[k].(left := true);
    assert !ms[j].left;
  }

  // ---- the end of the epoch ----

  ghost function AbsDone(s: Stm, k: nat): seq<SnapTx>
    requires k < |s.members|
  {
    Abs(s).members[k := Abs(s).members[k].(left := true)]
  }

  lemma AbsDoneIs(s: Stm, k: nat)
    requires k < |s.members|
    ensures |AbsDone(s, k)| == |s.members|
    ensures forall j :: 0 <= j < |s.members| ==> AbsDone(s, k)[j] == AbsTx(s, Done(s, k)[j])
  {
  }

  lemma CommitsMatch(s: Stm, ms: seq<Tx>, xs: seq<SnapTx>, seg: nat)
    requires |xs| == |ms| && forall j :: 0 <= j < |ms| ==> xs[j] == AbsTx(s, ms[j])
    ensures Commits(xs, seg) <==> BornIn(ms, seg)
    ensures CommitsFree(xs, seg) <==> FreedIn(ms, seg)
  {
    if BornIn(ms, seg) {
      var j :| 0 <= j < |ms| && !ms[j].aborted && seg in ms[j].owned;
      assert seg in xs[j].owned;
    }
    if FreedIn(ms, seg) {
      var j :| 0 <= j < |ms| && !ms[j].aborted && seg in ms[j].freed;
      assert seg in xs[j].freed;
    }
  }

  lemma LastLeaveSegments(s: Stm, k: nat, seg: nat)
    requires Inv(s) && LastLeave(s, k)
    ensures seg in DoLeave(s, k).shared <==>
      (seg in s.shared || Commits(AbsDone(s, k), seg)) && !CommitsFree(AbsDone(s, k), seg)
  {
    EpochEndSegments(s, k, seg);
    AbsDoneIs(s, k);
    CommitsMatch(s, Done(s, k), AbsDone(s, k), seg);
  }

  lemma BufferedMatch(s: Stm, ms: seq<Tx>, xs: seq<SnapTx>, c: seq<nat>, a: nat)
    requires |xs| == |ms| && forall j :: 0 <= j < |ms| ==> xs[j] == AbsTx(s, ms[j])
    requires a in s.cells && Lists(ms, c, false) && forall j :: 0 <= j < |ms| ==> ms[j].left
    ensures forall j :: BufferedBy(xs, j, a) ==> Wrote(ms, c, a) && xs[j].buffer[a] == s.cells[a].word.Writable()
    ensures Wrote(ms, c, a) ==> Buffered(xs, a)
  {
    if Wrote(ms, c, a) {
      var j :| j in c && j < |ms| && a in ms[j].written;
      assert BufferedBy(xs, j, a);
    }
  }

  lemma LastLeaveValues(s: Stm, k: nat, a: nat)
    requires BatchInv(s) && FreshInv(s) && LastLeave(s, k) && a in Mem(DoLeave(s, k))
    ensures forall j :: BufferedBy(AbsDone(s, k), j, a) ==> Mem(DoLeave(s, k))[a] == AbsDone(s, k)[j].buffer[a]
    ensures !Buffered(AbsDone(s, k), a) ==> Mem(DoLeave(s, k))[a] == Get(Mem(s), Zero(s.align), a)
  {
    var c := Depart(s.batcher, k, s.members[k].aborted).committed;
    SortedAtLastLeave(s, k);
    WordAtEpochEnd(s, k, a);
    AbsDoneIs(s, k);
    BufferedMatch(s, Done(s, k), AbsDone(s, k), c, a);
  }

  lemma LastLeaveLive(s: Stm, k: nat)
    requires Inv(s) && LastLeave(s, k)
    ensures var x, x2, ms := Abs(s), Abs(DoLeave(s, k)), AbsDone(s, k);
      forall seg :: seg in x2.live <==> (seg in x.live || Commits(ms, seg)) && !CommitsFree(ms, seg)
  {
    forall seg ensures seg in DoLeave(s, k).shared <==>
      (seg in s.shared || Commits(AbsDone(s, k), seg)) && !CommitsFree(AbsDone(s, k), seg)
    {
      LastLeaveSegments(s, k, seg);
    }
  }

  /** The memory of a state holds exactly the words of its shared segments. */
  lemma MemIsLive(s: Stm)
    requires Whole(s)
    ensures forall a :: a in Abs(s).mem <==> LiveWord(Abs(s), a)
  {
    var x := Abs(s);
    forall a | a in x.mem ensures LiveWord(x, a) {
      assert WordOfSegment(x, s.cells[a].seg, a);
    }
    forall a | LiveWord(x, a) ensures a in x.mem {
      var seg :| seg in x.live && WordOfSegment(x, seg, a);
      assert Held(s, seg);
    }
  }

  lemma LastLeaveMem(s: Stm, k: nat)
    requires Inv(s) && Whole(s) && LastLeave(s, k)
    ensures var x, x2, ms := Abs(s), Abs(DoLeave(s, k)), AbsDone(s, k);
      (forall a :: a in x2.mem <==> LiveWord(x2, a)) && forall a :: a in x2.mem ==> EndValue(x, ms, a, x2.mem[a])
  {
    LastLeaveWhole(s, k);
    MemIsLive(DoLeave(s, k));
    forall a | a in Mem(DoLeave(s, k)) ensures EndValue(Abs(s), AbsDone(s, k), a, Mem(DoLeave(s, k))[a]) {
      LastLeaveValues(s, k, a);
    }
  }

  lemma LastLeaveEnds(s: Stm, k: nat)
    requires Inv(s) && Whole(s) && LastLeave(s, k)
    ensures EpochEnds(Abs(s), Abs(DoLeave(s, k)), AbsDone(s, k))
  {
    var x, x2 := Abs(s), Abs(DoLeave(s, k));
    forall j | 0 <= j < |x.waiting| ensures x2.members[j] == Blank(x.waiting[j]) {
    }
    LastLeaveLive(s, k);
    LastLeaveMem(s, k);
  }

  lemma LastLeaveRefines(s: Stm, k: nat)
    requires Inv(s) && Whole(s) && LastLeave(s, k)
    ensures SnapNext(Abs(s), Leave(k), Silent, Abs(DoLeave(s, k)))
  {
    var ms := AbsDone(s, k);
    AllLeft(s, k);
    assert forall j :: 0 <= j < |ms| ==> ms[j].left == Done(s, k)[j].left;
    LastLeaveEnds(s, k);
  }

  // ---- runs ----

  lemma AccessRefines(s: Stm, st: Step, s2: Stm)
    requires Inv(s) && Whole(s) && Next(s, st, s2) && (st.ReadWord? || st.WriteWord?)
    ensures SnapNext(Abs(s), st, Told(s, st), Abs(s2))
  {
    AccessAllowed(s, st.k, st.addr);
    if st.ReadWord? { ReadRefines(s, st.k, st.addr); } else { WriteRefines(s, st.k, st.addr, st.val); }
  }

  lemma LeaveRefines(s: Stm, k: nat)
    requires Inv(s) && Whole(s) && Enabled(s, Leave(k)) && s.batcher.remaining > 0
    ensures SnapNext(Abs(s), Leave(k), Silent, Abs(DoLeave(s, k)))
  {
    if s.batcher.remaining == 1 { LastLeaveRefines(s, k); } else { EarlyLeaveRefines(s, k); }
  }

  lemma StepRefines(s: Stm, st: Step, s2: Stm)
    requires Inv(s) && Whole(s) && Next(s, st, s2)
    ensures SnapNext(Abs(s), st, Told(s, st), Abs(s2))
  {
    match st
    case Begin(readOnly) => BeginRefines(s, readOnly);
    case ReadWord(k, a) => AccessRefines(s, st, s2);
    case WriteWord(k, a, v) => AccessRefines(s, st, s2);
    case Allocate(k, count) => AllocateRefines(s, k, count);
    case Release(k, start) => ReleaseRefines(s, k, start);
    case Leave(k) => LeaveRefines(s, k);
  }

  lemma CreateIsInit(align: nat, count: nat)
    requires align > 0 && count > 0
    ensures SnapInit(Abs(Create(align, count)), align, count)
  {
    CreateWhole(align, count);
    MemIsLive(Create(align, count));
    NewCellsFacts(1, count, align);
  }

  ghost predicate SnapStep(xs: seq<Snap>, steps: seq<Step>, answers: seq<Answer>, i: nat)
    requires i < |steps| == |answers| && |xs| == |steps| + 1
  {
    SnapNext(xs[i], steps[i], answers[i], xs[i + 1])
  }

  /** A run of the snapshot machine, with the answers its callers are given. */
  ghost predicate IsSnapRun(xs: seq<Snap>, steps: seq<Step>, answers: seq<Answer>) {
    && |xs| == |steps| + 1 && |answers| == |steps|
    && (exists align: nat, count: nat :: align > 0 && count > 0 && SnapInit(xs[0], align, count))
    && (forall i {:trigger SnapStep(xs, steps, answers, i)} :: 0 <= i < |steps| ==> SnapStep(xs, steps, answers, i))
  }

  ghost function AnswerAt(r: Run, i: nat): Answer
    requires IsRun(r) && i < |r.steps|
  {
    assert Next(r.states[i], r.steps[i], r.states[i + 1]);
    Told(r.states[i], r.steps[i])
  }

  ghost function Answers(r: Run): (answers: seq<Answer>)
    requires IsRun(r)
    ensures |answers| == |r.steps|
  {
    seq(|r.steps|, i requires 0 <= i < |r.steps| => AnswerAt(r, i))
  }

  ghost function AbsRun(r: Run): (xs: seq<Snap>)
    ensures |xs| == |r.states|
  {
    seq(|r.states|, i requires 0 <= i < |r.states| => Abs(r.states[i]))
  }

  lemma StepOfRunRefines(r: Run, i: nat, s: Stm, st: Step, s2: Stm)
    requires IsRun(r) && 0 < i < |r.states| && s == r.states[i - 1] && st == r.steps[i - 1] && s2 == r.states[i]
    ensures Next(s, st, s2) && SnapNext(Abs(s), st, Told(s, st), Abs(s2))
  {
    AtStep(r, i, s, st, s2);
    StepRefines(s, st, s2);
  }

  lemma NextRefines(r: Run, i: nat)
    requires IsRun(r) && i < |r.steps|
    ensures SnapStep(AbsRun(r), r.steps, Answers(r), i)
  {
    StepOfRunRefines(r, i + 1, r.states[i], r.steps[i], r.states[i + 1]);
  }

  lemma FirstRefines(r: Run)
    requires IsRun(r)
    ensures exists align: nat, count: nat :: align > 0 && count > 0 && SnapInit(AbsRun(r)[0], align, count)
  {
    var align: nat, count: nat :| align > 0 && count > 0 && r.states[0] == Create(align, count);
    CreateIsInit(align, count);
    assert AbsRun(r)[0] == Abs(Create(align, count));
  }

  /** Every run of the two-copy machine is, answer by answer, a run of the snapshot machine from its initial state. */
  lemma RunRefines(r: Run)
    requires IsRun(r)
    ensures IsSnapRun(AbsRun(r), r.steps, Answers(r))
  {
    FirstRefines(r);
    forall i: nat | i < |r.steps| ensures SnapStep(AbsRun(r), r.steps, Answers(r), i) {
      NextRefines(r, i);
    }
  }
}
