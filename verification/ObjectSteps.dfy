/** Entering, allocating and freeing on the objects of the memory, seen as steps of the protocol. */
module ObjectSteps {
  import opened Arithmetic
  import opened Words
  import opened Serial
  import opened Protocol
  import opened Invariant
  import opened Arrivals
  import opened Wholeness
  import opened Objects
  import Batching
  import Index
  import opened Abstraction

  // ---- private segments ----

  /** The private segments and the frees of the object tx are those of member k. */
  ghost predicate Keeps(tx: Transaction, W: map<nat, Word>, s: Stm, k: nat)
    reads tx
  {
    && k < |s.members| && tx.IndexValid() && tx.owned.Keys == s.members[k].owned && SegmentsShown(s, W, tx.owned)
    && tx.freed == s.members[k].freed
  }

  lemma PrivateEnds(s: Stm, W: map<nat, Word>, m: map<nat, Segment>)
    requires Whole(s) && SegmentsShown(s, W, m)
    ensures forall start :: start in m ==> m[start].end <= s.endAddress
  {
    forall start | start in m ensures m[start].end <= s.endAddress {
      assert SegmentShown(s, W, start, m[start]);
      assert SegmentEnd(start, s.sizes[start], s.align) <= s.endAddress;
    }
  }

  // ---- the words of a new segment ----

  ghost function WordNumber(sg: Segment, a: nat): nat
    requires sg.alignment > 0 && sg.startAddress <= a
  {
    (a - sg.startAddress) / sg.alignment
  }

  lemma NumberInRange(sg: Segment, a: nat)
    requires sg.alignment > 0 && sg.Valid() && Covers(sg.startAddress, sg.numWords, sg.alignment, a)
    ensures WordNumber(sg, a) < sg.numWords && sg.words[WordNumber(sg, a)].addr == a
  {
    CoversIff(sg.startAddress, sg.numWords, sg.alignment, a);
    var j: nat :| j < sg.numWords && a == WordAt(sg.startAddress, j, sg.alignment);
    DivideExact(j, sg.alignment);
  }

  lemma WordCovered(sg: Segment, w: Word)
    requires sg.alignment > 0 && sg.Valid() && w in sg.words
    ensures Covers(sg.startAddress, sg.numWords, sg.alignment, w.addr) && sg.words[WordNumber(sg, w.addr)] == w
  {
    var j: nat :| j < |sg.words| && sg.words[j] == w;
    assert w.addr == WordAt(sg.startAddress, j, sg.alignment);
    CoversIff(sg.startAddress, sg.numWords, sg.alignment, w.addr);
    DivideExact(j, sg.alignment);
  }

  /** The words of a segment by address. */
  ghost function ByAddress(sg: Segment): (m: map<nat, Word>)
    requires sg.alignment > 0 && sg.Valid()
    ensures forall a: nat :: a in m <==> Covers(sg.startAddress, sg.numWords, sg.alignment, a)
    ensures forall a :: a in m ==> m[a].addr == a && m[a] in sg.words
    ensures forall w :: w in sg.words ==> w.addr in m && m[w.addr] == w
  {
    assert forall a: nat :: Covers(sg.startAddress, sg.numWords, sg.alignment, a) ==>
      WordNumber(sg, a) < sg.numWords && sg.words[WordNumber(sg, a)].addr == a by {
      forall a: nat | Covers(sg.startAddress, sg.numWords, sg.alignment, a)
        ensures WordNumber(sg, a) < sg.numWords && sg.words[WordNumber(sg, a)].addr == a
      {
        NumberInRange(sg, a);
      }
    }
    assert forall w :: w in sg.words ==>
      Covers(sg.startAddress, sg.numWords, sg.alignment, w.addr) && sg.words[WordNumber(sg, w.addr)] == w by {
      forall w | w in sg.words
        ensures Covers(sg.startAddress, sg.numWords, sg.alignment, w.addr) && sg.words[WordNumber(sg, w.addr)] == w
      {
        WordCovered(sg, w);
      }
    }
    map a: nat | a in NewCells(sg.startAddress, sg.numWords, sg.alignment) :: sg.words[WordNumber(sg, a)]
  }

  // ---- what an allocation makes of what is shown ----

  /** The old words and segments, when the words of a new segment at the end join them. */
  lemma OldSegmentsShown(s: Stm, s2: Stm, W: map<nat, Word>, sg: Segment, m: map<nat, Segment>)
    requires CellsInv(s) && Whole(s) && SegmentsShown(s, W, m)
    requires sg.Fits(s.align) && sg.startAddress == s.endAddress
    requires s2.align == s.align && (forall a :: a in s.cells ==> a in s2.cells && s2.cells[a].seg == s.cells[a].seg)
    requires forall a :: a in s2.cells && a !in s.cells ==> s2.cells[a].seg == s.endAddress
    requires forall seg :: seg in s.sizes ==> seg in s2.sizes && s2.sizes[seg] == s.sizes[seg]
    ensures SegmentsShown(s2, W + ByAddress(sg), m)
  {
    forall start | start in m ensures SegmentShown(s2, W + ByAddress(sg), start, m[start]) {
      assert SegmentShown(s, W, start, m[start]);
      assert start < s.endAddress;
    }
  }

  lemma NewSegmentShown(s: Stm, s2: Stm, W: map<nat, Word>, sg: Segment, count: nat)
    requires CellsInv(s) && sg.Fits(s.align) && sg.startAddress == s.endAddress && sg.numWords == count
    requires s2.align == s.align && s.endAddress in s2.sizes && s2.sizes[s.endAddress] == count
    requires s2.cells == s.cells + NewCells(s.endAddress, count, s.align)
    ensures SegmentShown(s2, W + ByAddress(sg), s.endAddress, sg)
  {
  }

  lemma NewWordsShown(s: Stm, s2: Stm, W: map<nat, Word>, sg: Segment, count: nat,
                      states: map<Word, WordState>, states2: map<Word, WordState>)
    requires CellsInv(s) && sg.Fits(s.align) && sg.startAddress == s.endAddress && sg.numWords == count
    requires s2.cells == s.cells + NewCells(s.endAddress, count, s.align) && WordsShown(s, W, states)
    requires forall a :: a in s.cells ==> W[a] in states2 && states2[W[a]] == states[W[a]]
    requires forall w :: w in sg.words ==> w in states2 && states2[w] == NewWord(s.align)
    ensures WordsShown(s2, W + ByAddress(sg), states2)
  {
  }

  lemma AllocateIs(s: Stm, k: nat, count: nat)
    requires CellsInv(s) && Active(s, k) && count > 0
    ensures var s2 := DoAllocate(s, k, count);
      && s2.align == s.align && s2.shared == s.shared && s2.endAddress == s.endAddress + count * s.align
      && s2.cells == s.cells + NewCells(s.endAddress, count, s.align) && s2.sizes == s.sizes[s.endAddress := count]
      && (forall a :: a in s.cells ==> a in s2.cells && s2.cells[a] == s.cells[a])
      && (forall a :: a in s2.cells && a !in s.cells ==> s2.cells[a].seg == s.endAddress)
  {
    AllocatedCells(s, k, count);
  }

  lemma SizesAbove(s: Stm)
    requires Whole(s)
    ensures s.endAddress !in s.sizes
  {
  }

  /** Shared and private segments after an allocation. */
  lemma AllocatedSegments(s: Stm, k: nat, count: nat, s2: Stm, W: map<nat, Word>, sg: Segment,
                          segments: map<nat, Segment>, owned: map<nat, Segment>)
    requires CellsInv(s) && Whole(s) && Active(s, k) && count > 0 && s2 == DoAllocate(s, k, count)
    requires SharedShown(s, W, segments) && SegmentsShown(s, W, owned)
    requires sg.Fits(s.align) && sg.startAddress == s.endAddress && sg.numWords == count
    ensures SharedShown(s2, W + ByAddress(sg), segments)
    ensures SegmentsShown(s2, W + ByAddress(sg), owned[s.endAddress := sg])
  {
    AllocateIs(s, k, count);
    SizesAbove(s);
    OldSegmentsShown(s, s2, W, sg, segments);
    OldSegmentsShown(s, s2, W, sg, owned);
    NewSegmentShown(s, s2, W, sg, count);
    var m := owned[s.endAddress := sg];
    forall start | start in m ensures SegmentShown(s2, W + ByAddress(sg), start, m[start]) {
      assert start != s.endAddress ==> SegmentShown(s2, W + ByAddress(sg), start, owned[start]);
    }
  }

  lemma AccessesStay(s: Stm, W: map<nat, Word>, sg: Segment, m: map<nat, Word>, keys: set<nat>)
    requires CellsInv(s) && WordsOf(W, m, keys) && forall a :: a in keys ==> a in s.cells
    requires sg.Fits(s.align) && sg.startAddress == s.endAddress
    ensures WordsOf(W + ByAddress(sg), m, keys)
  {
  }

  lemma AccessedExist(s: Stm, k: nat)
    requires TxsInv(s) && k < |s.members|
    ensures forall a :: a in s.members[k].read || a in s.members[k].written ==> a in s.cells
  {
    assert TxInv(s, s.members[k]);
  }

  /** Old words are as they were and new ones zero. */
  ghost predicate Grown(s: Stm, W: map<nat, Word>, sg: Segment,
                        states: map<Word, WordState>, states2: map<Word, WordState>)
  {
    && (forall a :: a in s.cells ==> a in W && W[a] in states && W[a] in states2 && states2[W[a]] == states[W[a]])
    && (forall w :: w in sg.words ==> w in states2 && states2[w] == NewWord(s.align))
  }

  lemma StatesGrow(s: Stm, W: map<nat, Word>, sg: Segment, states: map<Word, WordState>)
    requires CellsInv(s) && WordsShown(s, W, states) && StatesOf(W) == states
    requires sg.Fits(s.align) && sg.startAddress == s.endAddress
    requires forall w :: w in sg.words ==> w.State() == NewWord(s.align)
    ensures Grown(s, W, sg, states, StatesOf(W + ByAddress(sg)))
  {
    var W2 := W + ByAddress(sg);
    forall a | a in s.cells ensures W[a] in StatesOf(W2) && StatesOf(W2)[W[a]] == states[W[a]] {
      assert a < s.endAddress && W2[a] == W[a] && W[a] in W2.Values;
      assert StatesOf(W)[W[a]] == W[a].State();
    }
    forall w | w in sg.words ensures w in StatesOf(W2) {
      assert W2[w.addr] == w;
    }
  }

  /** Everything that is shown, after an allocation. */
  lemma AllocateShown(s: Stm, k: nat, count: nat, s2: Stm, W: map<nat, Word>, sg: Segment,
                      segments: map<nat, Segment>, owned: map<nat, Segment>,
                      states: map<Word, WordState>, states2: map<Word, WordState>,
                      written: map<nat, Word>, read: map<nat, Word>)
    requires CellsInv(s) && Whole(s) && Active(s, k) && count > 0 && s2 == DoAllocate(s, k, count)
    requires forall a :: a in s.members[k].read || a in s.members[k].written ==> a in s.cells
    requires SharedShown(s, W, segments) && SegmentsShown(s, W, owned) && owned.Keys == s.members[k].owned
    requires sg.Fits(s.align) && sg.startAddress == s.endAddress && sg.numWords == count
    requires Addressed(W) && WordsShown(s, W, states)
    requires Grown(s, W, sg, states, states2)
    requires WordsOf(W, written, s.members[k].written) && WordsOf(W, read, s.members[k].read)
    ensures var W2 := W + ByAddress(sg);
      && Addressed(W2) && WordsShown(s2, W2, states2) && SharedShown(s2, W2, segments)
      && SegmentsShown(s2, W2, owned[s.endAddress := sg])
      && owned[s.endAddress := sg].Keys == s2.members[k].owned && k < |s2.members|
      && WordsOf(W2, written, s2.members[k].written) && WordsOf(W2, read, s2.members[k].read)
      && s2.align == s.align && s2.endAddress == s.endAddress + count * s.align
      && forall a :: a in s.cells ==> a in W2 && W2[a] == W[a]
  {
    AllocateIs(s, k, count);
    AllocatedSegments(s, k, count, s2, W, sg, segments, owned);
    NewWordsShown(s, s2, W, sg, count, states, states2);
    AccessesStay(s, W, sg, written, s.members[k].written);
    AccessesStay(s, W, sg, read, s.members[k].read);
  }

  /** The allocation itself: a new segment of zero words at the end address, and nothing else changes. */
  method AllocateObject(stm: DualStm, tx: Transaction, size: nat, ghost count: nat, ghost W: map<nat, Word>)
    returns (target: nat, ghost sg: Segment)
    requires stm.Valid() && tx.IndexValid() && count > 0 && size == count * stm.alignment
    requires forall start :: start in tx.owned ==> tx.owned[start].end <= stm.endAddress
    modifies stm`endAddress, tx`owned, tx`ownedEnds
    ensures stm.Valid() && tx.IndexValid() && target == old(stm.endAddress) && stm.endAddress == target + size
    ensures tx.owned == old(tx.owned)[target := sg]
    ensures sg.Fits(stm.alignment) && sg.startAddress == target && sg.numWords == count
    ensures StatesOf(W) == old(StatesOf(W))
    ensures forall w :: w in sg.words ==> fresh(w) && w !in W.Values && w.State() == NewWord(stm.alignment)
  {
    DivideExact(count, stm.alignment);
    AtLeastOne(count, stm.alignment);
    target := stm.Alloc(tx, size);
    sg := tx.owned[target];
  }

  /** What the objects show once the new segment is there. */
  lemma AllocatedShown(stm: DualStm, tx: Transaction, s: Stm, k: nat, count: nat, s2: Stm, W: map<nat, Word>,
                       sg: Segment, owned: map<nat, Segment>)
    requires CellsInv(s) && TxsInv(s) && Whole(s) && Active(s, k) && count > 0 && s2 == DoAllocate(s, k, count)
    requires stm.alignment == s.align && stm.endAddress == s.endAddress + count * s.align
    requires Addressed(W) && SharedShown(s, W, stm.segments) && WordsShown(s, W, StatesOf(W))
    requires sg.Fits(s.align) && sg.startAddress == s.endAddress && sg.numWords == count
    requires forall w :: w in sg.words ==> w.State() == NewWord(s.align)
    requires SegmentsShown(s, W, owned) && owned.Keys == s.members[k].owned
    requires tx.IndexValid() && tx.owned == owned[s.endAddress := sg] && tx.freed == s.members[k].freed
    requires Plays(tx, W, s, k)
    ensures var W2 := W + ByAddress(sg);
      && Depicts(stm, W2, s2) && Plays(tx, W2, s2, k) && Keeps(tx, W2, s2, k)
      && forall a :: a in s.cells ==> a in W2 && W2[a] == W[a]
  {
    AccessedExist(s, k);
    StatesGrow(s, W, sg, StatesOf(W));
    AllocateShown(s, k, count, s2, W, sg, stm.segments, owned, StatesOf(W), StatesOf(W + ByAddress(sg)),
                  tx.written, tx.read);
  }

  /** An allocation on objects that show a state of the protocol leaves them showing its next state. W2 is the words by
      address with the new ones among them. */
  method Allocate(stm: DualStm, tx: Transaction, size: nat, ghost s: Stm, ghost k: nat, ghost count: nat, ghost s2: Stm,
                  ghost W: map<nat, Word>)
    returns (target: nat, ghost W2: map<nat, Word>)
    requires CellsInv(s) && TxsInv(s) && Whole(s) && Enabled(s, Step.Allocate(k, count))
    requires s2 == DoAllocate(s, k, count)
    requires stm.Valid() && Depicts(stm, W, s) && Plays(tx, W, s, k) && Keeps(tx, W, s, k)
    requires size == count * stm.alignment
    modifies stm`endAddress, tx`owned, tx`ownedEnds
    ensures stm.Valid() && Depicts(stm, W2, s2) && Plays(tx, W2, s2, k) && Keeps(tx, W2, s2, k)
    ensures target == s.endAddress && forall a :: a in s.cells ==> a in W2 && W2[a] == W[a]
  {
    PrivateEnds(s, W, tx.owned);
    ghost var owned := tx.owned;
    ghost var sg;
    target, sg := AllocateObject(stm, tx, size, count, W);
    W2 := W + ByAddress(sg);
    AllocatedShown(stm, tx, s, k, count, s2, W, sg, owned);
  }

  lemma ReleaseShown(s: Stm, k: nat, target: nat, W: map<nat, Word>, states: map<Word, WordState>,
                     segments: map<nat, Segment>, owned: map<nat, Segment>)
    requires Active(s, k) && WordsShown(s, W, states) && SharedShown(s, W, segments) && SegmentsShown(s, W, owned)
    ensures var s2 := DoRelease(s, k, target);
      WordsShown(s2, W, states) && SharedShown(s2, W, segments) && SegmentsShown(s2, W, owned)
  {
    ShownSame(s, DoRelease(s, k, target), W, states, segments);
    SegmentsSame(s, DoRelease(s, k, target), W, owned);
  }

  /** Freeing is only noted, here and there. */
  method Release(stm: DualStm, tx: Transaction, target: nat, ghost s: Stm, ghost k: nat, ghost W: map<nat, Word>)
    requires Depicts(stm, W, s) && Plays(tx, W, s, k) && Keeps(tx, W, s, k) && Enabled(s, Step.Release(k, target))
    modifies tx`freed
    ensures var s2 := DoRelease(s, k, target); Depicts(stm, W, s2) && Plays(tx, W, s2, k) && Keeps(tx, W, s2, k)
  {
    ReleaseShown(s, k, target, W, StatesOf(W), stm.segments, tx.owned);
    stm.Free(tx, target);
  }

  // ---- entering ----

  /** The object tx is the last one that waits. */
  ghost predicate Waits(tx: Transaction, s: Stm)
    reads tx
  {
    var q := s.batcher.blocked;
    q != [] && Last(q).epoch == tx.epoch && Last(q).trNum == tx.trNum && Last(q).readOnly == tx.isReadOnly
  }

  lemma EnterShown(s: Stm, readOnly: bool, W: map<nat, Word>, states: map<Word, WordState>, segments: map<nat, Segment>)
    requires WordsShown(s, W, states) && SharedShown(s, W, segments)
    ensures WordsShown(DoBegin(s, readOnly), W, states) && SharedShown(DoBegin(s, readOnly), W, segments)
  {
    ShownSame(s, DoBegin(s, readOnly), W, states, segments);
  }

  /** Entering on objects that show a state of the protocol: they show its next state; the new transaction is its newest
      member, or waits as the last in its queue, with the same epoch and number. */
  method Enter(batcher: Batching.Batcher, isReadOnly: bool, ghost s: Stm, ghost W: map<nat, Word>)
    returns (tx: Transaction, thread: Batching.BThread?)
    requires BatchInv(s) && Depicts(batcher.stm, W, s) && Counts(batcher, s)
    modifies batcher
    ensures var s2 := DoBegin(s, isReadOnly);
      && Depicts(batcher.stm, W, s2) && Counts(batcher, s2) && (thread == null <==> s.batcher.remaining == 0)
      && (thread == null ==> |s2.members| == 1 && Plays(tx, W, s2, 0) && Keeps(tx, W, s2, 0))
      && (thread != null ==> Waits(tx, s2))
  {
    EnterShown(s, isReadOnly, W, StatesOf(W), batcher.stm.segments);
    tx, thread := batcher.Enter(isReadOnly);
  }

  // ---- the other transactions ----

  /** A step of member k that allocates nothing leaves the other members as they are shown. */
  lemma OthersStay(s: Stm, s2: Stm, W: map<nat, Word>, k: nat, i: nat, l: Leaver)
    requires i < |s.members| && i != k && MemberShown(s, W, s.members[i], l)
    requires |s2.members| == |s.members| && s2.members[i] == s.members[i] && s2.sizes == s.sizes && s2.align == s.align
    requires s2.cells.Keys == s.cells.Keys && forall a :: a in s.cells ==> s2.cells[a].seg == s.cells[a].seg
    ensures MemberShown(s2, W, s2.members[i], l)
  {
    SegmentsReseen(s, s2, W, l.owned);
  }

  /** And so does an allocation by member k, with the new words among those known. */
  lemma OthersStayAllocating(s: Stm, k: nat, count: nat, W: map<nat, Word>, sg: Segment, i: nat, l: Leaver)
    requires CellsInv(s) && TxsInv(s) && Whole(s) && Active(s, k) && count > 0
    requires sg.Fits(s.align) && sg.startAddress == s.endAddress && sg.numWords == count
    requires i < |s.members| && i != k && MemberShown(s, W, s.members[i], l)
    ensures MemberShown(DoAllocate(s, k, count), W + ByAddress(sg), DoAllocate(s, k, count).members[i], l)
  {
    AllocateIs(s, k, count);
    SizesAbove(s);
    OldSegmentsShown(s, DoAllocate(s, k, count), W, sg, l.owned);
    AccessedExist(s, i);
    AccessesStay(s, W, sg, l.written, s.members[i].written);
    AccessesStay(s, W, sg, l.read, s.members[i].read);
  }

  // ---- the new memory ----

  lemma CreateShown(align: nat, count: nat, sg: Segment, states: map<Word, WordState>)
    requires align > 0 && count > 0 && sg.Fits(align) && sg.startAddress == 1 && sg.numWords == count
    requires forall w :: w in sg.words ==> w in states && states[w] == NewWord(align)
    ensures Addressed(ByAddress(sg)) && WordsShown(Create(align, count), ByAddress(sg), states)
    ensures SharedShown(Create(align, count), ByAddress(sg), map[1 := sg])
  {
  }

  /** A new memory and its batcher show the protocol's first state. */
  method Open(size: nat, alignment: nat, ghost count: nat) returns (batcher: Batching.Batcher, ghost W: map<nat, Word>)
    requires alignment > 0 && count > 0 && size == count * alignment
    ensures fresh(batcher) && fresh(batcher.stm) && batcher.stm.Valid()
    ensures Depicts(batcher.stm, W, Create(alignment, count)) && Counts(batcher, Create(alignment, count))
  {
    DivideExact(count, alignment);
    AtLeastOne(count, alignment);
    var stm := new DualStm(size, alignment);
    batcher := new Batching.Batcher(stm);
    ghost var sg := stm.segments[1];
    assert sg.Fits(alignment) && sg.startAddress == 1;
    W := ByAddress(sg);
    CreateShown(alignment, count, sg, StatesOf(W));
    assert stm.segments == map[1 := sg];
  }

  // ---- which accesses are served ----

  lemma OnlyHolder(s: Stm, W: map<nat, Word>, seg: nat, sg: Segment, other: nat, so: Segment, a: nat)
    requires Stacked(s) && SegmentShown(s, W, seg, sg) && SegmentShown(s, W, other, so)
    requires seg <= a < sg.end && other <= a < so.end
    ensures seg == other
  {
    assert sg.end == SegmentEnd(seg, s.sizes[seg], s.align) && so.end == SegmentEnd(other, s.sizes[other], s.align);
  }

  lemma WordInside(sg: Segment, lo: nat, n: nat)
    requires sg.alignment > 0 && sg.Valid() && n > 0 && lo + n <= sg.numWords
    ensures sg.startAddress <= WordAddress(sg, lo) < sg.end
  {
    SmallerMultiple(lo, sg.numWords, sg.alignment);
  }

  lemma WordsNamed(s: Stm, W: map<nat, Word>, seg: nat, sg: Segment, lo: nat, n: nat)
    requires SegmentShown(s, W, seg, sg) && lo + n <= |sg.words|
    ensures forall j :: lo <= j < lo + n ==> WordAt(seg, j, s.align) in W && sg.words[j] == W[WordAt(seg, j, s.align)]
  {
    forall j | lo <= j < lo + n ensures WordAt(seg, j, s.align) in W && sg.words[j] == W[WordAt(seg, j, s.align)] {
      assert sg.words[j] in sg.words && sg.words[j].addr == WordAt(seg, j, s.align);
    }
  }

  /** A segment that is not private serves an address of its own when no private segment contains it. */
  lemma NotPrivate(s: Stm, W: map<nat, Word>, owned: map<nat, Segment>, seg: nat, sg: Segment, a: nat)
    requires Stacked(s) && SegmentShown(s, W, seg, sg) && SegmentsShown(s, W, owned) && seg <= a < sg.end
    ensures forall other :: Index.Contains(ExtentsOf(owned), other, a) ==> other == seg
  {
    forall other | Index.Contains(ExtentsOf(owned), other, a) ensures other == seg {
      assert SegmentShown(s, W, other, owned[other]);
      OnlyHolder(s, W, seg, sg, other, owned[other], a);
    }
  }

  lemma ItServes(stm: DualStm, tx: Transaction, seg: nat, sg: Segment, a: nat)
    requires sg.startAddress == seg <= a < sg.end
    requires forall other :: Index.Contains(tx.Extents(), other, a) ==> other == seg
    requires if seg in tx.owned then tx.owned[seg] == sg else seg in stm.segments && stm.segments[seg] == sg
    ensures stm.Serves(sg, tx, a)
  {
    assert seg in tx.owned ==> Index.Contains(tx.Extents(), seg, a);
    assert seg in stm.segments ==> stm.Extents()[seg] == stm.segments[seg].end;
  }

  /** A transaction's access to n consecutive words of a segment it may use, shared or its own, from word lo on, is one
      the memory serves, with the word objects at exactly those addresses. */
  lemma AccessIsServed(stm: DualStm, tx: Transaction, s: Stm, k: nat, W: map<nat, Word>, seg: nat, lo: nat, n: nat)
    returns (sg: Segment)
    requires Stacked(s) && stm.Valid() && Depicts(stm, W, s) && Keeps(tx, W, s, k)
    requires (seg in s.shared && seg !in s.members[k].owned) || (seg !in s.shared && seg in s.members[k].owned)
    requires seg in s.sizes && n > 0 && lo + n <= s.sizes[seg]
    ensures lo + n <= |sg.words|
    ensures stm.Inside(tx, seg + lo * s.align, n * s.align, sg, lo, sg.words[lo..lo + n])
    ensures forall j :: lo <= j < lo + n ==> WordAt(seg, j, s.align) in W && sg.words[j] == W[WordAt(seg, j, s.align)]
  {
    sg := if seg in s.shared then stm.segments[seg] else tx.owned[seg];
    assert SegmentShown(s, W, seg, sg);
    WordInside(sg, lo, n);
    WordsNamed(s, W, seg, sg, lo, n);
    var a := WordAddress(sg, lo);
    NotPrivate(s, W, tx.owned, seg, sg, a);
    ItServes(stm, tx, seg, sg, a);
  }
}
