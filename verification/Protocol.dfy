/** The dual-versioned transactional memory as a step machine: any number of transactions,
    each word access, enter and leave one atomic step, in any interleaving. */
module Protocol {
  import opened Words
  import opened Serial
  import opened Epochs

  /** A transaction object; ops is what its caller has observed so far (history). */
  datatype Tx = Tx(
    epoch: nat,
    trNum: nat,
    readOnly: bool,
    aborted: bool,
    left: bool,
    read: set<nat>,        // keys of the read map
    written: set<nat>,     // keys of the written map
    owned: set<nat>,       // starts of the private segments
    freed: seq<nat>,
    ops: seq<Op>)

  datatype Cell = Cell(word: WordState, seg: nat)

  datatype Stm = Stm(
    align: nat,
    cells: map<nat, Cell>,              // every word that exists, shared or private, by address
    shared: set<nat>,                   // starts of the shared segments
    sizes: map<nat, nat>,               // number of words of every segment handed out so far (history)
    endAddress: nat,
    batcher: BatcherState<Tx, nat>,
    members: seq<Tx>,                   // the released transactions of the current epoch
    past: seq<seq<Tx>>)                 // the members of every ended epoch (history)

  /** k names a member of the current epoch. */
  datatype Step =
    | Begin(readOnly: bool)
    | ReadWord(k: nat, addr: nat)
    | WriteWord(k: nat, addr: nat, val: Bytes)
    | Allocate(k: nat, count: nat)
    | Release(k: nat, start: nat)
    | Leave(k: nat)

  predicate IsWord(a: nat, start: nat, align: nat)
    requires align > 0
  {
    (a - start) % align == 0
  }

  /** a is the address of one of the count words of the segment at start. */
  predicate Covers(start: nat, count: nat, align: nat, a: nat)
    requires align > 0
  {
    start <= a < start + count * align && IsWord(a, start, align)
  }

  function NewCells(start: nat, count: nat, align: nat): map<nat, Cell>
    requires align > 0
  {
    map a: nat | start <= a < start + count * align && IsWord(a, start, align) :: Cell(NewWord(align), start)
  }

  /** A region with one shared segment of count words; addresses start at 1. */
  function Create(align: nat, count: nat): Stm
    requires align > 0
  {
    Stm(align, NewCells(1, count, align), {1}, map[1 := count], 1 + count * align, IdleBatcher(), [], [])
  }

  // ---- what a client may call ----

  predicate Active(s: Stm, k: nat) {
    k < |s.members| && !s.members[k].left && !s.members[k].aborted
  }

  predicate Accessible(s: Stm, k: nat, a: nat)
    requires k < |s.members|
  {
    a in s.cells && (s.cells[a].seg in s.shared || s.cells[a].seg in s.members[k].owned)
  }

  predicate Enabled(s: Stm, st: Step) {
    match st
    case Begin(_) => true
    case ReadWord(k, a) => Active(s, k) && Accessible(s, k, a)
    case WriteWord(k, a, v) => Active(s, k) && !s.members[k].readOnly && Accessible(s, k, a) && |v| == s.align
    case Allocate(k, count) => Active(s, k) && !s.members[k].readOnly && count > 0
    case Release(k, _) => Active(s, k) && !s.members[k].readOnly
    case Leave(k) => k < |s.members| && !s.members[k].left
  }

  // ---- the steps ----

  function DoBegin(s: Stm, readOnly: bool): Stm {
    var e := Place(s.batcher);
    var tx := Tx(e.epoch, e.trNum, readOnly, false, false, {}, {}, {}, [], []);
    s.(batcher := Enter(s.batcher, tx), members := if e.waits then s.members else [tx])
  }

  function With(s: Stm, k: nat, tx: Tx): Stm
    requires k < |s.members|
  {
    s.(members := s.members[k := tx])
  }

  function DoRead(s: Stm, k: nat, a: nat): Stm
    requires Active(s, k) && a in s.cells
  {
    var tx, c := s.members[k], s.cells[a];
    if tx.readOnly then
      With(s, k, tx.(ops := tx.ops + [Read(a, c.seg, c.word.Readable())]))
    else
      var r := ReadBy(c.word, tx.trNum);
      if r.ok then
        With(s.(cells := s.cells[a := c.(word := r.word)]), k,
             tx.(read := if r.recorded then tx.read + {a} else tx.read, ops := tx.ops + [Read(a, c.seg, r.val)]))
      else
        With(s, k, tx.(aborted := true))
  }

  function DoWrite(s: Stm, k: nat, a: nat, v: Bytes): Stm
    requires Active(s, k) && a in s.cells
  {
    var tx, c := s.members[k], s.cells[a];
    var r := WriteBy(c.word, tx.trNum, v);
    if r.ok then
      With(s.(cells := s.cells[a := c.(word := r.word)]), k,
           tx.(written := if r.recorded then tx.written + {a} else tx.written, ops := tx.ops + [Write(a, c.seg, v)]))
    else
      With(s, k, tx.(aborted := true))
  }

  function DoAllocate(s: Stm, k: nat, count: nat): Stm
    requires Active(s, k) && s.align > 0
  {
    var tx, start := s.members[k], s.endAddress;
    With(s.(endAddress := start + count * s.align, cells := s.cells + NewCells(start, count, s.align),
            sizes := s.sizes[start := count]), k,
         tx.(owned := tx.owned + {start}, ops := tx.ops + [Alloc(start, count)]))
  }

  function DoRelease(s: Stm, k: nat, start: nat): Stm
    requires Active(s, k)
  {
    var tx := s.members[k];
    With(s, k, tx.(freed := tx.freed + [start], ops := tx.ops + [Free(start)]))
  }

  // ---- the end of an epoch ----

  ghost predicate Wrote(ms: seq<Tx>, ids: seq<nat>, a: nat) {
    exists k :: k in ids && k < |ms| && a in ms[k].written
  }

  ghost predicate Touched(ms: seq<Tx>, ids: seq<nat>, a: nat) {
    exists k :: k in ids && k < |ms| && (a in ms[k].written || a in ms[k].read)
  }

  ghost predicate OwnedBy(ms: seq<Tx>, ids: seq<nat>, seg: nat) {
    exists k :: k in ids && k < |ms| && seg in ms[k].owned
  }

  ghost predicate FreedBy(ms: seq<Tx>, ids: seq<nat>, seg: nat) {
    exists k :: k in ids && k < |ms| && seg in ms[k].freed
  }

  function Segments(s: Stm): set<nat> {
    set a | a in s.cells :: s.cells[a].seg
  }

  /** Publish committed allocations, settle words, free committed frees, drop aborted allocations. */
  ghost function EpochEnd(s: Stm, committed: seq<nat>, aborted: seq<nat>): Stm {
    var published := set seg | seg in Segments(s) && OwnedBy(s.members, committed, seg);
    var shared := set seg | seg in s.shared + published && !FreedBy(s.members, committed, seg);
    var cells := map a |
      a in s.cells
      && !(s.cells[a].seg in s.shared + published && FreedBy(s.members, committed, s.cells[a].seg))
      && !OwnedBy(s.members, aborted, s.cells[a].seg) ::
      s.cells[a].(word := Settled(s.cells[a].word, Wrote(s.members, committed, a),
                                  Touched(s.members, committed + aborted, a)));
    s.(shared := shared, cells := cells)
  }

  ghost function DoLeave(s: Stm, k: nat): Stm
    requires k < |s.members| && s.batcher.remaining > 0
  {
    var s1 := With(s, k, s.members[k].(left := true));
    var b := Depart(s.batcher, k, s.members[k].aborted);
    if b.remaining > 0 then
      s1.(batcher := b)
    else
      EpochEnd(s1, b.committed, b.aborted)
      .(batcher := NextEpoch(b), members := b.blocked, past := s.past + [s1.members])
  }

  ghost function Do(s: Stm, st: Step): Stm
    requires Enabled(s, st) && s.align > 0 && (st.Leave? ==> s.batcher.remaining > 0)
  {
    match st
    case Begin(readOnly) => DoBegin(s, readOnly)
    case ReadWord(k, a) => DoRead(s, k, a)
    case WriteWord(k, a, v) => DoWrite(s, k, a, v)
    case Allocate(k, count) => DoAllocate(s, k, count)
    case Release(k, start) => DoRelease(s, k, start)
    case Leave(k) => DoLeave(s, k)
  }
}
