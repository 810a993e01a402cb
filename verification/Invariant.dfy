/** What every reachable state of the protocol satisfies. */
module Invariant {
  import opened Words
  import opened Serial
  import opened Protocol

  // ---- the batcher ----

  ghost predicate Numbered(ms: seq<Tx>, epoch: nat) {
    forall i :: 0 <= i < |ms| ==> ms[i].epoch == epoch && ms[i].trNum == i + 1
  }

  ghost predicate Unused(tx: Tx) {
    tx.ops == [] && tx.read == {} && tx.written == {} && tx.owned == {} && tx.freed == [] && !tx.aborted && !tx.left
  }

  ghost predicate Distinct<T(!new)>(q: seq<T>) {
    forall i, j :: 0 <= i < j < |q| ==> q[i] != q[j]
  }

  ghost function Pending(ms: seq<Tx>): set<nat> {
    set k: nat | 0 <= k < |ms| && !ms[k].left
  }

  ghost predicate Lists(ms: seq<Tx>, ids: seq<nat>, aborted: bool) {
    && Distinct(ids)
    && (forall k: nat :: k in ids <==> k < |ms| && ms[k].left && ms[k].aborted == aborted)
  }

  /** The records of an ended epoch. */
  ghost predicate EndedIn(ms: seq<Tx>, e: nat) {
    forall i :: 0 <= i < |ms| ==> ms[i].epoch == e && ms[i].trNum == i + 1 && ms[i].left
  }

  ghost predicate PastInv(past: seq<seq<Tx>>) {
    forall e {:trigger EndedIn(past[e], e)} :: 0 <= e < |past| ==> EndedIn(past[e], e)
  }

  ghost predicate BatchInv(s: Stm) {
    var b := s.batcher;
    && Numbered(s.members, b.counter)
    && Numbered(b.blocked, b.counter + 1)
    && (forall i :: 0 <= i < |b.blocked| ==> Unused(b.blocked[i]))
    && b.remaining == |Pending(s.members)|
    && (b.remaining == 0 ==> s.members == [] && b.blocked == [])
    && Lists(s.members, b.committed, false)
    && Lists(s.members, b.aborted, true)
    && |s.past| == b.counter
    && PastInv(s.past)
  }

  // ---- segments ----

  ghost predicate CellsInv(s: Stm) {
    && s.align > 0 && s.endAddress > 0
    && (forall a :: a in s.cells ==>
          && 0 < s.cells[a].seg <= a < s.endAddress
          && s.cells[a].word.Sized(s.align)
          && s.cells[a].seg in s.cells
          && s.cells[s.cells[a].seg].seg == s.cells[a].seg)
    && (forall seg :: seg in s.shared ==> seg in s.cells && s.cells[seg].seg == seg)
  }

  ghost predicate Owned(ms: seq<Tx>, seg: nat) {
    exists i :: 0 <= i < |ms| && seg in ms[i].owned
  }

  ghost predicate OwnersInv(s: Stm) {
    var ms := s.members;
    && (forall i, seg :: 0 <= i < |ms| && seg in ms[i].owned ==>
          seg !in s.shared && seg in s.cells && s.cells[seg].seg == seg)
    && (forall i, j, seg :: 0 <= i < |ms| && 0 <= j < |ms| && seg in ms[i].owned && seg in ms[j].owned ==> i == j)
    && (forall a {:trigger Owned(ms, s.cells[a].seg)} :: a in s.cells ==>
          s.cells[a].seg in s.shared || Owned(ms, s.cells[a].seg))
  }

  // ---- one word: the control fields characterise the access history ----

  ghost predicate Acc(tx: Tx, a: nat) {
    a in tx.read || a in tx.written
  }

  ghost predicate WordInv(w: WordState, ms: seq<Tx>, a: nat) {
    && w.last <= |ms|
    && (w.last == 0 ==> w.Clean())
    && (w.last != 0 ==> Acc(ms[w.last - 1], a))
    && (!w.many ==> forall i :: 0 <= i < |ms| && Acc(ms[i], a) ==> i == w.last - 1)
    && (w.many ==> exists i :: 0 <= i < |ms| && i != w.last - 1 && Acc(ms[i], a))
    && (w.written ==> w.last != 0 && a in ms[w.last - 1].written)
    && (forall i :: 0 <= i < |ms| && a in ms[i].written ==> w.written && i == w.last - 1)
    && (w.written && w.many ==>
          && a !in ms[w.last - 1].read
          && forall i, j | 0 <= i < |ms| && 0 <= j < |ms| && i != w.last - 1 && j != w.last - 1 ::
               Acc(ms[i], a) && Acc(ms[j], a) ==> i == j)
  }

  ghost predicate WordsInv(s: Stm) {
    forall a {:trigger WordInv(s.cells[a].word, s.members, a)} :: a in s.cells ==>
      WordInv(s.cells[a].word, s.members, a)
  }

  // ---- one transaction: isolation ----

  /** The memory every member of the epoch starts from. */
  ghost function Mem(s: Stm): map<nat, Bytes> {
    map a | a in s.cells && s.cells[a].seg in s.shared :: s.cells[a].word.Readable()
  }

  /** The same as a memory for replay; how many words a segment has plays no part in what is legal. */
  ghost function Snapshot(s: Stm): Memory {
    Memory(Mem(s), map seg | seg in s.shared :: 0)
  }

  /** The access maps say what the caller did. */
  ghost predicate Maps(tx: Tx) {
    && tx.written == Buffer(tx.ops).Keys
    && (!tx.readOnly ==> tx.read == SnapReads(tx.ops))
    && (tx.readOnly ==> tx.read == {} && tx.written == {} && tx.owned == {} && !tx.aborted && tx.freed == [])
    && tx.owned == Allocs(tx.ops).Keys
    && (forall seg :: seg in tx.freed <==> seg in Frees(tx.ops))
  }

  ghost predicate Isolated(s: Stm, tx: Tx)
    requires Maps(tx)
  {
    && Legal(Snapshot(s), Zero(s.align), tx.ops)
    && (forall a :: a in SnapReads(tx.ops) || a in tx.written ==>
          a in s.cells && (s.cells[a].seg in s.shared || s.cells[a].seg in tx.owned))
    && (forall a :: a in tx.written ==> s.cells[a].word.Writable() == Buffer(tx.ops)[a])
  }

  /** Words of unpublished segments read as zero. */
  ghost predicate FreshInv(s: Stm) {
    forall a :: a in s.cells && s.cells[a].seg !in s.shared ==> s.cells[a].word.Readable() == Zero(s.align)
  }

  ghost predicate TxInv(s: Stm, tx: Tx) {
    Maps(tx) && Isolated(s, tx)
  }

  ghost predicate TxsInv(s: Stm) {
    forall i {:trigger TxInv(s, s.members[i])} :: 0 <= i < |s.members| ==> TxInv(s, s.members[i])
  }

  ghost predicate Inv(s: Stm) {
    BatchInv(s) && CellsInv(s) && OwnersInv(s) && WordsInv(s) && FreshInv(s) && TxsInv(s)
  }
}
