/** Accesses of several words, each word locked on its own: what a transaction reads back of what it wrote,
    whatever other transactions do between its words. */
module RoundTrips {
  import opened Arithmetic
  import opened Words
  import opened Serial
  import opened Orders
  import opened Epochs
  import opened Ranges
  import opened Protocol
  import opened Invariant
  import opened Settle
  import opened Runs
  import opened Serializability
  import opened RealTime
  import opened Wholeness
  import opened Persistence

  // ---- one multi-word access in a log ----

  /** From entry p on, the log writes the values vs to consecutive words starting at base. */
  ghost predicate WritesBlock(ops: seq<Op>, p: nat, base: nat, vs: seq<Bytes>, align: nat) {
    p + |vs| <= |ops| && forall t :: 0 <= t < |vs| ==>
      ops[p + t].Write? && ops[p + t].addr == WordAt(base, t, align) && ops[p + t].val == vs[t]
  }

  /** From entry q on, the log reads the values vs from consecutive words starting at at. */
  ghost predicate ReadsBlock(ops: seq<Op>, q: nat, at: nat, vs: seq<Bytes>, align: nat) {
    q + |vs| <= |ops| && forall u {:trigger vs[u]} :: 0 <= u < |vs| ==>
      ops[q + u].Read? && ops[q + u].addr == WordAt(at, u, align) && ops[q + u].val == vs[u]
  }

  /** Entries p..n do not write to a. */
  ghost predicate Untouched(ops: seq<Op>, p: nat, n: nat, a: nat) {
    forall j :: p <= j < n && j < |ops| && ops[j].Write? ==> ops[j].addr != a
  }

  // ---- the buffer ----

  lemma {:induction false} BufferSince(ops: seq<Op>, p: nat, n: nat, a: nat)
    requires p <= n <= |ops| && Untouched(ops, p, n, a)
    ensures a in Buffer(ops[..n]) <==> a in Buffer(ops[..p])
    ensures a in Buffer(ops[..p]) ==> Buffer(ops[..n])[a] == Buffer(ops[..p])[a]
    decreases n
  {
    if p < n {
      BufferSince(ops, p, n - 1, a);
      assert Front(ops[..n]) == ops[..n - 1] && Last(ops[..n]) == ops[n - 1];
    }
  }

  lemma LastWrite(ops: seq<Op>, j: nat, n: nat, a: nat)
    requires j < n <= |ops| && ops[j].Write? && ops[j].addr == a && Untouched(ops, j + 1, n, a)
    ensures a in Buffer(ops[..n]) && Buffer(ops[..n])[a] == ops[j].val
  {
    assert Front(ops[..j + 1]) == ops[..j] && Last(ops[..j + 1]) == ops[j];
    BufferSince(ops, j + 1, n, a);
  }

  lemma WordsDiffer(base: nat, t: nat, u: nat, align: nat)
    requires align > 0 && t != u
    ensures WordAt(base, t, align) != WordAt(base, u, align)
  {
    SmallerMultiple(t, u, align);
    SmallerMultiple(u, t, align);
  }

  /** After a block of writes, and until the word is written again, the buffer holds the block's value there. */
  lemma BufferInBlock(ops: seq<Op>, p: nat, base: nat, vs: seq<Bytes>, align: nat, n: nat, t: nat)
    requires align > 0 && WritesBlock(ops, p, base, vs, align) && p + |vs| <= n <= |ops| && t < |vs|
    requires Untouched(ops, p + |vs|, n, WordAt(base, t, align))
    ensures var a := WordAt(base, t, align); a in Buffer(ops[..n]) && Buffer(ops[..n])[a] == vs[t]
  {
    var a := WordAt(base, t, align);
    forall j | p + t + 1 <= j < n && ops[j].Write? ensures ops[j].addr != a {
      if j < p + |vs| {
        WordsDiffer(base, j - p, t, align);
        assert ops[p + (j - p)].addr == WordAt(base, j - p, align);
      }
    }
    LastWrite(ops, p + t, n, a);
  }

  /** Elsewhere the buffer is what it was before the block. */
  lemma BufferOffBlock(ops: seq<Op>, p: nat, base: nat, vs: seq<Bytes>, align: nat, n: nat, a: nat)
    requires WritesBlock(ops, p, base, vs, align) && p + |vs| <= n <= |ops|
    requires forall t :: 0 <= t < |vs| ==> a != WordAt(base, t, align)
    requires Untouched(ops, p + |vs|, n, a)
    ensures a in Buffer(ops[..n]) <==> a in Buffer(ops[..p])
    ensures a in Buffer(ops[..p]) ==> Buffer(ops[..n])[a] == Buffer(ops[..p])[a]
  {
    forall j | p <= j < n && ops[j].Write? ensures ops[j].addr != a {
      if j < p + |vs| {
        assert ops[p + (j - p)].addr == WordAt(base, j - p, align);
      }
    }
    BufferSince(ops, p, n, a);
  }

  // ---- words read back ----

  /** What a transaction with this log sees at a: its own latest write, else the memory. */
  ghost function Seen(m: Memory, z: Bytes, ops: seq<Op>, a: nat): Bytes {
    if a in Buffer(ops) then Buffer(ops)[a] else Get(m.vals, z, a)
  }

  /** A read after a block of writes returns the block's value inside it, and outside it what was seen before. */
  lemma ReadAfterBlock(m: Memory, z: Bytes, ops: seq<Op>, p: nat, base: nat, vs: seq<Bytes>, align: nat, n: nat)
    requires align > 0 && Legal(m, z, ops) && WritesBlock(ops, p, base, vs, align)
    requires p + |vs| <= n < |ops| && ops[n].Read? && Untouched(ops, p + |vs|, n, ops[n].addr)
    ensures forall t: nat :: t < |vs| && ops[n].addr == WordAt(base, t, align) ==> ops[n].val == vs[t]
    ensures (forall t: nat :: t < |vs| ==> ops[n].addr != WordAt(base, t, align)) ==>
      ops[n].val == Seen(m, z, ops[..p], ops[n].addr)
  {
    ReadValue(m, z, ops, n);
    if t: nat :| t < |vs| && ops[n].addr == WordAt(base, t, align) {
      forall t: nat | t < |vs| && ops[n].addr == WordAt(base, t, align) ensures ops[n].val == vs[t] {
        BufferInBlock(ops, p, base, vs, align, n, t);
      }
    } else {
      BufferOffBlock(ops, p, base, vs, align, n, ops[n].addr);
    }
  }

  // ---- bytes ----

  /** The bytes at addresses at, at + 1, ... once src has been laid over them from address base on. */
  function LaidOver(view: Bytes, at: nat, src: Bytes, base: nat): (r: Bytes)
    ensures |r| == |view|
  {
    seq(|view|, b requires 0 <= b < |view| => if base <= at + b < base + |src| then src[at + b - base] else view[b])
  }

  ghost predicate AllSized(vs: seq<Bytes>, align: nat) {
    forall u :: 0 <= u < |vs| ==> |vs[u]| == align
  }

  lemma JoinByte(vs: seq<Bytes>, align: nat, u: nat, c: nat, b: nat)
    requires u < |vs| && c < align && AllSized(vs, align) && b == u * align + c
    ensures b < |Join(vs)| == |vs| * align && Join(vs)[b] == vs[u][c]
  {
    JoinLength(vs, align);
    JoinAt(vs, align, u);
    SmallerMultiple(u, |vs|, align);
    assert WordOf(Join(vs), align, u)[c] == Join(vs)[b];
  }

  lemma NotNegative(t: int, align: nat, c: nat)
    requires c < align && t * align + c >= 0
    ensures t >= 0
  {
    var n := if t < 0 then -t else 1;
    BelowZero(n, align, c);
    assert t == -n ==> t * align == -(n * align);
  }

  /** Byte c of word u of a range at at, when the range lies on the same grid as n words at base: if it falls within
      those, it is byte c of their word t. */
  lemma OnGrid(base: nat, at: nat, align: nat, u: nat, c: nat, b: nat, n: nat, size: nat)
    returns (inside: bool, t: nat)
    requires align > 0 && c < align && (at - base) % align == 0 && b == u * align + c && size == n * align
    ensures inside <==> base <= at + b < base + size
    ensures inside ==> t < n && WordAt(at, u, align) == WordAt(base, t, align) && at + b - base == t * align + c
    ensures !inside ==> forall v: nat :: v < n ==> WordAt(at, u, align) != WordAt(base, v, align)
  {
    var d := (at - base) / align;
    assert at - base == d * align;
    assert (d + u) * align == d * align + u * align;
    inside, t := base <= at + b < base + size, 0;
    if inside {
      NotNegative(d + u, align, c);
      SmallerMultiple(d + u, n, align);
      t := d + u;
    } else {
      forall v: nat | v < n ensures WordAt(at, u, align) != WordAt(base, v, align) {
        SmallerMultiple(v, n, align);
      }
    }
  }

  /** Every value in the memory and the log is one word long. */
  ghost predicate WordSized(m: Memory, z: Bytes, ops: seq<Op>, align: nat) {
    && |z| == align
    && (forall a :: a in m.vals ==> |m.vals[a]| == align)
    && (forall j :: 0 <= j < |ops| && (ops[j].Read? || ops[j].Write?) ==> |ops[j].val| == align)
  }

  lemma {:induction false} SeenSized(m: Memory, z: Bytes, ops: seq<Op>, align: nat, a: nat)
    requires WordSized(m, z, ops, align)
    ensures |Seen(m, z, ops, a)| == align
  {
    if ops != [] {
      SeenSized(m, z, Front(ops), align, a);
    }
  }

  /** What was seen at the k words of a range. */
  ghost function SeenRange(m: Memory, z: Bytes, ops: seq<Op>, at: nat, k: nat, align: nat): (vs: seq<Bytes>)
    ensures |vs| == k && forall u {:trigger vs[u]} :: 0 <= u < k ==> vs[u] == Seen(m, z, ops, WordAt(at, u, align))
  {
    seq(k, u requires 0 <= u < k => Seen(m, z, ops, WordAt(at, u, align)))
  }

  /** The read starting at entry q of the log is not preceded by a write to its range since entry p. */
  ghost predicate QuietRange(ops: seq<Op>, p: nat, q: nat, at: nat, k: nat, align: nat) {
    forall u {:trigger WordAt(at, u, align)} :: 0 <= u < k ==> Untouched(ops, p, q, WordAt(at, u, align))
  }

  lemma OnlyReads(ops: seq<Op>, q: nat, at: nat, vs: seq<Bytes>, align: nat)
    requires ReadsBlock(ops, q, at, vs, align)
    ensures forall j :: q <= j < q + |vs| ==> ops[j].Read?
  {
    forall j | q <= j < q + |vs| ensures ops[j].Read? {
      var v := vs[j - q];
      assert ops[q + (j - q)].Read?;
    }
  }

  lemma WordReadBack(m: Memory, z: Bytes, ops: seq<Op>, align: nat, p: nat, base: nat, vs: seq<Bytes>,
                     q: nat, at: nat, read: seq<Bytes>, u: nat)
    requires align > 0 && Legal(m, z, ops) && WritesBlock(ops, p, base, vs, align)
    requires p + |vs| <= q && ReadsBlock(ops, q, at, read, align) && u < |read|
    requires Untouched(ops, p + |vs|, q, WordAt(at, u, align))
    ensures forall t: nat :: t < |vs| && WordAt(at, u, align) == WordAt(base, t, align) ==> read[u] == vs[t]
    ensures (forall t: nat :: t < |vs| ==> WordAt(at, u, align) != WordAt(base, t, align)) ==>
      read[u] == Seen(m, z, ops[..p], WordAt(at, u, align))
  {
    var a := WordAt(at, u, align);
    var own := read[u];
    OnlyReads(ops, q, at, read, align);
    ReadAfterBlock(m, z, ops, p, base, vs, align, q + u);
  }

  /** Word u of a range at at is one of the words vs at base, or as it was before. */
  ghost predicate WordLaidOver(read: Bytes, before: Bytes, vs: seq<Bytes>, base: nat, at: nat, align: nat, u: nat) {
    && (forall t: nat :: t < |vs| && WordAt(at, u, align) == WordAt(base, t, align) ==> read == vs[t])
    && ((forall t: nat :: t < |vs| ==> WordAt(at, u, align) != WordAt(base, t, align)) ==> read == before)
  }

  ghost predicate WordsLaidOver(read: seq<Bytes>, before: seq<Bytes>, vs: seq<Bytes>, base: nat, at: nat, align: nat) {
    && |read| == |before|
    && (forall u {:trigger WordLaidOver(read[u], before[u], vs, base, at, align, u)} :: 0 <= u < |read| ==>
          WordLaidOver(read[u], before[u], vs, base, at, align, u))
  }

  lemma WordPicked(read: Bytes, before: Bytes, vs: seq<Bytes>, base: nat, at: nat, align: nat, u: nat, c: nat,
                   b: nat, size: nat)
    returns (inside: bool, t: nat, e: nat)
    requires align > 0 && c < align && (at - base) % align == 0 && b == u * align + c && size == |vs| * align
    requires WordLaidOver(read, before, vs, base, at, align, u)
    ensures inside <==> base <= at + b < base + size
    ensures inside ==> t < |vs| && e == at + b - base && e == t * align + c && read == vs[t]
    ensures !inside ==> read == before
  {
    inside, t := OnGrid(base, at, align, u, c, b, |vs|, size);
    e := if inside then at + b - base else 0;
  }

  lemma ByteInside(read: Bytes, before: Bytes, src: Bytes, base: nat, at: nat, b: nat, e: nat)
    requires b < |read| == |before| && at + b == base + e && e < |src| && read[b] == src[e]
    ensures read[b] == LaidOver(before, at, src, base)[b]
  {
  }

  lemma ByteOutside(read: Bytes, before: Bytes, src: Bytes, base: nat, at: nat, b: nat)
    requires b < |read| == |before| && !(base <= at + b < base + |src|) && read[b] == before[b]
    ensures read[b] == LaidOver(before, at, src, base)[b]
  {
  }

  lemma ByteOfWord(read: seq<Bytes>, before: seq<Bytes>, vs: seq<Bytes>, base: nat, at: nat, align: nat,
                   u: nat, c: nat, b: nat)
    requires align > 0 && u < |read| == |before| && c < align && (at - base) % align == 0 && b == u * align + c
    requires AllSized(read, align) && AllSized(before, align) && AllSized(vs, align)
    requires WordLaidOver(read[u], before[u], vs, base, at, align, u)
    ensures b < |Join(read)| == |Join(before)|
    ensures Join(read)[b] == LaidOver(Join(before), at, Join(vs), base)[b]
  {
    JoinByte(read, align, u, c, b);
    JoinByte(before, align, u, c, b);
    JoinLength(vs, align);
    var inside, t, e := WordPicked(read[u], before[u], vs, base, at, align, u, c, b, |Join(vs)|);
    if inside {
      JoinByte(vs, align, t, c, e);
      ByteInside(Join(read), Join(before), Join(vs), base, at, b, e);
    } else {
      ByteOutside(Join(read), Join(before), Join(vs), base, at, b);
    }
  }

  lemma BytesLaidOver(read: seq<Bytes>, before: seq<Bytes>, vs: seq<Bytes>, base: nat, at: nat, align: nat)
    requires align > 0 && (at - base) % align == 0
    requires AllSized(read, align) && AllSized(before, align) && AllSized(vs, align)
    requires WordsLaidOver(read, before, vs, base, at, align)
    ensures Join(read) == LaidOver(Join(before), at, Join(vs), base)
  {
    JoinLength(read, align);
    JoinLength(before, align);
    forall b: nat | b < |read| * align ensures Join(read)[b] == LaidOver(Join(before), at, Join(vs), base)[b] {
      var u, c := Divide(b, align);
      SmallerMultiple(u, |read|, align);
      ByteOfWord(read, before, vs, base, at, align, u, c, b);
    }
  }

  lemma RangeReadBack(m: Memory, z: Bytes, ops: seq<Op>, align: nat, p: nat, base: nat, vs: seq<Bytes>,
                      q: nat, at: nat, read: seq<Bytes>)
    requires align > 0 && Legal(m, z, ops) && WritesBlock(ops, p, base, vs, align)
    requires p + |vs| <= q && ReadsBlock(ops, q, at, read, align) && QuietRange(ops, p + |vs|, q, at, |read|, align)
    ensures WordsLaidOver(read, SeenRange(m, z, ops[..p], at, |read|, align), vs, base, at, align)
  {
    var before := SeenRange(m, z, ops[..p], at, |read|, align);
    forall u | 0 <= u < |read| ensures WordLaidOver(read[u], before[u], vs, base, at, align, u) {
      assert Untouched(ops, p + |vs|, q, WordAt(at, u, align));
      WordReadBack(m, z, ops, align, p, base, vs, q, at, read, u);
    }
  }

  lemma RangeSized(m: Memory, z: Bytes, ops: seq<Op>, align: nat, p: nat, q: nat, at: nat, read: seq<Bytes>)
    requires WordSized(m, z, ops, align) && p <= |ops| && ReadsBlock(ops, q, at, read, align)
    ensures AllSized(read, align) && AllSized(SeenRange(m, z, ops[..p], at, |read|, align), align)
  {
    forall u | 0 <= u < |read| ensures |read[u]| == align {
      var v := read[u];
      assert ops[q + u].Read? && ops[q + u].val == v;
    }
    forall u | 0 <= u < |read| ensures |SeenRange(m, z, ops[..p], at, |read|, align)[u]| == align {
      SeenSized(m, z, ops[..p], align, WordAt(at, u, align));
    }
  }

  /** A multi-word write of src and a later multi-word read of any range on the same grid, with no other write to that
      range in between: the bytes read are those seen before the write, with src laid over them. */
  lemma ReadBack(m: Memory, z: Bytes, ops: seq<Op>, align: nat, p: nat, base: nat, src: Bytes, n: nat,
                 q: nat, at: nat, read: seq<Bytes>)
    requires align > 0 && WordSized(m, z, ops, align) && Legal(m, z, ops)
    requires |src| == n * align && WritesBlock(ops, p, base, Slices(src, align, n), align)
    requires p + n <= q && ReadsBlock(ops, q, at, read, align) && (at - base) % align == 0
    requires QuietRange(ops, p + n, q, at, |read|, align)
    ensures Join(read) == LaidOver(Join(SeenRange(m, z, ops[..p], at, |read|, align)), at, src, base)
  {
    RangeSized(m, z, ops, align, p, q, at, read);
    RangeReadBack(m, z, ops, align, p, base, Slices(src, align, n), q, at, read);
    BytesLaidOver(read, SeenRange(m, z, ops[..p], at, |read|, align), Slices(src, align, n), base, at, align);
    JoinSlices(src, align, n);
  }

  // ---- in a run ----

  lemma LogSized(s: Stm, k: nat)
    requires Inv(s) && LogsFit(s) && k < |s.members|
    ensures WordSized(Snapshot(s), Zero(s.align), s.members[k].ops, s.align)
    ensures s.align > 0 && Legal(Snapshot(s), Zero(s.align), s.members[k].ops)
  {
    var ops := s.members[k].ops;
    assert LogFits(s, ops) && TxInv(s, s.members[k]);
    forall j | 0 <= j < |ops| && (ops[j].Read? || ops[j].Write?) ensures |ops[j].val| == s.align {
      assert OpFits(s, ops[j]);
    }
  }

  /** In every run, whatever the others do meanwhile: what a transaction reads back from a range, after having written
      src over some or all of it, is src laid over what it saw there before. */
  lemma ReadsBackOwnWrites(r: Run, i: nat, k: nat, p: nat, base: nat, src: Bytes, n: nat, q: nat, at: nat,
                           read: seq<Bytes>)
    requires IsRun(r) && i < |r.states| && k < |r.states[i].members| && p + n <= q
    requires var s := r.states[i]; var ops := s.members[k].ops;
      && s.align > 0 && |src| == n * s.align && (at - base) % s.align == 0
      && WritesBlock(ops, p, base, Slices(src, s.align, n), s.align) && ReadsBlock(ops, q, at, read, s.align)
      && QuietRange(ops, p + n, q, at, |read|, s.align)
    ensures var s := r.states[i];
      Join(read) == LaidOver(
        Join(SeenRange(Snapshot(s), Zero(s.align), s.members[k].ops[..p], at, |read|, s.align)), at, src, base)
  {
    var s := r.states[i];
    RunInv(r, i);
    RunWhole(r, i);
    LogSized(s, k);
    ReadBack(Snapshot(s), Zero(s.align), s.members[k].ops, s.align, p, base, src, n, q, at, read);
  }

  /** The bytes read at address at and after it agree with those written at base and after it. */
  ghost predicate Agrees(read: Bytes, at: nat, src: Bytes, base: nat) {
    read == LaidOver(read, at, src, base)
  }

  /** Member k of ended epoch e committed, wrote the words vs from base on and nothing more there. */
  ghost predicate CommittedBlock(past: seq<seq<Tx>>, e: nat, k: nat, p: nat, base: nat, vs: seq<Bytes>, align: nat) {
    && e < |past| && k < |past[e]| && !past[e][k].aborted
    && WritesBlock(past[e][k].ops, p, base, vs, align)
    && QuietRange(past[e][k].ops, p + |vs|, |past[e][k].ops|, base, |vs|, align)
  }

  lemma BlockIsCommitted(past: seq<seq<Tx>>, e: nat, k: nat, p: nat, base: nat, vs: seq<Bytes>, align: nat, t: nat)
    requires align > 0 && CommittedBlock(past, e, k, p, base, vs, align) && t < |vs|
    ensures CommittedWrote(past[e], k, WordAt(base, t, align))
    ensures Buffer(past[e][k].ops)[WordAt(base, t, align)] == vs[t]
  {
    var ops := past[e][k].ops;
    assert ops[..|ops|] == ops;
    assert Untouched(ops, p + |vs|, |ops|, WordAt(base, t, align));
    BufferInBlock(ops, p, base, vs, align, |ops|, t);
  }

  /** A word read before the reader wrote it itself holds what the memory holds. */
  lemma FirstRead(s: Stm, k: nat, q: nat)
    requires Inv(s) && LogsFit(s) && k < |s.members| && q < |s.members[k].ops| && s.members[k].ops[q].Read?
    requires Untouched(s.members[k].ops, 0, q, s.members[k].ops[q].addr)
    ensures var op := s.members[k].ops[q];
      op.addr in s.cells && op.val == s.cells[op.addr].word.Readable()
  {
    var ops := s.members[k].ops;
    assert LogFits(s, ops) && TxInv(s, s.members[k]);
    assert OpFits(s, ops[q]);
    ReadValue(Snapshot(s), Zero(s.align), ops, q);
    BufferSince(ops, 0, q, ops[q].addr);
  }

  /** A word of a committed block, read by a transaction of a later epoch. */
  lemma LaterWord(r: Run, i: nat, k: nat, q: nat, e: nat, w: nat, p: nat, base: nat, vs: seq<Bytes>, t: nat)
    requires IsRun(r) && i < |r.states| && k < |r.states[i].members| && r.states[i].align > 0
    requires CommittedBlock(r.states[i].past, e, w, p, base, vs, r.states[i].align) && t < |vs|
    requires !Overwritten(r.states[i].past, e, WordAt(base, t, r.states[i].align))
    requires var ops := r.states[i].members[k].ops;
      && q < |ops| && ops[q].Read? && ops[q].addr == WordAt(base, t, r.states[i].align)
      && Untouched(ops, 0, q, ops[q].addr)
    ensures r.states[i].members[k].ops[q].val == vs[t]
  {
    var s := r.states[i];
    RunInv(r, i);
    RunWhole(r, i);
    FirstRead(s, k, q);
    BlockIsCommitted(s.past, e, w, p, base, vs, s.align, t);
    CommittedWriteStays(r, i, e, w, WordAt(base, t, s.align));
  }

  lemma ReadIsFirst(ops: seq<Op>, q: nat, at: nat, read: seq<Bytes>, align: nat, u: nat)
    requires ReadsBlock(ops, q, at, read, align) && QuietRange(ops, 0, q, at, |read|, align) && u < |read|
    ensures ops[q + u].Read? && ops[q + u].addr == WordAt(at, u, align) && ops[q + u].val == read[u]
    ensures Untouched(ops, 0, q + u, ops[q + u].addr)
  {
    var v := read[u];
    assert Untouched(ops, 0, q, WordAt(at, u, align));
    OnlyReads(ops, q, at, read, align);
  }

  /** In every run: a transaction that reads a range it has not written itself finds there, byte for byte, what a
      committed transaction of an earlier epoch wrote in one multi-word access, where the ranges overlap and no epoch
      since then overwrote the words. */
  lemma LaterReadsAgree(r: Run, i: nat, k: nat, q: nat, at: nat, read: seq<Bytes>,
                        e: nat, w: nat, p: nat, base: nat, src: Bytes, n: nat)
    requires IsRun(r) && i < |r.states| && k < |r.states[i].members|
    requires var s := r.states[i];
      && s.align > 0 && |src| == n * s.align && (at - base) % s.align == 0
      && CommittedBlock(s.past, e, w, p, base, Slices(src, s.align, n), s.align)
      && (forall t {:trigger WordAt(base, t, s.align)} :: 0 <= t < n ==>
          !Overwritten(s.past, e, WordAt(base, t, s.align)))
      && ReadsBlock(s.members[k].ops, q, at, read, s.align)
      && QuietRange(s.members[k].ops, 0, q, at, |read|, s.align)
    ensures Agrees(Join(read), at, src, base)
  {
    var s := r.states[i];
    var vs := Slices(src, s.align, n);
    forall u | 0 <= u < |read| ensures WordLaidOver(read[u], read[u], vs, base, at, s.align, u) {
      forall t: nat | t < |vs| && WordAt(at, u, s.align) == WordAt(base, t, s.align) ensures read[u] == vs[t] {
        ReadIsFirst(s.members[k].ops, q, at, read, s.align, u);
        LaterWord(r, i, k, q + u, e, w, p, base, vs, t);
      }
    }
    RunInv(r, i);
    RunWhole(r, i);
    LogSized(s, k);
    RangeSized(Snapshot(s), Zero(s.align), s.members[k].ops, s.align, 0, q, at, read);
    BytesLaidOver(read, read, vs, base, at, s.align);
    JoinSlices(src, s.align, n);
  }

  // ---- a writer that aborts ----

  lemma AbortedSegmentGoes(s: Stm, l: nat, k: nat, a: nat)
    requires BatchInv(s) && LastLeave(s, l) && k < |s.members| && s.members[k].aborted && a in s.cells
    ensures s.cells[a].seg in s.members[k].owned ==> a !in DoLeave(s, l).cells
  {
    var ids, ms := Depart(s.batcher, l, s.members[l].aborted).aborted, Done(s, l);
    SortedAtLastLeave(s, l);
    assert ms[k].aborted && k in ids && ms[k].owned == s.members[k].owned;
    assert s.cells[a].seg in s.members[k].owned ==> OwnedBy(ms, ids, s.cells[a].seg);
  }

  lemma NobodyElseWrote(s: Stm, k: nat, a: nat)
    requires Inv(s) && k < |s.members| && a in s.cells && a in Buffer(s.members[k].ops)
    ensures forall i :: 0 <= i < |s.members| && a in s.members[i].written ==> i == k
  {
    assert TxInv(s, s.members[k]);
    assert WordInv(s.cells[a].word, s.members, a);
  }

  lemma NoCommittedWrite(s: Stm, l: nat, k: nat, a: nat)
    requires Inv(s) && LastLeave(s, l) && k < |s.members| && s.members[k].aborted
    requires a in s.cells && a in Buffer(s.members[k].ops)
    ensures !Wrote(Done(s, l), Depart(s.batcher, l, s.members[l].aborted).committed, a)
  {
    SortedAtLastLeave(s, l);
    NobodyElseWrote(s, k, a);
    assert forall i :: 0 <= i < |s.members| ==> Done(s, l)[i].written == s.members[i].written;
  }

  /** Whatever an aborted transaction wrote, completely or in part, is undone by the end of its epoch: the words read as
      before, their control fields are clear, and what it allocated is gone. */
  lemma AbortUndoes(s: Stm, l: nat, k: nat, a: nat)
    requires Inv(s) && LastLeave(s, l) && k < |s.members| && s.members[k].aborted && a in s.cells
    ensures a in Buffer(s.members[k].ops) && a in DoLeave(s, l).cells ==>
      DoLeave(s, l).cells[a].word.Readable() == s.cells[a].word.Readable() && DoLeave(s, l).cells[a].word.Clean()
    ensures s.cells[a].seg in s.members[k].owned ==> a !in DoLeave(s, l).cells
  {
    AbortedSegmentGoes(s, l, k, a);
    if a in Buffer(s.members[k].ops) && a in DoLeave(s, l).cells {
      EpochEndIsClean(s, l);
      NoCommittedWrite(s, l, k, a);
      WordAtEpochEnd(s, l, a);
    }
  }
}
