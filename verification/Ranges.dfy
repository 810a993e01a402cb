/** Accesses to several consecutive words, one after the other until one refuses. */
module Ranges {
  import opened Words
  import opened Arithmetic

  /** Concatenation of the words' bytes. */
  function Join(vs: seq<Bytes>): Bytes {
    if vs == [] then [] else Join(vs[..|vs| - 1]) + vs[|vs| - 1]
  }

  lemma JoinOne(vs: seq<Bytes>, i: nat)
    requires i < |vs|
    ensures Join(vs[..i + 1]) == Join(vs[..i]) + vs[i]
  {
    assert vs[..i + 1][..i] == vs[..i];
  }

  /** The bytes of the i-th word of a buffer. */
  function WordOf(b: Bytes, align: nat, i: nat): Bytes {
    if i * align + align <= |b| then b[i * align..i * align + align] else []
  }

  lemma SliceFits(n: nat, align: nat, i: nat)
    requires i < n
    ensures i * align + align <= n * align
  {
    AtLeastOne(n - i, align);
    assert n * align == i * align + (n - i) * align;
  }

  lemma OneLess(n: nat, align: nat)
    requires n > 0
    ensures n * align == (n - 1) * align + align
  {
  }

  /** A buffer cut into words. */
  function Slices(src: Bytes, align: nat, n: nat): (vs: seq<Bytes>)
    requires |src| == n * align
    ensures |vs| == n && forall i :: 0 <= i < n ==> |vs[i]| == align
    decreases n
  {
    if n == 0 then []
    else
      OneLess(n, align);
      Slices(src[..|src| - align], align, n - 1) + [src[|src| - align..]]
  }

  /** The i-th slice sits at offset i * align. */
  lemma {:induction false} SliceAt(src: Bytes, align: nat, n: nat, i: nat)
    requires |src| == n * align && i < n
    ensures WordOf(src, align, i) == Slices(src, align, n)[i]
    decreases n
  {
    OneLess(n, align);
    SliceFits(n, align, i);
    if i < n - 1 {
      SliceAt(src[..|src| - align], align, n - 1, i);
    }
  }

  lemma {:induction false} JoinLength(vs: seq<Bytes>, align: nat)
    requires forall i :: 0 <= i < |vs| ==> |vs[i]| == align
    ensures |Join(vs)| == |vs| * align
  {
    if vs != [] {
      JoinLength(vs[..|vs| - 1], align);
      assert |vs| * align == (|vs| - 1) * align + align;
    }
  }

  /** The bytes of word i sit at offset i * align. */
  lemma {:induction false} JoinAt(vs: seq<Bytes>, align: nat, i: nat)
    requires i < |vs| && forall j :: 0 <= j < |vs| ==> |vs[j]| == align
    ensures WordOf(Join(vs), align, i) == vs[i]
  {
    var f := vs[..|vs| - 1];
    JoinLength(f, align);
    JoinLength(vs, align);
    SliceFits(|vs|, align, i);
    if i < |f| {
      JoinAt(f, align, i);
      SliceFits(|f|, align, i);
    } else {
      assert i * align == |Join(f)|;
    }
  }

  /** Cutting a buffer into words and joining them gives the buffer back. */
  lemma {:induction false} JoinSlices(src: Bytes, align: nat, n: nat)
    requires |src| == n * align
    ensures Join(Slices(src, align, n)) == src
    decreases n
  {
    if n > 0 {
      OneLess(n, align);
      JoinSlices(src[..|src| - align], align, n - 1);
      assert Slices(src, align, n)[..n - 1] == Slices(src[..|src| - align], align, n - 1);
    }
  }

  // ---- ranges of words ----

  predicate ReadOk(w: WordState, tr: nat, readOnly: bool) {
    ReadFor(w, tr, readOnly).ok
  }

  predicate WriteOk(w: WordState, tr: nat) {
    WriteBy(w, tr, []).ok
  }

  /** How many words a read by transaction tr gets through. */
  function ReadsDone(ws: seq<WordState>, tr: nat, readOnly: bool): (n: nat)
    ensures n <= |ws|
  {
    if ws == [] || !ReadOk(ws[0], tr, readOnly) then 0 else 1 + ReadsDone(ws[1..], tr, readOnly)
  }

  function WritesDone(ws: seq<WordState>, tr: nat): (n: nat)
    ensures n <= |ws|
  {
    if ws == [] || !WriteOk(ws[0], tr) then 0 else 1 + WritesDone(ws[1..], tr)
  }

  lemma {:induction false} ReadsDoneIs(ws: seq<WordState>, tr: nat, readOnly: bool, n: nat)
    requires n <= |ws| && (forall i :: 0 <= i < n ==> ReadOk(ws[i], tr, readOnly))
    requires (n < |ws| ==> !ReadOk(ws[n], tr, readOnly))
    ensures ReadsDone(ws, tr, readOnly) == n
  {
    if n > 0 {
      ReadsDoneIs(ws[1..], tr, readOnly, n - 1);
    }
  }

  lemma {:induction false} WritesDoneIs(ws: seq<WordState>, tr: nat, n: nat)
    requires n <= |ws| && (forall i :: 0 <= i < n ==> WriteOk(ws[i], tr)) && (n < |ws| ==> !WriteOk(ws[n], tr))
    ensures WritesDone(ws, tr) == n
  {
    if n > 0 {
      WritesDoneIs(ws[1..], tr, n - 1);
    }
  }

  /** The words after a read; those from the refusing one on are untouched. */
  function AfterRead(ws: seq<WordState>, tr: nat, readOnly: bool): (r: seq<WordState>)
    ensures |r| == |ws|
  {
    seq(|ws|, i requires 0 <= i < |ws| =>
      if i < ReadsDone(ws, tr, readOnly) then ReadFor(ws[i], tr, readOnly).word else ws[i])
  }

  function AfterWrite(ws: seq<WordState>, tr: nat, vs: seq<Bytes>): (r: seq<WordState>)
    requires |vs| == |ws|
    ensures |r| == |ws|
  {
    seq(|ws|, i requires 0 <= i < |ws| => if i < WritesDone(ws, tr) then WriteBy(ws[i], tr, vs[i]).word else ws[i])
  }

  function ValuesRead(ws: seq<WordState>, tr: nat, readOnly: bool): (vs: seq<Bytes>)
    ensures |vs| == |ws|
  {
    seq(|ws|, i requires 0 <= i < |ws| => ReadFor(ws[i], tr, readOnly).val)
  }

  /** Which of the words enter the transaction's read map. */
  function ReadMarks(ws: seq<WordState>, tr: nat, readOnly: bool): (marks: seq<bool>)
    ensures |marks| == |ws|
  {
    seq(|ws|, i requires 0 <= i < |ws| => ReadFor(ws[i], tr, readOnly).recorded)
  }

  function WriteMarks(ws: seq<WordState>, tr: nat): (marks: seq<bool>)
    ensures |marks| == |ws|
  {
    seq(|ws|, i requires 0 <= i < |ws| => WriteBy(ws[i], tr, []).recorded)
  }

  // ---- the round trip ----

  /** A word reads back, for its writer, what was written to it, however often it is read. */
  lemma WordRoundTrip(w: WordState, tr: nat, v: Bytes)
    requires WriteOk(w, tr)
    ensures var w2 := WriteBy(w, tr, v).word; ReadBy(w2, tr) == Access(w2, true, v, false)
  {
  }

  lemma {:induction false} AllWritten(ws: seq<WordState>, tr: nat, i: nat)
    requires i < WritesDone(ws, tr)
    ensures WriteOk(ws[i], tr)
  {
    if i > 0 {
      AllWritten(ws[1..], tr, i - 1);
    }
  }

  /** After a complete write of src, the writer's read of the same words succeeds and returns src. */
  lemma WriteThenRead(ws: seq<WordState>, tr: nat, src: Bytes, align: nat)
    requires |src| == |ws| * align && WritesDone(ws, tr) == |ws|
    ensures var ws2 := AfterWrite(ws, tr, Slices(src, align, |ws|));
      ReadsDone(ws2, tr, false) == |ws2| && AfterRead(ws2, tr, false) == ws2 && Join(ValuesRead(ws2, tr, false)) == src
  {
    var vs := Slices(src, align, |ws|);
    var ws2 := AfterWrite(ws, tr, vs);
    forall i | 0 <= i < |ws| ensures ReadBy(ws2[i], tr) == Access(ws2[i], true, vs[i], false) {
      AllWritten(ws, tr, i);
      WordRoundTrip(ws[i], tr, vs[i]);
    }
    ReadsDoneIs(ws2, tr, false, |ws|);
    assert ValuesRead(ws2, tr, false) == vs;
    JoinSlices(src, align, |ws|);
  }

  /** The readable copies once the words have been settled for a writer that committed, or did not. */
  function ReadableAfter(ws: seq<WordState>, committed: bool): (vs: seq<Bytes>)
    ensures |vs| == |ws|
  {
    seq(|ws|, i requires 0 <= i < |ws| => Settled(ws[i], committed, true).Readable())
  }

  /** If the writer commits, the words' next readable copies are src. */
  lemma WriteThenCommit(ws: seq<WordState>, tr: nat, src: Bytes, align: nat)
    requires |src| == |ws| * align && WritesDone(ws, tr) == |ws|
    ensures Join(ReadableAfter(AfterWrite(ws, tr, Slices(src, align, |ws|)), true)) == src
  {
    var vs := Slices(src, align, |ws|);
    forall i | 0 <= i < |ws| ensures WriteBy(ws[i], tr, vs[i]).word.Updated().Readable() == vs[i] {
      AllWritten(ws, tr, i);
    }
    assert ReadableAfter(AfterWrite(ws, tr, vs), true) == vs;
    JoinSlices(src, align, |ws|);
  }

  /** A write that stops part-way, or whose writer aborts later, leaves no trace:
      every word reads as before and its control fields are clear. */
  lemma WriteThenAbort(ws: seq<WordState>, tr: nat, vs: seq<Bytes>)
    requires |vs| == |ws|
    ensures ReadableAfter(AfterWrite(ws, tr, vs), false) == ReadableAfter(ws, false)
    ensures forall i :: 0 <= i < |ws| ==>
      Settled(AfterWrite(ws, tr, vs)[i], false, true).Clean() && ReadableAfter(ws, false)[i] == ws[i].Readable()
  {
    forall i | 0 <= i < |ws|
      ensures Settled(AfterWrite(ws, tr, vs)[i], false, true).Readable() == ws[i].Readable()
    {
      assert WriteBy(ws[i], tr, vs[i]).word.Readable() == ws[i].Readable();
    }
  }

  /** Words p..p+n of a segment written, the others as they were. */
  function AfterWriteAt(before: seq<WordState>, tr: nat, vs: seq<Bytes>, p: nat): (r: seq<WordState>)
    requires p + |vs| <= |before|
    ensures |r| == |before|
  {
    before[..p] + AfterWrite(before[p..p + |vs|], tr, vs) + before[p + |vs|..]
  }

  lemma WrittenReads(before: seq<WordState>, tr: nat, vs: seq<Bytes>, p: nat, i: nat)
    requires p + |vs| <= |before| && p <= i < p + |vs| && WritesDone(before[p..p + |vs|], tr) == |vs|
    ensures ReadBy(AfterWriteAt(before, tr, vs, p)[i], tr).val == vs[i - p]
  {
    AllWritten(before[p..p + |vs|], tr, i - p);
    WordRoundTrip(before[i], tr, vs[i - p]);
  }

  /** A word read inside the written range gives the value written to it. */
  lemma OverlapValue(before: seq<WordState>, tr: nat, vs: seq<Bytes>, p: nat, lo: nat, hi: nat, d: nat)
    requires p + |vs| <= |before| && WritesDone(before[p..p + |vs|], tr) == |vs|
    requires lo + d < hi <= |before| && p <= lo + d < p + |vs|
    ensures ValuesRead(AfterWriteAt(before, tr, vs, p)[lo..hi], tr, false)[d] == vs[lo + d - p]
  {
    var ws := AfterWriteAt(before, tr, vs, p)[lo..hi];
    assert ws[d] == AfterWriteAt(before, tr, vs, p)[lo + d];
    WrittenReads(before, tr, vs, p, lo + d);
  }

  lemma SameSlice(read: seq<Bytes>, d: nat, src: Bytes, vs: seq<Bytes>, align: nat, n: nat, e: nat)
    requires |src| == n * align && vs == Slices(src, align, n) && e < n
    requires d < |read| && read[d] == vs[e] && forall v :: v in read ==> |v| == align
    ensures WordOf(Join(read), align, d) == WordOf(src, align, e)
  {
    JoinAt(read, align, d);
    SliceAt(src, align, n, e);
  }

  lemma {:induction false} AllRead(ws: seq<WordState>, tr: nat, i: nat)
    requires i < ReadsDone(ws, tr, false)
    ensures ReadOk(ws[i], tr, false)
  {
    if i > 0 {
      AllRead(ws[1..], tr, i - 1);
    }
  }

  lemma SizedAfter(before: seq<WordState>, tr: nat, vs: seq<Bytes>, align: nat, p: nat, i: nat)
    requires p + |vs| <= |before| && i < |before|
    requires forall w :: w in before ==> w.Sized(align)
    requires forall j :: 0 <= j < |vs| ==> |vs[j]| == align
    ensures AfterWriteAt(before, tr, vs, p)[i].Sized(align)
  {
    assert before[i] in before;
    if p <= i < p + |vs| {
      assert before[p..p + |vs|][i - p] == before[i];
    }
  }

  lemma SizedReads(before: seq<WordState>, tr: nat, vs: seq<Bytes>, align: nat, p: nat, lo: nat, hi: nat)
    requires p + |vs| <= |before| && lo <= hi <= |before|
    requires forall w :: w in before ==> w.Sized(align)
    requires forall j :: 0 <= j < |vs| ==> |vs[j]| == align
    requires ReadsDone(AfterWriteAt(before, tr, vs, p)[lo..hi], tr, false) == hi - lo
    ensures forall v :: v in ValuesRead(AfterWriteAt(before, tr, vs, p)[lo..hi], tr, false) ==> |v| == align
  {
    var ws := AfterWriteAt(before, tr, vs, p)[lo..hi];
    forall j | 0 <= j < |ws| ensures |ReadBy(ws[j], tr).val| == align {
      AllRead(ws, tr, j);
      SizedAfter(before, tr, vs, align, p, lo + j);
    }
  }

  /** A word outside the written range gives what it gave before. */
  lemma OutsideValue(before: seq<WordState>, tr: nat, vs: seq<Bytes>, p: nat, lo: nat, hi: nat, d: nat)
    requires p + |vs| <= |before| && lo + d < hi <= |before| && !(p <= lo + d < p + |vs|)
    ensures ValuesRead(AfterWriteAt(before, tr, vs, p)[lo..hi], tr, false)[d] == ReadBy(before[lo + d], tr).val
  {
    var ws := AfterWriteAt(before, tr, vs, p)[lo..hi];
    assert ws[d] == AfterWriteAt(before, tr, vs, p)[lo + d];
  }

  /** Reading words lo..hi right after a complete write of words p..p+n: a word inside the written range contributes its
      slice of src at its own offset, any other what it gave before the write. */
  lemma OverlappingRead(before: seq<WordState>, after: seq<WordState>, tr: nat, src: Bytes, align: nat, n: nat,
                        vs: seq<Bytes>, p: nat, lo: nat, hi: nat, d: nat)
    requires |src| == n * align && vs == Slices(src, align, n)
    requires p + |vs| <= |before| && WritesDone(before[p..p + |vs|], tr) == |vs|
    requires after == AfterWriteAt(before, tr, vs, p)
    requires lo + d < hi <= |after|
    requires forall w :: w in before ==> w.Sized(align)
    requires ReadsDone(after[lo..hi], tr, false) == hi - lo
    ensures WordOf(Join(ValuesRead(after[lo..hi], tr, false)), align, d) ==
      if p <= lo + d < p + n then WordOf(src, align, lo + d - p) else ReadBy(before[lo + d], tr).val
  {
    SizedReads(before, tr, vs, align, p, lo, hi);
    if p <= lo + d < p + n {
      OverlapValue(before, tr, vs, p, lo, hi, d);
      SameSlice(ValuesRead(after[lo..hi], tr, false), d, src, vs, align, n, lo + d - p);
    } else {
      OutsideValue(before, tr, vs, p, lo, hi, d);
      JoinAt(ValuesRead(after[lo..hi], tr, false), align, d);
    }
  }
}
