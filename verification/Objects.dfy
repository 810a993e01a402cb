/** The objects of the memory, updated in place, each method proved against the value-level functions. */
module Objects {
  import opened Arithmetic
  import opened Words
  import opened Ranges
  import opened Index

  class Word {
    const alignment: nat
    const addr: nat
    var copyA: Bytes
    var copyB: Bytes
    var isCopyAReadable: bool
    var lastTxAccessed: nat
    var accessedByMany: bool
    var written: bool

    ghost function State(): WordState
      reads this
    {
      WordState(copyA, copyB, isCopyAReadable, lastTxAccessed, accessedByMany, written)
    }

    constructor (alignment: nat, addr: nat)
      ensures this.alignment == alignment && this.addr == addr && State() == NewWord(alignment)
      ensures |copyA| == |copyB| == alignment && forall i :: 0 <= i < alignment ==> copyA[i] == 0 && copyB[i] == 0
    {
      this.alignment := alignment;
      this.addr := addr;
      copyA := Zero(alignment);
      copyB := Zero(alignment);
      isCopyAReadable := true;
      lastTxAccessed := 0;
      accessedByMany := false;
      written := false;
    }

    method AddToAccessSet(tx: Transaction, writing: bool)
      modifies this, tx`written, tx`read
      ensures State() == old(State()).Recorded(tx.trNum, writing)
      ensures tx.written == if writing then old(tx.written)[addr := this] else old(tx.written)
      ensures tx.read == if writing then old(tx.read) else old(tx.read)[addr := this]
    {
      if writing {
        written := true;
        tx.written := tx.written[addr := this];
      } else {
        tx.read := tx.read[addr := this];
      }
      if lastTxAccessed == 0 {
        lastTxAccessed := tx.trNum;
      } else if lastTxAccessed != tx.trNum {
        accessedByMany := true;
        lastTxAccessed := tx.trNum;
      }
    }

    method ReadCopy(readable: bool) returns (target: Bytes)
      ensures target == if readable then State().Readable() else State().Writable()
    {
      if readable {
        if isCopyAReadable { target := copyA; } else { target := copyB; }
      } else {
        if !isCopyAReadable { target := copyA; } else { target := copyB; }
      }
    }

    method WriteCopy(source: Bytes)
      modifies this`copyA, this`copyB
      ensures State() == old(State()).WithWritable(source)
    {
      if !isCopyAReadable { copyA := source; } else { copyB := source; }
    }

    method Read(tx: Transaction) returns (ok: bool, target: Bytes)
      modifies this, tx`written, tx`read, tx`aborted
      ensures tx.written == old(tx.written)
      ensures var r := ReadFor(old(State()), tx.trNum, tx.isReadOnly);
        && ok == r.ok && (ok ==> target == r.val) && State() == r.word
        && tx.read == (if r.recorded then old(tx.read)[addr := this] else old(tx.read))
        && tx.aborted == (old(tx.aborted) || !ok)
    {
      if tx.isReadOnly {
        target := ReadCopy(true);
        return true, target;
      }
      if written {
        if lastTxAccessed == tx.trNum {
          target := ReadCopy(false);
          return true, target;
        } else {
          tx.aborted := true;
          return false, [];
        }
      } else {
        AddToAccessSet(tx, false);
        target := ReadCopy(true);
        return true, target;
      }
    }

    method Write(tx: Transaction, source: Bytes) returns (ok: bool)
      modifies this, tx`written, tx`read, tx`aborted, tx`hasWritten
      ensures var r := WriteBy(old(State()), tx.trNum, source);
        && ok == r.ok && State() == r.word
        && tx.written == (if r.recorded then old(tx.written)[addr := this] else old(tx.written))
        && tx.aborted == (old(tx.aborted) || !ok)
        && tx.hasWritten == (old(tx.hasWritten) || ok)
      ensures tx.read == old(tx.read)
    {
      if written {
        if lastTxAccessed == tx.trNum {
          WriteCopy(source);
          tx.hasWritten := true;
          return true;
        } else {
          tx.aborted := true;
          return false;
        }
      } else {
        if accessedByMany {
          tx.aborted := true;
          return false;
        } else {
          WriteCopy(source);
          AddToAccessSet(tx, true);
          tx.hasWritten := true;
          return true;
        }
      }
    }

    method ResetState()
      modifies this`written, this`lastTxAccessed, this`accessedByMany
      ensures State() == old(State()).Reset()
    {
      written := false;
      lastTxAccessed := 0;
      accessedByMany := false;
    }

    method UpdateWritten()
      modifies this`written, this`lastTxAccessed, this`accessedByMany, this`isCopyAReadable
      ensures State() == old(State()).Updated()
    {
      ResetState();
      isCopyAReadable := !isCopyAReadable;
    }
  }

  /** One pass over an access map, in no particular order. */
  method UpdateAll(m: map<nat, Word>)
    requires forall a :: a in m ==> m[a].addr == a
    modifies m.Values
    ensures forall w :: w in m.Values ==> w.State() == old(w.State()).Updated()
  {
    var todo := m.Keys;
    while todo != {}
      invariant todo <= m.Keys
      invariant forall w :: w in m.Values ==>
        w.State() == if w.addr in todo then old(w.State()) else old(w.State()).Updated()
    {
      var a :| a in todo;
      m[a].UpdateWritten();
      todo := todo - {a};
    }
  }

  method ResetAll(m: map<nat, Word>)
    requires forall a :: a in m ==> m[a].addr == a
    modifies m.Values
    ensures forall w :: w in m.Values ==> w.State() == old(w.State()).Reset()
  {
    var todo := m.Keys;
    while todo != {}
      invariant todo <= m.Keys
      invariant forall w :: w in m.Values ==>
        w.State() == if w.addr in todo then old(w.State()) else old(w.State()).Reset()
    {
      var a :| a in todo;
      m[a].ResetState();
      todo := todo - {a};
    }
  }

  // ---- the ranges of a map of segments ----

  ghost function ExtentsOf(m: map<nat, Segment>): map<nat, nat> {
    map st | st in m :: m[st].end
  }

  /** A map of segments by start address and the map from their ends agree, and no two segments overlap. */
  ghost predicate IndexOk(m: map<nat, Segment>, ends: map<nat, nat>) {
    && (forall st :: st in m ==> m[st].startAddress == st && m[st].Measured())
    && Consistent(ExtentsOf(m), ends) && Disjoint(ExtentsOf(m))
  }

  lemma ExtentsPut(m: map<nat, Segment>, st: nat, sg: Segment)
    ensures ExtentsOf(m[st := sg]) == ExtentsOf(m)[st := sg.end]
  {
  }

  /** Both maps after a segment that lies apart from the others is added. */
  lemma PutKeeps(m: map<nat, Segment>, ends: map<nat, nat>, st: nat, sg: Segment)
    requires IndexOk(m, ends) && sg.startAddress == st < sg.end && sg.Measured()
    requires Apart(ExtentsOf(m), st, sg.end)
    ensures IndexOk(m[st := sg], ends[sg.end := st])
  {
    ExtentsPut(m, st, sg);
    AddKeeps(ExtentsOf(m), ends, st, sg.end);
  }

  class Transaction {
    const epoch: nat
    const isReadOnly: bool
    const trNum: nat
    var hasWritten: bool
    var aborted: bool
    var owned: map<nat, Segment>
    var ownedEnds: map<nat, nat>
    var freed: seq<nat>
    var written: map<nat, Word>
    var read: map<nat, Word>

    constructor (epoch: nat, isReadOnly: bool, trNum: nat)
      ensures this.epoch == epoch && this.isReadOnly == isReadOnly && this.trNum == trNum
      ensures !hasWritten && !aborted && owned == map[] && ownedEnds == map[] && freed == []
      ensures written == map[] && read == map[]
    {
      this.epoch := epoch;
      this.isReadOnly := isReadOnly;
      this.trNum := trNum;
      hasWritten, aborted := false, false;
      owned, ownedEnds, freed := map[], map[], [];
      written, read := map[], map[];
    }

    /** Each map leads from an address to the one word at that address. */
    ghost predicate MapsValid()
      reads this
    {
      && (forall a :: a in written ==> written[a].addr == a)
      && (forall a :: a in read ==> read[a].addr == a)
      && (forall a :: a in written && a in read ==> written[a] == read[a])
    }

    /** Ranges of the private segments. */
    ghost function Extents(): map<nat, nat>
      reads this
    {
      ExtentsOf(owned)
    }

    ghost predicate IndexValid()
      reads this
    {
      IndexOk(owned, ownedEnds)
    }

    method AddSegment(segment: Segment, startAddress: nat)
      requires IndexValid() && segment.startAddress == startAddress < segment.end && segment.Measured()
      requires Apart(Extents(), startAddress, segment.end)
      modifies this`owned, this`ownedEnds
      ensures owned == old(owned)[startAddress := segment]
      ensures ownedEnds == old(ownedEnds)[segment.end := startAddress]
      ensures IndexValid()
    {
      PutKeeps(owned, ownedEnds, startAddress, segment);
      owned := owned[startAddress := segment];
      var endAddress := startAddress + segment.numWords * segment.alignment;
      ownedEnds := ownedEnds[endAddress := startAddress];
    }

    /** The private segment whose range contains the address, if any. */
    method FindSegment(addr: nat) returns (sg: Segment?)
      requires IndexValid()
      ensures sg != null <==> Holds(Extents(), addr)
      ensures sg != null ==> Contains(Extents(), sg.startAddress, addr) && owned[sg.startAddress] == sg
    {
      var found, startAddr := Lookup(ownedEnds, addr, Extents());
      sg := if found then owned[startAddr] else null;
    }

    ghost function Touched(): set<Word>
      reads this
    {
      written.Values + read.Values
    }

    /** The words written are swapped, all accessed words are cleared, in whatever order. */
    method Commit()
      requires MapsValid() && !aborted
      modifies Touched()
      ensures forall w :: w in Touched() ==> w.State() == Settled(old(w.State()), w in written.Values, true)
    {
      UpdateAll(written);
      ResetAll(read);
    }

    /** All accessed words are cleared and none is swapped. */
    method Abort()
      requires MapsValid() && aborted
      modifies Touched()
      ensures forall w :: w in Touched() ==> w.State() == Settled(old(w.State()), false, true)
    {
      ResetAll(written);
      ResetAll(read);
    }
  }

  // ---- loops over consecutive words ----

  ghost predicate Separate(q: seq<Word>) {
    forall i, j :: 0 <= i < j < |q| ==> q[i] != q[j]
  }

  ghost function States(q: seq<Word>): (r: seq<WordState>)
    reads q
    ensures |r| == |q|
  {
    seq(|q|, i requires 0 <= i < |q| reads q => q[i].State())
  }

  /** The words' states now, when done of them have been read from states ws. */
  ghost predicate ReadsGone(now: seq<WordState>, ws: seq<WordState>, tr: nat, readOnly: bool, done: nat)
    requires done <= |now| == |ws|
  {
    && (forall j :: 0 <= j < |now| ==> now[j] == if j < done then ReadFor(ws[j], tr, readOnly).word else ws[j])
    && (forall j :: 0 <= j < done ==> ReadOk(ws[j], tr, readOnly))
  }

  ghost predicate WordsRead(q: seq<Word>, ws: seq<WordState>, tr: nat, readOnly: bool, done: nat)
    requires done <= |q| == |ws|
    reads q
  {
    ReadsGone(States(q), ws, tr, readOnly, done)
  }

  /** An access map after the marked words of q entered it. */
  ghost function Extended(m: map<nat, Word>, q: seq<Word>, marks: seq<bool>): map<nat, Word>
    requires |q| <= |marks|
  {
    if q == [] then m
    else
      var n, w := |q| - 1, q[|q| - 1];
      if marks[n] then Extended(m, q[..n], marks)[w.addr := w] else Extended(m, q[..n], marks)
  }

  ghost predicate Gathered(q: seq<Word>, ws: seq<WordState>, tr: nat, readOnly: bool, m: map<nat, Word>,
                           read: map<nat, Word>, target: Bytes, done: nat)
    requires done <= |q| == |ws|
  {
    && target == Join(ValuesRead(ws, tr, readOnly)[..done])
    && read == Extended(m, q[..done], ReadMarks(ws, tr, readOnly))
  }

  /** done words of q have been read, starting from states ws and read map m. */
  ghost predicate ReadSoFar(q: seq<Word>, ws: seq<WordState>, tx: Transaction, m: map<nat, Word>, target: Bytes,
                            done: nat)
    requires done <= |q| == |ws|
    reads q, tx
  {
    && WordsRead(q, ws, tx.trNum, tx.isReadOnly, done)
    && Gathered(q, ws, tx.trNum, tx.isReadOnly, m, tx.read, target, done)
  }

  lemma GatherNone(q: seq<Word>, ws: seq<WordState>, tr: nat, readOnly: bool, m: map<nat, Word>)
    requires |ws| == |q|
    ensures ReadsGone(ws, ws, tr, readOnly, 0) && Gathered(q, ws, tr, readOnly, m, m, [], 0)
  {
    assert ValuesRead(ws, tr, readOnly)[..0] == [];
  }

  lemma ReadsGoOn(now: seq<WordState>, ws: seq<WordState>, tr: nat, readOnly: bool, done: nat)
    requires done < |now| == |ws| && ReadsGone(now, ws, tr, readOnly, done)
    ensures var r := ReadFor(ws[done], tr, readOnly);
      ReadsGone(now[done := r.word], ws, tr, readOnly, if r.ok then done + 1 else done)
  {
  }

  lemma ExtendOne(m: map<nat, Word>, q: seq<Word>, marks: seq<bool>, i: nat)
    requires i < |q| <= |marks|
    ensures Extended(m, q[..i + 1], marks) ==
      if marks[i] then Extended(m, q[..i], marks)[q[i].addr := q[i]] else Extended(m, q[..i], marks)
  {
    assert q[..i + 1][..i] == q[..i];
  }

  lemma GatherOne(q: seq<Word>, ws: seq<WordState>, tr: nat, readOnly: bool, m: map<nat, Word>,
                  read: map<nat, Word>, target: Bytes, done: nat)
    requires done < |q| == |ws| && Gathered(q, ws, tr, readOnly, m, read, target, done)
    ensures var r := ReadFor(ws[done], tr, readOnly);
      Gathered(q, ws, tr, readOnly, m, if r.recorded then read[q[done].addr := q[done]] else read,
               target + r.val, done + 1)
  {
    ExtendOne(m, q, ReadMarks(ws, tr, readOnly), done);
    JoinOne(ValuesRead(ws, tr, readOnly), done);
  }

  /** One more word has been read, or it refused. */
  lemma GatherNext(q: seq<Word>, ws: seq<WordState>, tr: nat, readOnly: bool, m: map<nat, Word>, read: map<nat, Word>,
                   target: Bytes, done: nat, ok: bool, read2: map<nat, Word>, target2: Bytes)
    requires done < |q| == |ws| && Gathered(q, ws, tr, readOnly, m, read, target, done)
    requires var r := ReadFor(ws[done], tr, readOnly);
      && ok == r.ok && read2 == (if r.recorded then read[q[done].addr := q[done]] else read)
      && target2 == if ok then target + r.val else target
    ensures Gathered(q, ws, tr, readOnly, m, read2, target2, if ok then done + 1 else done)
  {
    GatherOne(q, ws, tr, readOnly, m, read, target, done);
  }

  method ReadNext(q: seq<Word>, tx: Transaction, target: Bytes, done: nat, ghost ws: seq<WordState>,
                  ghost m: map<nat, Word>)
    returns (ok: bool, target2: Bytes)
    requires Separate(q) && done < |q| == |ws| && ReadSoFar(q, ws, tx, m, target, done)
    modifies q, tx`written, tx`read, tx`aborted
    ensures tx.written == old(tx.written) && tx.aborted == (old(tx.aborted) || !ok)
    ensures ok == ReadOk(ws[done], tx.trNum, tx.isReadOnly)
    ensures ReadSoFar(q, ws, tx, m, target2, if ok then done + 1 else done)
  {
    ghost var read, now := tx.read, States(q);
    ReadsGoOn(now, ws, tx.trNum, tx.isReadOnly, done);
    var v;
    ok, v := q[done].Read(tx);
    if ok { target2 := target + v; } else { target2 := target; }
    assert States(q) == now[done := ReadFor(ws[done], tx.trNum, tx.isReadOnly).word];
    GatherNext(q, ws, tx.trNum, tx.isReadOnly, m, read, target, done, ok, tx.read, target2);
  }

  /** Reads words of q until one refuses, and tells how many were read. */
  method ReadWords(q: seq<Word>, tx: Transaction) returns (ok: bool, target: Bytes, done: nat)
    requires Separate(q)
    modifies q, tx`written, tx`read, tx`aborted
    ensures tx.written == old(tx.written) && tx.aborted == (old(tx.aborted) || !ok)
    ensures done <= |q| && ok == (done == |q|)
    ensures var ws := old(States(q));
      ReadSoFar(q, ws, tx, old(tx.read), target, done) && (done < |q| ==> !ReadOk(ws[done], tx.trNum, tx.isReadOnly))
  {
    target := [];
    ghost var ws := States(q);
    done := 0;
    GatherNone(q, ws, tx.trNum, tx.isReadOnly, tx.read);
    while done < |q|
      invariant done <= |q|
      invariant tx.written == old(tx.written) && tx.aborted == old(tx.aborted)
      invariant ReadSoFar(q, ws, tx, old(tx.read), target, done)
    {
      var result;
      result, target := ReadNext(q, tx, target, done, ws, old(tx.read));
      if !result {
        return false, target, done;
      }
      done := done + 1;
    }
    ok := true;
  }

  /** A read of the words q, from states ws and read map m: how far it got, what it returned and what it left behind. */
  ghost predicate ReadEffect(q: seq<Word>, ws: seq<WordState>, tx: Transaction, m: map<nat, Word>, ok: bool,
                             target: Bytes)
    requires |ws| == |q|
    reads q, tx
  {
    var tr, ro := tx.trNum, tx.isReadOnly;
    && ok == (ReadsDone(ws, tr, ro) == |q|)
    && States(q) == AfterRead(ws, tr, ro)
    && (ok ==> target == Join(ValuesRead(ws, tr, ro)))
    && tx.read == Extended(m, q[..ReadsDone(ws, tr, ro)], ReadMarks(ws, tr, ro))
  }

  /** A write of the values vs to the words q, from states ws and written map m. */
  ghost predicate WriteEffect(q: seq<Word>, ws: seq<WordState>, tx: Transaction, m: map<nat, Word>, ok: bool,
                              vs: seq<Bytes>)
    requires |ws| == |q| == |vs|
    reads q, tx
  {
    var tr := tx.trNum;
    && ok == (WritesDone(ws, tr) == |q|)
    && States(q) == AfterWrite(ws, tr, vs)
    && tx.written == Extended(m, q[..WritesDone(ws, tr)], WriteMarks(ws, tr))
  }

  /** The words' states now, when done of them have been written from states ws. */
  ghost predicate WritesGone(now: seq<WordState>, ws: seq<WordState>, tr: nat, vs: seq<Bytes>, done: nat)
    requires done <= |now| == |ws| == |vs|
  {
    && (forall j :: 0 <= j < |now| ==> now[j] == if j < done then WriteBy(ws[j], tr, vs[j]).word else ws[j])
    && (forall j :: 0 <= j < done ==> WriteOk(ws[j], tr))
  }

  /** done words of q have been written, starting from states ws and written map m. */
  ghost predicate WrittenSoFar(q: seq<Word>, ws: seq<WordState>, tx: Transaction, m: map<nat, Word>, vs: seq<Bytes>,
                               done: nat)
    requires done <= |q| == |ws| == |vs|
    reads q, tx
  {
    && WritesGone(States(q), ws, tx.trNum, vs, done)
    && tx.written == Extended(m, q[..done], WriteMarks(ws, tx.trNum))
  }

  lemma WritesGoOn(now: seq<WordState>, ws: seq<WordState>, tr: nat, vs: seq<Bytes>, done: nat)
    requires done < |now| == |ws| == |vs| && WritesGone(now, ws, tr, vs, done)
    ensures var r := WriteBy(ws[done], tr, vs[done]);
      r.ok == WriteOk(ws[done], tr) && WritesGone(now[done := r.word], ws, tr, vs, if r.ok then done + 1 else done)
  {
  }

  method WriteNext(q: seq<Word>, tx: Transaction, vs: seq<Bytes>, done: nat, ghost ws: seq<WordState>,
                   ghost m: map<nat, Word>)
    returns (ok: bool)
    requires Separate(q) && done < |q| == |ws| == |vs| && WrittenSoFar(q, ws, tx, m, vs, done)
    modifies q, tx`written, tx`read, tx`aborted, tx`hasWritten
    ensures tx.read == old(tx.read) && tx.aborted == (old(tx.aborted) || !ok)
    ensures ok == WriteOk(ws[done], tx.trNum)
    ensures WrittenSoFar(q, ws, tx, m, vs, if ok then done + 1 else done)
  {
    ghost var now := States(q);
    ExtendOne(m, q, WriteMarks(ws, tx.trNum), done);
    WritesGoOn(now, ws, tx.trNum, vs, done);
    ok := q[done].Write(tx, vs[done]);
    assert States(q) == now[done := WriteBy(ws[done], tx.trNum, vs[done]).word];
  }

  method WriteWords(q: seq<Word>, tx: Transaction, vs: seq<Bytes>) returns (ok: bool, done: nat)
    requires Separate(q) && |vs| == |q|
    modifies q, tx`written, tx`read, tx`aborted, tx`hasWritten
    ensures tx.read == old(tx.read) && tx.aborted == (old(tx.aborted) || !ok)
    ensures done <= |q| && ok == (done == |q|)
    ensures var ws := old(States(q));
      WrittenSoFar(q, ws, tx, old(tx.written), vs, done) && (done < |q| ==> !WriteOk(ws[done], tx.trNum))
  {
    ghost var ws := States(q);
    done := 0;
    while done < |q|
      invariant done <= |q|
      invariant tx.read == old(tx.read) && tx.aborted == old(tx.aborted)
      invariant WrittenSoFar(q, ws, tx, old(tx.written), vs, done)
    {
      var result := WriteNext(q, tx, vs, done, ws, old(tx.written));
      if !result {
        return false, done;
      }
      done := done + 1;
    }
    ok := true;
  }

  /** New words hold zero bytes. */
  lemma ZeroBytes(ws: seq<Word>, align: nat)
    requires forall w :: w in ws ==> w.State() == NewWord(align)
    ensures forall w :: w in ws ==> |w.copyA| == |w.copyB| == align
    ensures forall w, i :: w in ws && 0 <= i < align ==> w.copyA[i] == 0 && w.copyB[i] == 0
  {
    forall w, i | w in ws && 0 <= i < align
      ensures |w.copyA| == |w.copyB| == align && w.copyA[i] == 0 && w.copyB[i] == 0 {
      assert w.State().copyA == Zero(align) && w.State().copyB == Zero(align);
    }
    forall w | w in ws ensures |w.copyA| == |w.copyB| == align {
      assert w.State().copyA == Zero(align) && w.State().copyB == Zero(align);
    }
  }

  class Segment {
    const alignment: nat
    const numWords: nat
    const startAddress: nat
    const words: seq<Word>
    ghost const end: nat       // first address after the segment

    ghost predicate Measured() {
      end == startAddress + numWords * alignment
    }

    ghost predicate Valid() {
      && Measured() && |words| == numWords
      && (forall i :: 0 <= i < numWords ==>
          words[i].addr == startAddress + i * alignment && words[i].alignment == alignment)
      && Separate(words)
    }

    ghost predicate Fits(align: nat) {
      Valid() && alignment == align
    }

    constructor (alignment: nat, numWords: nat, startAddress: nat)
      ensures this.alignment == alignment && this.numWords == numWords && this.startAddress == startAddress
      ensures Valid() && fresh(words)
      ensures forall w :: w in words ==> w.State() == NewWord(alignment)
      ensures forall w :: w in words ==> |w.copyA| == |w.copyB| == alignment
      ensures forall w, i :: w in words && 0 <= i < alignment ==> w.copyA[i] == 0 && w.copyB[i] == 0
    {
      var ws: seq<Word> := [];
      var addr := startAddress;
      var i := 0;
      while i < numWords
        invariant |ws| == i <= numWords && addr == startAddress + i * alignment
        invariant fresh(ws)
        invariant forall j :: 0 <= j < i ==> ws[j].addr == startAddress + j * alignment && ws[j].alignment == alignment
        invariant forall w :: w in ws ==> w.State() == NewWord(alignment)
        invariant Separate(ws)
      {
        var w := new Word(alignment, addr);
        assert w.addr == startAddress + i * alignment;
        ws := ws + [w];
        assert (i + 1) * alignment == i * alignment + alignment;
        addr := addr + alignment;
        i := i + 1;
      }
      this.alignment := alignment;
      this.numWords := numWords;
      this.startAddress := startAddress;
      words := ws;
      end := startAddress + numWords * alignment;
      new;
      ZeroBytes(words, alignment);
    }

    /** Words lo..lo+num are read in order until one refuses. */
    method Read(lo: nat, num: nat, tx: Transaction) returns (ok: bool, target: Bytes)
      requires Valid() && lo + num <= numWords
      modifies words[lo..lo + num], tx`written, tx`read, tx`aborted
      ensures tx.written == old(tx.written)
      ensures ReadEffect(words[lo..lo + num], old(States(words[lo..lo + num])), tx, old(tx.read), ok, target)
      ensures tx.aborted == (old(tx.aborted) || !ok)
    {
      ghost var ws := States(words[lo..lo + num]);
      var done;
      ok, target, done := ReadWords(words[lo..lo + num], tx);
      ReadsDoneIs(ws, tx.trNum, tx.isReadOnly, done);
      assert ok ==> ValuesRead(ws, tx.trNum, tx.isReadOnly)[..done] == ValuesRead(ws, tx.trNum, tx.isReadOnly);
    }

    /** A private copy of the source is cut into words, written in order until one refuses. */
    method Write(lo: nat, num: nat, tx: Transaction, source: Bytes) returns (ok: bool)
      requires Valid() && lo + num <= numWords && |source| == num * alignment
      modifies words[lo..lo + num], tx`written, tx`read, tx`aborted, tx`hasWritten
      ensures tx.read == old(tx.read)
      ensures WriteEffect(words[lo..lo + num], old(States(words[lo..lo + num])), tx, old(tx.written), ok,
                          Slices(source, alignment, num))
      ensures tx.aborted == (old(tx.aborted) || !ok)
    {
      ghost var ws := States(words[lo..lo + num]);
      var done;
      ok, done := WriteWords(words[lo..lo + num], tx, Slices(source, alignment, num));
      WritesDoneIs(ws, tx.trNum, done);
    }

    /** The check made after an epoch: every word is back in its initial control state. */
    method CheckEpochEnd() returns (clean: bool)
      requires Valid()
      ensures clean <==> forall w :: w in words ==> w.State().Clean()
    {
      var i := 0;
      while i < numWords
        invariant 0 <= i <= numWords
        invariant forall j :: 0 <= j < i ==> words[j].State().Clean()
      {
        if words[i].lastTxAccessed != 0 || words[i].accessedByMany || words[i].written {
          assert words[i] in words;
          return false;
        }
        i := i + 1;
      }
      clean := true;
    }
  }

  lemma ExtentsDrop(m: map<nat, Segment>, st: nat)
    ensures ExtentsOf(m - {st}) == ExtentsOf(m) - {st}
  {
  }

  ghost predicate AllFit(m: map<nat, Segment>, align: nat) {
    forall st {:trigger m[st].Fits(align)} :: st in m ==> m[st].Fits(align)
  }

  ghost predicate Within(m: map<nat, Segment>, limit: nat) {
    forall st :: st in m ==> 0 < st && m[st].end <= limit
  }

  lemma PutFits(m: map<nat, Segment>, st: nat, sg: Segment, limit: nat, align: nat)
    requires AllFit(m, align) && Within(m, limit) && sg.Fits(align) && 0 < st && sg.end <= limit
    ensures AllFit(m[st := sg], align) && Within(m[st := sg], limit)
  {
  }

  lemma DropKeeps(m: map<nat, Segment>, ends: map<nat, nat>, st: nat)
    requires IndexOk(m, ends) && st in m
    ensures IndexOk(m - {st}, ends - {m[st].end})
  {
    ExtentsDrop(m, st);
    RemoveKeeps(ExtentsOf(m), ends, st);
  }

  // ---- the shared memory ----

  /** The words q are num words of the segment from lo on. */
  method ReadAt(sg: Segment, lo: nat, num: nat, tx: Transaction, ghost q: seq<Word>) returns (ok: bool, target: Bytes)
    requires sg.Valid() && lo + num <= sg.numWords && q == sg.words[lo..lo + num]
    modifies q, tx`written, tx`read, tx`aborted
    ensures ReadEffect(q, old(States(q)), tx, old(tx.read), ok, target)
    ensures tx.written == old(tx.written) && tx.aborted == (old(tx.aborted) || !ok)
  {
    ok, target := sg.Read(lo, num, tx);
  }

  method WriteAt(sg: Segment, lo: nat, num: nat, tx: Transaction, source: Bytes, ghost q: seq<Word>) returns (ok: bool)
    requires sg.Valid() && lo + num <= sg.numWords && q == sg.words[lo..lo + num] && |source| == num * sg.alignment
    modifies q, tx`written, tx`read, tx`aborted, tx`hasWritten
    ensures WriteEffect(q, old(States(q)), tx, old(tx.written), ok, Slices(source, sg.alignment, num))
    ensures tx.read == old(tx.read) && tx.aborted == (old(tx.aborted) || !ok)
  {
    ok := sg.Write(lo, num, tx, source);
  }

  ghost function WordAddress(sg: Segment, i: nat): nat {
    sg.startAddress + i * sg.alignment
  }

  class DualStm {
    const alignment: nat
    const sizeFirstSegment: nat
    var segments: map<nat, Segment>
    var addresses: map<nat, nat>
    var endAddress: nat

    ghost function Extents(): map<nat, nat>
      reads this
    {
      ExtentsOf(segments)
    }

    /** The two maps describe disjoint ranges below the end address. */
    ghost predicate IndexValid()
      reads this
    {
      IndexOk(segments, addresses) && Within(segments, endAddress)
    }

    ghost predicate Valid()
      reads this
    {
      alignment > 0 && IndexValid() && AllFit(segments, alignment)
    }

    constructor (size: nat, alignment: nat)
      requires alignment > 0 && size > 0 && size % alignment == 0
      ensures Valid() && this.alignment == alignment && sizeFirstSegment == size
      ensures endAddress == 1 + size && segments.Keys == {1}
      ensures segments[1].numWords == size / alignment
      ensures forall w :: w in segments[1].words ==> fresh(w) && w.State() == NewWord(alignment)
      ensures forall w :: w in segments[1].words ==> |w.copyA| == |w.copyB| == alignment
      ensures forall w, i :: w in segments[1].words && 0 <= i < alignment ==> w.copyA[i] == 0 && w.copyB[i] == 0
    {
      var startAddress := 1;
      var segment := new Segment(alignment, size / alignment, startAddress);
      this.alignment := alignment;
      sizeFirstSegment := size;
      endAddress := startAddress + size;
      segments := map[startAddress := segment];
      addresses := map[startAddress + size := startAddress];
      new;
      assert segment.end == 1 + size;
      assert Extents() == map[1 := 1 + size];
    }

    function GetHead(): nat {
      1
    }

    /** Publishes a segment that lies apart from every shared one. */
    method AddSegment(startAddr: nat, segment: Segment)
      requires Valid() && 0 < segment.startAddress == startAddr < segment.end <= endAddress && segment.Fits(alignment)
      requires Apart(Extents(), startAddr, segment.end)
      modifies this`segments, this`addresses
      ensures Valid() && segments == old(segments)[startAddr := segment]
    {
      PutKeeps(segments, addresses, startAddr, segment);
      PutFits(segments, startAddr, segment, endAddress, alignment);
      segments := segments[startAddr := segment];
      var segEndAddr := startAddr + segment.numWords * segment.alignment;
      addresses := addresses[segEndAddr := startAddr];
    }

    /** Removes the segment, if it is there; freeing twice does nothing more. */
    method FreeSegment(startAddress: nat)
      requires Valid()
      modifies this`segments, this`addresses
      ensures Valid() && segments == old(segments) - {startAddress}
    {
      if startAddress in segments {
        var sg := segments[startAddress];
        DropKeeps(segments, addresses, startAddress);
        var segEndAddr := startAddress + sg.alignment * sg.numWords;
        addresses := addresses - {segEndAddr};
        segments := segments - {startAddress};
      } else {
        assert segments - {startAddress} == segments;
      }
    }

    /** Some shared segment ends above the address; without that the search runs off the map. */
    ghost predicate Bounded(address: nat)
      reads this
    {
      exists e :: e in addresses && e > address
    }

    method FindShared(address: nat) returns (sg: Segment?)
      requires IndexValid() && Bounded(address)
      ensures sg != null <==> Holds(Extents(), address)
      ensures sg != null ==> Contains(Extents(), sg.startAddress, address) && segments[sg.startAddress] == sg
    {
      var found, startAddr := LookupBelow(addresses, address, Extents());
      sg := if found then segments[startAddr] else null;
    }

    /** The transaction's own segment that contains the address, else the shared one, else none. */
    method FindSegment(address: nat, tx: Transaction) returns (sg: Segment?)
      requires IndexValid() && tx.IndexValid() && (!Holds(tx.Extents(), address) ==> Bounded(address))
      ensures sg != null <==> Holds(tx.Extents(), address) || Holds(Extents(), address)
      ensures sg != null ==> Serves(sg, tx, address)
    {
      sg := tx.FindSegment(address);
      if sg == null {
        sg := FindShared(address);
      }
    }

    /** The segment that serves an address for a transaction. */
    ghost predicate Serves(sg: Segment, tx: Transaction, address: nat)
      reads this, tx
    {
      if Holds(tx.Extents(), address) then
        Contains(tx.Extents(), sg.startAddress, address) && tx.owned[sg.startAddress] == sg
      else Contains(Extents(), sg.startAddress, address) && segments[sg.startAddress] == sg
    }

    /** What a caller owes for an access: the range is that of the words q of the serving segment. */
    ghost predicate Inside(tx: Transaction, address: nat, size: nat, sg: Segment, lo: nat, q: seq<Word>)
      reads this, tx
    {
      && Valid() && tx.IndexValid() && Serves(sg, tx, address) && sg.Fits(alignment)
      && address == WordAddress(sg, lo) && size == |q| * alignment
      && lo + |q| <= sg.numWords && q == sg.words[lo..lo + |q|]
    }

    /** The first half of a read or a write: the segment that serves the address, and which of its words the range
        covers. The second half is the segment's own Read or Write at that index. */
    method Locate(tx: Transaction, address: nat, size: nat, ghost sg: Segment, ghost lo: nat, ghost q: seq<Word>)
      returns (found: Segment, startWordIdx: nat, numWords: nat)
      requires Inside(tx, address, size, sg, lo, q)
      ensures found == sg && startWordIdx == lo && numWords == |q|
    {
      ServedIsBounded(sg, tx, address);
      found := FindSegment(address, tx);
      ServesOnce(found, sg, tx, address);
      DivideExact(lo, alignment);
      DivideExact(|q|, alignment);
      startWordIdx := (address - found.startAddress) / alignment;
      numWords := size / alignment;
    }

    lemma ServedIsBounded(sg: Segment, tx: Transaction, address: nat)
      requires IndexValid() && Serves(sg, tx, address)
      ensures !Holds(tx.Extents(), address) ==> Bounded(address)
    {
      if !Holds(tx.Extents(), address) {
        assert Extents()[sg.startAddress] in addresses;
      }
    }

    lemma ServesOnce(sg: Segment, other: Segment, tx: Transaction, address: nat)
      requires IndexValid() && tx.IndexValid() && Serves(sg, tx, address) && Serves(other, tx, address)
      ensures sg == other
    {
    }

    /** A read of several words up to, and without, the departure that follows a refusal. */
    method Read(tx: Transaction, source: nat, size: nat, ghost sg: Segment, ghost lo: nat, ghost q: seq<Word>)
      returns (ok: bool, target: Bytes)
      requires Inside(tx, source, size, sg, lo, q)
      modifies q, tx`written, tx`read, tx`aborted
      ensures ReadEffect(q, old(States(q)), tx, old(tx.read), ok, target)
      ensures tx.written == old(tx.written) && tx.aborted == (old(tx.aborted) || !ok)
    {
      var found, startWordIdx, numWords := Locate(tx, source, size, sg, lo, q);
      ok, target := ReadAt(found, startWordIdx, numWords, tx, q);
    }

    /** A write of several words, in the same way. */
    method Write(tx: Transaction, source: Bytes, target: nat, size: nat, ghost sg: Segment, ghost lo: nat,
                 ghost q: seq<Word>)
      returns (ok: bool)
      requires Inside(tx, target, size, sg, lo, q) && |source| == size
      modifies q, tx`written, tx`read, tx`aborted, tx`hasWritten
      ensures WriteEffect(q, old(States(q)), tx, old(tx.written), ok, Slices(source, alignment, |q|))
      ensures tx.read == old(tx.read) && tx.aborted == (old(tx.aborted) || !ok)
    {
      var found, startWordIdx, numWords := Locate(tx, target, size, sg, lo, q);
      ok := WriteAt(found, startWordIdx, numWords, tx, source, q);
    }

    /** A fresh segment at an address never handed out before, zero everywhere, private to the transaction. */
    method Alloc(tx: Transaction, size: nat) returns (target: nat)
      requires Valid() && tx.IndexValid() && size > 0 && size % alignment == 0
      requires forall st :: st in tx.Extents() ==> tx.Extents()[st] <= endAddress
      modifies this`endAddress, tx`owned, tx`ownedEnds
      ensures Valid() && tx.IndexValid()
      ensures target == old(endAddress) && endAddress == target + size
      ensures target in tx.owned && tx.owned == old(tx.owned)[target := tx.owned[target]]
      ensures tx.owned[target].end == endAddress && tx.owned[target].numWords == size / alignment
      ensures tx.owned[target].Fits(alignment)
      ensures forall w :: w in tx.owned[target].words ==> fresh(w) && w.State() == NewWord(alignment)
      ensures forall w :: w in tx.owned[target].words ==> |w.copyA| == |w.copyB| == alignment
      ensures forall w, i :: w in tx.owned[target].words && 0 <= i < alignment ==> w.copyA[i] == 0 && w.copyB[i] == 0
    {
      target := endAddress;
      endAddress := endAddress + size;
      var segment := new Segment(alignment, size / alignment, target);
      assert segment.end == target + size;
      tx.AddSegment(segment, target);
    }

    method Free(tx: Transaction, target: nat)
      modifies tx`freed
      ensures tx.freed == old(tx.freed) + [target]
    {
      tx.freed := tx.freed + [target];
    }
  }
}
