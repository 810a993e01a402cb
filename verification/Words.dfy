/** The per-word double buffer and its three control fields, as values.
    The class in Objects.dfy is proved against these functions; the protocol uses them as its steps. */
module Words {
  newtype Byte = x: int | 0 <= x < 256

  type Bytes = seq<Byte>

  /** What a fresh word of a given alignment holds. */
  function Zero(align: nat): (z: Bytes) {
    seq(align, _ => 0)
  }

  /** One shared word: two copies, which of them is readable, and the access set. */
  datatype WordState = WordState(
    copyA: Bytes,
    copyB: Bytes,
    aReadable: bool,
    last: nat,        // number of the last transaction that accessed the word, 0 for none
    many: bool,       // two or more transactions accessed it
    written: bool)
  {
    function Readable(): Bytes {
      if aReadable then copyA else copyB
    }

    function Writable(): Bytes {
      if aReadable then copyB else copyA
    }

    function WithWritable(v: Bytes): WordState {
      if aReadable then this.(copyB := v) else this.(copyA := v)
    }

    function Recorded(tr: nat, writing: bool): WordState {
      this.(written := written || writing,
            last := tr,
            many := many || (last != 0 && last != tr))
    }

    function Reset(): WordState {
      this.(written := false, last := 0, many := false)
    }

    function Updated(): WordState {
      Reset().(aReadable := !aReadable)
    }

    predicate Clean() {
      last == 0 && !many && !written
    }

    predicate Sized(align: nat) {
      |copyA| == align && |copyB| == align
    }
  }

  function NewWord(align: nat): WordState {
    WordState(Zero(align), Zero(align), true, 0, false, false)
  }

  /** Result of one locked access: the new word, whether the transaction may continue,
      the bytes read, and whether the word entered the transaction's access map. */
  datatype Access = Access(word: WordState, ok: bool, val: Bytes, recorded: bool)

  /** A read by read-write transaction number tr. */
  function ReadBy(w: WordState, tr: nat): Access {
    if w.written then
      if w.last == tr then Access(w, true, w.Writable(), false) else Access(w, false, [], false)
    else
      Access(w.Recorded(tr, false), true, w.Readable(), true)
  }

  /** A read by any transaction: a read-only one takes the readable copy and leaves no trace. */
  function ReadFor(w: WordState, tr: nat, readOnly: bool): Access {
    if readOnly then Access(w, true, w.Readable(), false) else ReadBy(w, tr)
  }

  /** A write of v by transaction number tr. */
  function WriteBy(w: WordState, tr: nat, v: Bytes): Access {
    if w.written then
      if w.last == tr then Access(w.WithWritable(v), true, v, false) else Access(w, false, [], false)
    else if w.many then
      Access(w, false, [], false)
    else
      Access(w.WithWritable(v).Recorded(tr, true), true, v, true)
  }

  /** A word after the epoch: swapped when a committed transaction wrote it,
      its control fields cleared when anyone accessed it. */
  function Settled(w: WordState, wrote: bool, touched: bool): WordState {
    if wrote then w.Updated() else if touched then w.Reset() else w
  }
}
