/** Whole runs: when readable memory changes, and serial replay across epochs. */
module History {
  import opened Words
  import opened Serial
  import opened Orders
  import opened Protocol
  import opened Invariant
  import opened Arrivals
  import opened Settle
  import opened Runs
  import opened Serializability
  import opened Wholeness

  ghost predicate EndsEpoch(s: Stm, st: Step) {
    st.Leave? && LastLeave(s, st.k)
  }

  // ---- quiescence ----

  /** While an epoch lasts, no readable copy changes, no segment appears or disappears
      from the shared index, and a new word reads as zero. */
  ghost predicate Quiet(s: Stm, s2: Stm) {
    && s2.shared == s.shared && s2.align == s.align && s2.past == s.past
    && (forall seg :: seg in s.shared && seg in s.sizes ==> seg in s2.sizes && s2.sizes[seg] == s.sizes[seg])
    && s2.batcher.counter == s.batcher.counter && s.endAddress <= s2.endAddress
    && (forall a :: a in s.cells ==>
          && a in s2.cells && s2.cells[a].seg == s.cells[a].seg
          && s2.cells[a].word.Readable() == s.cells[a].word.Readable())
    && (forall a :: a in s2.cells && a !in s.cells ==>
          a >= s.endAddress && s2.cells[a].seg !in s.shared && s2.cells[a].word.Readable() == Zero(s.align))
  }

  lemma QuietWord(s: Stm, k: nat, a: nat, w: WordState, tx: Tx)
    requires k < |s.members| && a in s.cells && w.Readable() == s.cells[a].word.Readable()
    ensures Quiet(s, With(s.(cells := s.cells[a := s.cells[a].(word := w)]), k, tx))
  {
  }

  lemma QuietRead(s: Stm, k: nat, a: nat)
    requires Active(s, k) && a in s.cells
    ensures Quiet(s, DoRead(s, k, a))
  {
    QuietWord(s, k, a, ReadBy(s.cells[a].word, s.members[k].trNum).word, DoRead(s, k, a).members[k]);
  }

  lemma QuietWrite(s: Stm, k: nat, a: nat, v: Bytes)
    requires Active(s, k) && a in s.cells
    ensures Quiet(s, DoWrite(s, k, a, v))
  {
    QuietWord(s, k, a, WriteBy(s.cells[a].word, s.members[k].trNum, v).word, DoWrite(s, k, a, v).members[k]);
  }

  lemma QuietAllocate(s: Stm, k: nat, count: nat)
    requires Inv(s) && Active(s, k) && count > 0
    ensures Quiet(s, DoAllocate(s, k, count))
  {
    NewCellsFacts(s.endAddress, count, s.align);
    assert count * s.align > 0;
    assert s.endAddress !in s.cells;
  }

  /** Copies are swapped, and segments published or freed, only by the departure of
      the last running transaction. */
  lemma Quiescence(s: Stm, st: Step, s2: Stm)
    requires Inv(s) && Next(s, st, s2)
    ensures !EndsEpoch(s, st) ==> Quiet(s, s2)
    ensures EndsEpoch(s, st) ==> Pending(s.members) == {st.k} && s2.batcher.counter == s.batcher.counter + 1
  {
    match st
    case Begin(readOnly) =>
    case ReadWord(k, a) => QuietRead(s, k, a);
    case WriteWord(k, a, v) => QuietWrite(s, k, a, v);
    case Allocate(k, count) => QuietAllocate(s, k, count);
    case Release(k, start) =>
    case Leave(k) =>
      if LastLeave(s, k) {
        AllLeft(s, k);
        forall j | j in Pending(s.members) ensures j == k {
          assert Done(s, k)[j].left;
        }
      }
  }

  lemma ShowsKept(s: Stm, s2: Stm, m: Memory)
    requires Shows(m, s) && Quiet(s, s2) && Whole(s2)
    ensures Shows(m, s2)
  {
    WholeIsExact(m, s2);
  }

  // ---- serial replay of a whole run ----

  /** One order of the committed members for every ended epoch. */
  ghost predicate Ordering(past: seq<seq<Tx>>, orders: seq<seq<nat>>) {
    |orders| == |past| && forall e :: 0 <= e < |past| ==> CommitOrder(past[e], orders[e])
  }

  /** Memory after executing all ended epochs serially, epoch by epoch. */
  ghost function SerialMemory(m: Memory, past: seq<seq<Tx>>, orders: seq<seq<nat>>): Memory
    requires Ordering(past, orders)
  {
    if past == [] then m
    else
      var logs := Logs(Last(past), Last(orders));
      AfterFrees(Replay(SerialMemory(m, Front(past), Front(orders)), Concat(logs)), logs)
  }

  /** The serial execution gives every committed transaction the results it saw. */
  ghost predicate SerialLegal(m: Memory, z: Bytes, past: seq<seq<Tx>>, orders: seq<seq<nat>>)
    requires Ordering(past, orders)
  {
    past == []
    || (SerialLegal(m, z, Front(past), Front(orders))
        && Legal(SerialMemory(m, Front(past), Front(orders)), z, Concat(Logs(Last(past), Last(orders)))))
  }

  ghost predicate NothingNoticed(m: Memory, z: Bytes, past: seq<seq<Tx>>, orders: seq<seq<nat>>)
    requires Ordering(past, orders)
  {
    past == []
    || (NothingNoticed(m, z, Front(past), Front(orders))
        && Unnoticed(SerialMemory(m, Front(past), Front(orders)), z, Logs(Last(past), Last(orders))))
  }

  /** The region as created: nothing stored, one segment of so many words. */
  ghost function Blank(count: nat): Memory {
    Memory(map[], map[1 := count])
  }

  /** The region a run starts from. */
  ghost function Initial(r: Run): Memory
    requires IsRun(r)
  {
    Memory(map[], r.states[0].sizes)
  }

  lemma CreateShows(align: nat, count: nat)
    requires align > 0 && count > 0
    ensures Whole(Create(align, count)) && Shows(Blank(count), Create(align, count))
  {
    NewCellsFacts(1, count, align);
    CreateWhole(align, count);
    WholeIsExact(Blank(count), Create(align, count));
  }

  lemma EpochJoins(s: Stm, k: nat, m: Memory, order: seq<nat>)
    requires Inv(s) && Whole(s) && LogsFit(s) && LastLeave(s, k) && Shows(m, s) && CommitOrder(Done(s, k), order)
    ensures var logs := Logs(Done(s, k), order);
      && Shows(AfterFrees(Replay(m, Concat(logs)), logs), DoLeave(s, k))
      && (Legal(m, Zero(s.align), Concat(logs)) <==> Unnoticed(m, Zero(s.align), logs))
  {
    EpochMemory(s, k, m, order);
    EpochSerializable(s, k, m, order);
  }

  /** The serial execution of the ended epochs ends in the memory s holds, and is legal
      exactly when no overwriting is noticed. */
  ghost predicate Serialised(m: Memory, s: Stm, orders: seq<seq<nat>>)
    requires Ordering(s.past, orders)
  {
    && Shows(SerialMemory(m, s.past, orders), s)
    && (SerialLegal(m, Zero(s.align), s.past, orders) <==> NothingNoticed(m, Zero(s.align), s.past, orders))
  }

  lemma EpochSerialised(m: Memory, s: Stm, k: nat, orders: seq<seq<nat>>)
    requires Inv(s) && LastLeave(s, k) && Ordering(DoLeave(s, k).past, orders)
    ensures Ordering(s.past, Front(orders))
    requires Whole(s) && LogsFit(s)
    ensures Serialised(m, s, Front(orders)) ==> Serialised(m, DoLeave(s, k), orders)
  {
    var s2 := DoLeave(s, k);
    assert s2.past == s.past + [Done(s, k)];
    assert Front(s2.past) == s.past && Last(s2.past) == Done(s, k);
    if Serialised(m, s, Front(orders)) {
      EpochJoins(s, k, SerialMemory(m, s.past, Front(orders)), Last(orders));
    }
  }

  lemma QuietSerialised(m: Memory, s: Stm, s2: Stm, orders: seq<seq<nat>>)
    requires Quiet(s, s2) && Whole(s2) && Ordering(s.past, orders) && Serialised(m, s, orders)
    ensures Serialised(m, s2, orders)
  {
    ShowsKept(s, s2, SerialMemory(m, s.past, orders));
  }

  /** One step: either the epoch goes on, or one more ended epoch joins the serial execution. */
  lemma StepSerialised(m: Memory, s: Stm, st: Step, s2: Stm, orders: seq<seq<nat>>)
    requires Inv(s) && Whole(s) && LogsFit(s) && Next(s, st, s2) && Whole(s2) && Ordering(s2.past, orders)
    ensures EndsEpoch(s, st) ==> orders != [] && Ordering(s.past, Front(orders))
    ensures EndsEpoch(s, st) && Serialised(m, s, Front(orders)) ==> Serialised(m, s2, orders)
    ensures !EndsEpoch(s, st) ==> Ordering(s.past, orders)
    ensures !EndsEpoch(s, st) && Serialised(m, s, orders) ==> Serialised(m, s2, orders)
  {
    Quiescence(s, st, s2);
    if EndsEpoch(s, st) {
      EpochSerialised(m, s, st.k, orders);
    } else if Serialised(m, s, orders) {
      QuietSerialised(m, s, s2, orders);
    }
  }

  lemma NextSerialised(r: Run, i: nat, m: Memory, s: Stm, st: Step, s2: Stm, orders: seq<seq<nat>>)
    requires IsRun(r) && 0 < i < |r.states| && s == r.states[i - 1] && st == r.steps[i - 1] && s2 == r.states[i]
    requires Ordering(s2.past, orders)
    ensures EndsEpoch(s, st) ==> orders != [] && Ordering(s.past, Front(orders))
    ensures EndsEpoch(s, st) && Serialised(m, s, Front(orders)) ==> Serialised(m, s2, orders)
    ensures !EndsEpoch(s, st) ==> Ordering(s.past, orders)
    ensures !EndsEpoch(s, st) && Serialised(m, s, orders) ==> Serialised(m, s2, orders)
  {
    AtStep(r, i, s, st, s2);
    StepSerialised(m, s, st, s2, orders);
  }

  lemma FirstSerialised(r: Run)
    requires IsRun(r)
    ensures r.states[0].past == [] && Serialised(Initial(r), r.states[0], [])
  {
    var align: nat, count: nat :| align > 0 && count > 0 && r.states[0] == Create(align, count);
    CreateShows(align, count);
  }

  /** Any run is a serial run of its committed transactions, epoch after epoch and inside each epoch
      in any chosen order, exactly when no overwriting is noticed; the final memory agrees in any case. */
  lemma {:induction false} RunSerializable(r: Run, i: nat, orders: seq<seq<nat>>)
    requires IsRun(r) && i < |r.states| && Ordering(r.states[i].past, orders)
    ensures Serialised(Initial(r), r.states[i], orders)
  {
    if i == 0 {
      FirstSerialised(r);
    } else {
      var s, st := r.states[i - 1], r.steps[i - 1];
      NextSerialised(r, i, Initial(r), s, st, r.states[i], orders);
      RunSerializable(r, i - 1, if EndsEpoch(s, st) then Front(orders) else orders);
    }
  }

  /** In particular when every reader of a snapshot precedes the writers of what it read. */
  lemma {:induction false} ReadersFirstNothingNoticed(m: Memory, z: Bytes, past: seq<seq<Tx>>, orders: seq<seq<nat>>)
    requires Ordering(past, orders)
    requires forall e :: 0 <= e < |past| ==> ReadersFirst(Logs(past[e], orders[e]))
    ensures NothingNoticed(m, z, past, orders)
  {
    if past != [] {
      ReadersFirstNothingNoticed(m, z, Front(past), Front(orders));
      ReadersFirstUnnoticed(SerialMemory(m, Front(past), Front(orders)), z, Logs(Last(past), Last(orders)));
    }
  }
}
