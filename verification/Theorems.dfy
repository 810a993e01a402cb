/** Serializability of whole runs, under conditions on what the transactions did. */
module Theorems {
  import opened Words
  import opened Serial
  import opened Orders
  import opened Protocol
  import opened Invariant
  import opened Settle
  import opened Conflicts
  import opened Runs
  import opened Serializability
  import opened History
  import opened Precedence

  lemma {:induction false} AcyclicOrders(past: seq<seq<Tx>>) returns (orders: seq<seq<nat>>)
    requires forall e :: 0 <= e < |past| ==> Acyclic(past[e])
    ensures Ordering(past, orders) && forall e :: 0 <= e < |past| ==> ReadersFirst(Logs(past[e], orders[e]))
  {
    if past == [] {
      orders := [];
    } else {
      var front := AcyclicOrders(Front(past));
      var last := AcyclicHasOrder(Last(past));
      orders := front + [last];
      forall e | 0 <= e < |past| ensures CommitOrder(past[e], orders[e]) && ReadersFirst(Logs(past[e], orders[e])) {
        if e < |past| - 1 { assert past[e] == Front(past)[e] && orders[e] == front[e]; }
      }
    }
  }

  /** If in no ended epoch the committed transactions read each other's overwritten words in a cycle,
      the run is serializable: one serial execution, respecting the order of epochs, gives every
      committed transaction what it saw and ends in the memory the region holds. */
  lemma AcyclicRunIsSerial(r: Run, i: nat) returns (orders: seq<seq<nat>>)
    requires IsRun(r) && i < |r.states|
    requires forall e :: 0 <= e < |r.states[i].past| ==> Acyclic(r.states[i].past[e])
    ensures Ordering(r.states[i].past, orders)
    ensures SerialLegal(Initial(r), Zero(r.states[i].align), r.states[i].past, orders)
    ensures Shows(SerialMemory(Initial(r), r.states[i].past, orders), r.states[i])
  {
    orders := AcyclicOrders(r.states[i].past);
    RunSerializable(r, i, orders);
    ReadersFirstNothingNoticed(Initial(r), Zero(r.states[i].align), r.states[i].past, orders);
  }

  // ---- transactions that read before they write ----

  /** Whoever read a word that another member wrote is a read-only transaction,
      or the writer wrote it blindly. */
  ghost predicate Exclusive(ms: seq<Tx>) {
    forall i, j, a ::
      0 <= i < |ms| && 0 <= j < |ms| && i != j && a in Buffer(ms[i].ops) && a in SnapReads(ms[j].ops) ==>
      ms[j].readOnly || a !in SnapReads(ms[i].ops)
  }

  lemma MembersExclusive(s: Stm)
    requires Inv(s)
    ensures Exclusive(s.members)
  {
    forall i, j, a | 0 <= i < |s.members| && 0 <= j < |s.members| && i != j
      && a in Buffer(s.members[i].ops) && a in SnapReads(s.members[j].ops) && !s.members[j].readOnly
      ensures a !in SnapReads(s.members[i].ops)
    {
      assert TxInv(s, s.members[i]);
      assert HasWritten(s, i, a) && Accessed(s, j, a);
      NoLostUpdate(s, a, i, j);
    }
  }

  /** A past epoch was past before, or it is the one that just ended. */
  lemma PastStep(r: Run, i: nat, e: nat)
    requires IsRun(r) && 0 < i < |r.states| && e < |r.states[i].past|
    ensures e < |r.states[i - 1].past| ==> r.states[i].past[e] == r.states[i - 1].past[e]
    ensures e >= |r.states[i - 1].past| ==>
      && r.steps[i - 1].Leave? && r.steps[i - 1].k < |r.states[i - 1].members|
      && r.states[i].past[e] == Done(r.states[i - 1], r.steps[i - 1].k)
  {
    var s, st := r.states[i - 1], r.steps[i - 1];
    RunInv(r, i - 1);
    assert Next(s, st, r.states[i]);
    Quiescence(s, st, r.states[i]);
  }

  lemma RunExclusive(r: Run, i: nat)
    requires IsRun(r) && i < |r.states|
    ensures Exclusive(r.states[i].members)
  {
    RunInv(r, i);
    MembersExclusive(r.states[i]);
  }

  lemma ExclusiveDone(s: Stm, k: nat)
    requires k < |s.members| && Exclusive(s.members)
    ensures Exclusive(Done(s, k))
  {
    var ms := Done(s, k);
    assert forall i :: 0 <= i < |ms| ==> ms[i].ops == s.members[i].ops && ms[i].readOnly == s.members[i].readOnly;
  }

  lemma {:induction false} PastExclusive(r: Run, i: nat, e: nat)
    requires IsRun(r) && i < |r.states| && e < |r.states[i].past|
    ensures Exclusive(r.states[i].past[e])
  {
    if i > 0 {
      PastStep(r, i, e);
      if e < |r.states[i - 1].past| {
        PastExclusive(r, i - 1, e);
      } else {
        RunExclusive(r, i - 1);
        ExclusiveDone(r.states[i - 1], r.steps[i - 1].k);
      }
    }
  }

  /** Every committed transaction read each word it wrote before writing it. */
  ghost predicate ReadBeforeWrite(ms: seq<Tx>) {
    forall i: nat :: Committed(ms, i) ==> Buffer(ms[i].ops).Keys <= SnapReads(ms[i].ops)
  }

  ghost predicate ReadOnlyFirst(ms: seq<Tx>, order: seq<nat>)
    requires CommitOrder(ms, order)
  {
    forall i, j :: 0 <= i < j < |order| && ms[order[j]].readOnly ==> ms[order[i]].readOnly
  }

  ghost predicate ReadOnlyWriteNothing(ms: seq<Tx>) {
    forall i :: 0 <= i < |ms| && ms[i].readOnly ==> Buffer(ms[i].ops) == map[]
  }

  lemma AnyOrder(ms: seq<Tx>, order: seq<nat>)
    requires Exclusive(ms) && ReadBeforeWrite(ms) && ReadOnlyWriteNothing(ms)
    requires CommitOrder(ms, order) && ReadOnlyFirst(ms, order)
    ensures ReadersFirst(Logs(ms, order))
  {
    var logs := Logs(ms, order);
    forall i, j | 0 <= i < j < |logs| ensures Buffer(logs[i]).Keys !! SnapReads(logs[j]) {
      assert Committed(ms, order[i]) && order[i] != order[j];
    }
  }

  lemma RunReadOnly(r: Run, i: nat)
    requires IsRun(r) && i < |r.states|
    ensures ReadOnlyWriteNothing(r.states[i].members)
  {
    var s := r.states[i];
    RunInv(r, i);
    assert forall j :: 0 <= j < |s.members| ==> TxInv(s, s.members[j]);
    assert forall m: map<nat, Bytes> :: m.Keys == {} ==> m == map[];
  }

  lemma ReadOnlyDone(s: Stm, k: nat)
    requires k < |s.members| && ReadOnlyWriteNothing(s.members)
    ensures ReadOnlyWriteNothing(Done(s, k))
  {
    var ms := Done(s, k);
    assert forall i :: 0 <= i < |ms| ==> ms[i].ops == s.members[i].ops && ms[i].readOnly == s.members[i].readOnly;
  }

  lemma {:induction false} PastReadOnly(r: Run, i: nat, e: nat)
    requires IsRun(r) && i < |r.states| && e < |r.states[i].past|
    ensures ReadOnlyWriteNothing(r.states[i].past[e])
  {
    if i > 0 {
      PastStep(r, i, e);
      if e < |r.states[i - 1].past| {
        PastReadOnly(r, i - 1, e);
      } else {
        RunReadOnly(r, i - 1);
        ReadOnlyDone(r.states[i - 1], r.steps[i - 1].k);
      }
    }
  }

  /** When committed transactions read what they write first, every order that puts
      the read-only transactions of an epoch first is a serial execution of the run. */
  lemma ReadBeforeWriteIsSerial(r: Run, i: nat, orders: seq<seq<nat>>)
    requires IsRun(r) && i < |r.states| && Ordering(r.states[i].past, orders)
    requires forall e :: 0 <= e < |r.states[i].past| ==> ReadBeforeWrite(r.states[i].past[e])
    requires forall e :: 0 <= e < |r.states[i].past| ==> ReadOnlyFirst(r.states[i].past[e], orders[e])
    ensures SerialLegal(Initial(r), Zero(r.states[i].align), r.states[i].past, orders)
    ensures Shows(SerialMemory(Initial(r), r.states[i].past, orders), r.states[i])
  {
    var past := r.states[i].past;
    RunSerializable(r, i, orders);
    forall e | 0 <= e < |past| ensures ReadersFirst(Logs(past[e], orders[e])) {
      PastExclusive(r, i, e);
      PastReadOnly(r, i, e);
      AnyOrder(past[e], orders[e]);
    }
    ReadersFirstNothingNoticed(Initial(r), Zero(r.states[i].align), past, orders);
  }
}
