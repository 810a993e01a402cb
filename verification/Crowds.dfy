/** For which epochs it can happen that nobody commits. */
module Crowds {
  import opened Words
  import opened Serial
  import opened Epochs
  import opened Protocol
  import opened Invariant
  import opened Settle
  import opened Runs
  import opened Conflicts
  import opened RealTime
  import opened Commits
  import opened Counterexamples

  // ---- n read-write members that all read one word, then all try to write it ----

  /** One transaction runs alone while n wait. */
  ghost predicate Waiting(s: Stm, n: nat) {
    && s.align == 1 && 1 in s.shared
    && s.members == [Rw(0, 1)] && s.past == []
    && s.batcher == BatcherState(0, 1, s.batcher.blocked, [], [])
    && |s.batcher.blocked| == n && forall i :: 0 <= i < n ==> !s.batcher.blocked[i].readOnly
  }

  lemma {:induction false} WaitingReachable(n: nat) returns (s: Stm)
    ensures Reachable(s) && Waiting(s, n)
  {
    if n == 0 {
      var s0 := Create(1, 1);
      Created(s0, 1, 1);
      s := DoBegin(s0, false);
      Extend(s0, Begin(false), s);
    } else {
      var before := WaitingReachable(n - 1);
      s := DoBegin(before, false);
      Extend(before, Begin(false), s);
    }
  }

  /** The second epoch: n read-write members still running, none of which has written word 1. */
  ghost predicate Crowd(s: Stm, n: nat) {
    && s.align == 1 && 1 in s.shared && |s.members| == n && |s.past| == 1
    && (forall i :: 0 <= i < n ==> !s.members[i].readOnly && !HasWritten(s, i, 1))
  }

  /** The first m members have read word 1 and the first l were refused when they wanted to write it. */
  ghost predicate Trying(s: Stm, n: nat, m: nat, l: nat) {
    && Crowd(s, n) && s.batcher.remaining == n
    && (forall i :: 0 <= i < n ==> !s.members[i].left && s.members[i].aborted == (i < l))
    && m <= n && forall i :: 0 <= i < m ==> Accessed(s, i, 1)
  }

  /** All were refused and the first m have left. */
  ghost predicate Leaving(s: Stm, n: nat, m: nat) {
    && Crowd(s, n) && s.batcher.remaining == n - m
    && (forall i :: 0 <= i < n ==> s.members[i].aborted && s.members[i].left == (i < m))
  }

  lemma FirstSegmentStays(s: Stm, n: nat)
    requires Inv(s) && Waiting(s, n)
    ensures 1 in DoLeave(s, 0).shared
  {
    assert !FreedIn(Done(s, 0), 1);
    EpochEndSegments(s, 0, 1);
  }

  lemma TryingStarts(n: nat) returns (s: Stm)
    ensures Reachable(s) && Trying(s, n, 0, 0)
  {
    var before := WaitingReachable(n);
    s := DoLeave(before, 0);
    assert Reachable(s) by { Extend(before, Leave(0), s); }
    assert Inv(before) by { ReachableInv(before); }
    FirstSegmentStays(before, n);
    assert s.past == [] + [Done(before, 0)];
    forall i | 0 <= i < n ensures Unused(s.members[i]) && !s.members[i].readOnly && !HasWritten(s, i, 1) {
      assert Unused(before.batcher.blocked[i]);
    }
  }

  lemma WordThere(s: Stm, n: nat, k: nat)
    requires CellsInv(s) && Crowd(s, n) && k < n
    ensures Accessible(s, k, 1)
  {
  }

  lemma ReadsWord(s: Stm, k: nat, a: nat)
    requires Active(s, k) && a in s.cells && !DoRead(s, k, a).members[k].aborted && !s.members[k].readOnly
    requires a !in Buffer(s.members[k].ops)
    ensures Accessed(DoRead(s, k, a), k, a) && !HasWritten(DoRead(s, k, a), k, a)
  {
    var ops := DoRead(s, k, a).members[k].ops;
    assert Front(ops) == s.members[k].ops && Last(ops).Read? && Last(ops).addr == a;
  }

  /** Nothing but words and the record of member k differs. */
  ghost predicate OnlyMember(s: Stm, s2: Stm, k: nat) {
    && s2.align == s.align && s2.shared == s.shared && s2.past == s.past && s2.batcher == s.batcher
    && k < |s.members| == |s2.members| && s2.members == s.members[k := s2.members[k]]
    && s2.members[k].readOnly == s.members[k].readOnly && s2.members[k].left == s.members[k].left
  }

  lemma ReadFrame(s: Stm, k: nat, a: nat)
    requires Active(s, k) && a in s.cells
    ensures OnlyMember(s, DoRead(s, k, a), k)
  {
  }

  lemma WriteFrame(s: Stm, k: nat, a: nat, v: Bytes)
    requires Active(s, k) && a in s.cells
    ensures OnlyMember(s, DoWrite(s, k, a, v), k)
    ensures DoWrite(s, k, a, v).members[k].aborted ==> DoWrite(s, k, a, v).members[k].ops == s.members[k].ops
  {
  }

  lemma TryingOn(s: Stm, s2: Stm, n: nat, m: nat, m2: nat, l: nat, l2: nat, k: nat)
    requires Trying(s, n, m, l) && m <= m2 <= n && l <= l2 && OnlyMember(s, s2, k) && k < n
    requires !HasWritten(s2, k, 1) && s2.members[k].aborted == (k < l2)
    requires k < m2 ==> Accessed(s2, k, 1)
    requires m2 > m ==> m2 == k + 1 == m + 1
    requires l2 > l ==> l2 == k + 1 == l + 1
    ensures Trying(s2, n, m2, l2)
  {
    assert forall i :: 0 <= i < n && i != k ==> s2.members[i] == s.members[i];
    forall i | 0 <= i < m2 ensures Accessed(s2, i, 1) {
      assert i != k ==> Accessed(s, i, 1);
    }
    assert forall i :: 0 <= i < n ==> !HasWritten(s, i, 1);
  }

  lemma OneReads(s: Stm, n: nat, m: nat) returns (s2: Stm)
    requires Reachable(s) && Trying(s, n, m, 0) && m < n
    ensures Reachable(s2) && Trying(s2, n, m + 1, 0)
  {
    assert Inv(s) by { ReachableInv(s); }
    WordThere(s, n, m);
    s2 := DoRead(s, m, 1);
    assert Reachable(s2) by { Extend(s, ReadWord(m, 1), s2); }
    assert !s2.members[m].aborted by { ReadAborts(s, m, 1); }
    ReadsWord(s, m, 1);
    ReadFrame(s, m, 1);
    TryingOn(s, s2, n, m, m + 1, 0, 0, m);
  }

  lemma {:induction false} AllRead(n: nat, m: nat) returns (s: Stm)
    requires m <= n
    ensures Reachable(s) && Trying(s, n, m, 0)
  {
    if m == 0 {
      s := TryingStarts(n);
    } else {
      var before := AllRead(n, m - 1);
      s := OneReads(before, n, m - 1);
    }
  }

  lemma WriteRefused(s: Stm, n: nat, l: nat)
    requires Inv(s) && Trying(s, n, n, l) && l < n && n >= 2
    ensures Active(s, l) && 1 in s.cells && DoWrite(s, l, 1, NIL).members[l].aborted
  {
    WordThere(s, n, l);
    assert Accessed(s, 0, 1) && Accessed(s, 1, 1);
    WriteAborts(s, l, 1, NIL);
  }

  lemma OneRefused(s: Stm, n: nat, l: nat) returns (s2: Stm)
    requires Reachable(s) && Trying(s, n, n, l) && l < n && n >= 2
    ensures Reachable(s2) && Trying(s2, n, n, l + 1)
  {
    assert Inv(s) by { ReachableInv(s); }
    WordThere(s, n, l);
    WriteRefused(s, n, l);
    s2 := DoWrite(s, l, 1, NIL);
    assert Reachable(s2) by { Extend(s, WriteWord(l, 1, NIL), s2); }
    WriteFrame(s, l, 1, NIL);
    assert Accessed(s, l, 1) && !HasWritten(s, l, 1);
    TryingOn(s, s2, n, n, n, l, l + 1, l);
  }

  lemma {:induction false} AllRefused(n: nat, l: nat) returns (s: Stm)
    requires l <= n && n >= 2
    ensures Reachable(s) && Trying(s, n, n, l)
  {
    if l == 0 {
      s := AllRead(n, n);
    } else {
      var before := AllRefused(n, l - 1);
      s := OneRefused(before, n, l - 1);
    }
  }

  lemma OneLeaves(s: Stm, n: nat, m: nat) returns (s2: Stm)
    requires Reachable(s) && Leaving(s, n, m) && m < n - 1
    ensures Reachable(s2) && Leaving(s2, n, m + 1)
  {
    s2 := DoLeave(s, m);
    Extend(s, Leave(m), s2);
    assert forall i :: 0 <= i < n && i != m ==> s2.members[i] == s.members[i];
    assert forall i :: 0 <= i < n ==> !HasWritten(s, i, 1);
  }

  lemma {:induction false} MostLeave(n: nat, m: nat) returns (s: Stm)
    requires m < n && n >= 2
    ensures Reachable(s) && Leaving(s, n, m)
  {
    if m == 0 {
      s := AllRefused(n, n);
    } else {
      var before := MostLeave(n, m - 1);
      s := OneLeaves(before, n, m - 1);
    }
  }

  /** Any number of read-write members, two at least, can all abort. */
  lemma NobodyCommitsOf(n: nat) returns (s: Stm)
    requires n >= 2
    ensures Reachable(s) && |s.past| == 2 && |s.past[1]| == n
    ensures forall k :: 0 <= k < n ==> !s.past[1][k].readOnly && s.past[1][k].aborted
  {
    var before := MostLeave(n, n - 1);
    s := DoLeave(before, n - 1);
    Extend(before, Leave(n - 1), s);
    assert s.past == before.past + [Done(before, n - 1)];
  }

  // ---- exactly when ----

  /** The members of an ended epoch are read-only where kinds says so; nobody committed. */
  ghost predicate FailedEpoch(r: Run, i: nat, e: nat, kinds: seq<bool>) {
    && IsRun(r) && i < |r.states| && e < |r.states[i].past|
    && |r.states[i].past[e]| == |kinds|
    && (forall k :: 0 <= k < |kinds| ==> r.states[i].past[e][k].readOnly == kinds[k])
    && !SomeoneCommitted(r.states[i].past[e])
  }

  /** An epoch with members of these kinds can end without anyone committing if and only if
      there are two of them or more and all are read-write. */
  lemma EpochCanFailIff(kinds: seq<bool>)
    ensures (exists r, i: nat, e: nat :: FailedEpoch(r, i, e, kinds)) <==>
      |kinds| >= 2 && forall k :: 0 <= k < |kinds| ==> !kinds[k]
  {
    forall r, i: nat, e: nat | FailedEpoch(r, i, e, kinds)
      ensures |kinds| >= 2 && forall k :: 0 <= k < |kinds| ==> !kinds[k]
    {
      EpochCommits(r, i, e);
      assert forall k :: 0 <= k < |kinds| ==> !r.states[i].past[e][k].readOnly;
    }
    if |kinds| >= 2 && forall k :: 0 <= k < |kinds| ==> !kinds[k] {
      var s := NobodyCommitsOf(|kinds|);
      var r :| IsRun(r) && r.states[|r.states| - 1] == s;
      assert FailedEpoch(r, |r.states| - 1, 1, kinds);
    }
  }
}
