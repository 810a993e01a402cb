/** Two reachable runs that show what the code does not guarantee. */
module Counterexamples {
  import opened Words
  import opened Serial
  import opened Orders
  import opened Epochs
  import opened Protocol
  import opened Invariant
  import opened Runs
  import opened Serializability
  import opened History

  // ---- a state with two read-write members, ready to run ----

  const FRESH := WordState([0], [0], true, 0, false, false)
  const NIL: Bytes := [0]
  const ONE: Bytes := [1]

  function Rw(epoch: nat, trNum: nat): Tx {
    Tx(epoch, trNum, false, false, false, {}, {}, {}, [], [])
  }

  /** The first epoch: one member that did nothing. */
  function Idle(): seq<Tx> {
    [Rw(0, 1).(left := true)]
  }

  ghost predicate TwoWords(s: Stm) {
    && s.align == 1 && s.endAddress == 3 && s.shared == {1}
    && s.cells == map[1 := Cell(FRESH, 1), 2 := Cell(FRESH, 1)]
  }

  /** One-byte words at addresses 1 and 2, epoch 1, two members that have done nothing. */
  ghost predicate Pair(s: Stm) {
    && TwoWords(s)
    && s.batcher == BatcherState(1, 2, [], [], [])
    && s.members == [Rw(1, 1), Rw(1, 2)]
    && s.past == [Idle()]
  }

  lemma CreateTwo()
    ensures TwoWords(Create(1, 2))
  {
    var c := NewCells(1, 2, 1);
    assert IsWord(1, 1, 1) && IsWord(2, 1, 1);
    assert NewWord(1) == FRESH;
    assert c.Keys == {1, 2};
    assert c == map[1 := Cell(FRESH, 1), 2 := Cell(FRESH, 1)];
  }

  /** One transaction runs alone while two wait. */
  lemma WaitingPair() returns (s: Stm)
    ensures Reachable(s) && TwoWords(s) && s.past == []
    ensures s.members == [Rw(0, 1)] && s.batcher == BatcherState(0, 1, [Rw(1, 1), Rw(1, 2)], [], [])
  {
    var s0 := Create(1, 2);
    Created(s0, 1, 2);
    CreateTwo();
    var s1 := DoBegin(s0, false);
    Extend(s0, Begin(false), s1);
    var s2 := DoBegin(s1, false);
    Extend(s1, Begin(false), s2);
    s := DoBegin(s2, false);
    Extend(s2, Begin(false), s);
  }

  lemma NothingDone(ms: seq<Tx>)
    requires ms == Idle()
    ensures forall a :: !Wrote(ms, [0], a) && !Touched(ms, [0] + [], a)
    ensures forall seg :: !OwnedBy(ms, [0], seg) && !FreedBy(ms, [0], seg) && !OwnedBy(ms, [], seg)
  {
  }

  /** An epoch whose only member did nothing changes no word. */
  lemma IdleEpochEnd(s: Stm)
    requires TwoWords(s) && s.members == [Rw(0, 1)] && s.batcher == BatcherState(0, 1, [Rw(1, 1), Rw(1, 2)], [], [])
    ensures DoLeave(s, 0).cells == s.cells && DoLeave(s, 0).shared == s.shared
  {
    var s1 := With(s, 0, s.members[0].(left := true));
    NothingDone(s1.members);
    assert EpochEnd(s1, [0], []).shared == {1};
    assert EpochEnd(s1, [0], []).cells == s.cells;
  }

  lemma PairReachable() returns (s: Stm)
    ensures Reachable(s) && Pair(s)
  {
    var s3 := WaitingPair();
    s := DoLeave(s3, 0);
    Extend(s3, Leave(0), s);
    IdleEpochEnd(s3);
    assert s3.members[0 := s3.members[0].(left := true)] == Idle();
    assert s.past == [Idle()];
  }

  // ---- write skew: both commit, and no serial order explains it ----

  function Skewed(trNum: nat, x: nat, y: nat, left: bool): Tx {
    Tx(1, trNum, false, false, left, {x}, {y}, {}, [], [Read(x, 1, NIL), Write(y, 1, ONE)])
  }

  function Reader(trNum: nat, x: nat): Tx {
    Rw(1, trNum).(read := {x}, ops := [Read(x, 1, NIL)])
  }

  lemma FirstRead(s: Stm, k: nat, x: nat)
    requires k < |s.members| && s.members[k] == Rw(1, k + 1)
    requires x in s.cells && s.cells[x] == Cell(FRESH, 1)
    ensures DoRead(s, k, x).members == s.members[k := Reader(k + 1, x)]
    ensures DoRead(s, k, x).cells == s.cells[x := Cell(FRESH.(last := k + 1), 1)]
  {
    var y := DoRead(s, k, x).members[k];
    assert y.read == {x};
    assert y.ops == [Read(x, 1, NIL)];
  }

  lemma BlindWrite(s: Stm, k: nat, x: nat, y: nat)
    requires k < |s.members| && s.members[k] == Reader(k + 1, x)
    requires y in s.cells && s.cells[y].seg == 1 && !s.cells[y].word.written && !s.cells[y].word.many
    ensures DoWrite(s, k, y, ONE).members == s.members[k := Skewed(k + 1, x, y, false)]
    ensures forall b :: b in s.cells && b != y ==>
      b in DoWrite(s, k, y, ONE).cells && DoWrite(s, k, y, ONE).cells[b] == s.cells[b]
  {
    var t := DoWrite(s, k, y, ONE).members[k];
    assert t.written == {y};
    assert t.ops == [Read(x, 1, NIL), Write(y, 1, ONE)];
  }

  lemma SkewWrites(s2: Stm) returns (s: Stm)
    requires Reachable(s2) && s2.align == 1 && s2.members == [Reader(1, 1), Reader(2, 2)]
    requires s2.cells == map[1 := Cell(FRESH.(last := 1), 1), 2 := Cell(FRESH.(last := 2), 1)] && s2.shared == {1}
    requires s2.batcher == BatcherState(1, 2, [], [], []) && s2.past == [Idle()]
    ensures Reachable(s) && s.align == 1
    ensures s.members == [Skewed(1, 1, 2, false), Skewed(2, 2, 1, false)]
    ensures s.batcher == BatcherState(1, 2, [], [], []) && s.past == [Idle()]
  {
    var s3 := DoWrite(s2, 0, 2, ONE);
    BlindWrite(s2, 0, 1, 2);
    Extend(s2, WriteWord(0, 2, ONE), s3);
    s := DoWrite(s3, 1, 1, ONE);
    BlindWrite(s3, 1, 2, 1);
    Extend(s3, WriteWord(1, 1, ONE), s);
  }

  /** Each member reads one word, then writes the word the other one read. */
  lemma SkewSteps() returns (s: Stm)
    ensures Reachable(s) && s.align == 1
    ensures s.members == [Skewed(1, 1, 2, false), Skewed(2, 2, 1, false)]
    ensures s.batcher == BatcherState(1, 2, [], [], []) && s.past == [Idle()]
  {
    var s0 := PairReachable();
    var s1 := DoRead(s0, 0, 1);
    FirstRead(s0, 0, 1);
    assert Reachable(s1) by { Extend(s0, ReadWord(0, 1), s1); }
    var s2 := DoRead(s1, 1, 2);
    FirstRead(s1, 1, 2);
    assert Reachable(s2) by { Extend(s1, ReadWord(1, 2), s2); }
    s := SkewWrites(s2);
  }

  lemma SkewReachable() returns (s: Stm)
    ensures Reachable(s) && s.align == 1 && s.past == [Idle(), [Skewed(1, 1, 2, true), Skewed(2, 2, 1, true)]]
  {
    var s0 := SkewSteps();
    var s1 := DoLeave(s0, 0);
    Extend(s0, Leave(0), s1);
    assert s1.members == [Skewed(1, 1, 2, true), Skewed(2, 2, 1, false)];
    s := DoLeave(s1, 1);
    Extend(s1, Leave(1), s);
    assert s1.members[1 := s1.members[1].(left := true)] == [Skewed(1, 1, 2, true), Skewed(2, 2, 1, true)];
    assert s.past == s1.past + [[Skewed(1, 1, 2, true), Skewed(2, 2, 1, true)]];
  }

  lemma SkewLog(trNum: nat, x: nat, y: nat)
    requires x != y
    ensures Buffer(Skewed(trNum, x, y, true).ops) == map[y := ONE]
    ensures SnapReads(Skewed(trNum, x, y, true).ops) == {x}
  {
    var ops := Skewed(trNum, x, y, true).ops;
    var f := [Read(x, 1, NIL)];
    assert Front(ops) == f && Last(ops) == Write(y, 1, ONE) && Front(f) == [] && Last(f) == Read(x, 1, NIL);
    assert SnapReads(f) == {x} && Buffer(f) == map[];
  }

  function LogsOf(ms: seq<Tx>): seq<seq<Op>> {
    if ms == [] then []
    else if Last(ms).aborted then LogsOf(Front(ms)) else LogsOf(Front(ms)) + [Last(ms).ops]
  }

  /** The logs of all committed transactions, epoch after epoch. */
  function CommittedLogs(past: seq<seq<Tx>>): seq<seq<Op>> {
    if past == [] then [] else CommittedLogs(Front(past)) + LogsOf(Last(past))
  }

  lemma SkewLogs(past: seq<seq<Tx>>)
    requires past == [Idle(), [Skewed(1, 1, 2, true), Skewed(2, 2, 1, true)]]
    ensures CommittedLogs(past) == [[], Skewed(1, 1, 2, true).ops, Skewed(2, 2, 1, true).ops]
  {
    var last := [Skewed(1, 1, 2, true), Skewed(2, 2, 1, true)];
    assert Front(past) == [Idle()] && Last(past) == last;
    assert Front([Idle()]) == [] && Last([Idle()]) == Idle();
    assert Front(Idle()) == [] && LogsOf(Front(Idle())) == [];
    assert CommittedLogs([Idle()]) == [[]];
    assert Front(last) == [Skewed(1, 1, 2, true)] && Front(Front(last)) == [];
    assert LogsOf(last) == [Skewed(1, 1, 2, true).ops, Skewed(2, 2, 1, true).ops];
  }

  /** One skewed log after the other is not legal: the second reads what the first overwrote. */
  lemma SkewIllegal(m: Memory, t: nat, x: nat, y: nat, u: nat)
    requires x != y
    ensures !Legal(m, NIL, Skewed(t, x, y, true).ops + Skewed(u, y, x, true).ops)
  {
    var p, q := Skewed(t, x, y, true).ops, Skewed(u, y, x, true).ops;
    SkewLog(t, x, y);
    ReplayConcat(m, NIL, p, q);
    ReplayIsOverlay(m, p);
    assert Replay(m, p).vals[y] == ONE;
    var f := [Read(y, 1, NIL)];
    assert Front(q) == f && Front(f) == [] && Last(f) == Read(y, 1, NIL);
    assert !OpOk(Replay(m, p), NIL, Last(f));
  }

  lemma ThreeLogs(logs: seq<seq<Op>>)
    requires |logs| == 3
    ensures Concat(logs) == logs[0] + logs[1] + logs[2]
  {
    var f := Front(logs);
    var g := Front(f);
    assert Last(logs) == logs[2] && Last(f) == logs[1] && Last(g) == logs[0] && Front(g) == [];
    assert Concat(g) == logs[0];
  }

  lemma OneOfEach<T>(x: T, y: T, z: T, a: T, b: T, c: T)
    requires multiset{x, y, z} == multiset{a, b, c} && a != b && a != c && b != c
    ensures (x == a && y == b && z == c) || (x == a && y == c && z == b) || (x == b && y == a && z == c)
      || (x == b && y == c && z == a) || (x == c && y == a && z == b) || (x == c && y == b && z == a)
  {
    var m := multiset{x, y, z};
    assert x in m && y in m && z in m;
    assert a in multiset{a, b, c} && b in multiset{a, b, c} && c in multiset{a, b, c};
    assert a in m && b in m && c in m;
  }

  lemma PermutedLogs(logs: seq<seq<Op>>, p: seq<Op>, q: seq<Op>)
    requires multiset(logs) == multiset([[], p, q]) && p != q && p != [] && q != []
    ensures Concat(logs) == p + q || Concat(logs) == q + p
  {
    assert |logs| == |multiset(logs)| == |multiset([[], p, q])| == 3;
    assert logs == [logs[0], logs[1], logs[2]];
    OneOfEach(logs[0], logs[1], logs[2], [], p, q);
    ThreeLogs(logs);
  }

  lemma NoOrder(logs: seq<seq<Op>>)
    requires multiset(logs) == multiset([[], Skewed(1, 1, 2, true).ops, Skewed(2, 2, 1, true).ops])
    ensures !Legal(Blank(2), NIL, Concat(logs))
  {
    var p, q := Skewed(1, 1, 2, true).ops, Skewed(2, 2, 1, true).ops;
    assert p[0] != q[0];
    PermutedLogs(logs, p, q);
    SkewIllegal(Blank(2), 1, 1, 2, 2);
    SkewIllegal(Blank(2), 2, 2, 1, 1);
  }

  lemma {:induction false} DistinctLength(q: seq<nat>, s: set<nat>)
    requires Distinct(q) && forall i :: 0 <= i < |q| ==> q[i] in s
    ensures |q| <= |s|
  {
    if q != [] {
      DistinctLength(Front(q), s - {Last(q)});
    }
  }

  lemma TwoLogs(ms: seq<Tx>, order: seq<nat>)
    requires |ms| == 2 && CommitOrder(ms, order) && forall k :: 0 <= k < 2 ==> ms[k].left && !ms[k].aborted
    ensures Concat(Logs(ms, order)) in {ms[0].ops + ms[1].ops, ms[1].ops + ms[0].ops}
  {
    assert 0 in order && 1 in order;
    DistinctLength(order, {0, 1});
    var logs := Logs(ms, order);
    var f := Front(logs);
    assert Last(logs) == logs[1] && Last(f) == logs[0] && Front(f) == [];
    assert Concat(f) == logs[0];
  }

  lemma NoEpochOrder(past: seq<seq<Tx>>, orders: seq<seq<nat>>)
    requires past == [Idle(), [Skewed(1, 1, 2, true), Skewed(2, 2, 1, true)]] && Ordering(past, orders)
    ensures !SerialLegal(Blank(2), NIL, past, orders)
  {
    var m := SerialMemory(Blank(2), Front(past), Front(orders));
    TwoLogs(Last(past), Last(orders));
    SkewIllegal(m, 1, 1, 2, 2);
    SkewIllegal(m, 2, 2, 1, 1);
  }

  /** Unconditional serializability is false: in this reachable state both members of the last epoch committed,
      and executing the three committed transactions one after the other, in any order, keeping the epochs apart
      or not, does not give them what they saw. */
  lemma WriteSkew() returns (s: Stm)
    ensures Reachable(s) && s.align == 1 && |s.past| == 2 && |s.past[1]| == 2
    ensures forall k :: 0 <= k < 2 ==> s.past[1][k].left && !s.past[1][k].aborted
    ensures forall logs :: multiset(logs) == multiset(CommittedLogs(s.past)) ==>
      !Legal(Blank(2), Zero(s.align), Concat(logs))
    ensures forall orders :: Ordering(s.past, orders) ==> !SerialLegal(Blank(2), Zero(s.align), s.past, orders)
  {
    s := SkewReachable();
    assert Zero(1) == NIL;
    SkewLogs(s.past);
    forall logs | multiset(logs) == multiset(CommittedLogs(s.past))
      ensures !Legal(Blank(2), Zero(s.align), Concat(logs))
    {
      NoOrder(logs);
    }
    forall orders | Ordering(s.past, orders) ensures !SerialLegal(Blank(2), Zero(s.align), s.past, orders) {
      NoEpochOrder(s.past, orders);
    }
  }

  // ---- an epoch in which nobody commits ----

  lemma BothLeave(s: Stm) returns (s2: Stm)
    requires Reachable(s) && |s.members| == 2 && s.batcher.remaining == 2 && |s.past| == 1
    requires s.align > 0 && s.members[0].aborted && s.members[1].aborted && !s.members[0].left && !s.members[1].left
    ensures Reachable(s2) && |s2.past| == 2 && |s2.past[1]| == 2
    ensures forall k :: 0 <= k < 2 ==> s2.past[1][k].left && s2.past[1][k].aborted
  {
    var s1 := DoLeave(s, 0);
    Extend(s, Leave(0), s1);
    s2 := DoLeave(s1, 1);
    Extend(s1, Leave(1), s2);
  }

  /** Both members read the first word; then each one's write of it aborts. */
  lemma NobodyCommits() returns (s: Stm)
    ensures Reachable(s) && |s.past| == 2 && |s.past[1]| == 2
    ensures forall k :: 0 <= k < 2 ==> s.past[1][k].left && s.past[1][k].aborted
  {
    var s0 := PairReachable();
    var s1 := DoRead(s0, 0, 1);
    Extend(s0, ReadWord(0, 1), s1);
    var s2 := DoRead(s1, 1, 1);
    Extend(s1, ReadWord(1, 1), s2);
    assert s2.cells[1].word.many && !s2.cells[1].word.written;
    var s3 := DoWrite(s2, 0, 1, ONE);
    Extend(s2, WriteWord(0, 1, ONE), s3);
    var s4 := DoWrite(s3, 1, 1, ONE);
    Extend(s3, WriteWord(1, 1, ONE), s4);
    assert s4.members[0].aborted && s4.members[1].aborted;
    s := BothLeave(s4);
  }
}
