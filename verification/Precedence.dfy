/** When a suitable serial order exists: the reader-before-writer relation has no cycle. */
module Precedence {
  import opened Serial
  import opened Orders
  import opened Protocol
  import opened Invariant
  import opened Serializability

  ghost predicate Committed(ms: seq<Tx>, i: nat) {
    i < |ms| && ms[i].left && !ms[i].aborted
  }

  /** Member i read from the snapshot a word that member j overwrote, so i must come first. */
  ghost predicate Before(ms: seq<Tx>, i: nat, j: nat) {
    Committed(ms, i) && Committed(ms, j) && i != j && exists a :: a in SnapReads(ms[i].ops) && a in Buffer(ms[j].ops)
  }

  ghost predicate Hop(ms: seq<Tx>, p: seq<nat>, i: int)
    requires 0 <= i < |p| - 1
  {
    Before(ms, p[i], p[i + 1])
  }

  ghost predicate Path(ms: seq<Tx>, p: seq<nat>) {
    forall i {:trigger Hop(ms, p, i)} :: 0 <= i < |p| - 1 ==> Hop(ms, p, i)
  }

  ghost predicate Cycle(ms: seq<Tx>, p: seq<nat>) {
    |p| >= 2 && p[0] == p[|p| - 1] && Path(ms, p)
  }

  ghost predicate Acyclic(ms: seq<Tx>) {
    !exists p :: Cycle(ms, p)
  }

  // ---- a nonempty set without a first element contains a cycle ----

  lemma {:induction false} Pigeonhole(p: seq<nat>, s: set<nat>) returns (i: nat, j: nat)
    requires |p| > |s| && forall n :: 0 <= n < |p| ==> p[n] in s
    ensures i < j < |p| && p[i] == p[j]
  {
    if j' :| 1 <= j' < |p| && p[j'] == p[0] {
      i, j := 0, j';
    } else {
      assert p[0] in s;
      i, j := Pigeonhole(p[1..], s - {p[0]});
      i, j := i + 1, j + 1;
    }
  }

  ghost predicate HasPredecessor(ms: seq<Tx>, s: set<nat>, j: nat) {
    exists i :: i in s && Before(ms, i, j)
  }

  ghost predicate NoFirst(ms: seq<Tx>, s: set<nat>) {
    forall j {:trigger HasPredecessor(ms, s, j)} :: j in s ==> HasPredecessor(ms, s, j)
  }

  lemma {:induction false} LongPath(ms: seq<Tx>, s: set<nat>, n: nat) returns (p: seq<nat>)
    requires s != {} && NoFirst(ms, s)
    ensures |p| == n + 1 && Path(ms, p) && forall m :: 0 <= m < |p| ==> p[m] in s
  {
    if n == 0 {
      var j :| j in s;
      p := [j];
    } else {
      var q := LongPath(ms, s, n - 1);
      assert HasPredecessor(ms, s, q[0]);
      var i :| i in s && Before(ms, i, q[0]);
      p := [i] + q;
      forall m | 0 <= m < |p| - 1 ensures Hop(ms, p, m) {
        if m > 0 { assert Hop(ms, q, m - 1); }
      }
    }
  }

  lemma CycleExists(ms: seq<Tx>, s: set<nat>)
    requires s != {} && NoFirst(ms, s)
    ensures !Acyclic(ms)
  {
    var p := LongPath(ms, s, |s|);
    var i, k := Pigeonhole(p, s);
    var c := p[i..k + 1];
    forall n | 0 <= n < |c| - 1 ensures Hop(ms, c, n) {
      assert Hop(ms, p, i + n);
    }
    assert Cycle(ms, c);
  }

  lemma FirstExists(ms: seq<Tx>, s: set<nat>) returns (j: nat)
    requires Acyclic(ms) && s != {}
    ensures j in s && !HasPredecessor(ms, s, j)
  {
    if NoFirst(ms, s) {
      CycleExists(ms, s);
    }
    j :| j in s && !HasPredecessor(ms, s, j);
  }

  // ---- sorting ----

  ghost predicate Respects(ms: seq<Tx>, order: seq<nat>) {
    forall i, j :: 0 <= i < j < |order| ==> !Before(ms, order[j], order[i])
  }

  lemma {:induction false} SortSet(ms: seq<Tx>, s: set<nat>) returns (order: seq<nat>)
    requires Acyclic(ms)
    ensures Distinct(order) && (forall k: nat :: k in order <==> k in s) && Respects(ms, order)
    decreases |s|
  {
    if s == {} {
      order := [];
    } else {
      var j := FirstExists(ms, s);
      var rest := SortSet(ms, s - {j});
      order := [j] + rest;
      forall n | 1 <= n < |order| ensures order[n] in s && order[n] != j {
        assert order[n] == rest[n - 1];
        assert rest[n - 1] in rest;
      }
    }
  }

  ghost function CommittedSet(ms: seq<Tx>): set<nat> {
    set k: nat | 0 <= k < |ms| && ms[k].left && !ms[k].aborted
  }

  /** If no chain of committed transactions, each reading what the next overwrote, closes into a cycle,
      then some order of the committed transactions puts every reader first. */
  lemma AcyclicHasOrder(ms: seq<Tx>) returns (order: seq<nat>)
    requires Acyclic(ms)
    ensures CommitOrder(ms, order) && ReadersFirst(Logs(ms, order))
  {
    order := SortSet(ms, CommittedSet(ms));
    assert forall i :: 0 <= i < |order| ==> order[i] in CommittedSet(ms);
    forall i, j | 0 <= i < j < |order|
      ensures Buffer(Logs(ms, order)[i]).Keys !! SnapReads(Logs(ms, order)[j])
    {
      assert !Before(ms, order[j], order[i]);
    }
  }

  lemma StepAdvances(ms: seq<Tx>, order: seq<nat>, i: nat, j: nat)
    requires CommitOrder(ms, order) && ReadersFirst(Logs(ms, order))
    requires i < |order| && j < |order| && Before(ms, order[i], order[j])
    ensures i < j
  {
    var logs := Logs(ms, order);
    var a :| a in SnapReads(ms[order[i]].ops) && a in Buffer(ms[order[j]].ops);
    assert a in SnapReads(logs[i]) && a in Buffer(logs[j]);
  }

  /** Along a path the positions in such an order only grow. */
  lemma {:induction false} Advances(ms: seq<Tx>, order: seq<nat>, p: seq<nat>) returns (i: nat, j: nat)
    requires CommitOrder(ms, order) && ReadersFirst(Logs(ms, order))
    requires |p| >= 2 && Path(ms, p)
    ensures i < j < |order| && order[i] == p[0] && order[j] == p[|p| - 1]
  {
    assert Hop(ms, p, 0);
    if |p| == 2 {
      i :| 0 <= i < |order| && order[i] == p[0];
      j :| 0 <= j < |order| && order[j] == p[1];
      StepAdvances(ms, order, i, j);
    } else {
      var q := p[1..];
      forall n | 0 <= n < |q| - 1 ensures Hop(ms, q, n) {
        assert Hop(ms, p, n + 1);
      }
      var h;
      h, j := Advances(ms, order, q);
      i :| 0 <= i < |order| && order[i] == p[0];
      StepAdvances(ms, order, i, h);
    }
  }

  /** And conversely: an order that puts every reader first leaves no cycle. */
  lemma OrderIsAcyclic(ms: seq<Tx>, order: seq<nat>)
    requires CommitOrder(ms, order) && ReadersFirst(Logs(ms, order))
    ensures Acyclic(ms)
  {
    forall p | Path(ms, p) && |p| >= 2 ensures p[0] != p[|p| - 1] {
      var i, j := Advances(ms, order, p);
    }
  }
}
