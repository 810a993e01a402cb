/** The batcher, updated in place, and the end of an epoch over the objects of the memory. */
module Batching {
  import opened Words
  import opened Epochs
  import opened Index
  import opened Objects

  // ---- unions over the transactions that left ----

  ghost function Union<T>(ss: seq<set<T>>): set<T> {
    if ss == [] then {} else Union(ss[..|ss| - 1]) + ss[|ss| - 1]
  }

  lemma UnionOne<T>(ss: seq<set<T>>, i: nat)
    requires i < |ss|
    ensures Union(ss[..i + 1]) == Union(ss[..i]) + ss[i]
  {
    assert ss[..i + 1][..i] == ss[..i];
  }

  lemma {:induction false} InUnion<T>(ss: seq<set<T>>, i: nat)
    requires i < |ss|
    ensures ss[i] <= Union(ss)
    decreases |ss|
  {
    if i < |ss| - 1 {
      InUnion(ss[..|ss| - 1], i);
    }
  }

  lemma {:induction false} UnionSmaller<T>(ss: seq<set<T>>, tt: seq<set<T>>)
    requires |ss| == |tt| && forall i :: 0 <= i < |ss| ==> ss[i] <= tt[i]
    ensures Union(ss) <= Union(tt)
  {
    if ss != [] {
      UnionSmaller(ss[..|ss| - 1], tt[..|tt| - 1]);
    }
  }

  /** No element is in two of the sets. */
  ghost predicate PairwiseApart<T>(ss: seq<set<T>>) {
    forall i, j :: 0 <= i < j < |ss| ==> ss[i] !! ss[j]
  }

  lemma {:induction false} EarlierApart<T>(ss: seq<set<T>>, i: nat, n: nat)
    requires PairwiseApart(ss) && n <= i < |ss|
    ensures Union(ss[..n]) !! ss[i]
  {
    if n > 0 {
      EarlierApart(ss, i, n - 1);
      UnionOne(ss, n - 1);
    }
  }

  lemma CommitStep<T>(writes: seq<set<T>>, touches: seq<set<T>>, i: nat)
    requires |writes| == |touches| && PairwiseApart(writes) && i < |writes|
    requires forall j :: 0 <= j < |writes| ==> writes[j] <= touches[j]
    ensures Union(writes[..i]) !! writes[i] && Union(writes[..i]) <= Union(touches[..i])
    ensures Union(writes[..i + 1]) == Union(writes[..i]) + writes[i]
    ensures Union(touches[..i + 1]) == Union(touches[..i]) + touches[i]
  {
    EarlierApart(writes, i, i);
    UnionSmaller(writes[..i], touches[..i]);
    UnionOne(writes, i);
    UnionOne(touches, i);
  }

  lemma AbortStep<T>(touched: set<T>, touches: seq<set<T>>, i: nat)
    requires i < |touches|
    ensures touched + Union(touches[..i + 1]) == touched + Union(touches[..i]) + touches[i]
    ensures touches[i] <= Union(touches)
  {
    UnionOne(touches, i);
    InUnion(touches, i);
  }

  // ---- maps of segments ----

  /** The shared segments once the private ones have been added. */
  ghost function Published(m: map<nat, Segment>, owns: seq<map<nat, Segment>>): map<nat, Segment> {
    if owns == [] then m else Published(m, owns[..|owns| - 1]) + owns[|owns| - 1]
  }

  lemma PublishedOne(m: map<nat, Segment>, owns: seq<map<nat, Segment>>, i: nat)
    requires i < |owns|
    ensures Published(m, owns[..i + 1]) == Published(m, owns[..i]) + owns[i]
  {
    assert owns[..i + 1][..i] == owns[..i];
  }

  /** No segment of one map overlaps a segment of the other. */
  ghost predicate MapsApart(m: map<nat, Segment>, n: map<nat, Segment>) {
    forall s, t :: s in m && t in n ==> m[s].end <= t || n[t].end <= s
  }

  ghost predicate PairsApart(owns: seq<map<nat, Segment>>) {
    forall i, j :: 0 <= i < j < |owns| ==> MapsApart(owns[i], owns[j])
  }

  lemma {:induction false} PublishedApart(m: map<nat, Segment>, owns: seq<map<nat, Segment>>, i: nat, n: nat)
    requires PairsApart(owns) && n <= i < |owns| && MapsApart(m, owns[i])
    ensures MapsApart(Published(m, owns[..n]), owns[i])
  {
    if n > 0 {
      PublishedApart(m, owns, i, n - 1);
      PublishedOne(m, owns, n - 1);
    }
  }

  lemma NextApart(m: map<nat, Segment>, n: map<nat, Segment>, ends: map<nat, nat>, todo: set<nat>, st: nat)
    requires MapsApart(m, n) && IndexOk(n, ends) && st in todo && todo <= n.Keys
    ensures Apart(ExtentsOf(m + (n - todo)), st, n[st].end) && st < n[st].end
  {
    assert ExtentsOf(n)[st] == n[st].end;
    var e := ExtentsOf(m + (n - todo));
    forall s | s in e ensures e[s] <= st || n[st].end <= s {
      if s in n && s !in todo {
        assert ExtentsOf(n)[s] == e[s];
      } else {
        assert s in m && m[s].end == e[s];
      }
    }
  }

  lemma PutOne<K, V>(m: map<K, V>, n: map<K, V>, todo: set<K>, k: K)
    requires k in todo && todo <= n.Keys
    ensures (m + (n - todo))[k := n[k]] == m + (n - (todo - {k}))
  {
  }

  // ---- the transactions that left, as values ----

  datatype Leaver = Leaver(
    written: map<nat, Word>,
    read: map<nat, Word>,
    owned: map<nat, Segment>,
    ends: map<nat, nat>,
    freed: seq<nat>)

  ghost function ViewOf(tx: Transaction): Leaver
    reads tx
  {
    Leaver(tx.written, tx.read, tx.owned, tx.ownedEnds, tx.freed)
  }

  ghost predicate Views(q: seq<Transaction>, ls: seq<Leaver>, aborted: bool)
    reads q
  {
    |ls| == |q| && forall i :: 0 <= i < |q| ==> ViewOf(q[i]) == ls[i] && q[i].MapsValid() && q[i].aborted == aborted
  }

  ghost function Touched(l: Leaver): set<Word> {
    l.written.Values + l.read.Values
  }

  ghost function Elements(s: seq<nat>): set<nat> {
    set x | x in s
  }

  ghost function Writes(ls: seq<Leaver>): seq<set<Word>> {
    seq(|ls|, i requires 0 <= i < |ls| => ls[i].written.Values)
  }

  ghost function Touches(ls: seq<Leaver>): seq<set<Word>> {
    seq(|ls|, i requires 0 <= i < |ls| => Touched(ls[i]))
  }

  ghost function Owns(ls: seq<Leaver>): seq<map<nat, Segment>> {
    seq(|ls|, i requires 0 <= i < |ls| => ls[i].owned)
  }

  ghost function Frees(ls: seq<Leaver>): seq<set<nat>> {
    seq(|ls|, i requires 0 <= i < |ls| => Elements(ls[i].freed))
  }

  /** The private segments of a leaver can join shared segments below the limit. */
  ghost predicate Publishable(l: Leaver, limit: nat, align: nat) {
    IndexOk(l.owned, l.ends) && Within(l.owned, limit) && AllFit(l.owned, align)
  }

  /** No word was written by two committed transactions, and no two segments overlap.
      The members of an epoch are always like this: see MembersSettleable in Abstraction. */
  ghost predicate Settleable(shared: map<nat, Segment>, limit: nat, align: nat, committed: seq<Leaver>) {
    && PairwiseApart(Writes(committed)) && PairsApart(Owns(committed))
    && (forall i :: 0 <= i < |committed| ==> MapsApart(shared, committed[i].owned))
    && (forall i :: 0 <= i < |committed| ==> Publishable(committed[i], limit, align))
  }

  // ---- the order in which transactions left does not matter ----

  lemma {:induction false} UnionMember<T>(ss: seq<set<T>>, x: T)
    ensures x in Union(ss) <==> exists i :: 0 <= i < |ss| && x in ss[i]
  {
    if ss != [] {
      var f := ss[..|ss| - 1];
      UnionMember(f, x);
      if x in Union(f) {
        var i :| 0 <= i < |f| && x in f[i];
        assert x in ss[i];
      }
    }
  }

  /** The segment published under a start address, when no two transactions publish the same one. */
  lemma {:induction false} PublishedAt(m: map<nat, Segment>, owns: seq<map<nat, Segment>>, st: nat)
    requires forall i, j :: 0 <= i < j < |owns| && st in owns[i] ==> st !in owns[j]
    ensures st in Published(m, owns) <==> st in m || exists i :: 0 <= i < |owns| && st in owns[i]
    ensures forall i :: 0 <= i < |owns| && st in owns[i] ==> Published(m, owns)[st] == owns[i][st]
    ensures st in m && (forall i :: 0 <= i < |owns| ==> st !in owns[i]) ==> Published(m, owns)[st] == m[st]
  {
    if owns != [] {
      PublishedAt(m, owns[..|owns| - 1], st);
    }
  }

  /** Settleable transactions start their segments at different addresses. */
  lemma StartsDiffer(shared: map<nat, Segment>, limit: nat, align: nat, q: seq<Leaver>, st: nat)
    requires Settleable(shared, limit, align, q)
    ensures forall i, j :: 0 <= i < j < |q| && st in Owns(q)[i] ==> st !in Owns(q)[j]
  {
    forall i, j | 0 <= i < j < |q| && st in Owns(q)[i] ensures st !in Owns(q)[j] {
      assert Publishable(q[i], limit, align) && Publishable(q[j], limit, align);
      assert ExtentsOf(q[i].owned)[st] > st;
      if st in q[j].owned {
        assert ExtentsOf(q[j].owned)[st] > st;
        assert MapsApart(Owns(q)[i], Owns(q)[j]);
      }
    }
  }

  ghost function IndexOf<T>(q: seq<T>, x: T): (i: nat)
    requires x in q
    ensures i < |q| && q[i] == x
  {
    if q[0] == x then 0 else 1 + IndexOf(q[1..], x)
  }

  lemma SmallerUnion<T>(ss: seq<set<T>>, tt: seq<set<T>>, at: seq<nat>)
    requires |at| == |ss| && forall i :: 0 <= i < |ss| ==> at[i] < |tt| && tt[at[i]] == ss[i]
    ensures Union(ss) <= Union(tt)
  {
    forall x | x in Union(ss) ensures x in Union(tt) {
      UnionMember(ss, x);
      var i :| 0 <= i < |ss| && x in ss[i];
      assert x in tt[at[i]];
      UnionMember(tt, x);
    }
  }

  lemma SameUnions(q: seq<Leaver>, r: seq<Leaver>)
    requires forall l :: l in q ==> l in r
    ensures Union(Writes(q)) <= Union(Writes(r)) && Union(Touches(q)) <= Union(Touches(r))
    ensures Union(Frees(q)) <= Union(Frees(r))
  {
    var at := seq(|q|, i requires 0 <= i < |q| => IndexOf(r, q[i]));
    SmallerUnion(Writes(q), Writes(r), at);
    SmallerUnion(Touches(q), Touches(r), at);
    SmallerUnion(Frees(q), Frees(r), at);
  }

  lemma OwnerIn(q: seq<Leaver>, r: seq<Leaver>, st: nat)
    requires forall l :: l in q ==> l in r
    ensures forall i :: 0 <= i < |q| && st in Owns(q)[i] ==>
      exists j :: 0 <= j < |r| && st in Owns(r)[j] && Owns(r)[j] == Owns(q)[i]
  {
    forall i | 0 <= i < |q| && st in Owns(q)[i]
      ensures exists j :: 0 <= j < |r| && st in Owns(r)[j] && Owns(r)[j] == Owns(q)[i]
    {
      assert q[i] in r;
      var j :| 0 <= j < |r| && r[j] == q[i];
      assert Owns(r)[j] == Owns(q)[i];
    }
  }

  lemma PublishesAll(shared: map<nat, Segment>, limit: nat, align: nat, q: seq<Leaver>, r: seq<Leaver>)
    requires Settleable(shared, limit, align, q) && Settleable(shared, limit, align, r)
    requires forall l :: l in q <==> l in r
    ensures forall st :: st in Published(shared, Owns(q)) ==>
      st in Published(shared, Owns(r)) && Published(shared, Owns(q))[st] == Published(shared, Owns(r))[st]
  {
    forall st | st in Published(shared, Owns(q))
      ensures st in Published(shared, Owns(r)) && Published(shared, Owns(q))[st] == Published(shared, Owns(r))[st]
    {
      StartsDiffer(shared, limit, align, q, st);
      StartsDiffer(shared, limit, align, r, st);
      PublishedAt(shared, Owns(q), st);
      PublishedAt(shared, Owns(r), st);
      OwnerIn(q, r, st);
      OwnerIn(r, q, st);
    }
  }

  /** Every word accessed in the epoch. */
  ghost function AllTouched(commits: seq<Leaver>, aborts: seq<Leaver>): set<Word> {
    Union(Touches(commits)) + Union(Touches(aborts))
  }

  /** The shared segments after an epoch. */
  ghost function SegmentsAfter(shared: map<nat, Segment>, commits: seq<Leaver>): map<nat, Segment> {
    Published(shared, Owns(commits)) - Union(Frees(commits))
  }

  /** The words after an epoch. */
  ghost function WordsAfter(before: map<Word, WordState>, commits: seq<Leaver>, aborts: seq<Leaver>)
    : map<Word, WordState>
  {
    map w | w in before ::
      Settled(before[w], w in Union(Writes(commits)), w in AllTouched(commits, aborts))
  }

  lemma EqualUnions(q: seq<Leaver>, r: seq<Leaver>)
    requires forall l :: l in q <==> l in r
    ensures Union(Writes(q)) == Union(Writes(r)) && Union(Touches(q)) == Union(Touches(r))
    ensures Union(Frees(q)) == Union(Frees(r))
  {
    SameUnions(q, r);
    SameUnions(r, q);
  }

  lemma EqualPublished(shared: map<nat, Segment>, limit: nat, align: nat, q: seq<Leaver>, r: seq<Leaver>)
    requires Settleable(shared, limit, align, q) && Settleable(shared, limit, align, r)
    requires forall l :: l in q <==> l in r
    ensures Published(shared, Owns(q)) == Published(shared, Owns(r))
  {
    PublishesAll(shared, limit, align, q, r);
    PublishesAll(shared, limit, align, r, q);
  }

  /** The order in which committed and aborted transactions left makes no difference to any word or shared segment. */
  lemma LeavingOrderIrrelevant(shared: map<nat, Segment>, limit: nat, align: nat, q: seq<Leaver>, r: seq<Leaver>,
                               aborts: seq<Leaver>, aborts2: seq<Leaver>, before: map<Word, WordState>)
    requires Settleable(shared, limit, align, q) && Settleable(shared, limit, align, r)
    requires (forall l :: l in q <==> l in r) && forall l :: l in aborts <==> l in aborts2
    ensures SegmentsAfter(shared, q) == SegmentsAfter(shared, r)
    ensures WordsAfter(before, q, aborts) == WordsAfter(before, r, aborts2)
  {
    EqualUnions(q, r);
    EqualUnions(aborts, aborts2);
    EqualPublished(shared, limit, align, q, r);
  }

  // ---- settling words ----

  /** Among the words all, those touched have been settled so far, and those wrote were swapped. */
  ghost predicate SettledSo(all: set<Word>, before: map<Word, WordState>, wrote: set<Word>, touched: set<Word>)
    requires all <= before.Keys
    reads all
  {
    forall w :: w in all ==> w.State() == Settled(before[w], w in wrote, w in touched)
  }

  method CommitNext(tx: Transaction, ghost all: set<Word>, ghost before: map<Word, WordState>,
                    ghost wrote: set<Word>, ghost touched: set<Word>)
    requires tx.MapsValid() && !tx.aborted && tx.Touched() <= all <= before.Keys && wrote <= touched
    requires wrote !! tx.written.Values && SettledSo(all, before, wrote, touched)
    modifies all
    ensures SettledSo(all, before, wrote + tx.written.Values, touched + tx.Touched())
  {
    tx.Commit();
  }

  method AbortNext(tx: Transaction, ghost all: set<Word>, ghost before: map<Word, WordState>,
                   ghost wrote: set<Word>, ghost touched: set<Word>)
    requires tx.MapsValid() && tx.aborted && tx.Touched() <= all <= before.Keys && wrote <= touched
    requires SettledSo(all, before, wrote, touched)
    modifies all
    ensures SettledSo(all, before, wrote, touched + tx.Touched())
  {
    tx.Abort();
  }

  method CommitAll(q: seq<Transaction>, ghost ls: seq<Leaver>, ghost all: set<Word>, ghost before: map<Word, WordState>)
    requires Views(q, ls, false) && PairwiseApart(Writes(ls))
    requires Union(Touches(ls)) <= all <= before.Keys && SettledSo(all, before, {}, {})
    modifies all
    ensures SettledSo(all, before, Union(Writes(ls)), Union(Touches(ls)))
  {
    ghost var writes, touches := Writes(ls), Touches(ls);
    var i := 0;
    while i < |q|
      invariant i <= |q|
      invariant SettledSo(all, before, Union(writes[..i]), Union(touches[..i]))
    {
      CommitStep(writes, touches, i);
      InUnion(touches, i);
      CommitNext(q[i], all, before, Union(writes[..i]), Union(touches[..i]));
      i := i + 1;
    }
    assert writes[..i] == writes && touches[..i] == touches;
  }

  method AbortAll(q: seq<Transaction>, ghost ls: seq<Leaver>, ghost all: set<Word>, ghost before: map<Word, WordState>,
                  ghost wrote: set<Word>, ghost touched: set<Word>)
    requires Views(q, ls, true) && wrote <= touched
    requires Union(Touches(ls)) <= all <= before.Keys && SettledSo(all, before, wrote, touched)
    modifies all
    ensures SettledSo(all, before, wrote, touched + Union(Touches(ls)))
  {
    ghost var touches, sofar := Touches(ls), touched;
    assert sofar == touched + Union(touches[..0]);
    var i := 0;
    while i < |q|
      invariant i <= |q|
      invariant sofar == touched + Union(touches[..i]) && wrote <= sofar
      invariant SettledSo(all, before, wrote, sofar)
    {
      AbortStep(touched, touches, i);
      AbortNext(q[i], all, before, wrote, sofar);
      sofar := sofar + touches[i];
      i := i + 1;
    }
    assert touches[..i] == touches;
  }

  /** Every word accessed in the epoch is settled: swapped exactly if a committed transaction wrote it. */
  method SettleWords(committed: seq<Transaction>, aborted: seq<Transaction>,
                     ghost commits: seq<Leaver>, ghost aborts: seq<Leaver>, ghost all: set<Word>,
                     ghost before: map<Word, WordState>)
    requires Views(committed, commits, false) && Views(aborted, aborts, true) && PairwiseApart(Writes(commits))
    requires AllTouched(commits, aborts) <= all <= before.Keys && SettledSo(all, before, {}, {})
    modifies all
    ensures SettledSo(all, before, Union(Writes(commits)), AllTouched(commits, aborts))
  {
    CommitAll(committed, commits, all, before);
    UnionSmaller(Writes(commits), Touches(commits));
    AbortAll(aborted, aborts, all, before, Union(Writes(commits)), Union(Touches(commits)));
  }

  // ---- publishing and freeing ----

  /** Adds the private segments of one committed transaction to the shared ones. */
  method Publish(stm: DualStm, tx: Transaction)
    requires stm.Valid() && tx.IndexValid() && Within(tx.owned, stm.endAddress) && AllFit(tx.owned, stm.alignment)
    requires MapsApart(stm.segments, tx.owned)
    modifies stm`segments, stm`addresses
    ensures stm.Valid() && stm.segments == old(stm.segments) + tx.owned
  {
    ghost var before := stm.segments;
    var todo := tx.owned.Keys;
    assert before + (tx.owned - todo) == before;
    while todo != {}
      invariant todo <= tx.owned.Keys
      invariant stm.Valid() && stm.segments == before + (tx.owned - todo)
    {
      var startAddr :| startAddr in todo;
      NextApart(before, tx.owned, tx.ownedEnds, todo, startAddr);
      PutOne(before, tx.owned, todo, startAddr);
      stm.AddSegment(startAddr, tx.owned[startAddr]);
      todo := todo - {startAddr};
    }
    assert tx.owned - todo == tx.owned;
  }

  method PublishAll(stm: DualStm, q: seq<Transaction>, ghost ls: seq<Leaver>)
    requires stm.Valid() && Views(q, ls, false) && Settleable(stm.segments, stm.endAddress, stm.alignment, ls)
    modifies stm`segments, stm`addresses
    ensures stm.Valid() && stm.segments == Published(old(stm.segments), Owns(ls))
  {
    ghost var before, owns, limit := stm.segments, Owns(ls), stm.endAddress;
    ghost var shared := before;
    var i := 0;
    while i < |q|
      invariant i <= |q| && shared == Published(before, owns[..i])
      invariant stm.Valid() && stm.segments == shared && stm.endAddress == limit
    {
      PublishedApart(before, owns, i, i);
      PublishedOne(before, owns, i);
      assert ViewOf(q[i]) == ls[i] && Publishable(ls[i], limit, stm.alignment);
      Publish(stm, q[i]);
      shared := shared + owns[i];
      i := i + 1;
    }
    assert owns[..i] == owns;
  }

  lemma DropOne<K, V>(m: map<K, V>, gone: set<K>, k: K)
    ensures (m - gone) - {k} == m - (gone + {k})
  {
  }

  lemma DropMore<K, V>(m: map<K, V>, gone: set<K>, more: set<K>)
    ensures (m - gone) - more == m - (gone + more)
  {
  }

  method FreeSegments(stm: DualStm, freed: seq<nat>)
    requires stm.Valid()
    modifies stm`segments, stm`addresses
    ensures stm.Valid() && stm.segments == old(stm.segments) - Elements(freed)
  {
    ghost var gone, before := {}, stm.segments;
    var i := 0;
    while i < |freed|
      invariant i <= |freed| && gone == Elements(freed[..i])
      invariant stm.Valid() && stm.segments == before - gone
    {
      DropOne(before, gone, freed[i]);
      stm.FreeSegment(freed[i]);
      gone := gone + {freed[i]};
      i := i + 1;
    }
    assert freed[..i] == freed;
  }

  method FreeAll(stm: DualStm, q: seq<Transaction>, ghost ls: seq<Leaver>)
    requires stm.Valid() && Views(q, ls, false)
    modifies stm`segments, stm`addresses
    ensures stm.Valid() && stm.segments == old(stm.segments) - Union(Frees(ls))
  {
    ghost var frees, gone, before := Frees(ls), {}, stm.segments;
    var i := 0;
    while i < |q|
      invariant i <= |q| && gone == Union(frees[..i])
      invariant stm.Valid() && stm.segments == before - gone
    {
      UnionOne(frees, i);
      assert q[i].freed == ls[i].freed;
      DropMore(before, gone, frees[i]);
      FreeSegments(stm, q[i].freed);
      gone := gone + frees[i];
      i := i + 1;
    }
    assert frees[..i] == frees;
  }

  /** The loops over the leaving transactions at the end of an epoch: publish, settle, free. */
  method SettleEpoch(stm: DualStm, committed: seq<Transaction>, aborted: seq<Transaction>,
                     ghost commits: seq<Leaver>, ghost aborts: seq<Leaver>, ghost all: set<Word>,
                     ghost before: map<Word, WordState>)
    requires stm.Valid() && Settleable(stm.segments, stm.endAddress, stm.alignment, commits)
    requires Views(committed, commits, false) && Views(aborted, aborts, true)
    requires AllTouched(commits, aborts) <= all <= before.Keys && SettledSo(all, before, {}, {})
    modifies stm`segments, stm`addresses, all
    ensures stm.Valid() && SettledSo(all, before, Union(Writes(commits)), AllTouched(commits, aborts))
    ensures stm.segments == SegmentsAfter(old(stm.segments), commits)
  {
    PublishAll(stm, committed, commits);
    SettleWords(committed, aborted, commits, aborts, all, before);
    FreeAll(stm, committed, commits);
  }

  // ---- the batcher ----

  /** A waiting thread. */
  class BThread {
    var awake: bool

    constructor ()
      ensures !awake
    {
      awake := false;
    }
  }

  class Batcher {
    const stm: DualStm
    var counter: nat
    var remaining: nat
    var blocked: seq<BThread>
    var committedTransactions: seq<Transaction>
    var abortedTransactions: seq<Transaction>

    ghost function State(): BatcherState<BThread, Transaction>
      reads this
    {
      BatcherState(counter, remaining, blocked, committedTransactions, abortedTransactions)
    }

    constructor (stm: DualStm)
      ensures this.stm == stm && State() == IdleBatcher()
    {
      this.stm := stm;
      counter, remaining := 0, 0;
      blocked, committedTransactions, abortedTransactions := [], [], [];
    }

    /** Runs at once in an idle batcher; otherwise the thread returned waits until it is woken. */
    method Enter(isReadOnly: bool) returns (tx: Transaction, thread: BThread?)
      modifies this
      ensures var e := Place(old(State()));
        && fresh(tx) && tx.epoch == e.epoch && tx.trNum == e.trNum && tx.isReadOnly == isReadOnly
        && (thread != null <==> e.waits)
      ensures !tx.aborted && !tx.hasWritten && ViewOf(tx) == Leaver(map[], map[], map[], map[], [])
      ensures thread != null ==> fresh(thread) && !thread.awake && State() == Epochs.Enter(old(State()), thread)
      ensures thread == null ==> State() == old(State()).(remaining := 1)
    {
      if remaining == 0 {
        remaining := 1;
        tx := new Transaction(counter, isReadOnly, 1);
        thread := null;
      } else {
        var t := new BThread();
        blocked := blocked + [t];
        tx := new Transaction(counter + 1, isReadOnly, |blocked|);
        thread := t;
      }
    }

    /** Publishes, settles and frees, in that order, and forgets the transactions. */
    method OnEpochEnd(ghost commits: seq<Leaver>, ghost aborts: seq<Leaver>, ghost all: set<Word>,
                      ghost before: map<Word, WordState>)
      requires stm.Valid() && Settleable(stm.segments, stm.endAddress, stm.alignment, commits)
      requires Views(committedTransactions, commits, false) && Views(abortedTransactions, aborts, true)
      requires AllTouched(commits, aborts) <= all <= before.Keys && SettledSo(all, before, {}, {})
      modifies this`committedTransactions, this`abortedTransactions, stm`segments, stm`addresses, all
      ensures stm.Valid() && committedTransactions == abortedTransactions == []
      ensures SettledSo(all, before, Union(Writes(commits)), AllTouched(commits, aborts))
      ensures stm.segments == SegmentsAfter(old(stm.segments), commits)
    {
      SettleEpoch(stm, committedTransactions, abortedTransactions, commits, aborts, all, before);
      committedTransactions, abortedTransactions := [], [];
    }

    /** Wakes the waiting threads from the last one back. */
    method WakeAll()
      modifies this`blocked, blocked
      ensures blocked == [] && forall t :: t in old(blocked) ==> t.awake
    {
      ghost var waiting := blocked;
      var i := |blocked|;
      while i > 0
        invariant i == |blocked| <= |waiting| && blocked == waiting[..i]
        invariant forall j :: i <= j < |waiting| ==> waiting[j].awake
      {
        blocked[|blocked| - 1].awake := true;
        blocked := blocked[..|blocked| - 1];
        i := i - 1;
      }
    }

    /** Starts the next epoch with everyone who waited. */
    method StartNext()
      requires committedTransactions == abortedTransactions == []
      modifies this`counter, this`remaining, this`blocked, blocked
      ensures State() == NextEpoch(old(State())) && forall t :: t in old(blocked) ==> t.awake
    {
      counter := counter + 1;
      remaining := |blocked|;
      if remaining > 0 {
        WakeAll();
      }
    }

    method EndEpoch(ghost b: BatcherState<BThread, Transaction>, ghost commits: seq<Leaver>, ghost aborts: seq<Leaver>,
                    ghost all: set<Word>, ghost before: map<Word, WordState>)
      requires State() == b && Views(b.committed, commits, false) && Views(b.aborted, aborts, true)
      requires stm.Valid() && Settleable(stm.segments, stm.endAddress, stm.alignment, commits)
      requires AllTouched(commits, aborts) <= all <= before.Keys && SettledSo(all, before, {}, {})
      modifies this, blocked, stm`segments, stm`addresses, all
      ensures stm.Valid() && State() == NextEpoch(b)
      ensures SettledSo(all, before, Union(Writes(commits)), AllTouched(commits, aborts))
      ensures stm.segments == SegmentsAfter(old(stm.segments), commits)
      ensures forall t :: t in old(blocked) ==> t.awake
    {
      OnEpochEnd(commits, aborts, all, before);
      StartNext();
    }

    /** A departure that is not the last of its epoch is only counted. */
    method CountLeave(tx: Transaction)
      requires remaining > 0
      modifies this`remaining, this`committedTransactions, this`abortedTransactions
      ensures State() == Depart(old(State()), tx, tx.aborted)
    {
      remaining := remaining - 1;
      if !tx.aborted {
        committedTransactions := committedTransactions + [tx];
      } else {
        abortedTransactions := abortedTransactions + [tx];
      }
    }

    /** Counts a departure; the last one settles the epoch and wakes everyone who waited. b is the batcher once the
        departure is counted, commits and aborts are the transactions that left by then; all holds every word they
        accessed. */
    method Leave(tx: Transaction, ghost b: BatcherState<BThread, Transaction>, ghost commits: seq<Leaver>,
                 ghost aborts: seq<Leaver>, ghost all: set<Word>, ghost before: map<Word, WordState>)
      requires remaining > 0 && b == Depart(State(), tx, tx.aborted)
      requires Views(b.committed, commits, false) && Views(b.aborted, aborts, true)
      requires stm.Valid() && (b.remaining == 0 ==> Settleable(stm.segments, stm.endAddress, stm.alignment, commits))
      requires AllTouched(commits, aborts) <= all <= before.Keys && SettledSo(all, before, {}, {})
      modifies this, blocked, stm`segments, stm`addresses, all
      ensures stm.Valid() && State() == if b.remaining > 0 then b else NextEpoch(b)
      ensures SettledSo(all, before, if b.remaining > 0 then {} else Union(Writes(commits)),
                        if b.remaining > 0 then {} else AllTouched(commits, aborts))
      ensures stm.segments ==
        if b.remaining > 0 then old(stm.segments) else SegmentsAfter(old(stm.segments), commits)
      ensures forall t :: t in old(blocked) ==> t.awake == (b.remaining == 0 || old(t.awake))
    {
      CountLeave(tx);
      if remaining == 0 {
        EndEpoch(b, commits, aborts, all, before);
      }
    }
  }
}
