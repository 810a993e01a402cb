/** When running whole logs one after the other gives each of them what it saw in isolation. */
module Orders {
  import opened Words
  import opened Serial

  function Concat(logs: seq<seq<Op>>): seq<Op> {
    if logs == [] then [] else Concat(Front(logs)) + Last(logs)
  }

  /** Logs that each replay from m on their own and never write or allocate the same thing. */
  ghost predicate Compatible(m: Memory, z: Bytes, logs: seq<seq<Op>>) {
    && (forall i :: 0 <= i < |logs| ==> Legal(m, z, logs[i]))
    && (forall i, j :: 0 <= i < j < |logs| ==> Buffer(logs[i]).Keys !! Buffer(logs[j]).Keys)
    && (forall i, j :: 0 <= i < j < |logs| ==> Allocs(logs[i]).Keys !! Allocs(logs[j]).Keys)
  }

  /** No log reads from the snapshot what an earlier one has overwritten. */
  ghost predicate ReadersFirst(logs: seq<seq<Op>>) {
    forall i, j :: 0 <= i < j < |logs| ==> Buffer(logs[i]).Keys !! SnapReads(logs[j])
  }

  /** Where a log does so, the overwriting value is the snapshot's own. */
  ghost predicate Unnoticed(m: Memory, z: Bytes, logs: seq<seq<Op>>) {
    forall i, j, a :: 0 <= i < j < |logs| && a in Buffer(logs[i]) && a in SnapReads(logs[j]) ==>
      Buffer(logs[i])[a] == Get(m.vals, z, a)
  }

  function Overlaid(vals: map<nat, Bytes>, logs: seq<seq<Op>>): map<nat, Bytes> {
    if logs == [] then vals else Overlaid(vals, Front(logs)) + Buffer(Last(logs))
  }

  function AllAllocs(logs: seq<seq<Op>>): map<nat, nat> {
    if logs == [] then map[] else AllAllocs(Front(logs)) + Allocs(Last(logs))
  }

  function AllFrees(logs: seq<seq<Op>>): set<nat> {
    if logs == [] then {} else AllFrees(Front(logs)) + Frees(Last(logs))
  }

  lemma {:induction false} OverlaidAt(vals: map<nat, Bytes>, z: Bytes, logs: seq<seq<Op>>, a: nat)
    requires forall i, j :: 0 <= i < j < |logs| ==> Buffer(logs[i]).Keys !! Buffer(logs[j]).Keys
    ensures forall i :: 0 <= i < |logs| && a in Buffer(logs[i]) ==>
      a in Overlaid(vals, logs) && Overlaid(vals, logs)[a] == Buffer(logs[i])[a]
    ensures (forall i :: 0 <= i < |logs| ==> a !in Buffer(logs[i])) ==>
      Get(Overlaid(vals, logs), z, a) == Get(vals, z, a) && (a in Overlaid(vals, logs) <==> a in vals)
  {
    if logs != [] {
      OverlaidAt(vals, z, Front(logs), a);
      assert forall i :: 0 <= i < |logs| - 1 ==> Front(logs)[i] == logs[i];
    }
  }

  lemma {:induction false} AllAllocsAt(logs: seq<seq<Op>>, seg: nat)
    ensures seg in AllAllocs(logs) <==> exists i :: 0 <= i < |logs| && seg in Allocs(logs[i])
    ensures seg in AllAllocs(logs) ==>
      exists i :: 0 <= i < |logs| && seg in Allocs(logs[i]) && AllAllocs(logs)[seg] == Allocs(logs[i])[seg]
  {
    if logs != [] {
      AllAllocsAt(Front(logs), seg);
      assert forall i :: 0 <= i < |logs| - 1 ==> Front(logs)[i] == logs[i];
    }
  }

  lemma {:induction false} AllFreesAt(logs: seq<seq<Op>>, seg: nat)
    ensures seg in AllFrees(logs) <==> exists i :: 0 <= i < |logs| && seg in Frees(logs[i])
  {
    if logs != [] {
      AllFreesAt(Front(logs), seg);
      assert forall i :: 0 <= i < |logs| - 1 ==> Front(logs)[i] == logs[i];
    }
  }

  lemma MergeTwice<K, V>(a: map<K, V>, b: map<K, V>, c: map<K, V>)
    ensures a + b + c == a + (b + c)
  {
  }

  lemma {:induction false} SerialResult(m: Memory, logs: seq<seq<Op>>)
    ensures Replay(m, Concat(logs)) == Memory(Overlaid(m.vals, logs), m.live + AllAllocs(logs))
  {
    if logs != [] {
      SerialResult(m, Front(logs));
      ReplayConcat(m, [], Concat(Front(logs)), Last(logs));
      ReplayIsOverlay(Replay(m, Concat(Front(logs))), Last(logs));
      MergeTwice(m.live, AllAllocs(Front(logs)), Allocs(Last(logs)));
    }
  }

  lemma {:induction false} AllocsFresh(m: Memory, z: Bytes, ops: seq<Op>)
    requires Legal(m, z, ops)
    ensures m.live.Keys !! Allocs(ops).Keys
  {
    if ops != [] {
      AllocsFresh(m, z, Front(ops));
      ReplayIsOverlay(m, Front(ops));
    }
  }

  lemma CompatibleFront(m: Memory, z: Bytes, logs: seq<seq<Op>>)
    requires logs != [] && Compatible(m, z, logs)
    ensures Compatible(m, z, Front(logs))
  {
    assert forall i :: 0 <= i < |logs| - 1 ==> Front(logs)[i] == logs[i];
  }

  ghost predicate LastUnnoticed(m: Memory, z: Bytes, logs: seq<seq<Op>>)
    requires logs != []
  {
    forall i, a :: 0 <= i < |logs| - 1 && a in Buffer(logs[i]) && a in SnapReads(Last(logs)) ==>
      Buffer(logs[i])[a] == Get(m.vals, z, a)
  }

  lemma LastLegal(m: Memory, z: Bytes, logs: seq<seq<Op>>)
    requires logs != [] && Compatible(m, z, logs)
    ensures Legal(Memory(Overlaid(m.vals, Front(logs)), m.live + AllAllocs(Front(logs))), z, Last(logs))
      <==> LastUnnoticed(m, z, logs)
  {
    var f, l := Front(logs), Last(logs);
    var n := Memory(Overlaid(m.vals, f), m.live + AllAllocs(f));
    assert forall i :: 0 <= i < |f| ==> f[i] == logs[i];
    AllocsFresh(m, z, l);
    forall seg | seg in AllAllocs(f) ensures seg !in Allocs(l) {
      AllAllocsAt(f, seg);
    }
    LegalElsewhere(m, n, z, l);
    forall a ensures Get(n.vals, z, a) == Get(m.vals, z, a) <==>
      forall i :: 0 <= i < |f| && a in Buffer(f[i]) ==> Buffer(f[i])[a] == Get(m.vals, z, a)
    {
      OverlaidAt(m.vals, z, f, a);
    }
  }

  /** Exactly when a serial execution in this order shows every transaction what it saw. */
  lemma {:induction false} SerialIff(m: Memory, z: Bytes, logs: seq<seq<Op>>)
    requires Compatible(m, z, logs)
    ensures Legal(m, z, Concat(logs)) <==> Unnoticed(m, z, logs)
  {
    if logs != [] {
      var f, l, n := Front(logs), Last(logs), |logs| - 1;
      CompatibleFront(m, z, logs);
      SerialIff(m, z, f);
      ReplayConcat(m, z, Concat(f), l);
      SerialResult(m, f);
      LastLegal(m, z, logs);
      assert forall i :: 0 <= i < n ==> f[i] == logs[i];
      assert Unnoticed(m, z, logs) <==> Unnoticed(m, z, f) && LastUnnoticed(m, z, logs);
    }
  }

  lemma ReadersFirstUnnoticed(m: Memory, z: Bytes, logs: seq<seq<Op>>)
    requires ReadersFirst(logs)
    ensures Unnoticed(m, z, logs)
  {
  }

  /** In a legal log a read returns the log's own last write, else the memory it started from. */
  lemma {:induction false} ReadValue(m: Memory, z: Bytes, ops: seq<Op>, n: nat)
    requires Legal(m, z, ops) && n < |ops| && ops[n].Read?
    ensures var own := Buffer(ops[..n]);
      ops[n].val == if ops[n].addr in own then own[ops[n].addr] else Get(m.vals, z, ops[n].addr)
  {
    if n == |ops| - 1 {
      ReplayIsOverlay(m, Front(ops));
    } else {
      ReadValue(m, z, Front(ops), n);
      assert Front(ops)[..n] == ops[..n];
    }
  }
}
