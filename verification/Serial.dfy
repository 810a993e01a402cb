/** Serial replay of transaction logs: the reference against which runs are judged. */
module Serial {
  import opened Words

  /** What one transaction did, in its own order, with the results it saw. */
  datatype Op =
    | Read(addr: nat, seg: nat, val: Bytes)
    | Write(addr: nat, seg: nat, val: Bytes)
    | Alloc(seg: nat, count: nat)
    | Free(seg: nat)

  /** A plain memory: contents (zero where nothing was stored), and the number of words of each live segment. */
  datatype Memory = Memory(vals: map<nat, Bytes>, live: map<nat, nat>)

  function Get(vals: map<nat, Bytes>, z: Bytes, a: nat): Bytes {
    if a in vals then vals[a] else z
  }

  predicate OpOk(m: Memory, z: Bytes, op: Op) {
    match op
    case Read(a, seg, v) => seg in m.live && Get(m.vals, z, a) == v
    case Write(a, seg, v) => seg in m.live
    case Alloc(seg, _) => seg !in m.live
    case Free(_) => true
  }

  /** Frees take effect only when the epoch ends. */
  function Apply(m: Memory, op: Op): Memory {
    match op
    case Read(_, _, _) => m
    case Write(a, _, v) => m.(vals := m.vals[a := v])
    case Alloc(seg, count) => m.(live := m.live[seg := count])
    case Free(_) => m
  }

  function Front<T>(s: seq<T>): seq<T>
    requires s != []
  {
    s[..|s| - 1]
  }

  function Last<T>(s: seq<T>): T
    requires s != []
  {
    s[|s| - 1]
  }

  function Replay(m: Memory, ops: seq<Op>): Memory {
    if ops == [] then m else Apply(Replay(m, Front(ops)), Last(ops))
  }

  predicate Legal(m: Memory, z: Bytes, ops: seq<Op>) {
    ops == [] || (Legal(m, z, Front(ops)) && OpOk(Replay(m, Front(ops)), z, Last(ops)))
  }

  /** The private write buffer a log builds up. */
  function Buffer(ops: seq<Op>): map<nat, Bytes> {
    if ops == [] then map[]
    else if Last(ops).Write? then Buffer(Front(ops))[Last(ops).addr := Last(ops).val]
    else Buffer(Front(ops))
  }

  /** Addresses read before the log itself wrote them: the reads served by the snapshot. */
  function SnapReads(ops: seq<Op>): set<nat> {
    if ops == [] then {}
    else if Last(ops).Read? && Last(ops).addr !in Buffer(Front(ops)) then SnapReads(Front(ops)) + {Last(ops).addr}
    else SnapReads(Front(ops))
  }

  /** The segments allocated, with the number of words asked for. */
  function Allocs(ops: seq<Op>): map<nat, nat> {
    if ops == [] then map[]
    else if Last(ops).Alloc? then Allocs(Front(ops))[Last(ops).seg := Last(ops).count]
    else Allocs(Front(ops))
  }

  function Frees(ops: seq<Op>): set<nat> {
    if ops == [] then {}
    else if Last(ops).Free? then Frees(Front(ops)) + {Last(ops).seg}
    else Frees(Front(ops))
  }

  /** Replay is overlaying the buffer and adding the allocated segments. */
  lemma {:induction false} ReplayIsOverlay(m: Memory, ops: seq<Op>)
    ensures Replay(m, ops) == Memory(m.vals + Buffer(ops), m.live + Allocs(ops))
  {
    if ops != [] {
      ReplayIsOverlay(m, Front(ops));
    }
  }

  lemma {:induction false} ReplayConcat(m: Memory, z: Bytes, a: seq<Op>, b: seq<Op>)
    ensures Replay(m, a + b) == Replay(Replay(m, a), b)
    ensures Legal(m, z, a + b) <==> Legal(m, z, a) && Legal(Replay(m, a), z, b)
  {
    if b == [] {
      assert a + b == a;
    } else {
      assert Front(a + b) == a + Front(b);
      ReplayConcat(m, z, a, Front(b));
    }
  }

  predicate SameAt(m: Memory, n: Memory, z: Bytes, s: set<nat>) {
    forall a :: a in s ==> Get(m.vals, z, a) == Get(n.vals, z, a)
  }

  /** A log that is legal from m is legal from another memory exactly when that memory
      holds the same values where the log read the snapshot. */
  lemma {:induction false} LegalElsewhere(m: Memory, n: Memory, z: Bytes, ops: seq<Op>)
    requires Legal(m, z, ops)
    requires m.live.Keys <= n.live.Keys && n.live.Keys !! Allocs(ops).Keys
    ensures Legal(n, z, ops) <==> SameAt(n, m, z, SnapReads(ops))
  {
    if ops != [] {
      var f, op := Front(ops), Last(ops);
      LegalElsewhere(m, n, z, f);
      ReplayIsOverlay(m, f);
      ReplayIsOverlay(n, f);
      if op.Read? && op.addr !in Buffer(f) {
        assert SnapReads(ops) == SnapReads(f) + {op.addr};
        assert SameAt(n, m, z, SnapReads(ops)) <==>
          SameAt(n, m, z, SnapReads(f)) && Get(n.vals, z, op.addr) == Get(m.vals, z, op.addr);
      }
    }
  }
}
