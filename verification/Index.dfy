/** The two-map segment index: segments by start, and starts by end address. */
module Index {
  /** Every segment has a proper range and an entry under its end, and every entry leads to a segment. */
  ghost predicate Consistent(segs: map<nat, nat>, ends: map<nat, nat>) {
    && (forall st :: st in segs ==> st < segs[st] && segs[st] in ends && ends[segs[st]] == st)
    && (forall e :: e in ends ==> ends[e] in segs && segs[ends[e]] == e)
  }

  ghost predicate Disjoint(segs: map<nat, nat>) {
    forall s, t :: s in segs && t in segs && s != t ==> segs[s] <= t || segs[t] <= s
  }

  /** The range st..e overlaps no segment. */
  ghost predicate Apart(segs: map<nat, nat>, st: nat, e: nat) {
    forall s :: s in segs ==> segs[s] <= st || e <= s
  }

  ghost predicate Contains(segs: map<nat, nat>, st: nat, a: nat) {
    st in segs && st <= a < segs[st]
  }

  ghost predicate LeastAbove(ends: map<nat, nat>, a: nat, e: nat) {
    e in ends && e > a && forall k :: k in ends && k > a ==> e <= k
  }

  /** std::map::upper_bound on the end addresses. */
  method UpperBound(ends: map<nat, nat>, a: nat) returns (found: bool, e: nat)
    ensures !found ==> forall k :: k in ends ==> k <= a
    ensures found ==> LeastAbove(ends, a, e)
  {
    found, e := false, 0;
    var todo := ends.Keys;
    while todo != {}
      invariant todo <= ends.Keys
      invariant !found ==> forall k :: k in ends && k !in todo ==> k <= a
      invariant found ==> e in ends && e > a && forall k :: k in ends && k !in todo && k > a ==> e <= k
    {
      var k :| k in todo;
      if k > a && (!found || k < e) {
        found, e := true, k;
      }
      todo := todo - {k};
    }
  }

  /** The entry found at the least end above an address names the only segment that can contain it. */
  lemma LookupAgrees(segs: map<nat, nat>, ends: map<nat, nat>, a: nat, e: nat)
    requires Consistent(segs, ends) && Disjoint(segs) && LeastAbove(ends, a, e)
    ensures forall st: nat :: Contains(segs, st, a) <==> st == ends[e] && st <= a
  {
    forall st: nat | Contains(segs, st, a) ensures st == ends[e] {
      assert segs[st] in ends;
    }
  }

  lemma NoneAbove(segs: map<nat, nat>, ends: map<nat, nat>, a: nat)
    requires Consistent(segs, ends) && forall k :: k in ends ==> k <= a
    ensures forall st: nat :: !Contains(segs, st, a)
  {
  }

  /** A new segment apart from all others can be added; segments can be removed. */
  lemma AddKeeps(segs: map<nat, nat>, ends: map<nat, nat>, st: nat, e: nat)
    requires Consistent(segs, ends) && Disjoint(segs) && st < e
    requires Apart(segs, st, e)
    ensures Consistent(segs[st := e], ends[e := st]) && Disjoint(segs[st := e])
  {
  }

  lemma RemoveKeeps(segs: map<nat, nat>, ends: map<nat, nat>, st: nat)
    requires Consistent(segs, ends) && Disjoint(segs) && st in segs
    ensures Consistent(segs - {st}, ends - {segs[st]}) && Disjoint(segs - {st})
  {
  }

  ghost predicate Holds(segs: map<nat, nat>, a: nat) {
    exists st: nat :: Contains(segs, st, a)
  }

  /** The search of a transaction's own index, which may run off the end of the map. */
  method Lookup(ends: map<nat, nat>, a: nat, ghost segs: map<nat, nat>) returns (found: bool, start: nat)
    requires Consistent(segs, ends) && Disjoint(segs)
    ensures found <==> Holds(segs, a)
    ensures found ==> Contains(segs, start, a)
  {
    var e;
    start := 0;
    found, e := UpperBound(ends, a);
    if !found {
      NoneAbove(segs, ends, a);
    } else {
      LookupAgrees(segs, ends, a, e);
      start := ends[e];
      found := a >= start;
      assert found ==> Contains(segs, start, a);
    }
  }

  /** The search of the shared index, which reads the entry it finds without a check:
      some segment must end above the address. */
  method LookupBelow(ends: map<nat, nat>, a: nat, ghost segs: map<nat, nat>) returns (found: bool, start: nat)
    requires Consistent(segs, ends) && Disjoint(segs) && exists e :: e in ends && e > a
    ensures found <==> Holds(segs, a)
    ensures found ==> Contains(segs, start, a)
  {
    var some, e := UpperBound(ends, a);
    LookupAgrees(segs, ends, a, e);
    start := ends[e];
    found := a >= start;
    assert found ==> Contains(segs, start, a);
  }
}
