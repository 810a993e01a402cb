/** How many elements of a sequence, one per thread, are in a given set. */
module Counting {
  function Tally<T(==)>(q: seq<T>, at: set<T>): nat {
    if q == [] then 0 else Tally(q[..|q| - 1], at) + (if q[|q| - 1] in at then 1 else 0)
  }

  lemma {:induction false} TallyUpdate<T>(q: seq<T>, at: set<T>, t: nat, x: T)
    requires t < |q|
    ensures Tally(q[t := x], at) + (if q[t] in at then 1 else 0) == Tally(q, at) + (if x in at then 1 else 0)
  {
    var n := |q| - 1;
    if t < n {
      TallyUpdate(q[..n], at, t, x);
      assert q[t := x][..n] == q[..n][t := x];
    } else {
      assert q[t := x][..n] == q[..n];
    }
  }

  lemma {:induction false} TallyBounds<T>(q: seq<T>, at: set<T>)
    ensures Tally(q, at) <= |q|
    ensures Tally(q, at) == |q| <==> forall t :: 0 <= t < |q| ==> q[t] in at
    ensures Tally(q, at) == 0 <==> forall t :: 0 <= t < |q| ==> q[t] !in at
  {
    if q != [] {
      TallyBounds(q[..|q| - 1], at);
    }
  }
}
