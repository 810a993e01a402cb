/** The bank's accounts as values: segments in list order, and what the transactions do to them. */
module Ledgers {
  datatype Sheet = Sheet(count: nat, parity: int, accounts: seq<int>)
  {
    predicate Sized(nb: nat) {
      |accounts| == nb && 1 <= count <= nb
    }

    function Live(): seq<int>
      requires count <= |accounts|
    {
      accounts[..count]
    }
  }

  type Ledger = seq<Sheet>

  predicate Sheets(l: Ledger, nb: nat) {
    forall i :: 0 <= i < |l| ==> l[i].Sized(nb)
  }

  /** Every segment is non-empty, and every one but the last is full. */
  predicate WellFormed(l: Ledger, nb: nat) {
    l != [] && Sheets(l, nb) && forall i :: 0 <= i < |l| - 1 ==> l[i].count == nb
  }

  /** All accounts, in list order. */
  function Flat(l: Ledger, nb: nat): seq<int>
    requires Sheets(l, nb)
  {
    if l == [] then [] else Flat(l[..|l| - 1], nb) + l[|l| - 1].Live()
  }

  function Sum(s: seq<int>): int {
    if s == [] then 0 else Sum(s[..|s| - 1]) + s[|s| - 1]
  }

  function Parity(l: Ledger): int {
    if l == [] then 0 else Parity(l[..|l| - 1]) + l[|l| - 1].parity
  }

  /** All the money there is: balances, and corrections left by deleted accounts. */
  function Money(l: Ledger, nb: nat): int
    requires Sheets(l, nb)
  {
    Parity(l) + Sum(Flat(l, nb))
  }

  predicate NonNegative(s: seq<int>) {
    forall i :: 0 <= i < |s| ==> s[i] >= 0
  }

  /** What a control transaction checks. */
  predicate Balanced(l: Ledger, nb: nat, init: int)
    requires Sheets(l, nb)
  {
    NonNegative(Flat(l, nb)) && Money(l, nb) == init * |Flat(l, nb)|
  }

  predicate Sound(l: Ledger, nb: nat, init: int) {
    WellFormed(l, nb) && Balanced(l, nb, init)
  }

  // ---- what the transactions do ----

  function Repeat(n: nat, c: int): (s: seq<int>)
    ensures |s| == n && forall i :: 0 <= i < n ==> s[i] == c
  {
    if n == 0 then [] else Repeat(n - 1, c) + [c]
  }

  /** The ledger after the initialisation of the first segment. */
  function Opened(nb: nat, init: int): Ledger {
    [Sheet(nb, 0, Repeat(nb, init))]
  }

  predicate Destroys(l: Ledger, nb: nat, trigger: nat)
    requires Sheets(l, nb)
  {
    |Flat(l, nb)| > trigger && |Flat(l, nb)| > 2
  }

  /** An account more, or an account less. */
  function Resized(l: Ledger, nb: nat, init: int, trigger: nat): Ledger
    requires WellFormed(l, nb)
  {
    var n, last := |l| - 1, l[|l| - 1];
    if Destroys(l, nb, trigger) then
      var parity := last.parity + last.accounts[last.count - 1] - init;
      if last.count > 1 then l[n := last.(count := last.count - 1, parity := parity)]
      else if n > 0 then l[..n][n - 1 := l[n - 1].(parity := l[n - 1].parity + parity)]
      else l
    else if last.count < nb then
      l[n := last.(accounts := last.accounts[last.count := init], count := last.count + 1)]
    else
      l + [Sheet(1, 0, Repeat(nb, 0)[0 := init])]
  }

  /** The ledger with another balance on its id-th account. */
  function Put(l: Ledger, nb: nat, id: nat, v: int): Ledger
    requires Sheets(l, nb) && id < |Flat(l, nb)|
  {
    var n, last := |l| - 1, l[|l| - 1];
    var base := |Flat(l[..n], nb)|;
    if id >= base then l[n := last.(accounts := last.accounts[id - base := v])]
    else Put(l[..n], nb, id, v) + [last]
  }

  /** Two ledgers with the same segments, up to the balances on them. */
  predicate SameShape(l: Ledger, m: Ledger) {
    |l| == |m| && forall i :: 0 <= i < |l| ==> l[i].count == m[i].count && l[i].parity == m[i].parity
  }

  lemma {:induction false} FlatPut(l: Ledger, nb: nat, id: nat, v: int)
    requires Sheets(l, nb) && id < |Flat(l, nb)|
    ensures SameShape(l, Put(l, nb, id, v)) && Sheets(Put(l, nb, id, v), nb)
    ensures Flat(Put(l, nb, id, v), nb) == Flat(l, nb)[id := v]
  {
    var n := |l| - 1;
    var p := Put(l, nb, id, v);
    if id < |Flat(l[..n], nb)| {
      FlatPut(l[..n], nb, id, v);
      assert p[..n] == Put(l[..n], nb, id, v);
    } else {
      assert p[..n] == l[..n];
    }
  }

  function Changed(f: seq<int>, id: nat, d: int): (g: seq<int>)
    requires id < |f|
    ensures |g| == |f|
  {
    f[id := f[id] + d]
  }

  /** One unit from an account to an account, if the first has any. */
  function Moved(f: seq<int>, send: nat, recv: nat): seq<int>
    requires send < |f| && recv < |f|
  {
    if f[send] > 0 then Changed(Changed(f, send, -1), recv, 1) else f
  }

  /** Who pays whom, in numbers. */
  lemma MovedIs(f: seq<int>, send: nat, recv: nat)
    requires send < |f| && recv < |f|
    ensures var g := Moved(f, send, recv);
      && |g| == |f|
      && (send != recv && f[send] > 0 ==> g[send] == f[send] - 1 && g[recv] == f[recv] + 1)
      && (forall j :: 0 <= j < |f| && j != send && j != recv ==> g[j] == f[j])
      && (send == recv || f[send] <= 0 ==> g == f)
  {
    assert send == recv && f[send] > 0 ==> Moved(f, send, recv)[send] == f[send];
  }

  /** The ledger once d has been added to its id-th account. */
  function Add(l: Ledger, nb: nat, id: nat, d: int): (m: Ledger)
    requires Sheets(l, nb) && id < |Flat(l, nb)|
    ensures SameShape(l, m) && Sheets(m, nb) && Flat(m, nb) == Changed(Flat(l, nb), id, d)
  {
    FlatPut(l, nb, id, Flat(l, nb)[id] + d);
    Put(l, nb, id, Flat(l, nb)[id] + d)
  }

  /** A transfer moves at most one unit between accounts and changes nothing else. */
  function Transfer(l: Ledger, nb: nat, send: nat, recv: nat): (t: Ledger)
    requires Sheets(l, nb) && send < |Flat(l, nb)| && recv < |Flat(l, nb)|
    ensures SameShape(l, t) && Sheets(t, nb) && Flat(t, nb) == Moved(Flat(l, nb), send, recv)
  {
    if Flat(l, nb)[send] > 0 then Add(Add(l, nb, send, -1), nb, recv, 1) else l
  }

  /** After a transfer, account by account: with send different from recv and something on send, one unit less there and
      one more on recv; every other account as before; otherwise all of them as before. */
  lemma TransferIs(l: Ledger, nb: nat, send: nat, recv: nat)
    requires Sheets(l, nb) && send < |Flat(l, nb)| && recv < |Flat(l, nb)|
    ensures var f, g := Flat(l, nb), Flat(Transfer(l, nb, send, recv), nb);
      && |g| == |f|
      && (send != recv && f[send] > 0 ==> g[send] == f[send] - 1 && g[recv] == f[recv] + 1)
      && (forall j :: 0 <= j < |f| && j != send && j != recv ==> g[j] == f[j])
      && (send == recv || f[send] <= 0 ==> g == f)
  {
    MovedIs(Flat(l, nb), send, recv);
  }

  // ---- sums ----

  lemma {:induction false} SumAppend(a: seq<int>, b: seq<int>)
    ensures Sum(a + b) == Sum(a) + Sum(b)
  {
    if b == [] {
      assert a + b == a;
    } else {
      SumAppend(a, b[..|b| - 1]);
      assert (a + b)[..|a + b| - 1] == a + b[..|b| - 1];
    }
  }

  lemma {:induction false} ChangedSum(f: seq<int>, id: nat, d: int)
    requires id < |f|
    ensures Sum(Changed(f, id, d)) == Sum(f) + d
  {
    var n, g := |f| - 1, Changed(f, id, d);
    if id < n {
      ChangedSum(f[..n], id, d);
      assert g[..n] == Changed(f[..n], id, d);
    } else {
      assert g[..n] == f[..n];
    }
  }

  lemma {:induction false} SumConstant(n: nat, c: int)
    ensures Sum(Repeat(n, c)) == c * n
  {
    if n > 0 {
      SumConstant(n - 1, c);
      assert c * n == c * (n - 1) + c;
    }
  }

  // ---- conservation ----

  lemma OpenedSound(nb: nat, init: int)
    requires nb >= 1 && init >= 0
    ensures Sound(Opened(nb, init), nb, init)
  {
    var l := Opened(nb, init);
    assert l[..0] == [];
    assert Flat(l, nb) == Repeat(nb, init);
    assert Parity(l) == 0;
    SumConstant(nb, init);
  }

  /** A new ledger has as many accounts as a segment has room for, each with the initial balance. */
  lemma OpenedIs(nb: nat, init: int)
    requires nb >= 1
    ensures var f := Flat(Opened(nb, init), nb);
      |f| == nb && (forall i :: 0 <= i < nb ==> f[i] == init) && Parity(Opened(nb, init)) == 0
  {
    var l := Opened(nb, init);
    assert l[..0] == [];
    assert Flat(l, nb) == Repeat(nb, init);
  }

  lemma {:induction false} SameParity(l: Ledger, m: Ledger)
    requires SameShape(l, m)
    ensures Parity(l) == Parity(m)
  {
    if l != [] {
      SameParity(l[..|l| - 1], m[..|m| - 1]);
    }
  }

  /** No money appears or vanishes, no balance drops below zero, and a transfer to oneself does nothing. */
  lemma MoveKeeps(f: seq<int>, send: nat, recv: nat)
    requires send < |f| && recv < |f|
    ensures |Moved(f, send, recv)| == |f| && Sum(Moved(f, send, recv)) == Sum(f)
    ensures NonNegative(f) ==> NonNegative(Moved(f, send, recv))
    ensures send == recv ==> Moved(f, send, recv) == f
  {
    if f[send] > 0 {
      ChangedSum(f, send, -1);
      ChangedSum(Changed(f, send, -1), recv, 1);
    }
  }

  lemma TransferKeeps(l: Ledger, nb: nat, init: int, send: nat, recv: nat)
    requires Sound(l, nb, init) && send < |Flat(l, nb)| && recv < |Flat(l, nb)|
    ensures Sound(Transfer(l, nb, send, recv), nb, init)
  {
    MoveKeeps(Flat(l, nb), send, recv);
    SameParity(l, Transfer(l, nb, send, recv));
  }

  /** An emptied last segment is never the first one. */
  lemma NeverTheFirst(l: Ledger, nb: nat, trigger: nat)
    requires WellFormed(l, nb) && Destroys(l, nb, trigger) && l[|l| - 1].count == 1
    ensures |l| > 1
  {
    var q := l[..|l| - 1];
    assert Flat(l, nb) == Flat(q, nb) + l[|l| - 1].Live();
  }

  lemma FlatSplit(l: Ledger, nb: nat)
    requires Sheets(l, nb) && l != []
    ensures Flat(l, nb) == Flat(l[..|l| - 1], nb) + l[|l| - 1].Live()
    ensures Parity(l) == Parity(l[..|l| - 1]) + l[|l| - 1].parity
  {
  }

  /** What a ledger gains or loses when only its last segment changes. */
  lemma LastChanged(l: Ledger, r: Ledger, nb: nat)
    requires Sheets(l, nb) && Sheets(r, nb) && |l| == |r| > 0 && l[..|l| - 1] == r[..|r| - 1]
    ensures Flat(r, nb) == Flat(l, nb)[..|Flat(l, nb)| - l[|l| - 1].count] + r[|r| - 1].Live()
    ensures Parity(r) == Parity(l) - l[|l| - 1].parity + r[|r| - 1].parity
    ensures WellFormed(l, nb) ==> WellFormed(r, nb)
  {
    var f := Flat(l[..|l| - 1], nb);
    assert Flat(l, nb) == f + l[|l| - 1].Live();
    assert (f + l[|l| - 1].Live())[..|f|] == f;
    assert WellFormed(l, nb) ==> forall i :: 0 <= i < |r| - 1 ==> r[i] == l[..|l| - 1][i];
  }

  /** The last segment, holding one account, goes, and its parity moves to the one before. */
  lemma LastDropped(l: Ledger, nb: nat, parity: int)
    requires WellFormed(l, nb) && |l| > 1 && l[|l| - 1].count == 1
    ensures var n, f := |l| - 1, Flat(l, nb);
      var r := l[..n][n - 1 := l[n - 1].(parity := l[n - 1].parity + parity)];
      WellFormed(r, nb) && Flat(r, nb) == f[..|f| - 1] && Parity(r) == Parity(l) - l[n].parity + parity
  {
    var n := |l| - 1;
    var q := l[..n];
    var r := q[n - 1 := l[n - 1].(parity := l[n - 1].parity + parity)];
    assert WellFormed(q, nb);
    LastChanged(q, r, nb);
    FlatSplit(q, nb);
    assert q[..n - 1] == r[..n - 1];
  }

  /** The last account is gone, or a new one is there; every other one keeps its place and its balance. */
  predicate Resizes(l: Ledger, r: Ledger, nb: nat, init: int, destroys: bool)
    requires WellFormed(l, nb)
  {
    var f := Flat(l, nb);
    && WellFormed(r, nb)
    && Flat(r, nb) == (if destroys && f != [] then f[..|f| - 1] else f + [init])
    && Parity(r) == Parity(l) + (if destroys && f != [] then f[|f| - 1] - init else 0)
  }

  lemma DropsSegment(l: Ledger, nb: nat, init: int, trigger: nat)
    requires WellFormed(l, nb) && Destroys(l, nb, trigger) && l[|l| - 1].count == 1
    ensures Resizes(l, Resized(l, nb, init, trigger), nb, init, true)
  {
    var last := l[|l| - 1];
    FlatSplit(l, nb);
    assert last.Live() == [last.accounts[0]];
    NeverTheFirst(l, nb, trigger);
    LastDropped(l, nb, last.parity + last.accounts[0] - init);
  }

  lemma DropsAccount(l: Ledger, nb: nat, init: int, trigger: nat)
    requires WellFormed(l, nb) && Destroys(l, nb, trigger) && l[|l| - 1].count != 1
    ensures Resizes(l, Resized(l, nb, init, trigger), nb, init, true)
  {
    var n, last := |l| - 1, l[|l| - 1];
    var r := Resized(l, nb, init, trigger);
    FlatSplit(l, nb);
    assert last.Live() == last.accounts[..last.count - 1] + [last.accounts[last.count - 1]];
    assert r[..n] == l[..n];
    LastChanged(l, r, nb);
  }

  lemma Shrinks(l: Ledger, nb: nat, init: int, trigger: nat)
    requires WellFormed(l, nb) && Destroys(l, nb, trigger)
    ensures Resizes(l, Resized(l, nb, init, trigger), nb, init, true)
  {
    if l[|l| - 1].count == 1 { DropsSegment(l, nb, init, trigger); } else { DropsAccount(l, nb, init, trigger); }
  }

  lemma AddsAccount(l: Ledger, nb: nat, init: int, trigger: nat)
    requires WellFormed(l, nb) && !Destroys(l, nb, trigger) && l[|l| - 1].count < nb
    ensures Resizes(l, Resized(l, nb, init, trigger), nb, init, false)
  {
    var n := |l| - 1;
    var r := Resized(l, nb, init, trigger);
    FlatSplit(l, nb);
    assert r[..n] == l[..n];
    LastChanged(l, r, nb);
  }

  lemma AddsSegment(l: Ledger, nb: nat, init: int, trigger: nat)
    requires WellFormed(l, nb) && !Destroys(l, nb, trigger) && l[|l| - 1].count == nb
    ensures Resizes(l, Resized(l, nb, init, trigger), nb, init, false)
  {
    var r := Resized(l, nb, init, trigger);
    assert r[..|l|] == l;
    assert r[|l|].Live() == [init] && r[|l|].parity == 0;
    FlatSplit(r, nb);
    assert Flat(r, nb) == Flat(l, nb) + [init];
  }

  lemma Grows(l: Ledger, nb: nat, init: int, trigger: nat)
    requires WellFormed(l, nb) && !Destroys(l, nb, trigger)
    ensures Resizes(l, Resized(l, nb, init, trigger), nb, init, false)
  {
    if l[|l| - 1].count < nb { AddsAccount(l, nb, init, trigger); } else { AddsSegment(l, nb, init, trigger); }
  }

  lemma SameExcess(x: int, m: int, y: int, n: int, c: int)
    requires (m == n + 1 && x == y + c) || (n == m + 1 && y == x + c)
    ensures y - c * n == x - c * m
  {
    assert c * (n + 1) == c * n + c && c * (m + 1) == c * m + c;
  }

  lemma SumResized(l: Ledger, r: Ledger, nb: nat, init: int, destroys: bool)
    requires WellFormed(l, nb) && Resizes(l, r, nb, init, destroys)
    ensures var f, g := Flat(l, nb), Flat(r, nb);
      if destroys && f != [] then |f| == |g| + 1 && Money(l, nb) == Money(r, nb) + init
      else |g| == |f| + 1 && Money(r, nb) == Money(l, nb) + init
  {
    SumAppend(Flat(l, nb), [init]);
  }

  lemma MoneyResized(l: Ledger, r: Ledger, nb: nat, init: int, destroys: bool)
    requires WellFormed(l, nb) && Resizes(l, r, nb, init, destroys)
    ensures Money(r, nb) - init * |Flat(r, nb)| == Money(l, nb) - init * |Flat(l, nb)|
  {
    SumResized(l, r, nb, init, destroys);
    SameExcess(Money(l, nb), |Flat(l, nb)|, Money(r, nb), |Flat(r, nb)|, init);
  }

  lemma ResizedKeeps(l: Ledger, nb: nat, init: int, trigger: nat)
    requires Sound(l, nb, init) && init >= 0
    ensures Sound(Resized(l, nb, init, trigger), nb, init)
  {
    if Destroys(l, nb, trigger) { Shrinks(l, nb, init, trigger); } else { Grows(l, nb, init, trigger); }
    MoneyResized(l, Resized(l, nb, init, trigger), nb, init, Destroys(l, nb, trigger));
  }

  /** Where the resized ledger differs, by the shape of the last segment. */
  lemma DestroyedShape(l: Ledger, nb: nat, init: int, trigger: nat)
    requires WellFormed(l, nb) && Destroys(l, nb, trigger)
    ensures var n, last, r := |l| - 1, l[|l| - 1], Resized(l, nb, init, trigger);
      var parity := last.parity + last.accounts[last.count - 1] - init;
      && (last.count > 1 ==> r == l[n := last.(count := last.count - 1, parity := parity)])
      && (last.count == 1 ==> n > 0 && r == l[..n][n - 1 := l[n - 1].(parity := l[n - 1].parity + parity)])
  {
    if l[|l| - 1].count == 1 { NeverTheFirst(l, nb, trigger); }
  }

  // ---- any sequence of transactions ----

  datatype Op = Resize(trigger: nat) | Short(send: nat, recv: nat)

  function Run(l: Ledger, nb: nat, init: int, op: Op): Ledger
    requires WellFormed(l, nb)
  {
    match op
    case Resize(trigger) => Resized(l, nb, init, trigger)
    case Short(send, recv) => if send < |Flat(l, nb)| && recv < |Flat(l, nb)| then Transfer(l, nb, send, recv) else l
  }

  ghost predicate IsHistory(h: seq<Ledger>, ops: seq<Op>, nb: nat, init: int) {
    && |h| == |ops| + 1 && h[0] == Opened(nb, init)
    && forall i :: 0 <= i < |ops| ==> WellFormed(h[i], nb) ==> h[i + 1] == Run(h[i], nb, init, ops[i])
  }

  lemma ResizesKeepsForm(l: Ledger, nb: nat, init: int, trigger: nat)
    requires WellFormed(l, nb)
    ensures Resizes(l, Resized(l, nb, init, trigger), nb, init, Destroys(l, nb, trigger))
  {
    if Destroys(l, nb, trigger) { Shrinks(l, nb, init, trigger); } else { Grows(l, nb, init, trigger); }
  }

  lemma ResizesIs(l: Ledger, r: Ledger, nb: nat, init: int, trigger: nat)
    requires WellFormed(l, nb) && Resizes(l, r, nb, init, Destroys(l, nb, trigger))
    ensures var f := Flat(l, nb);
      var n := |f|;
      && WellFormed(r, nb)
      && (n > trigger && n > 2 ==>
            Flat(r, nb) == f[..n - 1] && Parity(r) == Parity(l) + f[n - 1] - init)
      && (n <= trigger || n <= 2 ==> Flat(r, nb) == f + [init] && Parity(r) == Parity(l))
  {
  }

  /** When an account goes and when one comes, and what it leaves behind. */
  lemma ResizedIs(l: Ledger, nb: nat, init: int, trigger: nat)
    requires WellFormed(l, nb)
    ensures var f, r := Flat(l, nb), Resized(l, nb, init, trigger);
      var n := |f|;
      && WellFormed(r, nb)
      && (n > trigger && n > 2 ==>
            Flat(r, nb) == f[..n - 1] && Parity(r) == Parity(l) + f[n - 1] - init)
      && (n <= trigger || n <= 2 ==> Flat(r, nb) == f + [init] && Parity(r) == Parity(l))
  {
    ResizesKeepsForm(l, nb, init, trigger);
    ResizesIs(l, Resized(l, nb, init, trigger), nb, init, trigger);
  }

  /** From the initialisation on, after any transactions, money is conserved and the control transaction finds nothing
      wrong. */
  lemma {:induction false} AlwaysSound(h: seq<Ledger>, ops: seq<Op>, nb: nat, init: int, i: nat)
    requires nb >= 1 && init >= 0 && IsHistory(h, ops, nb, init) && i < |h|
    ensures Sound(h[i], nb, init)
  {
    if i == 0 {
      OpenedSound(nb, init);
    } else {
      AlwaysSound(h, ops, nb, init, i - 1);
      match ops[i - 1]
      case Resize(trigger) => ResizedKeeps(h[i - 1], nb, init, trigger);
      case Short(send, recv) =>
        if send < |Flat(h[i - 1], nb)| && recv < |Flat(h[i - 1], nb)| {
          TransferKeeps(h[i - 1], nb, init, send, recv);
        }
    }
  }
}
