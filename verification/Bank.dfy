/** The bank's transactions over the linked list of account segments, each run alone on the memory. */
module Bank {
  import opened Ledgers

  /** A segment as the memory holds it; next is 0 on the last one. */
  datatype AccountSegment = AccountSegment(count: nat, next: nat, parity: int, accounts: seq<int>)
  {
    function View(): Sheet {
      Sheet(count, parity, accounts)
    }
  }

  /** An account's address. */
  datatype Pointer = Null | At(segment: nat, index: nat)

  ghost predicate Mapped(mem: map<nat, AccountSegment>, chain: seq<nat>) {
    forall i :: 0 <= i < |chain| ==> chain[i] in mem
  }

  ghost function LedgerOf(mem: map<nat, AccountSegment>, chain: seq<nat>): (l: Ledger)
    requires Mapped(mem, chain)
    ensures |l| == |chain| && forall i :: 0 <= i < |l| ==> l[i] == mem[chain[i]].View()
  {
    seq(|chain|, i requires 0 <= i < |chain| => mem[chain[i]].View())
  }

  ghost function NextIn(chain: seq<nat>, i: nat): nat {
    if i + 1 < |chain| then chain[i + 1] else 0
  }

  const START: nat := 1

  /** The segments form a list from the start address to the null pointer, without repetition. */
  ghost predicate IsList(mem: map<nat, AccountSegment>, chain: seq<nat>) {
    && Mapped(mem, chain) && chain != [] && chain[0] == START
    && (forall i :: 0 <= i < |chain| ==> chain[i] != 0)
    && (forall i {:trigger NextIn(chain, i)} :: 0 <= i < |chain| ==> mem[chain[i]].next == NextIn(chain, i))
    && (forall i, j :: 0 <= i < j < |chain| ==> chain[i] != chain[j])
  }

  /** Where the accounts of segment i sit among all accounts. */
  lemma {:induction false} FlatAt(l: Ledger, nb: nat, i: nat, k: nat)
    requires Sheets(l, nb) && i < |l| && k < l[i].count
    ensures |Flat(l[..i], nb)| + k < |Flat(l, nb)| && Flat(l, nb)[|Flat(l[..i], nb)| + k] == l[i].accounts[k]
    decreases |l|
  {
    var n := |l| - 1;
    if i < n {
      FlatAt(l[..n], nb, i, k);
      assert l[..n][..i] == l[..i];
    }
  }

  lemma FlatOne(l: Ledger, nb: nat, i: nat)
    requires Sheets(l, nb) && i < |l|
    ensures Flat(l[..i + 1], nb) == Flat(l[..i], nb) + l[i].Live() && Parity(l[..i + 1]) == Parity(l[..i]) + l[i].parity
  {
    assert l[..i + 1][..i] == l[..i];
  }

  lemma MoneyOne(l: Ledger, nb: nat, i: nat)
    requires Sheets(l, nb) && i < |l|
    ensures |Flat(l[..i + 1], nb)| == |Flat(l[..i], nb)| + l[i].count
    ensures Money(l[..i + 1], nb) == Money(l[..i], nb) + l[i].parity + Sum(l[i].Live())
    ensures NonNegative(Flat(l[..i], nb)) && NonNegative(l[i].Live()) ==> NonNegative(Flat(l[..i + 1], nb))
  {
    FlatOne(l, nb, i);
    SumAppend(Flat(l[..i], nb), l[i].Live());
  }

  lemma NegativeAccount(l: Ledger, nb: nat, i: nat)
    requires Sheets(l, nb) && i < |l| && !NonNegative(l[i].Live())
    ensures !NonNegative(Flat(l, nb))
  {
    var k :| 0 <= k < l[i].count && l[i].Live()[k] < 0;
    FlatAt(l, nb, i, k);
  }

  /** The balances of one segment, up to the first negative one. */
  method SumAccounts(segment: AccountSegment) returns (negative: bool, sum: int)
    requires segment.count <= |segment.accounts|
    ensures negative == !NonNegative(segment.View().Live())
    ensures !negative ==> sum == Sum(segment.View().Live())
  {
    ghost var live := segment.View().Live();
    sum := 0;
    var i := 0;
    while i < segment.count
      invariant i <= segment.count && sum == Sum(live[..i]) && NonNegative(live[..i])
    {
      var local := segment.accounts[i];
      if local < 0 {
        assert live[i] < 0;
        return true, 0;
      }
      assert live[..i + 1][..i] == live[..i];
      sum := sum + local;
      i := i + 1;
    }
    assert live[..i] == live;
    negative := false;
  }

  // ---- account addresses ----

  ghost predicate PointsInto(l: Ledger, nb: nat, chain: seq<nat>, p: Pointer, id: nat, j: nat)
    requires Sheets(l, nb) && j < |l| == |chain| && p.At?
  {
    p.segment == chain[j] && id == |Flat(l[..j], nb)| + p.index && p.index < l[j].count
  }

  /** p is the address of account number id among all accounts. */
  ghost predicate Points(l: Ledger, nb: nat, chain: seq<nat>, p: Pointer, id: nat)
    requires Sheets(l, nb) && |l| == |chain|
  {
    p.At? && exists j :: 0 <= j < |chain| && PointsInto(l, nb, chain, p, id, j)
  }

  /** What the search for account id knows before segment i: its address, or its number from segment i on. */
  ghost predicate Sought(l: Ledger, nb: nat, chain: seq<nat>, i: nat, id: nat, rest: nat, p: Pointer)
    requires Sheets(l, nb) && i <= |l| == |chain|
  {
    if p.Null? then id == |Flat(l[..i], nb)| + rest else Points(l, nb, chain, p, id)
  }

  /** One segment further: the account is in it, or its number drops by the segment's count. */
  lemma SoughtOne(l: Ledger, nb: nat, chain: seq<nat>, i: nat, id: nat, rest: nat, p: Pointer)
    requires Sheets(l, nb) && i < |l| == |chain| && Sought(l, nb, chain, i, id, rest, p)
    ensures p.Null? && rest < l[i].count ==> Points(l, nb, chain, At(chain[i], rest), id)
    ensures p.Null? && rest >= l[i].count ==> Sought(l, nb, chain, i + 1, id, rest - l[i].count, p)
  {
    FlatOne(l, nb, i);
    if p.Null? && rest < l[i].count {
      assert PointsInto(l, nb, chain, At(chain[i], rest), id, i);
    }
  }

  lemma PutEarlier(l: Ledger, nb: nat, id: nat, v: int)
    requires Sheets(l, nb) && l != [] && id < |Flat(l[..|l| - 1], nb)|
    ensures id < |Flat(l, nb)| && Put(l, nb, id, v) == Put(l[..|l| - 1], nb, id, v) + [l[|l| - 1]]
  {
  }

  lemma {:induction false} PutAt(l: Ledger, nb: nat, i: nat, k: nat, v: int)
    requires Sheets(l, nb) && i < |l| && k < l[i].count
    ensures |Flat(l[..i], nb)| + k < |Flat(l, nb)|
    ensures Put(l, nb, |Flat(l[..i], nb)| + k, v) == l[i := l[i].(accounts := l[i].accounts[k := v])]
    decreases |l|
  {
    var n, id := |l| - 1, |Flat(l[..i], nb)| + k;
    FlatAt(l, nb, i, k);
    if i < n {
      FlatAt(l[..n], nb, i, k);
      assert l[..n][..i] == l[..i];
      PutAt(l[..n], nb, i, k, v);
      PutEarlier(l, nb, id, v);
    }
  }

  lemma {:induction false} SameLength(l: Ledger, m: Ledger, nb: nat)
    requires Sheets(l, nb) && Sheets(m, nb) && SameShape(l, m)
    ensures |Flat(l, nb)| == |Flat(m, nb)|
  {
    if l != [] {
      SameLength(l[..|l| - 1], m[..|m| - 1], nb);
    }
  }

  /** Addresses do not depend on balances. */
  lemma PointsSame(l: Ledger, m: Ledger, nb: nat, chain: seq<nat>, p: Pointer, id: nat)
    requires Sheets(l, nb) && Sheets(m, nb) && SameShape(l, m) && |l| == |chain| && Points(l, nb, chain, p, id)
    ensures Points(m, nb, chain, p, id)
  {
    var j: nat :| j < |chain| && PointsInto(l, nb, chain, p, id, j);
    SameLength(l[..j], m[..j], nb);
    assert PointsInto(m, nb, chain, p, id, j);
  }

  /** An account not found by the end of the list does not exist. */
  lemma Missing(l: Ledger, nb: nat, chain: seq<nat>, id: nat, rest: nat, p: Pointer)
    requires Sheets(l, nb) && |l| == |chain| && Sought(l, nb, chain, |l|, id, rest, p)
    ensures p.Null? ==> id >= |Flat(l, nb)|
  {
    assert l[..|l|] == l;
  }

  lemma PointsWithin(l: Ledger, nb: nat, chain: seq<nat>, p: Pointer, id: nat)
    requires Sheets(l, nb) && |l| == |chain| && Points(l, nb, chain, p, id)
    ensures id < |Flat(l, nb)|
  {
    var j: nat :| j < |chain| && PointsInto(l, nb, chain, p, id, j);
    FlatAt(l, nb, j, p.index);
  }

  /** The list of segments at chain holds the ledger l. */
  ghost predicate Represents(mem: map<nat, AccountSegment>, chain: seq<nat>, nb: nat, l: Ledger) {
    IsList(mem, chain) && LedgerOf(mem, chain) == l && Sheets(l, nb)
  }

  predicate Addresses(mem: map<nat, AccountSegment>, p: Pointer) {
    p.At? && p.segment in mem && p.index < |mem[p.segment].accounts|
  }

  function Balance(mem: map<nat, AccountSegment>, p: Pointer): int
    requires Addresses(mem, p)
  {
    mem[p.segment].accounts[p.index]
  }

  lemma ReadAt(mem: map<nat, AccountSegment>, chain: seq<nat>, nb: nat, l: Ledger, p: Pointer, id: nat)
    requires Represents(mem, chain, nb, l) && Points(l, nb, chain, p, id)
    ensures Addresses(mem, p) && id < |Flat(l, nb)| && Balance(mem, p) == Flat(l, nb)[id]
  {
    var j: nat :| j < |chain| && PointsInto(l, nb, chain, p, id, j);
    FlatAt(l, nb, j, p.index);
  }

  function WithBalance(mem: map<nat, AccountSegment>, p: Pointer, v: int): map<nat, AccountSegment>
    requires p.At? && p.segment in mem && p.index < |mem[p.segment].accounts|
  {
    mem[p.segment := mem[p.segment].(accounts := mem[p.segment].accounts[p.index := v])]
  }

  lemma BalanceOn(mem: map<nat, AccountSegment>, chain: seq<nat>, p: Pointer, v: int, j: nat)
    requires IsList(mem, chain) && j < |chain| && p.At? && p.segment == chain[j] && p.index < |mem[chain[j]].accounts|
    ensures IsList(WithBalance(mem, p, v), chain)
    ensures var l := LedgerOf(mem, chain);
      LedgerOf(WithBalance(mem, p, v), chain) == l[j := l[j].(accounts := l[j].accounts[p.index := v])]
  {
  }

  lemma WriteAt(mem: map<nat, AccountSegment>, chain: seq<nat>, nb: nat, l: Ledger, p: Pointer, id: nat, v: int)
    requires Represents(mem, chain, nb, l) && Points(l, nb, chain, p, id) && Addresses(mem, p) && id < |Flat(l, nb)|
    ensures IsList(WithBalance(mem, p, v), chain) && LedgerOf(WithBalance(mem, p, v), chain) == Put(l, nb, id, v)
  {
    var j: nat :| j < |chain| && PointsInto(l, nb, chain, p, id, j);
    BalanceOn(mem, chain, p, v, j);
    PutAt(l, nb, j, p.index, v);
  }

  lemma AddIsPut(l: Ledger, nb: nat, id: nat, v: int, d: int)
    requires Sheets(l, nb) && id < |Flat(l, nb)| && v == Flat(l, nb)[id] + d
    ensures Add(l, nb, id, d) == Put(l, nb, id, v)
  {
  }

  /** Writing back the balance of an account with d added is adding d to that account of the ledger. */
  lemma AddAt(mem: map<nat, AccountSegment>, chain: seq<nat>, nb: nat, l: Ledger, p: Pointer, id: nat, v: int,
              d: int, a: Ledger)
    requires Represents(mem, chain, nb, l) && Points(l, nb, chain, p, id) && Addresses(mem, p)
    requires id < |Flat(l, nb)| && v == Flat(l, nb)[id] + d && a == Add(l, nb, id, d)
    ensures Represents(WithBalance(mem, p, v), chain, nb, a)
  {
    WriteAt(mem, chain, nb, l, p, id, v);
    AddIsPut(l, nb, id, v, d);
  }

  function Paid(mem: map<nat, AccountSegment>, p: Pointer, d: int): (m: map<nat, AccountSegment>)
    requires Addresses(mem, p)
    ensures forall q :: Addresses(mem, q) ==> Addresses(m, q)
  {
    WithBalance(mem, p, Balance(mem, p) + d)
  }

  /** What a transfer writes; the second balance is read after the first write. */
  function MoveIn(mem: map<nat, AccountSegment>, s: Pointer, r: Pointer): map<nat, AccountSegment>
    requires Addresses(mem, s) && Addresses(mem, r)
  {
    if Balance(mem, s) > 0 then Paid(Paid(mem, s, -1), r, 1) else mem
  }

  /** Paying into (or out of) an address is adding to (or taking from) the account there. */
  lemma PaidStep(mem: map<nat, AccountSegment>, chain: seq<nat>, nb: nat, l: Ledger, p: Pointer, id: nat, d: int,
                 m: map<nat, AccountSegment>, a: Ledger)
    requires Represents(mem, chain, nb, l) && Points(l, nb, chain, p, id) && id < |Flat(l, nb)|
    requires Addresses(mem, p) && m == Paid(mem, p, d) && a == Add(l, nb, id, d)
    ensures Represents(m, chain, nb, a)
  {
    ReadAt(mem, chain, nb, l, p, id);
    AddAt(mem, chain, nb, l, p, id, Balance(mem, p) + d, d, a);
  }

  lemma MoveStep(mem: map<nat, AccountSegment>, chain: seq<nat>, nb: nat, l: Ledger, s: Pointer, r: Pointer,
                 send: nat, recv: nat, m: map<nat, AccountSegment>, t: Ledger)
    requires Represents(mem, chain, nb, l) && Points(l, nb, chain, s, send) && Points(l, nb, chain, r, recv)
    requires Addresses(mem, s) && Addresses(mem, r) && m == MoveIn(mem, s, r)
    requires send < |Flat(l, nb)| && recv < |Flat(l, nb)| && t == Transfer(l, nb, send, recv)
    ensures Represents(m, chain, nb, t)
  {
    ReadAt(mem, chain, nb, l, s, send);
    if Balance(mem, s) > 0 {
      var a := Add(l, nb, send, -1);
      var m1 := Paid(mem, s, -1);
      PaidStep(mem, chain, nb, l, s, send, -1, m1, a);
      PointsSame(l, a, nb, chain, r, recv);
      PaidStep(m1, chain, nb, a, r, recv, 1, m, t);
    }
  }

  // ---- changes at the end of the list ----

  /** Another content for the last segment. */
  lemma LastReplaced(mem: map<nat, AccountSegment>, chain: seq<nat>, segment: AccountSegment)
    requires IsList(mem, chain) && segment.next == 0
    ensures var n := |chain| - 1;
      var m := mem[chain[n] := segment];
      IsList(m, chain) && LedgerOf(m, chain) == LedgerOf(mem, chain)[n := segment.View()]
  {
    assert NextIn(chain, |chain| - 1) == 0;
  }

  /** The last segment unlinked, and another content for the one before it. */
  lemma LastUnlinked(mem: map<nat, AccountSegment>, chain: seq<nat>, segment: AccountSegment)
    requires IsList(mem, chain) && |chain| > 1 && segment.next == 0
    ensures var n := |chain| - 1;
      var m := mem[chain[n - 1] := segment] - {chain[n]};
      IsList(m, chain[..n]) && LedgerOf(m, chain[..n]) == LedgerOf(mem, chain)[..n][n - 1 := segment.View()]
  {
    var n := |chain| - 1;
    var m := mem[chain[n - 1] := segment] - {chain[n]};
    forall i | 0 <= i < n ensures chain[..n][i] in m && m[chain[i]].next == NextIn(chain[..n], i) {
      assert mem[chain[i]].next == NextIn(chain, i);
    }
  }

  /** A segment linked after the last one. */
  lemma Linking(mem: map<nat, AccountSegment>, chain: seq<nat>, target: nat, segment: AccountSegment)
    requires IsList(mem, chain) && target != 0 && target !in mem && segment.next == 0
    ensures var last := chain[|chain| - 1];
      var m := mem[last := mem[last].(next := target)][target := segment];
      IsList(m, chain + [target]) && LedgerOf(m, chain + [target]) == LedgerOf(mem, chain) + [segment.View()]
  {
    var last := chain[|chain| - 1];
    var m := mem[last := mem[last].(next := target)][target := segment];
    var c := chain + [target];
    forall i | 0 <= i < |c| ensures c[i] in m && m[c[i]].next == NextIn(c, i) {
      if i < |chain| {
        assert mem[chain[i]].next == NextIn(chain, i);
      }
    }
  }

  class WorkloadBank {
    const nbaccounts: nat
    const initBalance: int
    var mem: map<nat, AccountSegment>
    ghost var chain: seq<nat>

    ghost predicate Linked()
      reads this
    {
      IsList(mem, chain) && Sheets(LedgerOf(mem, chain), nbaccounts)
    }

    ghost function Accounts(): Ledger
      requires Linked()
      reads this
    {
      LedgerOf(mem, chain)
    }

    /** The memory as created: one zeroed segment at the start address. */
    constructor (nbaccounts: nat, initBalance: int)
      ensures this.nbaccounts == nbaccounts && this.initBalance == initBalance && Unopened()
    {
      this.nbaccounts := nbaccounts;
      this.initBalance := initBalance;
      mem := map[START := AccountSegment(0, 0, 0, Repeat(nbaccounts, 0))];
      chain := [START];
    }

    ghost predicate Unopened()
      reads this
    {
      IsList(mem, chain) && |chain| == 1 && |mem[START].accounts| == nbaccounts && mem[START].parity == 0
    }

    /** Fills the first segment; every worker does so, and the result is the same. */
    method Init() returns (correct: bool)
      requires Unopened() && nbaccounts >= 1
      modifies this`mem
      ensures correct && Unopened() && Linked() && Accounts() == Opened(nbaccounts, initBalance)
      ensures var f := Flat(Accounts(), nbaccounts); |f| == nbaccounts && forall i :: 0 <= i < nbaccounts ==>
        f[i] == initBalance
      ensures Parity(Accounts()) == 0
    {
      var segment := mem[START];
      segment := segment.(count := nbaccounts);
      var i := 0;
      while i < nbaccounts
        invariant i <= nbaccounts == |segment.accounts|
        invariant segment == mem[START].(count := nbaccounts, accounts := segment.accounts)
        invariant forall k :: 0 <= k < i ==> segment.accounts[k] == initBalance
      {
        segment := segment.(accounts := segment.accounts[i := initBalance]);
        i := i + 1;
      }
      assert NextIn(chain, 0) == 0;
      assert segment.accounts == Repeat(nbaccounts, initBalance);
      LastReplaced(mem, chain, segment);
      mem := mem[START := segment];
      assert LedgerOf(mem, chain) == Opened(nbaccounts, initBalance);
      OpenedIs(nbaccounts, initBalance);
      correct := mem[START].accounts[0] == initBalance;
    }

    /** Sums every balance and correction; false at the first negative balance or on a wrong total. */
    method LongTx() returns (ok: bool, count: nat)
      requires Linked()
      ensures ok == Balanced(Accounts(), nbaccounts, initBalance)
      ensures var f := Flat(Accounts(), nbaccounts);
        ok == ((forall i :: 0 <= i < |f| ==> f[i] >= 0) && Parity(Accounts()) + Sum(f) == initBalance * |f|)
      ensures ok ==> count == |Flat(Accounts(), nbaccounts)|
    {
      ghost var l, i := Accounts(), 0;
      count := 0;
      var sum, start := 0, START;
      while start != 0
        invariant i <= |chain| && start == if i < |chain| then chain[i] else 0
        invariant count == |Flat(l[..i], nbaccounts)| && sum == Money(l[..i], nbaccounts)
        invariant NonNegative(Flat(l[..i], nbaccounts))
        decreases |chain| - i
      {
        var segment := mem[start];
        MoneyOne(l, nbaccounts, i);
        count := count + segment.count;
        sum := sum + segment.parity;
        var negative, total := SumAccounts(segment);
        if negative {
          NegativeAccount(l, nbaccounts, i);
          return false, 0;
        }
        sum := sum + total;
        assert segment.next == NextIn(chain, i);
        start := segment.next;
        i := i + 1;
      }
      assert l[..i] == l;
      ok := sum == initBalance * count;
    }

    /** Looks for one account in one segment, if it has not been found yet. */
    method Search(segment: AccountSegment, start: nat, rest: nat, p: Pointer, ghost l: Ledger, ghost i: nat,
                  ghost id: nat)
      returns (rest2: nat, p2: Pointer)
      requires Sheets(l, nbaccounts) && i < |l| == |chain| && segment.View() == l[i] && start == chain[i]
      requires Sought(l, nbaccounts, chain, i, id, rest, p)
      ensures Sought(l, nbaccounts, chain, i + 1, id, rest2, p2)
    {
      SoughtOne(l, nbaccounts, chain, i, id, rest, p);
      rest2, p2 := rest, p;
      if p.Null? {
        if rest < segment.count {
          p2 := At(start, rest);
        } else {
          rest2 := rest - segment.count;
        }
      }
    }

    /** Walks the list until both accounts are found; the two numbers count down segment by segment. */
    method FindAccounts(send: nat, recv: nat) returns (found: bool, sendPtr: Pointer, recvPtr: Pointer)
      requires Linked()
      ensures found == (send < |Flat(Accounts(), nbaccounts)| && recv < |Flat(Accounts(), nbaccounts)|)
      ensures found ==>
        Points(Accounts(), nbaccounts, chain, sendPtr, send) && Points(Accounts(), nbaccounts, chain, recvPtr, recv)
    {
      ghost var l, i := Accounts(), 0;
      sendPtr, recvPtr := Null, Null;
      var sendId: nat, recvId: nat := send, recv;
      var start := START;
      while true
        invariant 0 <= i < |chain| && start == chain[i]
        invariant sendPtr.Null? || recvPtr.Null?
        invariant l == Accounts()
        invariant Sought(l, nbaccounts, chain, i, send, sendId, sendPtr)
        invariant Sought(l, nbaccounts, chain, i, recv, recvId, recvPtr)
        decreases |chain| - i
      {
        var segment := mem[start];
        sendId, sendPtr := Search(segment, start, sendId, sendPtr, l, i, send);
        if sendPtr.At? && recvPtr.At? { break; }
        recvId, recvPtr := Search(segment, start, recvId, recvPtr, l, i, recv);
        if sendPtr.At? && recvPtr.At? { break; }
        assert segment.next == NextIn(chain, i);
        start := segment.next;
        i := i + 1;
        if start == 0 {
          Missing(l, nbaccounts, chain, send, sendId, sendPtr);
          Missing(l, nbaccounts, chain, recv, recvId, recvPtr);
          return false, sendPtr, recvPtr;
        }
      }
      PointsWithin(l, nbaccounts, chain, sendPtr, send);
      PointsWithin(l, nbaccounts, chain, recvPtr, recv);
      found := true;
    }

    /** One attempt: false exactly when one of the accounts does not exist, otherwise one unit moves if there is one. */
    method ShortTx(send: nat, recv: nat) returns (ok: bool)
      requires Linked()
      modifies this`mem
      ensures Linked()
      ensures var l := old(Accounts());
        && ok == (send < |Flat(l, nbaccounts)| && recv < |Flat(l, nbaccounts)|)
        && Accounts() == if ok then Transfer(l, nbaccounts, send, recv) else l
      ensures var f, g := old(Flat(Accounts(), nbaccounts)), Flat(Accounts(), nbaccounts);
        && |g| == |f|
        && (ok && send != recv && f[send] > 0 ==> g[send] == f[send] - 1 && g[recv] == f[recv] + 1)
        && (forall j :: 0 <= j < |f| && j != send && j != recv ==> g[j] == f[j])
        && (!ok || send == recv || f[send] <= 0 ==> g == f)
    {
      var sendPtr, recvPtr;
      ok, sendPtr, recvPtr := FindAccounts(send, recv);
      if ok {
        TransferIs(Accounts(), nbaccounts, send, recv);
        MoveOne(sendPtr, recvPtr, send, recv);
      }
    }

    method MoveOne(sendPtr: Pointer, recvPtr: Pointer, ghost send: nat, ghost recv: nat)
      requires Linked() && Points(Accounts(), nbaccounts, chain, sendPtr, send)
      requires Points(Accounts(), nbaccounts, chain, recvPtr, recv)
      requires send < |Flat(Accounts(), nbaccounts)| && recv < |Flat(Accounts(), nbaccounts)|
      modifies this`mem
      ensures Linked() && Accounts() == Transfer(old(Accounts()), nbaccounts, send, recv)
    {
      ghost var l := Accounts();
      ReadAt(mem, chain, nbaccounts, l, sendPtr, send);
      ReadAt(mem, chain, nbaccounts, l, recvPtr, recv);
      MoveStep(mem, chain, nbaccounts, l, sendPtr, recvPtr, send, recv,
               MoveIn(mem, sendPtr, recvPtr), Transfer(l, nbaccounts, send, recv));
      Pay(sendPtr, recvPtr);
    }

    /** One unit out of one account and into the other, if there is one; the second balance is read after the first
        write. */
    method Pay(sender: Pointer, recver: Pointer)
      requires Addresses(mem, sender) && Addresses(mem, recver)
      modifies this`mem
      ensures mem == MoveIn(old(mem), sender, recver)
      ensures var val := old(Balance(mem, sender));
        && Addresses(mem, sender) && Addresses(mem, recver)
        && (sender != recver && val > 0 ==>
              Balance(mem, sender) == val - 1 && Balance(mem, recver) == old(Balance(mem, recver)) + 1)
        && (sender == recver || val <= 0 ==>
              Balance(mem, sender) == val && Balance(mem, recver) == old(Balance(mem, recver)))
      ensures forall p :: p != sender && p != recver && old(Addresses(mem, p)) ==>
        Addresses(mem, p) && Balance(mem, p) == old(Balance(mem, p))
    {
      var sendVal := Balance(mem, sender);
      if sendVal > 0 {
        mem := WithBalance(mem, sender, sendVal - 1);
        var recvVal := Balance(mem, recver);
        mem := WithBalance(mem, recver, recvVal + 1);
      }
    }

    /** Walks to the last segment, counting accounts. */
    method FindLast() returns (prev: nat, start: nat, count: nat)
      requires Linked()
      ensures start == chain[|chain| - 1] && mem[start].next == 0 && count == |Flat(Accounts(), nbaccounts)|
      ensures prev == if |chain| > 1 then chain[|chain| - 2] else 0
    {
      ghost var l, i := Accounts(), 0;
      prev, start, count := 0, START, 0;
      while true
        invariant 0 <= i < |chain| && start == chain[i] && prev == if i > 0 then chain[i - 1] else 0
        invariant count == |Flat(l[..i], nbaccounts)|
        decreases |chain| - i
      {
        var segment := mem[start];
        FlatOne(l, nbaccounts, i);
        assert segment.next == NextIn(chain, i);
        count := count + segment.count;
        if segment.next == 0 {
          assert l[..i + 1] == l;
          return;
        }
        prev := start;
        start := segment.next;
        i := i + 1;
      }
    }

    /** Removes the last account, and its segment once that is empty: never the first segment. */
    method DestroyLast(prev: nat, start: nat, ghost l: Ledger, ghost r: Ledger, ghost trigger: nat)
      requires Linked() && l == Accounts() && WellFormed(l, nbaccounts) && Destroys(l, nbaccounts, trigger)
      requires r == Resized(l, nbaccounts, initBalance, trigger)
      requires start == chain[|chain| - 1] && mem[start].next == 0
      requires prev == if |chain| > 1 then chain[|chain| - 2] else 0
      modifies this`mem, this`chain
      ensures IsList(mem, chain) && LedgerOf(mem, chain) == r
    {
      var segment := mem[start];
      assert segment.View() == l[|l| - 1];
      DestroyedShape(l, nbaccounts, initBalance, trigger);
      var segmentCount := segment.count - 1;
      var newParity := segment.parity + segment.accounts[segmentCount] - initBalance;
      if segmentCount > 0 {
        var smaller := segment.(count := segmentCount, parity := newParity);
        LastReplaced(mem, chain, smaller);
        mem := mem[start := smaller];
      } else {
        var before := mem[prev];
        var last := before.(next := 0, parity := before.parity + newParity);
        LastUnlinked(mem, chain, last);
        mem := mem[prev := last] - {start};
        chain := chain[..|chain| - 1];
      }
    }

    /** Adds an account with the initial balance, in a new segment when the last one is full. */
    method CreateLast(start: nat, target: nat, ghost l: Ledger, ghost r: Ledger, ghost trigger: nat)
      requires Linked() && l == Accounts() && WellFormed(l, nbaccounts) && !Destroys(l, nbaccounts, trigger)
      requires r == Resized(l, nbaccounts, initBalance, trigger) && target != 0 && target !in mem
      requires start == chain[|chain| - 1] && mem[start].next == 0
      modifies this`mem, this`chain
      ensures IsList(mem, chain) && LedgerOf(mem, chain) == r
    {
      var segment := mem[start];
      if segment.count < nbaccounts {
        var larger := segment.(accounts := segment.accounts[segment.count := initBalance], count := segment.count + 1);
        LastReplaced(mem, chain, larger);
        mem := mem[start := larger];
      } else {
        var next := AccountSegment(1, 0, 0, Repeat(nbaccounts, 0)[0 := initBalance]);
        Linking(mem, chain, target, next);
        mem := mem[start := segment.(next := target)][target := next];
        chain := chain + [target];
      }
    }

    /** An account less when there are more than the trigger and more than two, otherwise one more.
        target is what the memory hands out for a new segment. */
    method AllocTx(trigger: nat, target: nat)
      requires Linked() && WellFormed(Accounts(), nbaccounts) && target != 0 && target !in mem
      modifies this`mem, this`chain
      ensures Linked() && Accounts() == Resized(old(Accounts()), nbaccounts, initBalance, trigger)
      ensures var f, g := old(Flat(Accounts(), nbaccounts)), Flat(Accounts(), nbaccounts);
        var n := |f|;
        && (n > trigger && n > 2 ==>
              g == f[..n - 1] && Parity(Accounts()) == old(Parity(Accounts())) + f[n - 1] - initBalance)
        && (n <= trigger || n <= 2 ==> g == f + [initBalance] && Parity(Accounts()) == old(Parity(Accounts())))
    {
      ghost var l := Accounts();
      ghost var r := Resized(l, nbaccounts, initBalance, trigger);
      var prev, start, count := FindLast();
      if count > trigger && count > 2 {
        DestroyLast(prev, start, l, r, trigger);
      } else {
        CreateLast(start, target, l, r, trigger);
      }
      ResizedIs(l, nbaccounts, initBalance, trigger);
    }
  }
}
