/** Multiples of the alignment. */
module Arithmetic {
  lemma {:induction false} AtLeastOne(x: nat, y: nat)
    requires x > 0
    ensures x * y >= y
  {
    if x > 1 {
      AtLeastOne(x - 1, y);
      assert x * y == (x - 1) * y + y;
    }
  }

  lemma DivideExact(n: nat, d: nat)
    requires d > 0
    ensures n * d / d == n && n * d % d == 0
  {
    var q, r := n * d / d, n * d % d;
    assert (n - q) * d == n * d - q * d == r;
    assert (q - n) * d == q * d - n * d == -r;
    if n > q {
      AtLeastOne(n - q, d);
    } else if n < q {
      AtLeastOne(q - n, d);
    }
  }

  lemma Divide(b: nat, d: nat) returns (q: nat, r: nat)
    requires d > 0
    ensures b == q * d + r && r < d
  {
    q, r := b / d, b % d;
  }

  lemma SmallerMultiple(j: nat, n: nat, d: nat)
    requires d > 0
    ensures j * d < n * d <==> j < n
    ensures j < n ==> j * d + d <= n * d
  {
    if j < n {
      AtLeastOne(n - j, d);
      assert n * d == j * d + (n - j) * d;
    } else {
      assert j * d == n * d + (j - n) * d;
    }
  }

  lemma BelowZero(n: nat, d: nat, c: nat)
    requires n > 0 && c < d
    ensures -(n * d) + c < 0
  {
    AtLeastOne(n, d);
  }
}
