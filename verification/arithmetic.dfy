/** Facts about products that the solver does not find by itself. */
module Arithmetic {
  lemma Times(a: nat, b: nat, n: nat)
    requires a <= b
    ensures a * n <= b * n
  {
    assert b * n == a * n + (b - a) * n;
  }

  lemma Regroup(a: nat, b: nat, c: nat)
    ensures a * (b * c) == (a * b) * c
  {
  }

  lemma Distribute(a: nat, b: nat, n: nat)
    ensures (a + b) * n == a * n + b * n
  {
  }

  // A larger number has the larger product.
  lemma Strictly(a: nat, b: nat, n: nat)
    requires a < b && n > 0
    ensures a * n < b * n
  {
    Times(a + 1, b, n);
    Distribute(a, 1, n);
  }

  lemma Cancel(a: nat, b: nat, n: nat)
    requires n > 0
    ensures a * n == b * n <==> a == b
  {
    if a < b {
      Strictly(a, b, n);
    } else if b < a {
      Strictly(b, a, n);
    }
  }
}
