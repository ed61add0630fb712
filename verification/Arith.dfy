/** Plain arithmetic; most of it is division by a variable, which the solver does not do alone. */
module Arith {
  function Least(a: nat, b: nat): nat { if a <= b then a else b }

  lemma DivStep(x: nat, u: nat)
    requires u > 0
    ensures (u + x) / u == 1 + x / u
  {
    var q, r := x / u, x % u;
    assert u + x == u * (q + 1) + r;
    DivUnique(u + x, u, q + 1, r);
  }

  lemma Distribute(u: int, q: int, p: int)
    ensures u * (q - p) == u * q - u * p
  {
  }

  lemma SmallMultiple(u: int, k: int)
    requires -u < u * k < u
    ensures k == 0
  {
  }

  lemma DivUnique(x: nat, u: nat, q: nat, r: nat)
    requires r < u && x == u * q + r
    ensures x / u == q
  {
    var p, r' := x / u, x % u;
    assert u * (q - p) == r' - r by {
      assert x == u * p + r';
      Distribute(u, q, p);
    }
    SmallMultiple(u, q - p);
  }

  lemma ModUnique(x: nat, u: nat, q: nat, r: nat)
    requires r < u && x == u * q + r
    ensures x % u == r
  {
    DivUnique(x, u, q, r);
  }

  lemma ModOfProduct(q: int, n: nat)
    requires n > 0
    ensures q * n % n == 0
  {
    var p, r := q * n / n, q * n % n;
    assert n * (q - p) == r by {
      Distribute(n, q, p);
    }
    SmallMultiple(n, q - p);
  }

  lemma {:induction false} NatProduct(a: nat, b: nat)
    ensures a * b >= 0
  {
    if a > 0 {
      NatProduct(a - 1, b);
      assert a * b == (a - 1) * b + b;
    }
  }
}
