/** Facts about products and remainders, where the solver needs them one at a time. */
module Arithmetic {

  lemma MulDistribute(a: nat, b: nat, n: nat)
    ensures (a + b) * n == a * n + b * n && b * n >= 0
  {
  }

  lemma MulMonotone(a: nat, b: nat, n: nat)
    requires a <= b
    ensures a * n <= b * n
  {
    MulDistribute(a, b - a, n);
  }

  lemma MulApart(a: nat, b: nat, n: nat)
    requires a < b
    ensures a * n + n <= b * n
  {
    MulDistribute(a, 1, n);
    MulMonotone(a + 1, b, n);
  }

  lemma Divide(x: nat, n: nat)
    requires n > 0
    ensures x == x / n * n + x % n && x % n < n && x / n >= 0
  {
    assert x == n * (x / n) + x % n;
  }

  function Quotient(x: nat, n: nat): (q: nat)
    requires n > 0
    ensures x == q * n + x % n && x % n < n
  {
    Divide(x, n);
    x / n
  }

  lemma ModuloIs(a: nat, n: nat, q: nat, r: nat)
    requires n > 0 && r < n && a == q * n + r
    ensures a % n == r && Quotient(a, n) == q
  {
    var p := Quotient(a, n);
    if p < q {
      MulApart(p, q, n);
    } else if q < p {
      MulApart(q, p, n);
    }
  }
}
