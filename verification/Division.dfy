// Division by its defining equation.
module Division {
  lemma Carry(n: nat, k: nat)
    requires n > 0 && k > 1
    ensures n / k == (n - 1) / k + (if n % k == 0 then 1 else 0)
  {
    var q, r := n / k, n % k;
    if r == 0 { Quotient(n - 1, k, q - 1, k - 1); } else { Quotient(n - 1, k, q, r - 1); }
  }

  lemma AtLeastOnce(k: nat, x: int)
    requires x >= 1
    ensures k * x >= k
  {}

  // The quotient and remainder are the only ones.
  lemma Quotient(n: nat, k: nat, q: int, r: nat)
    requires k > 0 && n == k * q + r && r < k
    ensures n / k == q && n % k == r
  {
    var p, t := n / k, n % k;
    assert n == k * p + t;
    if p > q {
      AtLeastOnce(k, p - q);
      assert false;
    } else if p < q {
      AtLeastOnce(k, q - p);
      assert false;
    }
  }
}
