/** Facts about division that the solver does not find by itself. */
module Arithmetic {
  lemma SplitLastOctet(n: nat, p: nat)
    requires 0 < p
    ensures n % (256 * p) % 256 == n % 256
    ensures n % (256 * p) / 256 == n / 256 % p
  {
    var r, q := n % (256 * p), n / (256 * p);
    assert n == 256 * (q * p) + r;
    assert n / 256 == q * p + r / 256;
    QuotientUnique(n / 256, p, q, r / 256);
  }

  lemma QuotientUnique(n: nat, p: nat, q: nat, r: nat)
    requires 0 < p && n == q * p + r && r < p
    ensures n % p == r
  {
    var d := n / p - q;
    assert n == (n / p) * p + n % p;
    assert d * p == r - n % p;
    NonzeroMultiple(d, p);
  }

  lemma NonzeroMultiple(d: int, p: nat)
    ensures 1 <= d ==> p <= d * p
    ensures d <= -1 ==> d * p <= -(p as int)
  {
  }

  /** 256 * p divides a number exactly when its last octet is 0 and p divides the rest. */
  lemma DivisibleByOctets(n: nat, p: nat)
    requires 0 < p
    ensures n % (256 * p) == 0 <==> n % 256 == 0 && n / 256 % p == 0
  {
    SplitLastOctet(n, p);
    var r := n % (256 * p);
    assert r == 256 * (r / 256) + r % 256;
  }

  lemma JoinOctet(front: nat, last: nat)
    requires last < 256
    ensures (256 * front + last) % 256 == last
    ensures (256 * front + last) / 256 == front
  {
  }

  /** Reducing an intermediate result changes nothing in the end. */
  lemma ReduceEarly(x: int, a: int, m: nat)
    requires 0 < m
    ensures (x % m + a) % m == (x + a) % m
  {
    var k := x / m;
    assert x == k * m + x % m;
    AddMultiple(x % m + a, k, m);
  }

  lemma AddMultiple(x: int, k: int, m: nat)
    requires 0 < m
    ensures (x + k * m) % m == x % m
  {
    var y := x + k * m;
    var d := y / m - x / m - k;
    assert y == (y / m) * m + y % m && x == (x / m) * m + x % m;
    assert d * m == x % m - y % m;
    NonzeroMultiple(d, m);
  }

  lemma OneMore(n: int, k: int)
    ensures (n + 1) * k == n * k + k && k * (n + 1) == k * n + k
  {
  }

  function Pow256(k: nat): (r: nat)
    ensures r > 0
  {
    if k == 0 then 1 else 256 * Pow256(k - 1)
  }

  lemma Pow256Of8()
    ensures Pow256(8) == 0x1_0000_0000_0000_0000
  {
    assert Pow256(4) == 0x1_0000_0000;
  }

  lemma MulMonotone(a: nat, b: nat, k: nat)
    requires a <= b
    ensures a * k <= b * k
  {
    assert (b - a) * k >= 0;
  }
}
