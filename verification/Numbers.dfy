/** Division by a product, for the digits of printed numbers. */
module Numbers {

  lemma DivTwice(v: nat, b: nat, p: nat)
    requires b > 0 && p > 0
    ensures b * p > 0 && v / b / p == v / (b * p)
  {
    Division(v, b);
    Division(v / b, p);
    Joint(v, b, p, v / b, v % b, v / b / p, v / b % p);
  }

  lemma Division(x: nat, d: nat)
    requires d > 0
    ensures x == d * (x / d) + x % d && x % d < d
  {
  }

  lemma Joint(v: nat, b: nat, p: nat, h: nat, low: nat, q: nat, high: nat)
    requires v == b * h + low && h == p * q + high && low < b && high < p
    ensures b * p > 0 && v / (b * p) == q
  {
    Inner(b, p, low, high);
    Regroup(b, p, q, high);
    QuotientOnce(v, b * p, q, b * high + low);
  }

  lemma Inner(b: nat, p: nat, low: nat, high: nat)
    requires low < b && high < p
    ensures 0 <= b * high + low < b * p
  {
    assert b * high + b == b * (high + 1);
    Wider(b, high + 1, p);
  }

  lemma Wider(b: nat, m: nat, n: nat)
    requires m <= n
    ensures b * m <= b * n
  {
  }

  lemma Regroup(b: nat, p: nat, q: nat, r: nat)
    ensures b * (p * q + r) == b * p * q + b * r
  {
    assert b * (p * q) == b * p * q;
  }

  lemma QuotientOnce(x: nat, d: nat, q: nat, r: nat)
    requires d > 0 && x == d * q + r && r < d
    ensures x / d == q
  {
    Division(x, d);
    AtMost(d, q, x / d, r, x % d);
    AtMost(d, x / d, q, x % d, r);
  }

  lemma AtMost(d: nat, q: nat, e: nat, r: nat, s: nat)
    requires d * q + r == d * e + s && r < d && s < d
    ensures q <= e
  {
    if e < q { Wider(d, e + 1, q); }
  }
}
