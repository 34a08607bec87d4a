/** Facts about products, quotients and remainders. */
module Arithmetic {

  lemma {:induction false} Scale(p: nat, d: int)
    ensures d >= 1 ==> p * d >= p
    ensures d <= -1 ==> p * d <= 0 - p
    ensures d == 0 ==> p * d == 0
  {
  }

  lemma {:induction false} ScaleLess(a: int, b: int, c: nat)
    requires a <= b
    ensures a * c <= b * c && c * a <= c * b
  {
  }

  lemma {:induction false} DivIs(p: nat, q: nat, r: nat)
    requires r < p
    ensures (q * p + r) / p == q && (q * p + r) % p == r
  {
    DivIsAux(p, q, r, (q * p + r) / p, (q * p + r) % p);
  }

  lemma {:induction false} DivIsAux(p: nat, q: nat, r: nat, d: int, m: nat)
    requires r < p && m < p
    requires q * p + r == p * d + m
    ensures d == q && m == r
  {
    assert p * (d - q) == r - m;
    Scale(p, d - q);
  }

  lemma {:induction false} AtMostQuotient(x: nat, c: nat, i: nat)
    requires c > 0 && i * c <= x
    ensures i <= x / c
  {
    var d := i - x / c;
    assert c * d == i * c - (x - x % c);
    Scale(c, d);
  }

  lemma {:induction false} QuotientBelow(x: nat, c: nat, b: nat)
    requires c > 0 && x < (b + 1) * c
    ensures x / c <= b
  {
    var d := x / c - b - 1;
    assert c * d == x - x % c - (b + 1) * c;
    Scale(c, d);
  }

  lemma {:induction false} SubsetSize<T>(a: set<T>, b: set<T>)
    requires a <= b
    ensures |a| <= |b|
  {
    assert b == a + (b - a);
  }
}
