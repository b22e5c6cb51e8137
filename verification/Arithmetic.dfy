/** Division facts the byte codecs need. The products are kept in lemmas of their own. */
module Arithmetic {

  lemma MulLe(a: nat, b: int, c: int)
    requires b <= c
    ensures a * b <= a * c
  {
    assert a * (c - b) >= 0;
  }

  lemma Distribute(a: int, b: int, c: int)
    ensures a * (b + c) == a * b + a * c
  {
  }

  lemma Associate(a: int, b: int, c: int)
    ensures a * (b * c) == (a * b) * c
  {
  }

  lemma QuotientIsUnique(d: nat, q1: int, r1: nat, q2: int, r2: nat)
    requires r1 < d && r2 < d && d * q1 + r1 == d * q2 + r2
    ensures q1 == q2 && r1 == r2
  {
    if q1 > q2 {
      MulLe(d, q2 + 1, q1);
      Distribute(d, q2, 1);
    } else if q1 < q2 {
      MulLe(d, q1 + 1, q2);
      Distribute(d, q1, 1);
    }
  }

  lemma DivMod(x: nat, d: nat, q: nat, r: nat)
    requires r < d && x == d * q + r
    ensures x / d == q && x % d == r
  {
    QuotientIsUnique(d, q, r, x / d, x % d);
  }

  lemma DivDiv(x: nat, a: nat, b: nat)
    requires a > 0 && b > 0
    ensures a * b > 0 && x / a / b == x / (a * b)
  {
    var q, r := x / a, x % a;
    DivDivParts(x, a, b, q, r, q / b, q % b);
  }

  lemma DivDivParts(x: nat, a: nat, b: nat, q: nat, r: nat, q2: nat, r2: nat)
    requires r < a && r2 < b && x == a * q + r && q == b * q2 + r2
    ensures a * b > 0 && q2 == x / (a * b)
  {
    Distribute(a, b * q2, r2);
    Associate(a, b, q2);
    MulLe(a, r2 + 1, b);
    Distribute(a, r2, 1);
    MulLe(a, 1, b);
    DivMod(x, a * b, q2, a * r2 + r);
  }

  // A number read in base 256 and read again in groups of seven bits (q * p == 256, p * m == 128).
  lemma Regroup(y: nat, p: nat, q: nat, m: nat)
    requires p > 0 && q > 0 && m > 0 && q * p == 0x100 && p * m == 0x80
    ensures y / q % 0x80 == y % 0x100 / q + p * (y / 0x100 % 0x100 % m)
  {
    var l, a := y % 0x100, y / 0x100;
    var c, e := a % 0x100, a / 0x100;
    assert c == m * (c / m) + c % m;
    assert l == q * (l / q) + l % q;
    QuotientByPart(y, p, q, a, l / q, l % q);
    GroupOfQuotient(a, p, m, e, c / m, c % m, l / q);
  }

  lemma QuotientByPart(y: nat, p: nat, q: nat, a: nat, w: nat, r: nat)
    requires q > 0 && q * p == 0x100 && r < q && y == 0x100 * a + (q * w + r) && q * w + r < 0x100
    ensures y / q == p * a + w && w < p
  {
    Associate(q, p, a);
    Distribute(q, p * a, w);
    DivMod(y, q, p * a + w, r);
    if w >= p {
      MulLe(q, p, w);
    }
  }

  lemma GroupOfQuotient(a: nat, p: nat, m: nat, e: nat, u: nat, v: nat, w: nat)
    requires p * m == 0x80 && v < m && w < p && a == 0x100 * e + (m * u + v)
    ensures (p * a + w) % 0x80 == w + p * v
  {
    Distribute(p, 0x100 * e, m * u + v);
    Distribute(p, m * u, v);
    Associate(p, m, u);
    Associate(p, 0x100, e);
    MulLe(p, v + 1, m);
    Distribute(p, v, 1);
    DivMod(p * a + w, 0x80, 2 * (p * e) + u, p * v + w);
  }
}
