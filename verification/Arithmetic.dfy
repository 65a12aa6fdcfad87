/** Division by a variable, which the verifier does not do on its own. */
module Arithmetic {

  lemma MulStep(q: nat, d: nat, e: nat)
    requires d < e
    ensures q * d + q <= q * e
  {
    assert q * e == q * d + q * (e - d);
    assert q * (e - d) == q * (e - d - 1) + q;
  }

  /** Quotient and remainder are the only pair that multiplies back. */
  lemma QuotientIs(i: nat, q: nat, d: nat, m: nat)
    requires 0 <= m < q && i == q * d + m
    ensures i / q == d && i % q == m
  {
    var e, r := i / q, i % q;
    assert i == q * e + r;
    if e > d {
      MulStep(q, d, e);
    } else if e < d {
      MulStep(q, e, d);
    }
  }

  lemma NextQuotient(i: nat, q: nat)
    requires q > 0
    ensures (i + 1) / q == i / q + (if i % q == q - 1 then 1 else 0)
  {
    var d, m := i / q, i % q;
    assert i == q * d + m;
    if m == q - 1 {
      assert i + 1 == q * (d + 1);
      QuotientIs(i + 1, q, d + 1, 0);
    } else {
      QuotientIs(i + 1, q, d, m + 1);
    }
  }

  lemma TwoDigits(b: nat, p: nat, q: nat, m: nat, l: nat)
    requires l < b && m < p
    ensures b * (p * q + m) + l == b * p * q + (b * m + l)
    ensures b * m + l < b * p
  {
    assert b * (p * q + m) == b * (p * q) + b * m;
    assert b * (p * q) == b * p * q;
    MulStep(b, m, p);
  }

  lemma QuotientOfQuotient(n: nat, b: nat, p: nat)
    requires b > 0 && p > 0
    ensures b * p > 0 && n / b / p == n / (b * p)
  {
    var h, l := n / b, n % b;
    Digits(n, b, p, h, l, h / p, h % p);
  }

  /** The remainder by `b * p`, from the quotient and the remainder by `b`. */
  lemma ModOfProduct(n: nat, b: nat, p: nat)
    requires b > 0 && p > 0
    ensures b * p > 0
    ensures n % (b * p) == b * (n / b % p) + n % b
  {
    var h, l := n / b, n % b;
    Digits(n, b, p, h, l, h / p, h % p);
  }

  lemma Digits(n: nat, b: nat, p: nat, h: nat, l: nat, q: nat, m: nat)
    requires l < b && m < p && n == b * h + l && h == p * q + m
    ensures b * p > 0 && n % (b * p) == b * m + l && n / (b * p) == q
  {
    TwoDigits(b, p, q, m, l);
    QuotientIs(n, b * p, q, b * m + l);
  }
}
