/** Small facts about products and quotients. */
module Arithmetic {
  function Min(a: int, b: int): int { if a < b then a else b }
  function Max(a: int, b: int): int { if a < b then b else a }

  lemma Spread(d: int, e: int)
    requires d > 0
    ensures e >= 1 ==> d * e >= d
    ensures e <= -1 ==> d * e <= -d
    ensures e == 0 ==> d * e == 0
  {
  }

  lemma QuotientIs(a: int, d: int, q: int, r: int)
    requires d > 0 && a == d * q + r && 0 <= r < d
    ensures a / d == q && a % d == r
  {
    var e := a / d - q;
    assert d * e == r - a % d;
    Spread(d, e);
  }

  lemma QuotientIsNat(a: int, d: int)
    requires a >= 0 && d > 0
    ensures a / d >= 0
  {
    Spread(d, a / d);
  }

  lemma ExactQuotient(n: int, g: int, q: int)
    requires g > 0 && n == g * q
    ensures n / g == q && n % g == 0
  {
    QuotientIs(n, g, q, 0);
  }

  /** Dividing by a factor greater than one gets smaller, and stays positive. */
  lemma SmallerQuotient(n: int, f: int)
    requires n > 0 && f > 1 && n % f == 0
    ensures 0 < n / f < n && n == f * (n / f)
  {
    var q := n / f;
    assert n == f * q;
    Spread(f, q);
    Spread(f - 1, q);
    assert f * q == (f - 1) * q + q;
  }

  lemma DivideTwice(a: int, b: int)
    requires a >= 0 && b > 0
    ensures a / b / 2 == a / (2 * b)
  {
    var q := a / b;
    var h := q / 2;
    var r := b * (q % 2) + a % b;
    Regroup(b, h, q % 2);
    assert a == (2 * b) * h + r;
    QuotientIs(a, 2 * b, h, r);
  }

  lemma Regroup(b: int, h: int, r: int)
    ensures b * (2 * h + r) == (2 * b) * h + b * r
  {
  }

  lemma SameProduct(g: int, a: int, b: int)
    requires g > 0 && g * a == g * b
    ensures a == b
  {
    Spread(g, a - b);
    assert g * (a - b) == 0;
  }

  lemma UnitFactor(h: int, k: int)
    requires h > 0 && h * k == 1
    ensures h == 1 && k == 1
  {
    Spread(h, k);
  }

  lemma Positive(a: int, b: int)
    requires a > 0 && b > 0
    ensures a * b > 0
  {
    Spread(a, b);
  }

  function Power(b: nat, n: nat): nat
  {
    if n == 0 then 1 else b * Power(b, n - 1)
  }

  lemma {:induction false} PowerPositive(b: nat, n: nat)
    requires b > 0
    ensures Power(b, n) > 0
  {
    if n > 0 {
      PowerPositive(b, n - 1);
      Positive(b, Power(b, n - 1));
    }
  }

  lemma {:induction false} PowerAdd(b: nat, m: nat, n: nat)
    ensures Power(b, m + n) == Power(b, m) * Power(b, n)
  {
    if m > 0 {
      PowerAdd(b, m - 1, n);
      Associate(b, Power(b, m - 1), Power(b, n));
    }
  }

  lemma Associate(a: int, b: int, c: int)
    ensures a * (b * c) == (a * b) * c
  {
  }

  lemma Exchange(a: int, b: int, c: int, d: int)
    ensures (a * b) * (c * d) == (a * c) * (b * d)
  {
    Associate(a, b, c * d);
    Associate(b, c, d);
    Associate(c, b, d);
    Associate(a, c, b * d);
  }

  lemma {:induction false} PowerProduct(a: nat, b: nat, n: nat)
    ensures Power(a * b, n) == Power(a, n) * Power(b, n)
  {
    if n > 0 {
      PowerProduct(a, b, n - 1);
      Exchange(a, b, Power(a, n - 1), Power(b, n - 1));
    }
  }
}
