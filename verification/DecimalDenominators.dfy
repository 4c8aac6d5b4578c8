/** Which denominators give finite decimals, and how many digits they need. */
module DecimalDenominators {
  import opened Arithmetic
  import opened Rationals

  /** A product of twos and fives. */
  predicate Smooth(n: nat)
  {
    n == 1 || (n > 0 && n % 2 == 0 && Smooth(n / 2)) || (n > 0 && n % 5 == 0 && Smooth(n / 5))
  }

  function Strip(n: nat, f: nat): (rest: nat)
    requires n > 0 && f > 1
    ensures 0 < rest <= n && rest % f != 0
  {
    if n % f != 0 then n else SmallerQuotient(n, f); Strip(n / f, f)
  }

  function FactorCount(n: nat, f: nat): nat
    requires n > 0 && f > 1
  {
    if n % f != 0 then 0 else SmallerQuotient(n, f); 1 + FactorCount(n / f, f)
  }

  /** Count how often `f` divides `value`. */
  method ModelCostFactorCount(value: nat, f: nat) returns (count: nat)
    requires value > 0 && f > 1
    ensures count == FactorCount(value, f)
  {
    var remainder := value;
    count := 0;
    while remainder % f == 0
      invariant remainder > 0 && count + FactorCount(remainder, f) == FactorCount(value, f)
      decreases remainder
    {
      SmallerQuotient(remainder, f);
      remainder := remainder / f;
      count := count + 1;
    }
  }

  method StripFactor(value: nat, f: nat) returns (rest: nat)
    requires value > 0 && f > 1
    ensures rest == Strip(value, f)
  {
    rest := value;
    while rest % f == 0
      invariant rest > 0 && Strip(rest, f) == Strip(value, f)
      decreases rest
    {
      SmallerQuotient(rest, f);
      rest := rest / f;
    }
  }

  // ---- divisors ----

  lemma ProductMod(m: int, q: int, f: int)
    requires f > 1
    ensures (m * q) % f == ((m % f) * (q % f)) % f
  {
    var a, b, r, s := m / f, q / f, m % f, q % f;
    var k := a * (f * b + s) + r * b;
    assert m * q == f * k + r * s by { Expand(a, b, f, r, s); }
    var rs := r * s;
    assert rs == f * (rs / f) + rs % f;
    assert f * k + f * (rs / f) == f * (k + rs / f);
    QuotientIs(m * q, f, k + rs / f, rs % f);
  }

  lemma Expand(a: int, b: int, f: int, r: int, s: int)
    ensures (f * a + r) * (f * b + s) == f * (a * (f * b + s) + r * b) + r * s
  {
    var t := f * b + s;
    assert (f * a + r) * t == (f * a) * t + r * t;
    Associate(f, a, t);
    assert r * t == r * (f * b) + r * s;
    Associate(r, f, b);
    Associate(f, r, b);
    assert f * (a * t) + f * (r * b) == f * (a * t + r * b);
  }

  /** Two and five are prime. */
  lemma PrimeSplits(m: int, q: int, f: int)
    requires (f == 2 || f == 5) && (m * q) % f == 0
    ensures m % f == 0 || q % f == 0
  {
    ProductMod(m, q, f);
    var r, s := m % f, q % f;
    if f == 5 { FiveSplits(r, s); }
  }

  lemma FiveSplits(r: int, s: int)
    requires 0 <= r < 5 && 0 <= s < 5 && (r * s) % 5 == 0
    ensures r == 0 || s == 0
  {
    if r == 1 { } else if r == 2 { } else if r == 3 { } else if r == 4 { }
  }

  /** What divides a product of twos and fives is one. */
  lemma {:induction false} SmoothDivisor(m: nat, q: nat, n: nat)
    requires n > 0 && n == m * q && Smooth(n)
    ensures Smooth(m)
    decreases n
  {
    if n == 1 {
      assert m > 0;
      UnitFactor(m, q);
    } else {
      var f := if n % 2 == 0 && Smooth(n / 2) then 2 else 5;
      assert n == f * (n / f);
      PrimeSplits(m, q, f);
      if q % f == 0 {
        var q' := q / f;
        assert q == f * q';
        assert m * (f * q') == f * (m * q') by { Associate(m, f, q'); Associate(f, m, q'); }
        SameProduct(f, m * q', n / f);
        SmoothDivisor(m, q', n / f);
      } else {
        var m' := m / f;
        assert m == f * m';
        Associate(f, m', q);
        SameProduct(f, m' * q, n / f);
        SmoothDivisor(m', q, n / f);
        SmoothTimes(m', f);
      }
    }
  }

  lemma SmoothTimes(n: nat, f: nat)
    requires Smooth(n) && (f == 2 || f == 5)
    ensures Smooth(f * n)
  {
    ExactQuotient(f * n, f, n);
  }

  lemma {:induction false} SmoothProduct(m: nat, n: nat)
    requires Smooth(m) && Smooth(n)
    ensures Smooth(m * n)
    decreases m
  {
    if m == 1 {
      assert m * n == n;
    } else {
      var f := if m % 2 == 0 && Smooth(m / 2) then 2 else 5;
      assert m == f * (m / f);
      SmoothProduct(m / f, n);
      SmoothTimes((m / f) * n, f);
      Associate(f, m / f, n);
    }
  }

  lemma {:induction false} TenIsSmooth(k: nat)
    ensures Smooth(Power(10, k))
  {
    if k > 0 {
      TenIsSmooth(k - 1);
      SmoothTimes(Power(10, k - 1), 5);
      SmoothTimes(5 * Power(10, k - 1), 2);
    }
  }

  // ---- stripping twos and fives decides it ----

  lemma {:induction false} StripDivides(n: nat, f: nat) returns (q: nat)
    requires n > 0 && f > 1
    ensures n == Strip(n, f) * q
    decreases n
  {
    if n % f != 0 {
      q := 1;
    } else {
      SmallerQuotient(n, f);
      var q' := StripDivides(n / f, f);
      q := f * q';
      Associate(f, Strip(n / f, f), q');
      Associate(Strip(n / f, f), f, q');
    }
  }

  lemma {:induction false} StripSmooth(n: nat, f: nat)
    requires n > 0 && (f == 2 || f == 5) && Smooth(Strip(n, f))
    ensures Smooth(n)
    decreases n
  {
    if n % f == 0 { StripSmooth(n / f, f); }
  }

  /** Nothing is left after taking out all twos and fives exactly for their products. */
  lemma SmoothWhenStripped(n: nat)
    requires n > 0
    ensures Smooth(n) <==> Strip(Strip(n, 2), 5) == 1
  {
    var odd := Strip(n, 2);
    var rest := Strip(odd, 5);
    if rest == 1 {
      StripSmooth(odd, 5);
      StripSmooth(n, 2);
    }
    if Smooth(n) {
      var q := StripDivides(n, 2);
      SmoothDivisor(odd, q, n);
      var p := StripDivides(odd, 5);
      SmoothDivisor(rest, p, odd);
      if rest % 2 == 0 { ProductMod(rest, p, 2); }
    }
  }

  // ---- how many digits ----

  lemma OtherFactor(k: nat, f: nat, g: nat)
    requires k > 0 && ((f == 2 && g == 5) || (f == 5 && g == 2))
    ensures (g * k) % f == 0 <==> k % f == 0
    ensures k % f == 0 ==> (g * k) / f == g * (k / f)
  {
    ProductMod(g, k, f);
    if (g * k) % f == 0 { PrimeSplits(g, k, f); }
    if k % f == 0 {
      assert k == f * (k / f);
      Associate(g, f, k / f);
      Associate(f, g, k / f);
      ExactQuotient(g * k, f, g * (k / f));
    }
  }

  lemma {:induction false} CountUnaffected(k: nat, f: nat, g: nat)
    requires k > 0 && ((f == 2 && g == 5) || (f == 5 && g == 2))
    ensures g * k > 0 && FactorCount(g * k, f) == FactorCount(k, f)
    decreases k
  {
    Positive(g, k);
    OtherFactor(k, f, g);
    if k % f == 0 { CountUnaffected(k / f, f, g); }
  }

  lemma {:induction false} SmoothFactors(n: nat)
    requires n > 0 && Smooth(n)
    ensures n == Power(2, FactorCount(n, 2)) * Power(5, FactorCount(n, 5))
    decreases n
  {
    if n > 1 {
      var f := if n % 2 == 0 && Smooth(n / 2) then 2 else 5;
      var k := n / f;
      assert n == f * k && k < n;
      SmoothFactors(k);
      CountUnaffected(k, 7 - f, f);
      var a, b := Power(2, FactorCount(k, 2)), Power(5, FactorCount(k, 5));
      if f == 2 { Associate(2, a, b); } else { Associate(5, a, b); Associate(a, 5, b); }
    }
  }

  function Precision(den: nat): nat
    requires den > 0
  {
    var a, b := FactorCount(den, 2), FactorCount(den, 5);
    if a < b then b else a
  }

  /** With that many digits nothing is cut off: the denominator divides the power of ten. */
  lemma PrecisionSuffices(den: nat) returns (q: nat)
    requires den > 0 && Smooth(den)
    ensures Power(10, Precision(den)) == den * q
  {
    var a, b, n := FactorCount(den, 2), FactorCount(den, 5), Precision(den);
    SmoothFactors(den);
    PowerProduct(2, 5, n);
    PowerAdd(2, a, n - a);
    PowerAdd(5, b, n - b);
    q := Power(2, n - a) * Power(5, n - b);
    Exchange(Power(2, a), Power(2, n - a), Power(5, b), Power(5, n - b));
  }

  /** The value is `m` shifted `k` digits to the right. */
  predicate IsDecimal(r: Rat, m: int, k: nat)
  {
    r.num * Power(10, k) == m * r.den
  }

  /** A value in lowest terms is a finite decimal exactly when its denominator is a product of
      twos and fives. */
  lemma FiniteDecimalIffSmooth(r: Rat)
    requires Reduced(r)
    ensures Smooth(r.den) <==> exists m: int, k: nat :: IsDecimal(r, m, k)
  {
    if Smooth(r.den) {
      var q := PrecisionSuffices(r.den);
      Associate(r.num, r.den, q);
      Associate(r.num, q, r.den);
      assert IsDecimal(r, r.num * q, Precision(r.den));
    }
    if m: int, k: nat :| IsDecimal(r, m, k) {
      PowerPositive(10, k);
      AbsProduct(r.num, Power(10, k));
      AbsProduct(m, r.den);
      var q := CoprimeDivides(Abs(r.num), r.den, Power(10, k), Abs(m));
      Spread(r.den, q);
      TenIsSmooth(k);
      SmoothDivisor(r.den, q, Power(10, k));
    }
  }
}
