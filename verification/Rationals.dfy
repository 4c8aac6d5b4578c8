/** Exact rationals in lowest terms, as the cost code computes with. */
module Rationals {
  import opened Arithmetic

  datatype Rat = Rat(num: int, den: int)

  function Abs(n: int): nat
  {
    if n < 0 then -n else n
  }

  function Gcd(a: nat, b: nat): nat
    decreases b
  {
    if b == 0 then a else Gcd(b, a % b)
  }

  lemma CombineStep(a: int, b: int, m: int, k: int, x: int, y: int)
    requires a == k * b + m
    ensures y * a + (x - k * y) * b == x * b + y * m
  {
    assert (x - k * y) * b == x * b - (k * y) * b;
    assert y * (k * b + m) == y * (k * b) + y * m;
    Associate(y, k, b);
    Associate(k, y, b);
  }

  lemma FactorStep(g: int, k: int, p: int, q: int)
    ensures k * (g * p) + g * q == g * (k * p + q)
  {
    Associate(k, g, p);
    Associate(g, k, p);
  }

  /** The greatest common divisor divides both and is a combination of both. */
  lemma {:induction false} GcdCombines(a: nat, b: nat) returns (x: int, y: int, p: int, q: int)
    ensures x * a + y * b == Gcd(a, b)
    ensures a == Gcd(a, b) * p && b == Gcd(a, b) * q
    decreases b
  {
    if b == 0 {
      x, y, p, q := 1, 0, 1, 0;
    } else {
      var k, m := a / b, a % b;
      var x', y', p', q' := GcdCombines(b, m);
      assert a == k * b + m;
      CombineStep(a, b, m, k, x', y');
      FactorStep(Gcd(b, m), k, p', q');
      x, y, p, q := y', x' - k * y', k * p' + q', p';
    }
  }

  predicate Reduced(r: Rat)
  {
    r.den > 0 && Gcd(Abs(r.num), r.den) == 1
  }

  function Value(r: Rat): real
    requires r.den != 0
  {
    r.num as real / r.den as real
  }

  lemma {:induction false} GcdPositive(a: nat, b: nat)
    requires a > 0 || b > 0
    ensures Gcd(a, b) > 0
    decreases b
  {
    if b > 0 { GcdPositive(b, a % b); }
  }

  function Signed(negative: bool, n: nat): int
  {
    if negative then 0 - n as int else n as int
  }

  /** Lowest terms of a fraction. */
  function Reduce(num: int, den: int): Rat
    requires den > 0
  {
    GcdPositive(Abs(num), den);
    var g := Gcd(Abs(num), den);
    QuotientIsNat(Abs(num), g);
    Rat(Signed(num < 0, Abs(num) / g), den / g)
  }

  lemma CommonFactor(g: int, h: int, x: int, y: int, s: int, t: int)
    ensures x * (g * (h * s)) + y * (g * (h * t)) == g * (h * (x * s + y * t))
  {
    var k, l := x * s, y * t;
    assert x * (g * (h * s)) == g * (h * k) by { Move(x, g, h, s); }
    assert y * (g * (h * t)) == g * (h * l) by { Move(y, g, h, t); }
    assert h * (k + l) == h * k + h * l;
    assert g * (h * k + h * l) == g * (h * k) + g * (h * l);
  }

  lemma Move(x: int, g: int, h: int, s: int)
    ensures x * (g * (h * s)) == g * (h * (x * s))
  {
    Associate(x, g, h * s);
    Associate(g, x, h * s);
    Associate(x, h, s);
    Associate(h, x, s);
  }

  /** Dividing out the greatest common divisor leaves no common divisor. */
  lemma CoprimeQuotients(p: nat, q: nat, g: int, x: int, y: int)
    requires g > 0 && q > 0 && x * (g * p) + y * (g * q) == g
    ensures Gcd(p, q) == 1
  {
    GcdPositive(p, q);
    var _, _, s, t := GcdCombines(p, q);
    var h, k := Gcd(p, q), x * s + y * t;
    CommonFactor(g, h, x, y, s, t);
    SameProduct(g, h * k, 1);
    UnitFactor(h, k);
  }

  lemma SignedProduct(g: int, p: nat, negative: bool)
    ensures Signed(negative, p) * g == (if negative then -(g * p) else g * p)
  {
  }

  /** Reducing divides both parts by one number, and leaves nothing to divide. */
  lemma ReduceParts(num: int, den: int) returns (g: int)
    requires den > 0
    ensures g > 0 && num == Reduce(num, den).num * g && den == Reduce(num, den).den * g
    ensures Reduced(Reduce(num, den))
  {
    g := Gcd(Abs(num), den);
    GcdPositive(Abs(num), den);
    var x, y, p, q := GcdCombines(Abs(num), den);
    ExactQuotient(Abs(num), g, p);
    ExactQuotient(den, g, q);
    Spread(g, p);
    Spread(g, q);
    SignedProduct(g, p, num < 0);
    CoprimeQuotients(p, q, g, x, y);
  }

  // ---- values ----

  lemma ValueOf(num: int, den: int, g: int)
    requires den > 0 && g > 0 && den * g > 0
    ensures Value(Rat(num * g, den * g)) == Value(Rat(num, den))
  {
    var n, d, h := num as real, den as real, g as real;
    assert (num * g) as real == n * h && (den * g) as real == d * h;
    RealQuotient(n, d, h);
  }

  lemma RealQuotient(n: real, d: real, h: real)
    requires d > 0.0 && h > 0.0
    ensures d * h > 0.0 && (n * h) / (d * h) == n / d
  {
    var v := n / d;
    assert v * d == n;
    assert v * (d * h) == n * h by { assert v * (d * h) == (v * d) * h; }
  }

  lemma ReduceKeepsValue(num: int, den: int)
    requires den > 0
    ensures Reduced(Reduce(num, den)) && Value(Reduce(num, den)) == Value(Rat(num, den))
  {
    var g := ReduceParts(num, den);
    var r := Reduce(num, den);
    ValueOf(r.num, r.den, g);
  }

  function Add(a: Rat, b: Rat): Rat
    requires a.den > 0 && b.den > 0
  {
    Positive(a.den, b.den);
    Reduce(a.num * b.den + b.num * a.den, a.den * b.den)
  }

  /** A whole number times a rational. */
  function Scale(n: int, r: Rat): Rat
    requires r.den > 0
  {
    Reduce(n * r.num, r.den)
  }

  lemma RealSum(a: real, b: real, c: real, d: real)
    requires b > 0.0 && d > 0.0
    ensures b * d > 0.0 && (a * d + c * b) / (b * d) == a / b + c / d
  {
    var v, w := a / b, c / d;
    assert v * b == a && w * d == c;
    assert (v + w) * (b * d) == (v * b) * d + (w * d) * b;
  }

  lemma AddIsSum(a: Rat, b: Rat)
    requires a.den > 0 && b.den > 0
    ensures Reduced(Add(a, b)) && Value(Add(a, b)) == Value(a) + Value(b)
  {
    Positive(a.den, b.den);
    ReduceKeepsValue(a.num * b.den + b.num * a.den, a.den * b.den);
    RealSum(a.num as real, a.den as real, b.num as real, b.den as real);
  }

  lemma RealScale(n: real, a: real, b: real)
    requires b > 0.0
    ensures (n * a) / b == n * (a / b)
  {
    var v := a / b;
    assert v * b == a;
    assert (n * v) * b == n * a;
  }

  ghost function Product(n: int, x: real): real
  {
    n as real * x
  }

  lemma ScaleIsProduct(n: int, r: Rat)
    requires r.den > 0
    ensures Reduced(Scale(n, r)) && Value(Scale(n, r)) == Product(n, Value(r))
  {
    ReduceKeepsValue(n * r.num, r.den);
    RealScale(n as real, r.num as real, r.den as real);
  }

  // ---- lowest terms are unique ----

  /** What a number coprime to `a` divides in `a * d`, it divides in `d`. */
  lemma CoprimeDivides(a: nat, b: nat, d: int, c: int) returns (q: int)
    requires Gcd(a, b) == 1 && a * d == c * b
    ensures d == b * q
  {
    var x, y, _, _ := GcdCombines(a, b);
    q := x * c + y * d;
    Cofactor(a, b, c, d, x, y);
  }

  lemma Cofactor(a: int, b: int, c: int, d: int, x: int, y: int)
    requires x * a + y * b == 1 && a * d == c * b
    ensures d == b * (x * c + y * d)
  {
    assert d * (x * a + y * b) == x * (a * d) + b * (y * d) by {
      assert d * (x * a) == x * (a * d) by { Associate(d, x, a); Associate(x, d, a); }
      assert d * (y * b) == b * (y * d) by { Associate(d, y, b); }
    }
    assert x * (c * b) == b * (x * c) by { Associate(x, c, b); }
    assert b * (x * c) + b * (y * d) == b * (x * c + y * d);
  }

  lemma CrossProducts(a: Rat, b: Rat)
    requires a.den > 0 && b.den > 0 && Value(a) == Value(b)
    ensures a.num * b.den == b.num * a.den
  {
    var v := Value(a);
    assert v * a.den as real == a.num as real && v * b.den as real == b.num as real;
    assert (v * a.den as real) * b.den as real == (v * b.den as real) * a.den as real;
  }

  lemma AbsProduct(a: int, d: int)
    requires d > 0
    ensures Abs(a * d) == Abs(a) * d
  {
    if a >= 0 {
      if a > 0 { Positive(a, d); }
    } else {
      Positive(-a, d);
    }
  }

  /** Two rationals in lowest terms with one value are the same. */
  lemma ReducedIsUnique(a: Rat, b: Rat)
    requires Reduced(a) && Reduced(b) && Value(a) == Value(b)
    ensures a == b
  {
    CrossProducts(a, b);
    AbsProduct(a.num, b.den);
    AbsProduct(b.num, a.den);
    var s := CoprimeDivides(Abs(a.num), a.den, b.den, Abs(b.num));
    var t := CoprimeDivides(Abs(b.num), b.den, a.den, Abs(a.num));
    Associate(b.den, t, s);
    SameProduct(b.den, t * s, 1);
    Spread(b.den, t);
    UnitFactor(t, s);
    assert b.den == a.den;
    SameProduct(a.den, a.num, b.num);
  }
}
