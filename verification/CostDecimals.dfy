/** Printing a cost as a decimal and reading it back. */
module CostDecimals {
  import opened Arithmetic
  import opened DecimalDenominators
  import opened Options
  import opened Rationals

  // ---- digit strings ----

  predicate IsDigit(c: char)
  {
    '0' <= c <= '9'
  }

  function DigitChar(d: nat): (c: char)
    requires d < 10
    ensures IsDigit(c) && DigitValue(c) == d
  {
    "0123456789"[d]
  }

  function DigitValue(c: char): nat
    requires IsDigit(c)
  {
    (c - '0') as int
  }

  predicate AllDigits(s: string)
  {
    forall i | 0 <= i < |s| :: IsDigit(s[i])
  }

  function Number(s: string): nat
    requires AllDigits(s)
  {
    if s == "" then 0 else 10 * Number(s[..|s| - 1]) + DigitValue(s[|s| - 1])
  }

  function Digits(n: nat): (s: string)
    ensures AllDigits(s) && s != ""
  {
    if n < 10 then [DigitChar(n)] else Digits(n / 10) + [DigitChar(n % 10)]
  }

  /** The last `width` digits, with leading zeros. */
  function Pad(n: nat, width: nat): (s: string)
    ensures AllDigits(s) && |s| == width
  {
    if width == 0 then "" else Pad(n / 10, width - 1) + [DigitChar(n % 10)]
  }

  lemma NumberAppend(s: string, c: char)
    requires AllDigits(s) && IsDigit(c)
    ensures AllDigits(s + [c]) && Number(s + [c]) == 10 * Number(s) + DigitValue(c)
  {
    assert (s + [c])[..|s|] == s;
  }

  lemma {:induction false} NumberOfDigits(n: nat)
    ensures Number(Digits(n)) == n
  {
    if n < 10 {
      assert Digits(n) == "" + [DigitChar(n)];
      NumberAppend("", DigitChar(n));
    } else {
      NumberOfDigits(n / 10);
      NumberAppend(Digits(n / 10), DigitChar(n % 10));
    }
  }

  lemma {:induction false} NumberOfPad(n: nat, width: nat)
    requires n < Power(10, width)
    ensures Number(Pad(n, width)) == n
  {
    if width > 0 {
      NumberOfPad(n / 10, width - 1);
      NumberAppend(Pad(n / 10, width - 1), DigitChar(n % 10));
    }
  }

  lemma {:induction false} NumberConcat(a: string, b: string)
    requires AllDigits(a) && AllDigits(b)
    ensures AllDigits(a + b) && Number(a + b) == Number(a) * Power(10, |b|) + Number(b)
    decreases |b|
  {
    if b == "" {
      assert a + b == a;
    } else {
      var front, last := b[..|b| - 1], b[|b| - 1];
      NumberConcat(a, front);
      assert a + b == (a + front) + [last];
      NumberAppend(a + front, last);
      assert 10 * (Number(a) * Power(10, |front|)) == Number(a) * Power(10, |b|) by {
        Associate(10, Number(a), Power(10, |front|));
        Associate(Number(a), 10, Power(10, |front|));
      }
    }
  }

  // ---- reading ----

  function IndexDot(s: string): (i: nat)
    ensures i <= |s| && (i < |s| ==> s[i] == '.') && forall j | 0 <= j < i :: s[j] != '.'
  {
    if s == "" || s[0] == '.' then 0 else 1 + IndexDot(s[1..])
  }

  /** Decimal notation: an optional sign, digits, an optional point and more digits. */
  function Parse(s: string): Option<Rat>
  {
    var negative := s != "" && s[0] == '-';
    var body := if s != "" && (s[0] == '-' || s[0] == '+') then s[1..] else s;
    var dot := IndexDot(body);
    var whole := body[..dot];
    var fraction := if dot < |body| then body[dot + 1..] else "";
    if AllDigits(whole) && AllDigits(fraction) && |whole| + |fraction| > 0
    then Some(Decimal(negative, whole, fraction))
    else None
  }

  /** The value a sign, whole digits and fraction digits stand for. */
  function Decimal(negative: bool, whole: string, fraction: string): Rat
    requires AllDigits(whole) && AllDigits(fraction)
  {
    NumberConcat(whole, fraction);
    PowerPositive(10, |fraction|);
    Reduce(Signed(negative, Number(whole + fraction)), Power(10, |fraction|))
  }

  function Sign(negative: bool): string
  {
    if negative then "-" else ""
  }

  lemma {:induction false} DotAt(s: string, i: nat)
    requires i <= |s| && (i < |s| ==> s[i] == '.') && forall j | 0 <= j < i :: s[j] != '.'
    ensures IndexDot(s) == i
  {
    if i > 0 { DotAt(s[1..], i - 1); }
  }

  lemma ParseJoined(negative: bool, whole: string, fraction: string)
    requires AllDigits(whole) && AllDigits(fraction) && whole != ""
    ensures Parse(Sign(negative) + whole + "." + fraction) == Some(Decimal(negative, whole, fraction))
  {
    var s, body := Sign(negative) + whole + "." + fraction, whole + "." + fraction;
    assert (if negative then s[1..] else s) == body;
    assert s[0] == if negative then '-' else whole[0];
    DotAt(body, |whole|);
    assert body[..|whole|] == whole && body[|whole| + 1..] == fraction;
  }

  lemma ParseWhole(negative: bool, whole: string)
    requires AllDigits(whole) && whole != ""
    ensures Parse(Sign(negative) + whole) == Some(Decimal(negative, whole, ""))
  {
    var s := Sign(negative) + whole;
    assert (if negative then s[1..] else s) == whole;
    assert s[0] == if negative then '-' else whole[0];
    DotAt(whole, |whole|);
    assert whole[..|whole|] == whole;
  }

  // ---- printing ----

  /** A quotient rounded to the nearest whole number, halves up. */
  function Rounded(a: nat, b: nat): nat
    requires b > 0
  {
    if 2 * (a % b) >= b then a / b + 1 else a / b
  }

  function Text(negative: bool, whole: nat, fraction: nat, precision: nat): string
  {
    Sign(negative) + Digits(whole) + (if precision > 0 then "." + Pad(fraction, precision) else "")
  }

  /** The whole part of a value without its sign. */
  function Whole(r: Rat): nat
    requires r.den > 0
  {
    QuotientIsNat(Abs(r.num), r.den);
    Abs(r.num) / r.den
  }

  /** What is left of the numerator. */
  function Rest(r: Rat): nat
    requires r.den > 0
  {
    Abs(r.num) % r.den
  }

  /** Fixed-point text with `precision` digits, rounding halves away from zero. */
  function FloatString(r: Rat, precision: nat): string
    requires r.den > 0
  {
    var scale := Power(10, precision);
    var digits := Rounded(Rest(r) * scale, r.den);
    if digits >= scale then Text(r.num < 0, Whole(r) + 1, digits - scale, precision)
    else Text(r.num < 0, Whole(r), digits, precision)
  }

  function TrimZeros(s: string): string
  {
    if s != "" && s[|s| - 1] == '0' then TrimZeros(s[..|s| - 1]) else s
  }

  function Trimmed(s: string): string
  {
    var t := TrimZeros(s);
    if '.' !in s then s else if t != "" && t[|t| - 1] == '.' then t[..|t| - 1] else t
  }

  /** The shortest exact decimal; None when there is none. */
  function Print(r: Rat): Option<string>
    requires r.den > 0
  {
    if Smooth(r.den) then Some(Trimmed(FloatString(r, Precision(r.den)))) else None
  }

  method TrimText(s: string) returns (t: string)
    ensures t == Trimmed(s)
  {
    if '.' !in s {
      return s;
    }
    var end := |s|;
    assert s[..end] == s;
    while end > 0 && s[end - 1] == '0'
      invariant 0 <= end <= |s| && TrimZeros(s[..end]) == TrimZeros(s)
    {
      assert s[..end][..end - 1] == s[..end - 1];
      end := end - 1;
    }
    t := s[..end];
    if end > 0 && s[end - 1] == '.' {
      t := t[..end - 1];
    }
  }

  method ModelCostRatString(r: Rat) returns (text: Option<string>)
    requires r.den > 0
    ensures text == Print(r)
  {
    var odd := StripFactor(r.den, 2);
    var rest := StripFactor(odd, 5);
    SmoothWhenStripped(r.den);
    if rest != 1 {
      return None;
    }
    var twos := ModelCostFactorCount(r.den, 2);
    var fives := ModelCostFactorCount(r.den, 5);
    var precision := if twos < fives then fives else twos;
    assert precision == Precision(r.den);
    var trimmed := TrimText(FloatString(r, precision));
    text := Some(trimmed);
  }

  // ---- printing loses nothing ----

  /** The digits are exact when the denominator divides the scale. */
  lemma ExactDigits(a: nat, b: nat, scale: nat, q: nat)
    requires b > 0 && scale == b * q && scale > 0
    ensures Rounded((a % b) * scale, b) == (a % b) * q < scale
    ensures (a / b) * scale + (a % b) * q == a * q
  {
    ExactRest(a % b, b, scale, q);
    SplitProduct(a / b, b, a % b, scale, q);
  }

  lemma ExactRest(rem: nat, b: nat, scale: nat, q: nat)
    requires rem < b && scale == b * q && scale > 0
    ensures rem * scale >= 0 && Rounded(rem * scale, b) == rem * q < scale
  {
    Associate(rem, b, q);
    Associate(b, rem, q);
    ExactQuotient(rem * scale, b, rem * q);
    assert q > 0 by { Spread(b, q); }
    assert rem * q < b * q by { Spread(q, b - rem); assert q * (b - rem) == b * q - rem * q; }
  }

  lemma SplitProduct(whole: int, b: int, rem: int, scale: int, q: int)
    requires scale == b * q
    ensures whole * scale + rem * q == (whole * b + rem) * q
  {
    Associate(whole, b, q);
  }

  lemma ReduceScaled(num: int, den: int, k: int)
    requires den > 0 && k > 0
    ensures den * k > 0 && Reduce(num * k, den * k) == Reduce(num, den)
  {
    Positive(den, k);
    ReduceKeepsValue(num * k, den * k);
    ReduceKeepsValue(num, den);
    ValueOf(num, den, k);
    ReducedIsUnique(Reduce(num * k, den * k), Reduce(num, den));
  }

  lemma ReduceReduced(r: Rat)
    requires Reduced(r)
    ensures Reduce(r.num, r.den) == r
  {
    ReduceKeepsValue(r.num, r.den);
    ReducedIsUnique(Reduce(r.num, r.den), r);
  }

  /** With enough digits the text is the exact digits. */
  lemma FloatStringIsExact(r: Rat, n: nat, q: nat)
    requires r.den > 0 && Power(10, n) == r.den * q
    ensures Rest(r) * q < Power(10, n)
    ensures Whole(r) * Power(10, n) + Rest(r) * q == Abs(r.num) * q
    ensures FloatString(r, n) == Text(r.num < 0, Whole(r), Rest(r) * q, n)
  {
    PowerPositive(10, n);
    ExactDigits(Abs(r.num), r.den, Power(10, n), q);
  }

  lemma DecimalOfText(negative: bool, whole: nat, fraction: nat, n: nat)
    requires fraction < Power(10, n)
    ensures Power(10, n) > 0
    ensures Decimal(negative, Digits(whole), Pad(fraction, n))
            == Reduce(Signed(negative, whole * Power(10, n) + fraction), Power(10, n))
  {
    PowerPositive(10, n);
    NumberOfDigits(whole);
    NumberOfPad(fraction, n);
    NumberConcat(Digits(whole), Pad(fraction, n));
  }

  lemma SignedAbs(n: int, q: int)
    requires q > 0
    ensures Abs(n) * q >= 0 && Signed(n < 0, Abs(n) * q) == n * q
  {
    if n > 0 { Positive(n, q); }
    if n < 0 { Positive(-n, q); }
  }

  /** The digits printed for a value stand for it. */
  lemma PrintedDigits(r: Rat, n: nat, q: nat)
    requires Reduced(r) && Power(10, n) == r.den * q
    ensures Decimal(r.num < 0, Digits(Whole(r)), Pad(Rest(r) * q, n)) == r
  {
    var whole, fraction := Whole(r), Rest(r) * q;
    assert fraction < Power(10, n) && whole * Power(10, n) + fraction == Abs(r.num) * q by {
      FloatStringIsExact(r, n, q);
    }
    assert q > 0 by { PowerPositive(10, n); Spread(r.den, q); }
    ScaledBack(r, q, Abs(r.num) * q, Power(10, n));
    PrintedIs(r.num < 0, whole, fraction, n, Abs(r.num) * q, r);
  }

  lemma PrintedIs(negative: bool, whole: nat, fraction: nat, n: nat, total: nat, r: Rat)
    requires fraction < Power(10, n) && whole * Power(10, n) + fraction == total
    requires Reduce(Signed(negative, total), Power(10, n)) == r
    ensures Decimal(negative, Digits(whole), Pad(fraction, n)) == r
  {
    DecimalOfText(negative, whole, fraction, n);
  }

  lemma ScaledBack(r: Rat, q: nat, total: nat, den: nat)
    requires Reduced(r) && q > 0 && total == Abs(r.num) * q && den == r.den * q && den > 0
    ensures Reduce(Signed(r.num < 0, total), den) == r
  {
    SignedAbs(r.num, q);
    ReduceScaled(r.num, r.den, q);
    ReduceReduced(r);
  }

  /** A trailing zero of the fraction does not matter. */
  lemma TrailingZero(negative: bool, whole: string, fraction: string)
    requires AllDigits(whole) && AllDigits(fraction)
    ensures AllDigits(fraction + "0") && Decimal(negative, whole, fraction + "0") == Decimal(negative, whole, fraction)
  {
    NumberConcat(whole, fraction);
    NumberAppend(whole + fraction, '0');
    assert whole + (fraction + "0") == whole + fraction + ['0'];
    PowerPositive(10, |fraction|);
    ReduceScaled(Signed(negative, Number(whole + fraction)), Power(10, |fraction|), 10);
  }

  lemma TrimZero(s: string)
    requires '.' in s
    ensures Trimmed(s + "0") == Trimmed(s)
  {
    assert (s + "0")[..|s|] == s;
    var i :| 0 <= i < |s| && s[i] == '.';
    assert (s + "0")[i] == '.';
  }

  lemma TrimPoint(s: string)
    ensures Trimmed(s + ".") == s
  {
    assert (s + ".")[|s|] == '.' && (s + ".")[..|s|] == s;
  }

  lemma TrimDigit(s: string, c: char)
    requires c != '0' && c != '.'
    ensures Trimmed(s + [c]) == s + [c]
  {
    assert TrimZeros(s + [c]) == s + [c];
  }

  /** Trimming the printed text does not change what it stands for. */
  lemma {:induction false} TrimKeepsValue(negative: bool, whole: string, fraction: string)
    requires AllDigits(whole) && AllDigits(fraction) && whole != ""
    ensures Parse(Trimmed(Sign(negative) + whole + "." + fraction)) == Some(Decimal(negative, whole, fraction))
    decreases |fraction|
  {
    var head := Sign(negative) + whole;
    if fraction == "" {
      assert head + "." + "" == head + ".";
      TrimPoint(head);
      ParseWhole(negative, whole);
    } else {
      var front, last := fraction[..|fraction| - 1], fraction[|fraction| - 1];
      assert fraction == front + [last];
      assert head + "." + fraction == (head + "." + front) + [last];
      if last == '0' {
        assert (head + "." + front)[|head|] == '.';
        TrimZero(head + "." + front);
        TrimKeepsValue(negative, whole, front);
        TrailingZero(negative, whole, front);
      } else {
        TrimDigit(head + "." + front, last);
        ParseJoined(negative, whole, fraction);
      }
    }
  }

  lemma NoPoint(negative: bool, whole: string)
    requires AllDigits(whole)
    ensures '.' !in Sign(negative) + whole
  {
  }

  lemma ParseTrimmedText(negative: bool, whole: nat, fraction: nat, n: nat)
    ensures Parse(Trimmed(Text(negative, whole, fraction, n)))
            == Some(Decimal(negative, Digits(whole), Pad(fraction, n)))
  {
    var head := Sign(negative) + Digits(whole);
    if n > 0 {
      assert head + ("." + Pad(fraction, n)) == head + "." + Pad(fraction, n);
      TrimKeepsValue(negative, Digits(whole), Pad(fraction, n));
    } else {
      assert head + "" == head;
      NoPoint(negative, Digits(whole));
      ParseWhole(negative, Digits(whole));
    }
  }

  lemma ReadBack(s: string, r: Rat, whole: nat, fraction: nat, n: nat)
    requires s == Text(r.num < 0, whole, fraction, n) && Decimal(r.num < 0, Digits(whole), Pad(fraction, n)) == r
    ensures Parse(Trimmed(s)) == Some(r)
  {
    ParseTrimmedText(r.num < 0, whole, fraction, n);
  }

  lemma FloatParts(r: Rat, n: nat, q: nat) returns (whole: nat, fraction: nat)
    requires Reduced(r) && Power(10, n) == r.den * q
    ensures FloatString(r, n) == Text(r.num < 0, whole, fraction, n)
    ensures Decimal(r.num < 0, Digits(whole), Pad(fraction, n)) == r
  {
    whole, fraction := Whole(r), Rest(r) * q;
    assert FloatString(r, n) == Text(r.num < 0, whole, fraction, n) by { FloatStringIsExact(r, n, q); }
    assert Decimal(r.num < 0, Digits(whole), Pad(fraction, n)) == r by { PrintedDigits(r, n, q); }
  }

  lemma ParsedBack(r: Rat, n: nat, q: nat)
    requires Reduced(r) && Power(10, n) == r.den * q
    ensures Parse(Trimmed(FloatString(r, n))) == Some(r)
  {
    var whole, fraction := FloatParts(r, n, q);
    ReadBack(FloatString(r, n), r, whole, fraction, n);
  }

  /** Every value in lowest terms whose denominator is made of twos and fives is printed, and
      reading the text gives it back. */
  lemma PrintParseRoundTrip(r: Rat)
    requires Reduced(r) && Smooth(r.den)
    ensures Print(r).Some? && Parse(Print(r).value) == Some(r)
  {
    var n := Precision(r.den);
    var q := PrecisionSuffices(r.den);
    ParsedBack(r, n, q);
  }

  /** Printing fails exactly for values that are no finite decimal. */
  lemma PrintFailsOnlyOffDecimals(r: Rat)
    requires Reduced(r)
    ensures Print(r).None? <==> !exists m: int, k: nat :: IsDecimal(r, m, k)
  {
    FiniteDecimalIffSmooth(r);
  }

  // ---- amounts stay printable ----

  /** What is read is in lowest terms over twos and fives. */
  lemma ParsedIsPrintable(s: string)
    requires Parse(s).Some?
    ensures Reduced(Parse(s).value) && Smooth(Parse(s).value.den)
  {
    var body := if s != "" && (s[0] == '-' || s[0] == '+') then s[1..] else s;
    var dot := IndexDot(body);
    var fraction := if dot < |body| then body[dot + 1..] else "";
    NumberConcat(body[..dot], fraction);
    PowerPositive(10, |fraction|);
    TenIsSmooth(|fraction|);
    ReduceIsSmooth(Signed(s != "" && s[0] == '-', Number(body[..dot] + fraction)), Power(10, |fraction|));
  }

  lemma ReduceIsSmooth(num: int, den: int)
    requires den > 0 && Smooth(den)
    ensures Reduced(Reduce(num, den)) && Smooth(Reduce(num, den).den)
  {
    var g := ReduceParts(num, den);
    SmoothDivisor(Reduce(num, den).den, g, den);
  }

  lemma SumIsPrintable(a: Rat, b: Rat)
    requires a.den > 0 && b.den > 0 && Smooth(a.den) && Smooth(b.den)
    ensures Reduced(Add(a, b)) && Smooth(Add(a, b).den)
  {
    Positive(a.den, b.den);
    SmoothProduct(a.den, b.den);
    ReduceIsSmooth(a.num * b.den + b.num * a.den, a.den * b.den);
  }

  lemma ProductIsPrintable(n: int, r: Rat)
    requires r.den > 0 && Smooth(r.den)
    ensures Reduced(Scale(n, r)) && Smooth(Scale(n, r).den)
  {
    ReduceIsSmooth(n * r.num, r.den);
  }
}
