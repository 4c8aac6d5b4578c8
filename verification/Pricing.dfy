/** What a model round costs, in exact decimals. */
module Pricing {
  import opened Arithmetic
  import opened CostDecimals
  import opened DecimalDenominators
  import opened Options
  import opened Rationals

  /** A rate per token as read from its decimal text; None when the text is no number. */
  type Rate = Option<Rat>

  datatype ModelPricing = ModelPricing(
    input: Rate, output: Rate, cacheRead: Rate, cacheWrite: Rate, longTtl: Rate,
    longInput: Rate, longOutput: Rate, threshold: int)

  datatype Usage = Usage(prompt: int, completion: int, cacheRead: int, cacheWrite: int, cacheWriteLongTtl: int)

  datatype Rates = Rates(input: Rate, output: Rate, cacheRead: Rate, cacheWrite: Rate, longTtl: Rate)

  datatype AmountResult = Amount(text: string) | BadNumber | NotDecimal

  /** A rational in lowest terms over twos and fives: one that prints exactly. */
  predicate Printable(r: Rat)
  {
    Reduced(r) && Smooth(r.den)
  }

  predicate ValidRate(rate: Rate)
  {
    rate.Some? ==> Printable(rate.value)
  }

  /** Every rate is one a decimal text can stand for. */
  predicate ValidPricing(p: ModelPricing)
  {
    && ValidRate(p.input) && ValidRate(p.output) && ValidRate(p.cacheRead) && ValidRate(p.cacheWrite)
    && ValidRate(p.longTtl)
    && ValidRate(p.longInput) && ValidRate(p.longOutput)
  }

  /** Whatever text a rate is read from, it is such a rate. */
  lemma ReadRateIsValid(text: string)
    ensures ValidRate(Parse(text))
  {
    if Parse(text).Some? { ParsedIsPrintable(text); }
  }

  /** So whatever texts a price table is configured with, its rates are such rates. */
  lemma ReadPricingIsValid(input: string, output: string, cacheRead: string, cacheWrite: string, longTtl: string,
                           longInput: string, longOutput: string, threshold: int)
    ensures ValidPricing(ModelPricing(Parse(input), Parse(output), Parse(cacheRead), Parse(cacheWrite), Parse(longTtl),
                                      Parse(longInput), Parse(longOutput), threshold))
  {
    ReadRateIsValid(input);
    ReadRateIsValid(output);
    ReadRateIsValid(cacheRead);
    ReadRateIsValid(cacheWrite);
    ReadRateIsValid(longTtl);
    ReadRateIsValid(longInput);
    ReadRateIsValid(longOutput);
  }

  predicate IsZero(rate: Rate)
  {
    rate == Some(Rat(0, 1))
  }

  predicate Known(p: ModelPricing)
  {
    !IsZero(p.input) || !IsZero(p.output) || !IsZero(p.cacheRead) || !IsZero(p.cacheWrite) || !IsZero(p.longTtl)
    || !IsZero(p.longInput) || !IsZero(p.longOutput)
  }

  function Or(rate: Rate, fallback: Rate): Rate
  {
    if IsZero(rate) then fallback else rate
  }

  /** Whether a round is in the long-context tier. */
  predicate InTier(p: ModelPricing, u: Usage)
  {
    p.threshold > 0 && u.prompt > p.threshold
  }

  /** The rates in or below that tier, with fallbacks for rates that are zero. */
  function RatesIn(p: ModelPricing, tier: bool): Rates
  {
    var input := if tier then Or(p.longInput, p.input) else p.input;
    var output := if tier then Or(p.longOutput, p.output) else p.output;
    var cacheWrite := Or(p.cacheWrite, input);
    Rates(input, output, Or(p.cacheRead, input), cacheWrite, Or(p.longTtl, cacheWrite))
  }

  /** The rates one round pays. */
  function UsageRates(p: ModelPricing, u: Usage): Rates
  {
    RatesIn(p, InTier(p, u))
  }

  // ---- the four input classes ----

  function LongTtlWrite(u: Usage): int { Min(u.cacheWriteLongTtl, u.cacheWrite) }
  function ShortTtlWrite(u: Usage): int { u.cacheWrite - LongTtlWrite(u) }
  function Uncached(u: Usage): int { Max(u.prompt - u.cacheRead - u.cacheWrite, 0) }

  /** The priced input classes add up to the prompt exactly when the cache counts fit in it. */
  lemma InputClassesPartitionPrompt(u: Usage)
    ensures Uncached(u) + u.cacheRead + ShortTtlWrite(u) + LongTtlWrite(u) == u.prompt
            <==> u.cacheRead + u.cacheWrite <= u.prompt
  {
  }

  /** What a rational is worth. */
  ghost function Worth(r: Rat): real
  {
    if r.den > 0 then Value(r) else 0.0
  }

  ghost function RateWorth(rate: Rate): real
  {
    match rate case None => 0.0 case Some(r) => Worth(r)
  }

  /** The number a decimal text stands for; zero when it is none. */
  ghost function TextWorth(text: string): real
  {
    RateWorth(Parse(text))
  }

  /** So many tokens at such a rate. */
  ghost function Price(tokens: int, rate: Rate): real
  {
    Product(tokens, RateWorth(rate))
  }

  /** What a round costs, given what tokens cost: its five classes together. */
  ghost function RoundBill(price: (int, Rate) -> real, u: Usage, r: Rates): real
  {
    price(Uncached(u), r.input) + price(u.cacheRead, r.cacheRead) + price(ShortTtlWrite(u), r.cacheWrite)
    + price(LongTtlWrite(u), r.longTtl) + price(u.completion, r.output)
  }

  ghost function RoundCost(p: ModelPricing, u: Usage): real
  {
    RoundBill(Price, u, UsageRates(p, u))
  }

  // ---- the same, over the price table's own fields ----

  /** The first rate offered that is not zero; the last one when all before it are. */
  function FirstRate(offers: seq<Rate>): Rate
    requires offers != []
  {
    if |offers| == 1 || !IsZero(offers[0]) then offers[0] else FirstRate(offers[1..])
  }

  lemma {:induction false} FirstRateIsFirst(offers: seq<Rate>) returns (i: nat)
    requires offers != []
    ensures i < |offers| && FirstRate(offers) == offers[i]
    ensures (forall j: nat | j < i :: IsZero(offers[j])) && (IsZero(offers[i]) ==> i == |offers| - 1)
  {
    i := 0;
    if |offers| > 1 && IsZero(offers[0]) {
      var k := FirstRateIsFirst(offers[1..]);
      i := k + 1;
    }
  }

  /** The input rates a table offers a round, the long-context one only above its threshold. */
  function InputOffers(p: ModelPricing, prompt: int): seq<Rate>
  {
    if p.threshold > 0 && prompt > p.threshold then [p.longInput, p.input] else [p.input]
  }

  function OutputOffers(p: ModelPricing, prompt: int): seq<Rate>
  {
    if p.threshold > 0 && prompt > p.threshold then [p.longOutput, p.output] else [p.output]
  }

  /** What each class of a round's tokens is offered: a cache rate comes before the input rates, and
      a long-lived cache write is offered the long-lived rate before the ordinary write rate. */
  function Offers(p: ModelPricing, u: Usage): (offers: seq<seq<Rate>>)
    ensures |offers| == 5 && forall k | 0 <= k < 5 :: offers[k] != []
  {
    var input := InputOffers(p, u.prompt);
    [input, [p.cacheRead] + input, [p.cacheWrite] + input, [p.longTtl, p.cacheWrite] + input, OutputOffers(p, u.prompt)]
  }

  /** How many tokens each class has: the prompt outside the cache, read from it, written to it for
      the ordinary time and for the long one, and the completion. */
  function Classes(u: Usage): (tokens: seq<int>)
    ensures |tokens| == 5
  {
    var long := if u.cacheWriteLongTtl < u.cacheWrite then u.cacheWriteLongTtl else u.cacheWrite;
    var cached := u.cacheRead + u.cacheWrite;
    [if u.prompt > cached then u.prompt - cached else 0, u.cacheRead, u.cacheWrite - long, long, u.completion]
  }

  /** Class `k` at the first rate offered to it. */
  ghost function ClassCost(p: ModelPricing, u: Usage, k: nat): real
    requires k < 5
  {
    Product(Classes(u)[k], RateWorth(FirstRate(Offers(p, u)[k])))
  }

  ghost function ClassesCost(p: ModelPricing, u: Usage): real
  {
    ClassCost(p, u, 0) + ClassCost(p, u, 1) + ClassCost(p, u, 2) + ClassCost(p, u, 3) + ClassCost(p, u, 4)
  }

  lemma FirstOfMore(rate: Rate, offers: seq<Rate>)
    requires offers != []
    ensures FirstRate([rate] + offers) == Or(rate, FirstRate(offers))
  {
    assert ([rate] + offers)[1..] == offers;
  }

  /** The rates a round pays are the first it is offered, for every table and every round. */
  lemma RatesAreFirstOffers(p: ModelPricing, u: Usage)
    ensures var r, offers := UsageRates(p, u), Offers(p, u);
            && r.input == FirstRate(offers[0]) && r.cacheRead == FirstRate(offers[1])
            && r.cacheWrite == FirstRate(offers[2]) && r.longTtl == FirstRate(offers[3])
            && r.output == FirstRate(offers[4])
  {
    var input := InputOffers(p, u.prompt);
    FirstOfMore(p.longInput, [p.input]);
    FirstOfMore(p.longOutput, [p.output]);
    assert [p.longInput] + [p.input] == [p.longInput, p.input];
    assert [p.longOutput] + [p.output] == [p.longOutput, p.output];
    FirstOfMore(p.cacheRead, input);
    FirstOfMore(p.cacheWrite, input);
    FirstOfMore(p.longTtl, [p.cacheWrite] + input);
    assert [p.longTtl] + ([p.cacheWrite] + input) == [p.longTtl, p.cacheWrite] + input;
  }

  /** So a round costs the sum of its classes, each at the first rate the table offers it. */
  lemma RoundCostIsClasses(p: ModelPricing, u: Usage)
    ensures RoundCost(p, u) == ClassesCost(p, u)
  {
    RatesAreFirstOffers(p, u);
  }

  /** With unknown pricing no amount is lost by giving none: every round would cost nothing. */
  lemma UnknownPricingCostsNothing(p: ModelPricing, u: Usage)
    requires !Known(p)
    ensures ClassesCost(p, u) == 0.0
  {
    var offers := Offers(p, u);
    assert forall k, i | 0 <= k < 5 && 0 <= i < |offers[k]| :: IsZero(offers[k][i]);
    forall k: nat | k < 5 ensures ClassCost(p, u, k) == 0.0 {
      FirstOfZeros(offers[k]);
    }
  }

  lemma FirstOfZeros(offers: seq<Rate>)
    requires offers != [] && forall i | 0 <= i < |offers| :: IsZero(offers[i])
    ensures IsZero(FirstRate(offers)) && RateWorth(FirstRate(offers)) == 0.0
  {
    var i := FirstRateIsFirst(offers);
  }

  // ---- adding up ----

  /** A printable rational of value `v`. */
  ghost predicate Exact(r: Rat, v: real)
  {
    Printable(r) && Worth(r) == v
  }

  function CostAdd(total: Rat, tokens: int, rate: Rat): Rat
    requires total.den > 0 && rate.den > 0
  {
    if tokens == 0 then total else
      assert Scale(tokens, rate).den > 0 by { ScaleIsProduct(tokens, rate); }
      Add(total, Scale(tokens, rate))
  }

  lemma SumIsExact(a: Rat, v: real, b: Rat, w: real)
    requires Exact(a, v) && Exact(b, w)
    ensures Exact(Add(a, b), v + w)
  {
    AddIsSum(a, b);
    SumIsPrintable(a, b);
  }

  lemma ScaleIsExact(tokens: int, rate: Rat, w: real)
    requires Exact(rate, w)
    ensures Exact(Scale(tokens, rate), Product(tokens, w))
  {
    ScaleIsProduct(tokens, rate);
    ProductIsPrintable(tokens, rate);
  }

  lemma CostAddIsExact(total: Rat, v: real, tokens: int, rate: Rat, w: real)
    requires Exact(total, v) && Exact(rate, w)
    ensures Exact(CostAdd(total, tokens, rate), v + Product(tokens, w))
  {
    if tokens != 0 {
      ScaleIsExact(tokens, rate, w);
      SumIsExact(total, v, Scale(tokens, rate), Product(tokens, w));
    }
  }

  lemma ZeroIsExact()
    ensures Exact(Rat(0, 1), 0.0)
  {
  }

  /** Add one class to the running total. */
  method AddClass(total: Rat, tokens: int, rate: Rate, ghost v: real) returns (total': Rat)
    requires Exact(total, v) && rate.Some? && ValidRate(rate)
    ensures Exact(total', v + Price(tokens, rate))
  {
    CostAddIsExact(total, v, tokens, rate.value, Worth(rate.value));
    total' := CostAdd(total, tokens, rate.value);
  }

  /** Printing a printable total cannot fail, and the text is worth the total. */
  method PrintTotal(total: Rat, ghost v: real) returns (r: AmountResult)
    requires Exact(total, v)
    ensures r.Amount? && Parse(r.text).Some? && TextWorth(r.text) == v
  {
    PrintParseRoundTrip(total);
    var text := ModelCostRatString(total);
    r := match text case None => NotDecimal case Some(t) => Amount(t);
  }

  predicate AllNumbers(r: Rates)
  {
    r.input.Some? && r.output.Some? && r.cacheRead.Some? && r.cacheWrite.Some? && r.longTtl.Some?
  }

  predicate ValidRates(r: Rates)
  {
    && ValidRate(r.input) && ValidRate(r.output) && ValidRate(r.cacheRead) && ValidRate(r.cacheWrite)
    && ValidRate(r.longTtl)
  }

  method RatesCost(u: Usage, r: Rates) returns (total: Rat)
    requires AllNumbers(r) && ValidRates(r)
    ensures Exact(total, RoundBill(Price, u, r))
  {
    ZeroIsExact();
    total := Rat(0, 1);
    ghost var v := 0.0;
    total := AddClass(total, Uncached(u), r.input, v);
    v := v + Price(Uncached(u), r.input);
    total := AddClass(total, u.cacheRead, r.cacheRead, v);
    v := v + Price(u.cacheRead, r.cacheRead);
    total := AddClass(total, ShortTtlWrite(u), r.cacheWrite, v);
    v := v + Price(ShortTtlWrite(u), r.cacheWrite);
    total := AddClass(total, LongTtlWrite(u), r.longTtl, v);
    v := v + Price(LongTtlWrite(u), r.longTtl);
    total := AddClass(total, u.completion, r.output, v);
  }

  predicate CanPrice(p: ModelPricing, u: Usage)
  {
    AllNumbers(UsageRates(p, u))
  }

  /** One round's cost as a decimal: exact, and failing only on a rate that is no number. */
  method ModelUsageCostAmount(p: ModelPricing, u: Usage) returns (r: AmountResult)
    requires ValidPricing(p)
    ensures r.Amount? <==> CanPrice(p, u)
    ensures CanPrice(p, u) <==> forall k | 0 <= k < 5 :: FirstRate(Offers(p, u)[k]).Some?
    ensures !r.NotDecimal?
    ensures r.Amount? ==> Parse(r.text).Some? && TextWorth(r.text) == RoundCost(p, u) == ClassesCost(p, u)
  {
    RatesAreFirstOffers(p, u);
    RoundCostIsClasses(p, u);
    var rates := UsageRates(p, u);
    if !AllNumbers(rates) {
      return BadNumber;
    }
    var total := RatesCost(u, rates);
    r := PrintTotal(total, RoundCost(p, u));
  }

  // ---- sums of amounts ----

  ghost function SumWorth(amounts: seq<string>): real
  {
    if amounts == [] then 0.0 else SumWorth(amounts[..|amounts| - 1]) + TextWorth(amounts[|amounts| - 1])
  }

  lemma EmptyIsWorthless()
    ensures Parse("") == None && TextWorth("") == 0.0
  {
  }

  /** An amount is empty or a number. */
  predicate Counts(text: string)
  {
    text == "" || Parse(text).Some?
  }

  predicate AllCount(amounts: seq<string>)
  {
    amounts == [] || (AllCount(amounts[..|amounts| - 1]) && Counts(amounts[|amounts| - 1]))
  }

  predicate AllEmpty(amounts: seq<string>)
  {
    amounts == [] || (AllEmpty(amounts[..|amounts| - 1]) && amounts[|amounts| - 1] == "")
  }

  /** Add one amount to the total, skipping an empty one; None when it is no number. */
  method AddAmount(total: Rat, text: string, ghost v: real) returns (r: Option<Rat>)
    requires Exact(total, v)
    ensures r.Some? <==> Counts(text)
    ensures r.Some? ==> Exact(r.value, v + TextWorth(text))
  {
    if text == "" {
      EmptyIsWorthless();
      return Some(total);
    }
    var value := Parse(text);
    if value.None? {
      return None;
    }
    ParsedIsPrintable(text);
    SumIsExact(total, v, value.value, TextWorth(text));
    r := Some(Add(total, value.value));
  }

  lemma {:induction false} CannotCount(amounts: seq<string>, k: nat)
    requires k < |amounts| && !Counts(amounts[k])
    ensures !AllCount(amounts)
  {
    if k < |amounts| - 1 { CannotCount(amounts[..|amounts| - 1], k); }
  }

  /** The first `k + 1` amounts, seen from the first `k`. */
  lemma NextAmount(amounts: seq<string>, k: nat)
    requires k < |amounts|
    ensures SumWorth(amounts[..k + 1]) == SumWorth(amounts[..k]) + TextWorth(amounts[k])
    ensures AllCount(amounts[..k + 1]) <==> AllCount(amounts[..k]) && Counts(amounts[k])
    ensures AllEmpty(amounts[..k + 1]) <==> AllEmpty(amounts[..k]) && amounts[k] == ""
  {
    assert amounts[..k + 1][..k] == amounts[..k];
  }

  lemma {:induction false} EmptySumIsZero(amounts: seq<string>)
    requires AllEmpty(amounts)
    ensures SumWorth(amounts) == 0.0
  {
    if amounts != [] {
      EmptySumIsZero(amounts[..|amounts| - 1]);
      EmptyIsWorthless();
    }
  }

  /** Add up the amounts; None at the first that is no number. */
  method AddAmounts(amounts: seq<string>) returns (total: Option<Rat>, found: bool)
    ensures total.Some? <==> AllCount(amounts)
    ensures total.Some? ==> Exact(total.value, SumWorth(amounts)) && (found <==> !AllEmpty(amounts))
  {
    var sum := Rat(0, 1);
    found := false;
    ZeroIsExact();
    for k := 0 to |amounts|
      invariant Exact(sum, SumWorth(amounts[..k])) && AllCount(amounts[..k])
      invariant found <==> !AllEmpty(amounts[..k])
    {
      NextAmount(amounts, k);
      var added := AddAmount(sum, amounts[k], SumWorth(amounts[..k]));
      if added.None? {
        CannotCount(amounts, k);
        return None, found;
      }
      sum := added.value;
      found := found || amounts[k] != "";
    }
    assert amounts[..|amounts|] == amounts;
    total := Some(sum);
  }

  /** Add decimal amounts, skipping empty ones; empty when there is nothing to add. */
  method SumModelCostAmounts(amounts: seq<string>) returns (r: AmountResult)
    ensures r.Amount? <==> AllCount(amounts)
    ensures !r.NotDecimal?
    ensures r.Amount? ==> (r.text == "" <==> AllEmpty(amounts)) && Counts(r.text)
    ensures r.Amount? ==> TextWorth(r.text) == SumWorth(amounts)
  {
    var total, found := AddAmounts(amounts);
    EmptyIsWorthless();
    if total.None? {
      return BadNumber;
    }
    if !found {
      EmptySumIsZero(amounts);
      return Amount("");
    }
    r := PrintTotal(total.value, SumWorth(amounts));
  }

  // ---- the audited cost of a round and its failed attempts ----

  datatype AuditCost = Unknown | Costs(response: string, retry: string, billed: string) | CostError

  predicate CanPriceAll(p: ModelPricing, attempts: seq<Usage>)
  {
    attempts == [] || (CanPriceAll(p, attempts[..|attempts| - 1]) && CanPrice(p, attempts[|attempts| - 1]))
  }

  ghost function TotalCost(p: ModelPricing, rounds: seq<Usage>): real
  {
    if rounds == [] then 0.0 else TotalCost(p, rounds[..|rounds| - 1]) + RoundCost(p, rounds[|rounds| - 1])
  }

  lemma AppendAmount(amounts: seq<string>, text: string)
    ensures SumWorth(amounts + [text]) == SumWorth(amounts) + TextWorth(text)
    ensures AllCount(amounts + [text]) <==> AllCount(amounts) && Counts(text)
    ensures AllEmpty(amounts + [text]) <==> AllEmpty(amounts) && text == ""
  {
    assert (amounts + [text])[..|amounts|] == amounts;
  }

  /** The amounts are what the attempts cost together. */
  ghost predicate Priced(p: ModelPricing, attempts: seq<Usage>, amounts: seq<string>)
  {
    && CanPriceAll(p, attempts) && AllCount(amounts) && SumWorth(amounts) == TotalCost(p, attempts)
    && (AllEmpty(amounts) <==> attempts == [])
  }

  lemma NextAttempt(p: ModelPricing, attempts: seq<Usage>, u: Usage)
    ensures TotalCost(p, attempts + [u]) == TotalCost(p, attempts) + RoundCost(p, u)
    ensures CanPriceAll(p, attempts + [u]) <==> CanPriceAll(p, attempts) && CanPrice(p, u)
  {
    assert (attempts + [u])[..|attempts|] == attempts;
  }

  lemma {:induction false} CannotPrice(p: ModelPricing, attempts: seq<Usage>, k: nat)
    requires k < |attempts| && !CanPrice(p, attempts[k])
    ensures !CanPriceAll(p, attempts)
  {
    if k < |attempts| - 1 { CannotPrice(p, attempts[..|attempts| - 1], k); }
  }

  /** Price one failed attempt more and append the amount. */
  method AppendRetry(p: ModelPricing, ghost attempts: seq<Usage>, u: Usage, priced: seq<string>)
    returns (r: Option<seq<string>>)
    requires ValidPricing(p) && Priced(p, attempts, priced)
    ensures r.Some? <==> CanPrice(p, u)
    ensures r.Some? ==> Priced(p, attempts + [u], r.value)
  {
    var amount := ModelUsageCostAmount(p, u);
    if !amount.Amount? {
      return None;
    }
    NextAttempt(p, attempts, u);
    EmptyIsWorthless();
    AppendAmount(priced, amount.text);
    r := Some(priced + [amount.text]);
  }

  /** Price every failed attempt; None at the first that cannot be priced. */
  method RetryAmounts(p: ModelPricing, attempts: seq<Usage>) returns (amounts: Option<seq<string>>)
    requires ValidPricing(p)
    ensures amounts.Some? <==> CanPriceAll(p, attempts)
    ensures amounts.Some? ==> Priced(p, attempts, amounts.value)
  {
    var priced: seq<string> := [];
    ghost var done: seq<Usage> := [];
    for k := 0 to |attempts|
      invariant done == attempts[..k] && Priced(p, done, priced)
    {
      var more := AppendRetry(p, done, attempts[k], priced);
      if more.None? {
        CannotPrice(p, attempts, k);
        return None;
      }
      priced, done := more.value, done + [attempts[k]];
    }
    assert done == attempts;
    amounts := Some(priced);
  }

  lemma TwoAmounts(a: string, b: string)
    ensures SumWorth([a, b]) == TextWorth(a) + TextWorth(b)
    ensures AllCount([a, b]) <==> Counts(a) && Counts(b)
    ensures AllEmpty([a, b]) <==> a == "" && b == ""
  {
    assert [a, b] == [] + [a] + [b];
    AppendAmount([], a);
    AppendAmount([] + [a], b);
  }

  /** What is billed is exactly the response plus every failed attempt. */
  method ModelAuditCosts(p: ModelPricing, u: Usage, attempts: seq<Usage>) returns (r: AuditCost)
    requires ValidPricing(p)
    ensures r.Unknown? <==> !Known(p)
    ensures Known(p) ==> (r.Costs? <==> CanPrice(p, u) && CanPriceAll(p, attempts))
    ensures r.Costs? ==> && TextWorth(r.response) == RoundCost(p, u) && TextWorth(r.retry) == TotalCost(p, attempts)
                         && TextWorth(r.billed) == RoundCost(p, u) + TotalCost(p, attempts)
                         && r.response != "" && r.billed != "" && (r.retry == "" <==> attempts == [])
  {
    if !Known(p) {
      return Unknown;
    }
    EmptyIsWorthless();
    var response := ModelUsageCostAmount(p, u);
    if !response.Amount? {
      return CostError;
    }
    var amounts := RetryAmounts(p, attempts);
    if amounts.None? {
      return CostError;
    }
    var retry := SumModelCostAmounts(amounts.value);
    TwoAmounts(response.text, retry.text);
    var billed := SumModelCostAmounts([response.text, retry.text]);
    r := Costs(response.text, retry.text, billed.text);
  }

  // ---- cost of merged usage ----

  function Merge(a: Usage, b: Usage): Usage
  {
    Usage(a.prompt + b.prompt, a.completion + b.completion, a.cacheRead + b.cacheRead,
          a.cacheWrite + b.cacheWrite, a.cacheWriteLongTtl + b.cacheWriteLongTtl)
  }

  /** The cache counts of a round lie within its prompt. */
  predicate Sane(u: Usage)
  {
    0 <= u.cacheWriteLongTtl <= u.cacheWrite && u.cacheRead + u.cacheWrite <= u.prompt
  }

  lemma ProductSum(m: int, n: int, x: real)
    ensures Product(m + n, x) == Product(m, x) + Product(n, x) && Product(0, x) == 0.0
  {
  }

  /** Tokens cost the same together as apart. */
  ghost predicate Joins(price: (int, Rate) -> real, m: int, n: int, rate: Rate)
  {
    price(m + n, rate) == price(m, rate) + price(n, rate)
  }

  lemma PriceJoins(m: int, n: int, rate: Rate)
    ensures Joins(Price, m, n, rate)
  {
    ProductSum(m, n, RateWorth(rate));
  }

  /** Each class of the merged usage costs what it costs in the parts. */
  ghost predicate ClassesJoin(price: (int, Rate) -> real, r: Rates, a: Usage, b: Usage)
  {
    && Joins(price, Uncached(a), Uncached(b), r.input)
    && Joins(price, a.cacheRead, b.cacheRead, r.cacheRead)
    && Joins(price, ShortTtlWrite(a), ShortTtlWrite(b), r.cacheWrite)
    && Joins(price, LongTtlWrite(a), LongTtlWrite(b), r.longTtl)
    && Joins(price, a.completion, b.completion, r.output)
  }

  lemma PriceClassesJoin(r: Rates, a: Usage, b: Usage)
    ensures ClassesJoin(Price, r, a, b)
  {
    PriceJoins(Uncached(a), Uncached(b), r.input);
    PriceJoins(a.cacheRead, b.cacheRead, r.cacheRead);
    PriceJoins(ShortTtlWrite(a), ShortTtlWrite(b), r.cacheWrite);
    PriceJoins(LongTtlWrite(a), LongTtlWrite(b), r.longTtl);
    PriceJoins(a.completion, b.completion, r.output);
  }

  /** At fixed rates, merged usage costs what the parts cost. */
  lemma MergedBillIsSum(price: (int, Rate) -> real, rates: Rates, a: Usage, b: Usage)
    requires ClassesJoin(price, rates, a, b) && Sane(a) && Sane(b)
    ensures RoundBill(price, Merge(a, b), rates) == RoundBill(price, a, rates) + RoundBill(price, b, rates)
  {
  }

  /** The four input classes at one rate cost what the whole prompt costs at it. */
  lemma OneRateBill(price: (int, Rate) -> real, u: Usage, r: Rates)
    requires Sane(u) && r.input == r.cacheRead == r.cacheWrite == r.longTtl
    requires Joins(price, Uncached(u), u.cacheRead, r.input)
    requires Joins(price, Uncached(u) + u.cacheRead, ShortTtlWrite(u), r.input)
    requires Joins(price, Uncached(u) + u.cacheRead + ShortTtlWrite(u), LongTtlWrite(u), r.input)
    ensures RoundBill(price, u, r) == price(u.prompt, r.input) + price(u.completion, r.output)
  {
    assert Uncached(u) + u.cacheRead + ShortTtlWrite(u) + LongTtlWrite(u) == u.prompt;
  }

  /** A model without cache rates pays its input rate for the whole prompt: the long-context
      rate above the threshold if there is one, else the ordinary one. */
  lemma WithoutCacheRatesPromptIsFlat(p: ModelPricing, u: Usage)
    requires Sane(u) && IsZero(p.cacheRead) && IsZero(p.cacheWrite) && IsZero(p.longTtl)
    ensures var long := p.threshold > 0 && u.prompt > p.threshold;
            var input := if long && !IsZero(p.longInput) then p.longInput else p.input;
            var output := if long && !IsZero(p.longOutput) then p.longOutput else p.output;
            RoundCost(p, u) == Price(u.prompt, input) + Price(u.completion, output)
  {
    var r := UsageRates(p, u);
    PriceJoins(Uncached(u), u.cacheRead, r.input);
    PriceJoins(Uncached(u) + u.cacheRead, ShortTtlWrite(u), r.input);
    PriceJoins(Uncached(u) + u.cacheRead + ShortTtlWrite(u), LongTtlWrite(u), r.input);
    OneRateBill(Price, u, r);
  }

  function NoUsage(): Usage
  {
    Usage(0, 0, 0, 0, 0)
  }

  function MergeAll(rounds: seq<Usage>): Usage
  {
    if rounds == [] then NoUsage() else Merge(MergeAll(rounds[..|rounds| - 1]), rounds[|rounds| - 1])
  }

  ghost predicate ClassesFree(price: (int, Rate) -> real, r: Rates)
  {
    && price(0, r.input) == 0.0 && price(0, r.cacheRead) == 0.0 && price(0, r.cacheWrite) == 0.0
    && price(0, r.longTtl) == 0.0
    && price(0, r.output) == 0.0
  }

  lemma ZeroIsFree(rate: Rate)
    ensures Price(0, rate) == 0.0
  {
    ProductSum(0, 0, RateWorth(rate));
  }

  lemma PriceClassesFree(r: Rates)
    ensures ClassesFree(Price, r)
  {
    ZeroIsFree(r.input);
    ZeroIsFree(r.cacheRead);
    ZeroIsFree(r.cacheWrite);
    ZeroIsFree(r.longTtl);
    ZeroIsFree(r.output);
  }

  lemma NothingIsFree(price: (int, Rate) -> real, rates: Rates)
    requires ClassesFree(price, rates)
    ensures RoundBill(price, NoUsage(), rates) == 0.0
  {
  }

  ghost function SumBills(bill: Usage -> real, rounds: seq<Usage>): real
  {
    if rounds == [] then 0.0 else SumBills(bill, rounds[..|rounds| - 1]) + bill(rounds[|rounds| - 1])
  }

  /** A bill that adds up over two parts. */
  ghost predicate AddsUp(bill: Usage -> real, a: Usage, b: Usage)
  {
    Sane(a) && Sane(b) ==> bill(Merge(a, b)) == bill(a) + bill(b)
  }

  /** It adds up each time one more round is merged in. */
  ghost predicate AddsUpAlong(bill: Usage -> real, rounds: seq<Usage>)
  {
    if rounds == [] then bill(NoUsage()) == 0.0
    else
      && AddsUpAlong(bill, rounds[..|rounds| - 1])
      && AddsUp(bill, MergeAll(rounds[..|rounds| - 1]), rounds[|rounds| - 1])
  }

  /** Then it adds up over all of them. */
  lemma {:induction false} MergedBillsAreSum(bill: Usage -> real, rounds: seq<Usage>)
    requires AddsUpAlong(bill, rounds) && forall i | 0 <= i < |rounds| :: Sane(rounds[i])
    ensures Sane(MergeAll(rounds)) && bill(MergeAll(rounds)) == SumBills(bill, rounds)
  {
    if rounds != [] { MergedBillsAreSum(bill, rounds[..|rounds| - 1]); }
  }

  ghost function BillAt(rates: Rates): Usage -> real
  {
    u => RoundBill(Price, u, rates)
  }

  lemma BillAddsUp(rates: Rates, a: Usage, b: Usage)
    ensures AddsUp(BillAt(rates), a, b)
  {
    PriceClassesJoin(rates, a, b);
    if Sane(a) && Sane(b) { MergedBillIsSum(Price, rates, a, b); }
  }

  lemma {:induction false} BillAddsUpAlong(rates: Rates, rounds: seq<Usage>)
    ensures AddsUpAlong(BillAt(rates), rounds)
  {
    if rounds == [] {
      PriceClassesFree(rates);
      NothingIsFree(Price, rates);
    } else {
      BillAddsUpAlong(rates, rounds[..|rounds| - 1]);
      BillAddsUp(rates, MergeAll(rounds[..|rounds| - 1]), rounds[|rounds| - 1]);
    }
  }

  /** Without a long-context tier every round pays the same rates. */
  lemma SameRates(p: ModelPricing, a: Usage, b: Usage)
    requires p.threshold <= 0
    ensures UsageRates(p, a) == UsageRates(p, b)
  {
  }

  lemma {:induction false} TotalCostAtRates(p: ModelPricing, rates: Rates, rounds: seq<Usage>)
    requires forall i | 0 <= i < |rounds| :: UsageRates(p, rounds[i]) == rates
    ensures TotalCost(p, rounds) == SumBills(BillAt(rates), rounds)
  {
    if rounds != [] { TotalCostAtRates(p, rates, rounds[..|rounds| - 1]); }
  }

  /** If the rounds and their merged usage all pay the same rates, the merged usage costs what
      the rounds cost together. */
  lemma SameRatesCostIsSum(p: ModelPricing, rounds: seq<Usage>)
    requires forall i | 0 <= i < |rounds| ::
               Sane(rounds[i]) && UsageRates(p, rounds[i]) == UsageRates(p, MergeAll(rounds))
    ensures RoundCost(p, MergeAll(rounds)) == TotalCost(p, rounds)
  {
    var rates := UsageRates(p, MergeAll(rounds));
    BillAddsUpAlong(rates, rounds);
    MergedBillsAreSum(BillAt(rates), rounds);
    TotalCostAtRates(p, rates, rounds);
  }

  /** Without a long-context tier that is every sequence of rounds. */
  lemma MergedCostIsSum(p: ModelPricing, rounds: seq<Usage>)
    requires p.threshold <= 0 && forall i | 0 <= i < |rounds| :: Sane(rounds[i])
    ensures RoundCost(p, MergeAll(rounds)) == TotalCost(p, rounds)
  {
    forall i | 0 <= i < |rounds| ensures UsageRates(p, rounds[i]) == UsageRates(p, MergeAll(rounds)) {
      SameRates(p, rounds[i], MergeAll(rounds));
    }
    SameRatesCostIsSum(p, rounds);
  }

  // ---- with a long-context tier ----

  /** The rounds on the other side of the threshold. */
  function Others(p: ModelPricing, rounds: seq<Usage>, tier: bool): seq<Usage>
  {
    if rounds == [] then []
    else
      var last := rounds[|rounds| - 1];
      Others(p, rounds[..|rounds| - 1], tier) + if InTier(p, last) == tier then [] else [last]
  }

  lemma {:induction false} OthersAreSane(p: ModelPricing, rounds: seq<Usage>, tier: bool)
    requires forall i | 0 <= i < |rounds| :: Sane(rounds[i])
    ensures forall i | 0 <= i < |Others(p, rounds, tier)| :: Sane(Others(p, rounds, tier)[i])
  {
    if rounds != [] { OthersAreSane(p, rounds[..|rounds| - 1], tier); }
  }

  lemma SumBillsAppend(bill: Usage -> real, rounds: seq<Usage>, u: Usage)
    ensures SumBills(bill, rounds + [u]) == SumBills(bill, rounds) + bill(u)
  {
    assert (rounds + [u])[..|rounds|] == rounds;
  }

  /** Billed at one side's rates, all rounds together differ from their cost by what that changes
      for the rounds of the other side. */
  lemma {:induction false} OneSideBill(p: ModelPricing, rounds: seq<Usage>, tier: bool, here: Usage -> real,
                                       there: Usage -> real)
    requires forall u: Usage :: RoundCost(p, u) == if InTier(p, u) == tier then here(u) else there(u)
    ensures var others := Others(p, rounds, tier);
            SumBills(here, rounds) - TotalCost(p, rounds) == SumBills(here, others) - SumBills(there, others)
  {
    if rounds != [] {
      var before, last := rounds[..|rounds| - 1], rounds[|rounds| - 1];
      OneSideBill(p, before, tier, here, there);
      assert RoundCost(p, last) == if InTier(p, last) == tier then here(last) else there(last);
      SumBillsAppend(here, Others(p, before, tier), last);
      SumBillsAppend(there, Others(p, before, tier), last);
      assert Others(p, before, tier) + [] == Others(p, before, tier);
    }
  }

  /** What one usage costs more at these rates than at those, class by class. */
  ghost function Surcharge(u: Usage, here: Rates, there: Rates): real
  {
    Extra(Uncached(u), here.input, there.input) + Extra(u.cacheRead, here.cacheRead, there.cacheRead)
    + Extra(ShortTtlWrite(u), here.cacheWrite, there.cacheWrite) + Extra(LongTtlWrite(u), here.longTtl, there.longTtl)
    + Extra(u.completion, here.output, there.output)
  }

  ghost function Extra(tokens: int, here: Rate, there: Rate): real
  {
    Product(tokens, RateWorth(here) - RateWorth(there))
  }

  lemma ExtraIsDifference(tokens: int, here: Rate, there: Rate)
    ensures Extra(tokens, here, there) == Price(tokens, here) - Price(tokens, there)
  {
    ProductDifference(tokens, RateWorth(here), RateWorth(there));
  }

  lemma ProductDifference(n: int, x: real, y: real)
    ensures Product(n, x - y) == Product(n, x) - Product(n, y)
  {
  }

  lemma SurchargeIsDifference(u: Usage, here: Rates, there: Rates)
    ensures Surcharge(u, here, there) == RoundBill(Price, u, here) - RoundBill(Price, u, there)
  {
    ExtraIsDifference(Uncached(u), here.input, there.input);
    ExtraIsDifference(u.cacheRead, here.cacheRead, there.cacheRead);
    ExtraIsDifference(ShortTtlWrite(u), here.cacheWrite, there.cacheWrite);
    ExtraIsDifference(LongTtlWrite(u), here.longTtl, there.longTtl);
    ExtraIsDifference(u.completion, here.output, there.output);
  }

  lemma BillOfMerged(rates: Rates, rounds: seq<Usage>)
    requires forall i | 0 <= i < |rounds| :: Sane(rounds[i])
    ensures RoundBill(Price, MergeAll(rounds), rates) == SumBills(BillAt(rates), rounds)
  {
    BillAddsUpAlong(rates, rounds);
    MergedBillsAreSum(BillAt(rates), rounds);
  }

  lemma RatesSplitCost(p: ModelPricing, rounds: seq<Usage>, tier: bool)
    ensures var others := Others(p, rounds, tier);
            SumBills(BillAt(RatesIn(p, tier)), rounds) - TotalCost(p, rounds)
            == SumBills(BillAt(RatesIn(p, tier)), others) - SumBills(BillAt(RatesIn(p, !tier)), others)
  {
    OneSideBill(p, rounds, tier, BillAt(RatesIn(p, tier)), BillAt(RatesIn(p, !tier)));
  }

  lemma SurchargeOfOthers(p: ModelPricing, rounds: seq<Usage>, tier: bool)
    requires forall i | 0 <= i < |rounds| :: Sane(rounds[i])
    requires tier == InTier(p, MergeAll(rounds))
    ensures RoundCost(p, MergeAll(rounds))
         == TotalCost(p, rounds) + Surcharge(MergeAll(Others(p, rounds, tier)), RatesIn(p, tier), RatesIn(p, !tier))
  {
    var here, there, others := RatesIn(p, tier), RatesIn(p, !tier), Others(p, rounds, tier);
    OthersAreSane(p, rounds, tier);
    BillOfMerged(here, rounds);
    BillOfMerged(here, others);
    BillOfMerged(there, others);
    RatesSplitCost(p, rounds, tier);
    SurchargeIsDifference(MergeAll(others), here, there);
  }

  /** For every price table and any rounds, the merged usage costs what the rounds cost together
      plus the surcharge of the rounds on the other side of the threshold; so both are equal
      exactly when that surcharge is zero. */
  lemma MergedCostDiffersBySurcharge(p: ModelPricing, rounds: seq<Usage>)
    requires forall i | 0 <= i < |rounds| :: Sane(rounds[i])
    ensures var tier := InTier(p, MergeAll(rounds));
            var surcharge := Surcharge(MergeAll(Others(p, rounds, tier)), RatesIn(p, tier), RatesIn(p, !tier));
            && RoundCost(p, MergeAll(rounds)) == TotalCost(p, rounds) + surcharge
            && (RoundCost(p, MergeAll(rounds)) == TotalCost(p, rounds) <==> surcharge == 0.0)
  {
    SurchargeOfOthers(p, rounds, InTier(p, MergeAll(rounds)));
  }

  /** One per input token up to ten of them, two per token above. */
  function TieredPricing(): ModelPricing
  {
    ModelPricing(Some(Rat(1, 1)), Some(Rat(0, 1)), Some(Rat(0, 1)), Some(Rat(0, 1)), Some(Rat(0, 1)),
                 Some(Rat(2, 1)), Some(Rat(0, 1)), 10)
  }

  function PromptOnly(n: nat): Usage
  {
    Usage(n, 0, 0, 0, 0)
  }

  lemma PromptOnlyCost(p: ModelPricing, n: nat)
    ensures RoundCost(p, PromptOnly(n)) == Price(n, UsageRates(p, PromptOnly(n)).input)
  {
    PriceClassesFree(UsageRates(p, PromptOnly(n)));
    PromptOnlyBill(Price, UsageRates(p, PromptOnly(n)), n);
  }

  lemma PromptOnlyBill(price: (int, Rate) -> real, r: Rates, n: nat)
    requires ClassesFree(price, r)
    ensures RoundBill(price, PromptOnly(n), r) == price(n, r.input)
  {
  }

  lemma WholePrice(tokens: int, n: int)
    ensures Price(tokens, Some(Rat(n, 1))) == (tokens * n) as real
  {
    assert n as real / 1.0 == n as real;
  }

  lemma TieredRate(n: nat)
    ensures UsageRates(TieredPricing(), PromptOnly(n)).input == Some(Rat(if n > 10 then 2 else 1, 1))
  {
  }

  lemma TieredCost(n: nat)
    ensures RoundCost(TieredPricing(), PromptOnly(n)) == (n * (if n > 10 then 2 else 1)) as real
  {
    PromptOnlyCost(TieredPricing(), n);
    TieredRate(n);
    WholePrice(n, if n > 10 then 2 else 1);
  }

  /** With the tier it is not: rounds that stay below it cost less apart than merged. */
  lemma TierCostIsNotSum(m: nat, n: nat)
    requires m <= 10 && n <= 10 && m + n > 10
    ensures Sane(PromptOnly(m)) && Sane(PromptOnly(n)) && Merge(PromptOnly(m), PromptOnly(n)) == PromptOnly(m + n)
    ensures RoundCost(TieredPricing(), PromptOnly(m + n))
         == 2.0 * (RoundCost(TieredPricing(), PromptOnly(m)) + RoundCost(TieredPricing(), PromptOnly(n)))
  {
    TieredCost(m);
    TieredCost(n);
    TieredCost(m + n);
  }
}
