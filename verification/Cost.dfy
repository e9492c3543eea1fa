/** Conservative prices in 64-bit arithmetic with a 128-bit product, and exact currency amounts. */
module Cost {
  import opened Prelude

  const MICROS_PER_UNIT: uint64 := 1_000_000
  const INPUT_TOKEN_PADDING: uint64 := 1_024
  const MAXIMUM_PRICE_PER_MILLION: uint64 := 1_000_000_000_000

  type int64 = n: int | -0x8000_0000_0000_0000 <= n < 0x8000_0000_0000_0000

  /** The double-word product: high word, low word. */
  function Mul64(x: uint64, y: uint64): (r: (uint64, uint64))
    ensures r.0 * TWO_64 + r.1 == x * y
  {
    ProductFits(x, y);
    (x * y / TWO_64, x * y % TWO_64)
  }

  lemma ProductFits(x: uint64, y: uint64)
    ensures 0 <= x * y && x * y / TWO_64 < TWO_64
  {
    assert x * y <= TWO_64 * y;
    assert x * y < TWO_64 * TWO_64;
  }

  /** The double-word division, which panics unless the quotient fits: quotient, remainder. */
  function Div64(hi: uint64, lo: uint64, y: uint64): (r: (uint64, uint64))
    requires hi < y
    ensures hi * TWO_64 + lo == r.0 * y + r.1 && r.1 < y
  {
    var n := hi * TWO_64 + lo;
    QuotientFits(hi, lo, y);
    (n / y, n % y)
  }

  lemma QuotientFits(hi: uint64, lo: uint64, y: uint64)
    requires hi < y
    ensures 0 <= (hi * TWO_64 + lo) / y < TWO_64
  {
    var n := hi * TWO_64 + lo;
    assert n < y * TWO_64;
    if n / y >= TWO_64 {
      TimesMonotone(TWO_64, n / y, y);
    }
  }

  /** None is the source's overflow error. */
  function CeilMulDiv(left: uint64, right: uint64, divisor: uint64): Option<uint64> {
    var (hi, lo) := Mul64(left, right);
    if divisor == 0 || hi >= divisor then None
    else
      var (quotient, remainder) := Div64(hi, lo, divisor);
      if remainder == 0 then Some(quotient)
      else if quotient == TWO_64 - 1 then None
      else Some(quotient + 1)
  }

  /** q is n/d rounded up. */
  predicate IsCeiling(q: int, n: int, d: int) {
    (q - 1) * d < n <= q * d
  }

  lemma CeilingUnique(q: int, p: int, n: int, d: int)
    requires d > 0 && IsCeiling(q, n, d) && IsCeiling(p, n, d)
    ensures p == q
  {
    if p < q {
      TimesMonotone(p, q - 1, d);
    } else if q < p {
      TimesMonotone(q, p - 1, d);
    }
  }

  /** The result is the true ceiling, and there is a result exactly when the divisor is not zero and that ceiling fits. */
  lemma CeilMulDivExact(left: uint64, right: uint64, divisor: uint64)
    ensures var r := CeilMulDiv(left, right, divisor);
            && (r.Some? ==> divisor > 0 && IsCeiling(r.value, left * right, divisor))
            && (r.Some? <==> divisor > 0 && exists q: uint64 :: IsCeiling(q, left * right, divisor))
  {
    var r := CeilMulDiv(left, right, divisor);
    var n := left * right;
    var (hi, lo) := Mul64(left, right);
    if divisor > 0 && hi >= divisor {
      forall q: uint64 ensures !IsCeiling(q, n, divisor) {
        TooSmall(q, hi, lo, divisor);
      }
    } else if divisor > 0 {
      var (quotient, remainder) := Div64(hi, lo, divisor);
      assert IsCeiling(if remainder == 0 then quotient else quotient + 1, n, divisor) by {
        assert (quotient - 1) * divisor == quotient * divisor - divisor;
        assert (quotient + 1) * divisor == quotient * divisor + divisor;
      }
      if r.None? {
        forall q: uint64 ensures !IsCeiling(q, n, divisor) {
          if IsCeiling(q, n, divisor) { CeilingUnique(q, quotient + 1, n, divisor); }
        }
      }
    }
  }

  lemma TooSmall(q: uint64, hi: uint64, lo: uint64, divisor: uint64)
    requires hi >= divisor
    ensures q * divisor < hi * TWO_64 + lo || hi == 0
  {
    if hi > 0 {
      assert q * divisor <= q * hi;
      assert q * hi < TWO_64 * hi;
    }
  }

  // ---- estimates

  datatype CostRates = CostRates(inputMicrosPerMillion: uint64, outputMicrosPerMillion: uint64) {
    predicate ValidOptional() {
      || (inputMicrosPerMillion == 0 && outputMicrosPerMillion == 0)
      || (0 < inputMicrosPerMillion <= MAXIMUM_PRICE_PER_MILLION && 0 < outputMicrosPerMillion <= MAXIMUM_PRICE_PER_MILLION)
    }

    predicate Priced() {
      inputMicrosPerMillion > 0 && outputMicrosPerMillion > 0
    }

    /** A million times the exact price, in micros. */
    function ExactTimesMillion(inputBytes: int, maxOutputTokens: int): int {
      (inputBytes + INPUT_TOKEN_PADDING) * inputMicrosPerMillion + maxOutputTokens * outputMicrosPerMillion
    }
  }

  function EstimateCostMicros(inputBytes: int64, maxOutputTokens: int64, rates: CostRates): Option<uint64> {
    if inputBytes < 1 || maxOutputTokens < 1 || !rates.ValidOptional() then None
    else if !rates.Priced() then Some(0)
    else
      match CeilMulDiv(inputBytes + INPUT_TOKEN_PADDING, rates.inputMicrosPerMillion, MICROS_PER_UNIT)
      case None => None
      case Some(inputCost) =>
        match CeilMulDiv(maxOutputTokens, rates.outputMicrosPerMillion, MICROS_PER_UNIT)
        case None => None
        case Some(outputCost) => if inputCost > TWO_64 - 1 - outputCost then None else Some(inputCost + outputCost)
  }

  /** An estimate is never below the exact price and never two micros above it. */
  lemma EstimateBounds(inputBytes: int64, maxOutputTokens: int64, rates: CostRates)
    requires EstimateCostMicros(inputBytes, maxOutputTokens, rates).Some?
    ensures var estimate := EstimateCostMicros(inputBytes, maxOutputTokens, rates).value;
            var exact := rates.ExactTimesMillion(inputBytes, maxOutputTokens);
            exact <= estimate * MICROS_PER_UNIT < exact + 2 * MICROS_PER_UNIT
  {
    CeilMulDivExact(inputBytes + INPUT_TOKEN_PADDING, rates.inputMicrosPerMillion, MICROS_PER_UNIT);
    CeilMulDivExact(maxOutputTokens, rates.outputMicrosPerMillion, MICROS_PER_UNIT);
    hide CeilMulDiv;
  }

  /** With valid arguments the only refusal is a true overflow: the two rounded-up parts do not fit together in 64 bits. */
  lemma EstimateRefusesOnlyOverflow(inputBytes: int64, maxOutputTokens: int64, rates: CostRates, inputCost: int, outputCost: int)
    requires inputBytes >= 1 && maxOutputTokens >= 1 && rates.ValidOptional() && rates.Priced()
    requires IsCeiling(inputCost, (inputBytes + INPUT_TOKEN_PADDING) * rates.inputMicrosPerMillion, MICROS_PER_UNIT)
    requires IsCeiling(outputCost, maxOutputTokens * rates.outputMicrosPerMillion, MICROS_PER_UNIT)
    ensures EstimateCostMicros(inputBytes, maxOutputTokens, rates) ==
            if inputCost + outputCost < TWO_64 then Some(inputCost + outputCost) else None
  {
    CeilingFound(inputBytes + INPUT_TOKEN_PADDING, rates.inputMicrosPerMillion, MICROS_PER_UNIT, inputCost);
    CeilingFound(maxOutputTokens, rates.outputMicrosPerMillion, MICROS_PER_UNIT, outputCost);
    hide CeilMulDiv;
  }

  /** The cost of so many tokens at a price per million, rounded up. */
  predicate PartCost(cost: int, tokens: int, microsPerMillion: int) {
    IsCeiling(cost, tokens * microsPerMillion, 1_000_000)
  }

  /** What so many tokens in and out cost, each part rounded up, where both prices are in range; nothing where there are none. */
  ghost predicate Costs(input: int, output: int, rates: CostRates, cost: int) {
    || (rates.inputMicrosPerMillion == 0 && rates.outputMicrosPerMillion == 0 && cost == 0)
    || (1 <= rates.inputMicrosPerMillion <= 1_000_000_000_000 && 1 <= rates.outputMicrosPerMillion <= 1_000_000_000_000 &&
        exists a, b :: PartCost(a, input, rates.inputMicrosPerMillion) && PartCost(b, output, rates.outputMicrosPerMillion) && cost == a + b)
  }

  /** The price of a request: every byte counts as a token, with 1024 more for what the provider adds. */
  ghost predicate IsPrice(inputBytes: int, maxOutputTokens: int, rates: CostRates, cost: int) {
    inputBytes >= 1 && maxOutputTokens >= 1 && cost < 0x1_0000_0000_0000_0000 && Costs(inputBytes + 1024, maxOutputTokens, rates, cost)
  }

  /** An estimate is made exactly when there is a price, and is that price. */
  lemma EstimateIff(inputBytes: int64, maxOutputTokens: int64, rates: CostRates, cost: int)
    ensures EstimateCostMicros(inputBytes, maxOutputTokens, rates) == Some(cost) <==> IsPrice(inputBytes, maxOutputTokens, rates, cost)
  {
    if inputBytes >= 1 && maxOutputTokens >= 1 && rates.ValidOptional() && rates.Priced() {
      var input, output := rates.inputMicrosPerMillion, rates.outputMicrosPerMillion;
      var a := CeilingOf((inputBytes + INPUT_TOKEN_PADDING) * input);
      var b := CeilingOf(maxOutputTokens * output);
      EstimateRefusesOnlyOverflow(inputBytes, maxOutputTokens, rates, a, b);
      OnePartCost(inputBytes + 1024, input, a);
      OnePartCost(maxOutputTokens, output, b);
    }
    hide CeilMulDiv, IsCeiling, PartCost;
  }

  lemma OnePartCost(tokens: int, price: int, cost: int)
    requires IsCeiling(cost, tokens * price, 1_000_000)
    ensures PartCost(cost, tokens, price) && forall p :: PartCost(p, tokens, price) ==> p == cost
  {
    forall p | PartCost(p, tokens, price) ensures p == cost {
      CeilingUnique(p, cost, tokens * price, 1_000_000);
    }
  }

  lemma CeilingOf(n: int) returns (q: int)
    ensures IsCeiling(q, n, MICROS_PER_UNIT)
  {
    q := (n + MICROS_PER_UNIT - 1) / MICROS_PER_UNIT;
  }

  lemma CeilingFound(left: uint64, right: uint64, divisor: uint64, q: int)
    requires divisor > 0 && IsCeiling(q, left * right, divisor)
    ensures q >= 0 && CeilMulDiv(left, right, divisor) == if q < TWO_64 then Some(q) else None
  {
    CeilMulDivExact(left, right, divisor);
    assert left * right >= 0;
    if q < 0 {
      TimesMonotone(q, -1, divisor);
    } else if CeilMulDiv(left, right, divisor).Some? {
      CeilingUnique(q, CeilMulDiv(left, right, divisor).value, left * right, divisor);
    }
    hide CeilMulDiv;
  }

  // ---- currency amounts

  predicate Digits(s: string) {
    forall i :: 0 <= i < |s| ==> '0' <= s[i] <= '9'
  }

  function Decimal(s: string): nat
    requires Digits(s)
  {
    if s == "" then 0 else Decimal(s[..|s| - 1]) * 10 + (s[|s| - 1] as int - '0' as int)
  }

  /** strconv.ParseUint in base 10 with 64 bits. */
  function ParseUint(s: string): Option<uint64> {
    if s == "" || !Digits(s) || Decimal(s) >= TWO_64 then None else Some(Decimal(s))
  }

  function Zeros(n: nat): (s: string)
    ensures |s| == n && Digits(s)
  {
    if n == 0 then "" else Zeros(n - 1) + "0"
  }

  function FirstDot(s: string): (n: nat)
    ensures n <= |s| && '.' !in s[..n] && (n < |s| ==> s[n] == '.')
  {
    if s == "" || s[0] == '.' then 0
    else
      var n := 1 + FirstDot(s[1..]);
      assert s[..n] == [s[0]] + s[1..][..n - 1];
      n
  }

  /** The whole and fractional digits of an amount; a second dot stays in the fraction. */
  function Parts(value: string): (string, string) {
    var n := FirstDot(value);
    if n == |value| then (value, "") else (value[..n], value[n + 1..])
  }

  function ParseCurrencyMicros(value: string): Option<uint64> {
    var (whole, fraction) := Parts(value);
    if value == "" || '.' in fraction || |fraction| > 6 then None
    else
      match ParseUint(if whole == "" then "0" else whole)
      case None => None
      case Some(units) =>
        if !Digits(fraction) then None
        else
          DecimalConcat(fraction, Zeros(6 - |fraction|));
          match (if fraction == "" then Some(0) else ParseUint(fraction + Zeros(6 - |fraction|)))
          case None => None
          case Some(part) =>
            if units > (TWO_64 - 1 - part) / MICROS_PER_UNIT then None
            else if units * MICROS_PER_UNIT + part == 0 then None
            else Some(units * MICROS_PER_UNIT + part)
  }

  function Pow10(n: nat): nat {
    if n == 0 then 1 else 10 * Pow10(n - 1)
  }

  lemma {:induction false} DecimalConcat(a: string, b: string)
    requires Digits(a) && Digits(b)
    ensures Digits(a + b) && Decimal(a + b) == Decimal(a) * Pow10(|b|) + Decimal(b)
    decreases |b|
  {
    if b == "" {
      assert a + b == a;
    } else {
      var init := b[..|b| - 1];
      DecimalConcat(a, init);
      assert (a + b)[..|a + b| - 1] == a + init;
      assert Decimal(a) * Pow10(|b|) == Decimal(a) * Pow10(|init|) * 10;
    }
  }

  lemma {:induction false} DecimalZeros(n: nat)
    ensures Decimal(Zeros(n)) == 0
  {
    if n > 0 {
      DecimalZeros(n - 1);
      assert Zeros(n)[..n - 1] == Zeros(n - 1);
    }
  }

  lemma {:induction false} DecimalBound(s: string)
    requires Digits(s)
    ensures Decimal(s) < Pow10(|s|)
    decreases |s|
  {
    if s != "" {
      DecimalBound(s[..|s| - 1]);
    }
  }

  /** Accepted amounts: digits with at most one dot, at most six digits after it, positive and below 2^64 micros. */
  ghost predicate Amount(value: string, micros: int) {
    var (whole, fraction) := Parts(value);
    && Digits(whole) && Digits(fraction) && |fraction| <= 6
    && micros == Decimal(whole + fraction) * Pow10(6 - |fraction|)
    && 0 < micros < TWO_64
  }

  /** Parsing an amount is exact: nothing is rounded, and nothing representable is refused. */
  lemma CurrencyExact(value: string, micros: int)
    ensures ParseCurrencyMicros(value) == Some(micros) <==> Amount(value, micros)
  {
    var (whole, fraction) := Parts(value);
    if Digits(whole) && Digits(fraction) && |fraction| <= 6 {
      FractionExact(fraction);
      DecimalConcat(whole, fraction);
      PowSplit(|fraction|, 6 - |fraction|);
      Distribute(Decimal(whole), Pow10(|fraction|), Decimal(fraction), Pow10(6 - |fraction|));
      assert Decimal(whole + fraction) * Pow10(6 - |fraction|) ==
             Decimal(whole) * 1_000_000 + Decimal(fraction) * Pow10(6 - |fraction|);
      hide Decimal, Pow10;
      CurrencyCases(value, whole, fraction);
    }
  }

  lemma Distribute(a: int, b: int, c: int, d: int)
    ensures (a * b + c) * d == a * (b * d) + c * d
  {
  }

  lemma {:induction false} PowSplit(a: nat, b: nat)
    ensures Pow10(a + b) == Pow10(a) * Pow10(b) && Pow10(6) == 1_000_000
  {
    assert Pow10(6) == 10 * Pow10(5) == 100 * Pow10(4) == 1000 * Pow10(3) == 10000 * Pow10(2);
    if a > 0 {
      PowSplit(a - 1, b);
      Distribute(10, Pow10(a - 1), 0, Pow10(b));
    }
  }

  lemma FractionExact(fraction: string)
    requires Digits(fraction) && |fraction| <= 6
    ensures var padded := fraction + Zeros(6 - |fraction|);
            && Digits(padded) && Decimal(padded) == Decimal(fraction) * Pow10(6 - |fraction|) < 1_000_000
            && (fraction == "" ==> Decimal(fraction) * Pow10(6) == 0)
  {
    var zeros := Zeros(6 - |fraction|);
    DecimalConcat(fraction, zeros);
    DecimalZeros(6 - |fraction|);
    DecimalBound(fraction + zeros);
    PowSplit(6, 0);
  }

  lemma CurrencyCases(value: string, whole: string, fraction: string)
    requires (whole, fraction) == Parts(value) && Digits(whole) && Digits(fraction) && |fraction| <= 6
    requires Digits(fraction + Zeros(6 - |fraction|)) && Decimal(fraction + Zeros(6 - |fraction|)) < 1_000_000
    requires fraction == "" ==> Decimal(fraction + Zeros(6 - |fraction|)) == 0
    ensures var total := Decimal(whole) * 1_000_000 + Decimal(fraction + Zeros(6 - |fraction|));
            ParseCurrencyMicros(value) == if 0 < total < TWO_64 then Some(total) else None
  {
    DigitText();
    hide Decimal, FirstDot, Zeros;
    FitsTest(Decimal(whole), Decimal(fraction + Zeros(6 - |fraction|)));
  }

  lemma DigitText()
    ensures Decimal("0") == 0 && Decimal("") == 0
  {
    assert Decimal("0") == Decimal("0"[..0]) * 10 + 0;
  }

  /** The overflow test the source makes by division is the exact one. */
  lemma FitsTest(units: nat, part: nat)
    requires part < 1_000_000
    ensures units > (TWO_64 - 1 - part) / 1_000_000 <==> units * 1_000_000 + part >= TWO_64
  {
  }
}
