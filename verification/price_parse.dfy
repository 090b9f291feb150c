/**
  From the text of a JSON number to billionths of a dollar: exactly, when it has an exponent, and to
  the nearest billionth when it is one of the catalog's long fractions.
*/
module PriceParse {
  import opened Wrappers
  import opened Arithmetic
  import opened TextOrder
  import opened PriceDecimal

  // ---- JSON numbers --------------------------------------------------------------------------

  datatype Sign = Unsigned | Plus | Minus

  datatype Exponent = Exponent(upper: bool, sign: Sign, digits: string)

  datatype JsonNumber = JsonNumber(integer: string, fraction: Option<string>, exponent: Option<Exponent>)

  predicate Valid(n: JsonNumber) {
    && n.integer != "" && Digits(n.integer)
    && (n.fraction.Some? ==> n.fraction.value != "" && Digits(n.fraction.value))
    && (n.exponent.Some? ==> n.exponent.value.digits != "" && Digits(n.exponent.value.digits))
  }

  function SignText(s: Sign): string {
    match s
    case Unsigned => ""
    case Plus => "+"
    case Minus => "-"
  }

  function Mantissa(n: JsonNumber): string {
    if n.fraction.Some? then n.integer + "." + n.fraction.value else n.integer
  }

  function Letter(e: Exponent): char { if e.upper then 'E' else 'e' }

  // A non-negative number as JSON writes it.
  function Text(n: JsonNumber): string {
    if n.exponent.Some? then
      Mantissa(n) + [Letter(n.exponent.value)] + (SignText(n.exponent.value.sign) + n.exponent.value.digits)
    else Mantissa(n)
  }

  function FractionOf(n: JsonNumber): string {
    if n.fraction.Some? then n.fraction.value else ""
  }

  function ExponentOf(e: Exponent): int
    requires Digits(e.digits)
  {
    var value: int := Number(e.digits);
    if e.sign == Minus then -value else value
  }

  // The number is Coefficient scaled by ten to the Scale.
  function Coefficient(n: JsonNumber): nat
    requires Valid(n)
  {
    Number(n.integer + FractionOf(n))
  }

  // ---- the parser ----------------------------------------------------------------------------

  const MIN_EXPONENT := -0x8000_0000
  const MAX_EXPONENT := 0x7FFF_FFFF

  function ParseExponent(s: string): Option<int> {
    var negative := s != "" && s[0] == '-';
    var digits := if s != "" && (s[0] == '-' || s[0] == '+') then s[1..] else s;
    if digits == "" || !Digits(digits) then None
    else
      var magnitude: int := Number(digits);
      var value := if negative then -magnitude else magnitude;
      if MIN_EXPONENT <= value <= MAX_EXPONENT then Some(value) else None
  }

  // Writes significant digits as a plain decimal with the point at a position, or refuses.
  function Plain(digits: string, position: int): Result<string, Fault> {
    if position <= 0 then
      (if -position + |digits| > PLACES then Err(TooPrecise) else Ok("0." + Zeros(-position) + digits))
    else if position >= |digits| then
      (if position > MAX_INTEGER_PLACES then Err(TooLarge) else Ok(digits + Zeros(position - |digits|)))
    else
      (if |digits| - position > PLACES then Err(TooPrecise) else Ok(digits[..position] + "." + digits[position..]))
  }

  function Expand(mantissa: string, exponent: int): Result<string, Fault> {
    var (integer, fraction, hasFraction) := Cut(mantissa, '.');
    if integer == "" || (hasFraction && fraction == "") then Err(BadDecimal)
    else
      var digits := integer + fraction;
      var significant := Trimmed(digits);
      if significant == "" then Ok("0")
      else
        var leadingZeros := |digits| - |significant|;
        Plain(TrimmedRight(significant), |integer| - leadingZeros + exponent)
  }

  function HalfUp(exact: nat, unit: nat): nat
    requires unit > 0
  {
    exact / unit + if 2 * (exact % unit) >= unit then 1 else 0
  }

  // The nearest billionth, the larger one half way; nothing is rounded down to zero.
  function Rounded(m: nat, places: nat): Option<nat> {
    var nearest := HalfUp(m * Pow10(PLACES), Pow10(places));
    if (nearest == 0 && m != 0) || nearest > MAX_AMOUNT then None else Some(nearest)
  }

  function ParseArtifact(value: string): Option<nat> {
    var (integer, fraction, hasFraction) := Cut(value, '.');
    if !hasFraction || 'e' in fraction || 'E' in fraction || |fraction| < ARTIFACT_PLACES then None
    else if !Digits(integer) || !Digits(fraction) then None
    else Rounded(Number(integer + fraction), |fraction|)
  }

  // What a plain decimal, if there is one, is parsed to.
  function Worth(plain: Result<string, Fault>): Result<nat, Fault> {
    match plain
    case Err(fault) => Err(fault)
    case Ok(p) => ParseUSD(p)
  }

  function ParseJsonUSD(value: string): Result<nat, Fault> {
    if "-" <= value then Err(Negative)
    else if ParseArtifact(value).Some? then Ok(ParseArtifact(value).value)
    else
      var lower := Cut(value, 'e');
      var (mantissa, exponentText, hasExponent) := if lower.2 then lower else Cut(value, 'E');
      if !hasExponent then ParseUSD(value)
      else
        var exponent := ParseExponent(exponentText);
        if exponent.None? then Err(BadExponent)
        else
          Worth(Expand(mantissa, exponent.value))
  }

  // ---- expanding an exponent -----------------------------------------------------------------

  // The result is the amount the number is worth, and there is none only if it is worth no amount.
  ghost predicate Exactly(r: Result<nat, Fault>, m: nat, x: int) {
    forall amount: nat :: r == Ok(amount) <==> IsNano(m, x, amount) && amount <= MAX_AMOUNT
  }

  lemma ExactlyScaled(r: Result<nat, Fault>, m: nat, x: int)
    requires x + PLACES >= 0
    requires var a := Scaled(m, x + PLACES); r == if a <= MAX_AMOUNT then Ok(a) else Err(TooLarge)
    ensures Exactly(r, m, x)
  {
  }

  lemma ScaledByTen(m: nat, k: nat)
    requires k > 0
    ensures Scaled(m, k) == 10 * Scaled(m, k - 1)
  {
    assert Pow10(k) == 10 * Pow10(k - 1);
    Regroup(m, 10, Pow10(k - 1));
    Regroup(10, m, Pow10(k - 1));
    assert m * 10 == 10 * m;
  }

  // More than nine places cannot be written in nine when the last digit counts.
  lemma TooManyPlaces(digits: string, x: int, amount: nat)
    requires Digits(digits) && digits != "" && digits[|digits| - 1] != '0' && x + PLACES < 0
    ensures !IsNano(Number(digits), x, amount)
  {
    hide Number, Scaled;
    LastDigit(digits);
    ScaledByTen(amount, -x - PLACES);
  }

  lemma ExactlyNone(r: Result<nat, Fault>, digits: string, x: int)
    requires Digits(digits) && digits != "" && digits[|digits| - 1] != '0' && x + PLACES < 0 && r.Err?
    ensures Exactly(r, Number(digits), x)
  {
    hide IsNano;
    forall amount: nat ensures !IsNano(Number(digits), x, amount) {
      TooManyPlaces(digits, x, amount);
    }
  }

  lemma ZeroThen(s: string)
    requires Digits(s)
    ensures Digits("0" + s) && Number("0" + s) == Number(s)
  {
    assert ("0" + s)[1..] == s;
  }

  lemma LeadingZeros(digits: string, n: nat)
    requires Digits(digits)
    ensures Digits(Zeros(n) + digits) && Digits("0" + (Zeros(n) + digits))
    ensures Number("0" + (Zeros(n) + digits)) == Number(digits)
  {
    hide Number;
    NumberConcat(Zeros(n), digits);
    ZerosNumber(n);
    ZeroThen(Zeros(n) + digits);
  }

  lemma PlainFraction(digits: string, position: int)
    requires Digits(digits) && digits != "" && digits[|digits| - 1] != '0' && position <= 0
    ensures Exactly(Worth(Plain(digits, position)), Number(digits), position - |digits|)
  {
    hide Number, ParseUSD, Scaled, Exactly;
    if -position + |digits| > PLACES {
      ExactlyNone(Worth(Plain(digits, position)), digits, position - |digits|);
    } else {
      var fraction := Zeros(-position) + digits;
      LeadingZeros(digits, -position);
      ParsedPlain("0", fraction);
      assert "0." + Zeros(-position) + digits == "0" + "." + fraction;
      ExactlyScaled(Worth(Plain(digits, position)), Number(digits), position - |digits|);
    }
  }

  lemma PlainMixed(digits: string, position: int)
    requires Digits(digits) && 0 < position < |digits| && digits[|digits| - 1] != '0'
    ensures Exactly(Worth(Plain(digits, position)), Number(digits), position - |digits|)
  {
    hide Number, ParseUSD, Scaled, Exactly;
    if |digits| - position > PLACES {
      ExactlyNone(Worth(Plain(digits, position)), digits, position - |digits|);
    } else {
      ParsedPlain(digits[..position], digits[position..]);
      assert digits[..position] + digits[position..] == digits;
      ExactlyScaled(Worth(Plain(digits, position)), Number(digits), position - |digits|);
    }
  }

  // Thirty-three integer digits are more than any amount holds.
  lemma TooBig(digits: string, zeros: nat)
    requires Digits(digits) && digits != "" && digits[0] != '0' && |digits| + zeros > MAX_INTEGER_PLACES
    ensures Scaled(Number(digits), zeros + PLACES) > MAX_AMOUNT
  {
    assert Trimmed(digits) == digits;
    TrimmedNumber(digits);
    hide Number, Pow10, Trimmed;
    Times(Pow10(|digits| - 1), Number(digits), Pow10(zeros + PLACES));
    PowSum(|digits| - 1, zeros + PLACES);
    Pow10Grows(20, |digits| - 1 + zeros + PLACES);
    TwentyPlaces();
  }

  lemma TwentyPlaces()
    ensures Pow10(20) > MAX_AMOUNT
  {
    FivePlaces();
    hide Pow10;
    PowSum(5, 5);
    PowSum(10, 10);
  }

  lemma FivePlaces()
    ensures Pow10(5) == 100_000
  {
    assert Pow10(3) == 1000;
  }

  lemma ScaledTwice(m: nat, a: nat, b: nat)
    ensures Scaled(Scaled(m, a), b) == Scaled(m, a + b)
  {
    PowSum(a, b);
    Regroup(m, Pow10(a), Pow10(b));
  }

  lemma PlainInteger(digits: string, position: int)
    requires Digits(digits) && digits != "" && digits[0] != '0' && position >= |digits|
    ensures Exactly(Worth(Plain(digits, position)), Number(digits), position - |digits|)
  {
    hide Number, ParseUSD, Scaled;
    var zeros := position - |digits|;
    if position > MAX_INTEGER_PLACES {
      TooBig(digits, zeros);
    } else {
      var integer := digits + Zeros(zeros);
      ParsedPlain(integer, "");
      assert integer + "" == integer;
      PaddedNumber(digits, zeros);
      ScaledTwice(Number(digits), zeros, PLACES);
      ExactlyScaled(Worth(Plain(digits, position)), Number(digits), position - |digits|);
    }
  }

  // The significant digits, with the point at the position, are worth exactly what they say.
  lemma PlainIsExact(digits: string, position: int)
    requires Digits(digits) && digits != "" && digits[0] != '0' && digits[|digits| - 1] != '0'
    ensures Exactly(Worth(Plain(digits, position)), Number(digits), position - |digits|)
  {
    hide Exactly, Worth, Plain;
    if position <= 0 {
      PlainFraction(digits, position);
    } else if position >= |digits| {
      PlainInteger(digits, position);
    } else {
      PlainMixed(digits, position);
    }
  }

  // ---- every number with an exponent ---------------------------------------------------------

  // The digits without their outer zeros, and where the point goes.
  lemma SignificantScale(integer: string, fraction: string, e: int, amount: nat)
    requires Digits(integer) && Digits(fraction)
    requires Trimmed(integer + fraction) != ""
    ensures var digits := integer + fraction;
            var significant := Trimmed(digits);
            var core := TrimmedRight(significant);
            var position := |integer| - (|digits| - |significant|) + e;
            && core != "" && Digits(core) && core[0] != '0' && core[|core| - 1] != '0'
            && (IsNano(Number(digits), e - |fraction|, amount) <==> IsNano(Number(core), position - |core|, amount))
  {
    var digits := integer + fraction;
    TrimmedNumber(digits);
    var significant := Trimmed(digits);
    TrimmedRightNumber(significant);
    FirstStays(significant);
    var core := TrimmedRight(significant);
    Rescaled(Number(core), |significant| - |core|, e - |fraction|, amount);
  }

  lemma {:induction false} FirstStays(s: string)
    requires s != "" && s[0] != '0'
    ensures TrimmedRight(s) != "" && TrimmedRight(s)[0] == s[0]
  {
    if s[|s| - 1] == '0' {
      FirstStays(s[..|s| - 1]);
    }
  }

  lemma ExactlyZero(x: int)
    ensures Exactly(Ok(0), 0, x)
  {
    forall amount: nat ensures IsNano(0, x, amount) <==> amount == 0 {
      if x + PLACES < 0 {
        Cancel(amount, 0, Pow10(-x - PLACES));
      }
    }
  }

  lemma ExactlyRescaled(r: Result<nat, Fault>, integer: string, fraction: string, e: int)
    requires Digits(integer) && Digits(fraction) && Trimmed(integer + fraction) != ""
    requires var digits := integer + fraction;
             var core := TrimmedRight(Trimmed(digits));
             Digits(core) && Exactly(r, Number(core), |integer| - (|digits| - |Trimmed(digits)|) + e - |core|)
    ensures Digits(integer + fraction) && Exactly(r, Number(integer + fraction), e - |fraction|)
  {
    hide IsNano, Number, Trimmed, TrimmedRight;
    forall amount: nat
      ensures r == Ok(amount) <==> IsNano(Number(integer + fraction), e - |fraction|, amount) && amount <= MAX_AMOUNT
    {
      SignificantScale(integer, fraction, e, amount);
    }
  }

  // A mantissa of digits, expanded by an exponent, is worth exactly what it was.
  lemma ExpandIsExact(n: JsonNumber, e: int)
    requires Valid(n)
    ensures Exactly(Worth(Expand(Mantissa(n), e)), Coefficient(n), e - |FractionOf(n)|)
  {
    hide Number, Trimmed, TrimmedRight, Exactly, IsNano, Plain, ParseUSD;
    var f := FractionOf(n);
    if n.fraction.Some? {
      CutAt(n.integer, '.', f);
    } else {
      CutNowhere(n.integer, '.');
    }
    var digits := n.integer + f;
    TrimmedNumber(digits);
    if Trimmed(digits) == "" {
      NothingIsZero();
      ExactlyZero(e - |f|);
    } else {
      var core := TrimmedRight(Trimmed(digits));
      SignificantScale(n.integer, f, e, 0);
      PlainIsExact(core, |n.integer| - (|digits| - |Trimmed(digits)|) + e);
      ExactlyRescaled(Worth(Expand(Mantissa(n), e)), n.integer, f, e);
    }
  }

  lemma NothingIsZero()
    ensures ParseUSD("0") == Ok(0) && Number("") == 0
  {
    ParsedPlain("0", "");
    assert "0" + "" == "0";
    OneDigit("0");
  }

  lemma ExponentText(e: Exponent)
    requires e.digits != "" && Digits(e.digits)
    ensures ParseExponent(SignText(e.sign) + e.digits) ==
            if MIN_EXPONENT <= ExponentOf(e) <= MAX_EXPONENT then Some(ExponentOf(e)) else None
  {
    var s := SignText(e.sign) + e.digits;
    if e.sign == Unsigned {
      assert s == e.digits;
    } else {
      assert s[1..] == e.digits;
    }
  }

  // Cutting the text at its letter gives back the mantissa and the exponent.
  lemma TextParts(n: JsonNumber)
    requires Valid(n) && n.exponent.Some?
    ensures var e := n.exponent.value;
            var cut := (Mantissa(n), SignText(e.sign) + e.digits, true);
            && !("-" <= Text(n))
            && (!e.upper ==> Cut(Text(n), 'e') == cut)
            && (e.upper ==> !Cut(Text(n), 'e').2 && Cut(Text(n), 'E') == cut)
  {
    var e := n.exponent.value;
    var rest := SignText(e.sign) + e.digits;
    assert 'e' !in Mantissa(n) && 'E' !in Mantissa(n) && 'e' !in rest;
    CutAt(Mantissa(n), Letter(e), rest);
    assert Text(n)[0] == n.integer[0];
    if e.upper {
      assert 'e' !in Text(n);
      CutNowhere(Text(n), 'e');
    }
  }

  lemma NoArtifact(n: JsonNumber)
    requires Valid(n) && n.exponent.Some?
    ensures ParseArtifact(Text(n)).None?
  {
    hide Rounded, Number, Cut;
    var e := n.exponent.value;
    var rest := SignText(e.sign) + e.digits;
    if n.fraction.Some? {
      CutAt(n.integer, '.', n.fraction.value + [Letter(e)] + rest);
      assert Text(n) == n.integer + "." + (n.fraction.value + [Letter(e)] + rest);
      assert Letter(e) in n.fraction.value + [Letter(e)] + rest;
    } else {
      assert '.' !in Text(n);
      CutNowhere(Text(n), '.');
    }
  }

  // For every JSON number with an exponent: the parser's amount is the number's exact worth in
  // billionths, and it fails only when there is no such amount or the exponent is out of range.
  lemma ExponentNumbersAreExact(n: JsonNumber)
    requires Valid(n) && n.exponent.Some?
    ensures var e := ExponentOf(n.exponent.value);
            if MIN_EXPONENT <= e <= MAX_EXPONENT
            then Exactly(ParseJsonUSD(Text(n)), Coefficient(n), e - |FractionOf(n)|)
            else ParseJsonUSD(Text(n)) == Err(BadExponent)
  {
    hide Text, Expand, Worth, ParseArtifact, Exactly, ParseExponent, Number;
    TextParts(n);
    NoArtifact(n);
    ExponentText(n.exponent.value);
    ExpandIsExact(n, ExponentOf(n.exponent.value));
  }

  // ---- long fractions --------------------------------------------------------------------------

  // No billionth is nearer than the one chosen, and of two equally near ones it is the larger.
  lemma RoundedIsNearest(m: nat, places: nat, other: nat)
    ensures var r := Rounded(m, places);
            var exact, unit := m * Pow10(PLACES), Pow10(places);
            r.Some? ==>
              && Distance(exact, r.value * unit) <= Distance(exact, other * unit)
              && (Distance(exact, r.value * unit) == Distance(exact, other * unit) ==> other <= r.value)
              && (r.value == 0 ==> m == 0) && r.value <= MAX_AMOUNT
  {
    hide HalfUp, Pow10, Distance;
    HalfUpIsNearest(m * Pow10(PLACES), Pow10(places), other);
  }

  // There is none only for a price that is not zero but nearer to it than to a billionth, and for one from
  // half a billionth beyond the largest amount on.
  lemma RoundedExists(m: nat, places: nat)
    ensures var exact, unit := m * Pow10(9), Pow10(places);
            Rounded(m, places).None? <==> (m != 0 && 2 * exact < unit) || 2 * exact >= (2 * MAX_AMOUNT + 1) * unit
  {
    hide Pow10;
    var exact, unit := m * Pow10(9), Pow10(places);
    var q, rest := exact / unit, exact % unit;
    assert exact == q * unit + rest;
    HalfWay(exact, unit, q, rest, MAX_AMOUNT);
    HalfWay(exact, unit, q, rest, 0);
  }

  // The rounded quotient is more than a number exactly from half a unit beyond it on.
  lemma HalfWay(exact: nat, unit: nat, q: nat, rest: nat, limit: nat)
    requires unit > 0 && exact == q * unit + rest && rest < unit
    ensures (if 2 * rest >= unit then q + 1 else q) > limit <==> 2 * exact >= (2 * limit + 1) * unit
  {
    Distribute(2 * limit, 1, unit);
    Regroup(2, limit, unit);
    if q > limit {
      Times(limit + 1, q, unit);
      Distribute(limit, 1, unit);
    } else if q < limit {
      Times(q + 1, limit, unit);
      Distribute(q, 1, unit);
    }
  }

  lemma HalfUpIsNearest(exact: nat, unit: nat, other: nat)
    requires unit > 0
    ensures var r := HalfUp(exact, unit);
            && Distance(exact, r * unit) <= Distance(exact, other * unit)
            && (Distance(exact, r * unit) == Distance(exact, other * unit) ==> other <= r)
  {
    var q, rest := exact / unit, exact % unit;
    assert exact == q * unit + rest;
    Nearest(exact, unit, q, rest, HalfUp(exact, unit), other);
  }

  function Distance(a: int, b: int): nat { if a <= b then b - a else a - b }

  lemma Nearest(exact: nat, unit: nat, q: nat, rest: nat, r: nat, other: nat)
    requires unit > 0 && exact == q * unit + rest && rest < unit
    requires r == if 2 * rest >= unit then q + 1 else q
    ensures Distance(exact, r * unit) <= Distance(exact, other * unit)
    ensures Distance(exact, r * unit) == Distance(exact, other * unit) ==> other <= r
  {
    Distribute(q, 1, unit);
    if other < q {
      Times(other + 1, q, unit);
      Distribute(other, 1, unit);
    } else if other > q + 1 {
      Times(q + 2, other, unit);
      Distribute(q + 1, 1, unit);
    }
  }

  // A plain number with a long fraction: its nearest billionth, or an error when that would be
  // zero for a price that is not, or more than an amount holds.
  lemma LongFractionsAreRounded(n: JsonNumber)
    requires Valid(n) && n.exponent.None? && n.fraction.Some? && |n.fraction.value| >= ARTIFACT_PLACES
    ensures var r := Rounded(Coefficient(n), |n.fraction.value|);
            ParseJsonUSD(Text(n)) == if r.Some? then Ok(r.value) else Err(TooPrecise)
  {
    hide Rounded, Number;
    var f := n.fraction.value;
    CutAt(n.integer, '.', f);
    assert Text(n) == n.integer + "." + f;
    assert 'e' !in Text(n) && 'E' !in Text(n);
    CutNowhere(Text(n), 'e');
    CutNowhere(Text(n), 'E');
    assert Text(n)[0] == n.integer[0];
  }

  // A plain number with a short fraction is worth exactly what it says, if that takes at most
  // nine places.
  lemma ShortFractionsAreExact(n: JsonNumber)
    requires Valid(n) && n.exponent.None? && |FractionOf(n)| < ARTIFACT_PLACES
    ensures if |FractionOf(n)| <= PLACES
            then Exactly(ParseJsonUSD(Text(n)), Coefficient(n), -|FractionOf(n)|)
            else ParseJsonUSD(Text(n)) == Err(TooPrecise)
  {
    hide Rounded, Number, Exactly, Scaled;
    var f := FractionOf(n);
    if n.fraction.Some? {
      CutAt(n.integer, '.', f);
    } else {
      CutNowhere(n.integer, '.');
    }
    assert 'e' !in Text(n) && 'E' !in Text(n);
    CutNowhere(Text(n), 'e');
    CutNowhere(Text(n), 'E');
    assert Text(n)[0] == n.integer[0];
    if |f| <= PLACES {
      ParsedPlain(n.integer, f);
      ExactlyScaled(ParseJsonUSD(Text(n)), Coefficient(n), -|f|);
    }
  }
}
