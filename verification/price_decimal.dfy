/**
  Prices of the catalog: JSON numbers (section 6 of RFC 8259) turned into billionths of a dollar by
  arithmetic on their digits.
*/
module PriceDecimal {
  import opened Wrappers
  import opened Arithmetic
  import opened TextOrder

  const MAX_AMOUNT: nat := 0x7FFF_FFFF_FFFF_FFFF
  const PLACES := 9
  const ARTIFACT_PLACES := 15
  const MAX_INTEGER_PLACES := 32

  datatype Fault = Negative | BadExponent | BadDecimal | TooPrecise | TooLarge

  // ---- numbers of digit strings ------------------------------------------------------------

  lemma {:induction false} PowSum(m: nat, n: nat)
    ensures Pow10(m + n) == Pow10(m) * Pow10(n)
  {
    if m > 0 {
      PowSum(m - 1, n);
      Regroup(10, Pow10(m - 1), Pow10(n));
    }
  }

  lemma {:induction false} NumberConcat(a: string, b: string)
    requires Digits(a) && Digits(b)
    ensures Digits(a + b) && Number(a + b) == Number(a) * Pow10(|b|) + Number(b)
  {
    if a == "" {
      assert a + b == b;
    } else {
      NumberConcat(a[1..], b);
      PowSum(|a| - 1, |b|);
      FrontDigit(a, b);
      Shift(Digit(a[0]), Pow10(|a| - 1), Pow10(|b|), Number(a[1..]));
    }
  }

  lemma FrontDigit(a: string, b: string)
    requires Digits(a) && Digits(b) && a != ""
    ensures Digits(a + b) && Number(a + b) == Digit(a[0]) * Pow10(|a| - 1 + |b|) + Number(a[1..] + b)
  {
    assert (a + b)[1..] == a[1..] + b;
  }

  lemma Shift(d: nat, p: nat, q: nat, x: nat)
    ensures (d * p + x) * q == d * (p * q) + x * q
  {
    Distribute(d * p, x, q);
    Regroup(d, p, q);
  }

  function Zeros(n: nat): (z: string)
    ensures |z| == n && Digits(z)
  {
    if n == 0 then "" else ['0'] + Zeros(n - 1)
  }

  lemma {:induction false} ZerosNumber(n: nat)
    ensures Number(Zeros(n)) == 0
  {
    if n > 0 {
      ZerosNumber(n - 1);
      assert Zeros(n)[1..] == Zeros(n - 1);
    }
  }

  function TrimmedRight(s: string): (t: string)
    ensures |t| <= |s| && t == s[..|t|]
    ensures t != "" ==> t[|t| - 1] != '0'
  {
    if s != "" && s[|s| - 1] == '0' then TrimmedRight(s[..|s| - 1]) else s
  }

  // One more digit at the end.
  lemma LastDigit(s: string)
    requires Digits(s) && s != ""
    ensures Number(s) == 10 * Number(s[..|s| - 1]) + Digit(s[|s| - 1])
  {
    hide Number, Pow10;
    var init, last := s[..|s| - 1], s[|s| - 1..];
    assert s == init + last;
    NumberConcat(init, last);
    OneDigit(last);
  }

  lemma OneDigit(s: string)
    requires Digits(s) && |s| == 1
    ensures Number(s) == Digit(s[0]) && Pow10(1) == 10
  {
    assert s[1..] == "" && Pow10(0) == 1;
  }

  // Trailing zeros are factors of ten.
  lemma {:induction false} TrimmedRightNumber(s: string)
    requires Digits(s)
    ensures Digits(TrimmedRight(s))
    ensures Number(s) == Number(TrimmedRight(s)) * Pow10(|s| - |TrimmedRight(s)|)
  {
    if s != "" && s[|s| - 1] == '0' {
      var init := s[..|s| - 1];
      TrimmedRightNumber(init);
      LastDigit(s);
      hide Number;
      var k, t := |init| - |TrimmedRight(init)|, Number(TrimmedRight(init));
      assert Pow10(k + 1) == 10 * Pow10(k);
      Regroup(t, Pow10(k), 10);
    }
  }

  // ---- the exact amount --------------------------------------------------------------------

  function Scaled(m: nat, n: nat): nat { m * Pow10(n) }

  // The number m, scaled by ten to the x, is exactly this many billionths.
  predicate IsNano(m: nat, x: int, amount: nat) {
    if x + PLACES >= 0 then amount == Scaled(m, x + PLACES) else m == Scaled(amount, -x - PLACES)
  }

  // Moving factors of ten between the number and the scale changes nothing.
  lemma Rescaled(m: nat, z: nat, x: int, amount: nat)
    ensures IsNano(m * Pow10(z), x, amount) <==> IsNano(m, x + z, amount)
  {
    hide Pow10;
    if x + PLACES >= 0 {
      PowSum(z, x + PLACES);
      Regroup(m, Pow10(z), Pow10(x + PLACES));
    } else if x + z + PLACES >= 0 {
      var up, down := x + z + PLACES, -x - PLACES;
      PowSum(up, down);
      Regroup(m, Pow10(up), Pow10(down));
      Cancel(m * Pow10(up), amount, Pow10(down));
    } else {
      var down := -x - z - PLACES;
      PowSum(down, z);
      Regroup(amount, Pow10(down), Pow10(z));
      Cancel(m, amount * Pow10(down), Pow10(z));
    }
  }

  // ---- plain decimals ----------------------------------------------------------------------

  function Cut(s: string, c: char): (r: (string, string, bool))
    ensures r.2 ==> s == r.0 + [c] + r.1 && c !in r.0
    ensures !r.2 ==> r.0 == s && r.1 == "" && c !in s
  {
    if s == "" then ("", "", false)
    else if s[0] == c then ("", s[1..], true)
    else
      var (a, b, found) := Cut(s[1..], c);
      ([s[0]] + a, b, found)
  }

  lemma {:induction false} CutAt(a: string, c: char, b: string)
    requires c !in a
    ensures Cut(a + [c] + b, c) == (a, b, true)
  {
    if a != "" {
      assert (a + [c] + b)[1..] == a[1..] + [c] + b;
      assert (a + [c] + b)[0] == a[0];
      CutAt(a[1..], c, b);
      assert [a[0]] + a[1..] == a;
    } else {
      assert (a + [c] + b)[1..] == b;
    }
  }

  lemma CutNowhere(s: string, c: char)
    requires c !in s
    ensures Cut(s, c) == (s, "", false)
  {
  }

  // Parses a plain decimal with at most nine places.
  function ParseUSD(value: string): Result<nat, Fault> {
    var (integer, fraction, hasFraction) := Cut(value, '.');
    if integer == "" || (hasFraction && fraction == "") || |fraction| > PLACES then Err(TooPrecise)
    else if !Digits(integer) || !Digits(fraction) then Err(BadDecimal)
    else
      var digits := integer + fraction + Zeros(PLACES - |fraction|);
      if Number(digits) <= MAX_AMOUNT then Ok(Number(digits)) else Err(TooLarge)
  }

  lemma PaddedNumber(digits: string, n: nat)
    requires Digits(digits)
    ensures Digits(digits + Zeros(n)) && Number(digits + Zeros(n)) == Scaled(Number(digits), n)
  {
    hide Number, Pow10, Zeros;
    NumberConcat(digits, Zeros(n));
    ZerosNumber(n);
  }

  // What a plain decimal is worth.
  lemma ParsedPlain(integer: string, fraction: string)
    requires Digits(integer) && integer != "" && Digits(fraction) && |fraction| <= PLACES
    ensures Digits(integer + fraction)
    ensures var amount := Scaled(Number(integer + fraction), PLACES - |fraction|);
            var r := if amount <= MAX_AMOUNT then Ok(amount) else Err(TooLarge);
            && (fraction != "" ==> ParseUSD(integer + "." + fraction) == r)
            && (fraction == "" ==> ParseUSD(integer) == r)
  {
    hide Number, Cut, Zeros, Scaled;
    PaddedNumber(integer + fraction, PLACES - |fraction|);
    if fraction != "" {
      CutAt(integer, '.', fraction);
    } else {
      CutNowhere(integer, '.');
    }
  }

  // A decimal with at most nine places after the point, if it has one.
  predicate PlainDecimal(value: string, integer: string, fraction: string) {
    && integer != "" && Digits(integer) && Digits(fraction) && |fraction| <= 9
    && value == if fraction == "" then integer else integer + "." + fraction
  }

  // The decimal is worth this many billionths, and an amount holds them.
  predicate WorthOf(value: string, integer: string, fraction: string, amount: nat) {
    && PlainDecimal(value, integer, fraction) && Digits(integer + fraction)
    && amount == Scaled(Number(integer + fraction), 9 - |fraction|) <= MAX_AMOUNT
  }

  lemma PartsOf(value: string, amount: nat)
    requires ParseUSD(value) == Ok(amount)
    ensures var (integer, fraction, _) := Cut(value, '.'); PlainDecimal(value, integer, fraction)
  {
    hide Number, Zeros;
  }

  // Of all texts exactly the plain decimals that fit are accepted, each for what it is worth.
  lemma OnlyPlainDecimals(value: string, amount: nat)
    ensures ParseUSD(value) == Ok(amount) <==> exists integer, fraction :: WorthOf(value, integer, fraction, amount)
  {
    hide Number, ParseUSD, Scaled, Cut;
    if ParseUSD(value) == Ok(amount) {
      var (integer, fraction, _) := Cut(value, '.');
      PartsOf(value, amount);
      ParsedPlain(integer, fraction);
      assert WorthOf(value, integer, fraction, amount);
    }
    if integer, fraction :| WorthOf(value, integer, fraction, amount) {
      ParsedPlain(integer, fraction);
    }
  }
}
