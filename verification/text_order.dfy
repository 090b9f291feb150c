/** The order of strings by code unit, and digit strings as numbers. */
module TextOrder {
  import opened Arithmetic

  predicate Below(a: string, b: string) {
    if b == "" then false
    else if a == "" then true
    else if a[0] != b[0] then a[0] < b[0]
    else Below(a[1..], b[1..])
  }

  lemma {:induction false} BelowTotal(a: string, b: string)
    ensures a != b ==> Below(a, b) || Below(b, a)
    ensures !(Below(a, b) && Below(b, a))
  {
    if a != "" && b != "" && a[0] == b[0] {
      BelowTotal(a[1..], b[1..]);
      assert a == [a[0]] + a[1..] && b == [b[0]] + b[1..];
    }
  }

  lemma {:induction false} BelowTransitive(a: string, b: string, c: string)
    requires Below(a, b) && Below(b, c)
    ensures Below(a, c)
  {
    if a != "" && a[0] == b[0] == c[0] {
      BelowTransitive(a[1..], b[1..], c[1..]);
    }
  }

  // ---- digits ------------------------------------------------------------------------------

  predicate IsDigit(c: char) { '0' <= c <= '9' }

  predicate Digits(s: string) {
    forall i :: 0 <= i < |s| ==> IsDigit(s[i])
  }

  function Digit(c: char): nat
    requires IsDigit(c)
  {
    c as int - '0' as int
  }

  function Pow10(n: nat): (p: nat)
    ensures p > 0
  {
    if n == 0 then 1 else 10 * Pow10(n - 1)
  }

  // The number a digit string writes, however long.
  function Number(s: string): nat
    requires Digits(s)
  {
    if s == "" then 0 else Digit(s[0]) * Pow10(|s| - 1) + Number(s[1..])
  }

  lemma {:induction false} NumberBound(s: string)
    requires Digits(s)
    ensures Number(s) < Pow10(|s|)
  {
    if s != "" {
      NumberBound(s[1..]);
      Times(Digit(s[0]), 9, Pow10(|s| - 1));
    }
  }

  // Strings of the same length compare as their numbers do.
  lemma {:induction false} SameLength(a: string, b: string)
    requires Digits(a) && Digits(b) && |a| == |b|
    ensures Below(a, b) <==> Number(a) < Number(b)
    ensures a == b <==> Number(a) == Number(b)
  {
    if a != "" {
      SameLength(a[1..], b[1..]);
      var p := Pow10(|a| - 1);
      NumberBound(a[1..]);
      NumberBound(b[1..]);
      if Digit(a[0]) < Digit(b[0]) {
        FirstDigit(Digit(a[0]), Digit(b[0]), p, Number(a[1..]), Number(b[1..]));
      } else if Digit(b[0]) < Digit(a[0]) {
        FirstDigit(Digit(b[0]), Digit(a[0]), p, Number(b[1..]), Number(a[1..]));
      } else {
        assert a == [a[0]] + a[1..] && b == [b[0]] + b[1..];
      }
    }
  }

  lemma FirstDigit(d: nat, e: nat, p: nat, x: nat, y: nat)
    requires d < e && x < p
    ensures d * p + x < e * p + y
  {
    Times(d + 1, e, p);
    assert (d + 1) * p == d * p + p;
  }

  function Trimmed(s: string): string {
    if s != "" && s[0] == '0' then Trimmed(s[1..]) else s
  }

  lemma {:induction false} TrimmedNumber(s: string)
    requires Digits(s)
    ensures Digits(Trimmed(s)) && Number(Trimmed(s)) == Number(s)
    ensures Trimmed(s) != "" ==> Trimmed(s)[0] != '0' && Number(s) >= Pow10(|Trimmed(s)| - 1)
  {
    if s != "" && s[0] == '0' {
      TrimmedNumber(s[1..]);
    } else if s != "" {
      Times(1, Digit(s[0]), Pow10(|s| - 1));
    }
  }

  lemma {:induction false} Pow10Grows(m: nat, n: nat)
    requires m <= n
    ensures Pow10(m) <= Pow10(n)
  {
    if m < n {
      Pow10Grows(m, n - 1);
    }
  }

  // A digit string with a leading digit that counts is larger than any shorter one.
  lemma LongerIsLarger(a: string, b: string)
    requires Digits(a) && Digits(b) && |Trimmed(a)| > |Trimmed(b)|
    ensures Number(a) > Number(b)
  {
    TrimmedNumber(a);
    TrimmedNumber(b);
    NumberBound(Trimmed(b));
    Pow10Grows(|Trimmed(b)|, |Trimmed(a)| - 1);
  }

  // Comparing first by length without leading zeros, then by text, is comparing the numbers.
  predicate LargerDigits(a: string, b: string) {
    var x, y := Trimmed(a), Trimmed(b);
    if |x| != |y| then |x| > |y| else Below(y, x)
  }

  lemma DigitsCompareAsNumbers(a: string, b: string)
    requires Digits(a) && Digits(b)
    ensures LargerDigits(a, b) <==> Number(a) > Number(b)
    ensures Trimmed(a) == Trimmed(b) <==> Number(a) == Number(b)
  {
    TrimmedNumber(a);
    TrimmedNumber(b);
    if |Trimmed(a)| > |Trimmed(b)| {
      LongerIsLarger(a, b);
    } else if |Trimmed(b)| > |Trimmed(a)| {
      LongerIsLarger(b, a);
    } else {
      SameLength(Trimmed(a), Trimmed(b));
      SameLength(Trimmed(b), Trimmed(a));
    }
  }
}
