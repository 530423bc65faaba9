/** Decimal formatting of integers, and its inverse. */
module Decimals {
  import opened Text
  import opened Versions

  function DigitChar(d: nat): (c: char)
    requires d <= 9
    ensures '0' <= c <= '9' && DigitValue(c) == d
  {
    (d + '0' as int) as char
  }

  function Decimal(n: nat): (s: string)
    ensures s != "" && AsciiDigits(s)
  {
    if n < 10 then [DigitChar(n)] else Decimal(n / 10) + [DigitChar(n % 10)]
  }

  function FormatInt(n: int): string {
    if n < 0 then "-" + Decimal(-n) else Decimal(n)
  }

  function ParseInt(s: string): int {
    if s != "" && s[0] == '-' then -DecimalValue(s[1..]) else DecimalValue(s)
  }

  function DecimalValue(s: string): int {
    if AsciiDigits(s) then Value(s) else 0
  }

  lemma {:induction false} ValueSnoc(s: string, c: char)
    requires AsciiDigits(s) && '0' <= c <= '9'
    ensures AsciiDigits(s + [c]) && Value(s + [c]) == 10 * Value(s) + DigitValue(c)
  {
    hide Value;
    if s == "" {
      SingleDigit(c);
      assert s + [c] == [c];
    } else {
      ValueSnoc(s[1..], c);
      assert (s + [c])[1..] == s[1..] + [c];
      ValueStep(s + [c]);
      ValueStep(s);
      ShiftDigit(DigitValue(s[0]), Pow10(|s| - 1), Value(s[1..]), DigitValue(c));
    }
  }

  lemma SingleDigit(c: char)
    requires '0' <= c <= '9'
    ensures Value([c]) == DigitValue(c) && Value("") == 0
  {
    assert Pow10(0) == 1;
  }

  lemma ValueStep(s: string)
    requires s != "" && AsciiDigits(s)
    ensures Value(s) == DigitValue(s[0]) * Pow10(|s| - 1) + Value(s[1..])
  {
  }

  lemma ShiftDigit(d: int, p: int, v: int, w: int)
    ensures d * (10 * p) + (10 * v + w) == 10 * (d * p + v) + w
  {
  }

  lemma {:induction false} DecimalRoundTrip(n: nat)
    ensures Value(Decimal(n)) == n
  {
    if n >= 10 {
      DecimalRoundTrip(n / 10);
      ValueSnoc(Decimal(n / 10), DigitChar(n % 10));
    }
  }

  lemma FormatIntRoundTrip(n: int)
    ensures ParseInt(FormatInt(n)) == n
    ensures Lacks(FormatInt(n), ':') && Lacks(FormatInt(n), '\n')
  {
    DecimalRoundTrip(if n < 0 then -n else n);
    assert n < 0 ==> FormatInt(n)[1..] == Decimal(-n);
  }
}
