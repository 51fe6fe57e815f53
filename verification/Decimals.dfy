/** Decimal numerals, read and written. */
module Decimals {
  import opened Options

  predicate IsDigit(c: char) { '0' <= c <= '9' }

  function DigitValue(c: char): nat
    requires IsDigit(c)
  {
    (c - '0') as nat
  }

  function Decimal(s: string): Option<nat> {
    if s == [] || !IsDigit(s[|s|-1]) then None
    else if |s| == 1 then Some(DigitValue(s[0]))
    else match Decimal(s[..|s|-1])
      case None => None
      case Some(n) => Some(10 * n + DigitValue(s[|s|-1]))
  }

  /** A decimal number with an optional sign. */
  function Atoi(s: string): Option<int> {
    if s == [] then None
    else if s[0] == '+' || s[0] == '-' then
      match Decimal(s[1..])
      case None => None
      case Some(n) => var i: int := n; Some(if s[0] == '-' then -i else i)
    else
      match Decimal(s)
      case None => None
      case Some(n) => Some(n)
  }

  function Itoa(n: nat): (s: string)
    ensures |s| >= 1 && forall i :: 0 <= i < |s| ==> IsDigit(s[i])
  {
    if n < 10 then ['0' + n as char] else Itoa(n / 10) + ['0' + (n % 10) as char]
  }

  lemma {:induction false} DecimalRoundTrip(n: nat)
    ensures Decimal(Itoa(n)) == Some(n)
    decreases n
  {
    if n >= 10 {
      DecimalRoundTrip(n / 10);
      assert Itoa(n)[..|Itoa(n)|-1] == Itoa(n / 10);
    }
  }

  lemma AtoiRoundTrip(n: nat)
    ensures Atoi(Itoa(n)) == Some(n)
  {
    DecimalRoundTrip(n);
    assert IsDigit(Itoa(n)[0]);
  }

  const DIGITS := "0123456789"

  /** What is read as a natural number: one or more of the ten digits. */
  lemma {:induction false} DecimalIff(s: string)
    ensures Decimal(s).Some? <==> s != [] && forall i :: 0 <= i < |s| ==> s[i] in DIGITS
    decreases |s|
  {
    if s != [] {
      TenDigits(s[|s|-1]);
      if |s| == 1 {
        TenDigits(s[0]);
      } else {
        DecimalIff(s[..|s|-1]);
      }
    }
  }

  lemma TenDigits(c: char)
    ensures IsDigit(c) <==> c in DIGITS
  {
    if IsDigit(c) {
      assert DIGITS[c as int - '0' as int] == c;
    }
  }

  /** What is read as an integer: digits with or without a sign before them, and a minus negates. */
  lemma AtoiIff(s: string)
    ensures Atoi(s).Some? <==> Decimal(Unsigned(s)).Some?
    ensures Atoi(s).Some? ==> Atoi(s).value == Sign(s) * Decimal(Unsigned(s)).value
  {
  }

  function Sign(s: string): int {
    if s != [] && s[0] == '-' then -1 else 1
  }

  /** The text behind a sign. */
  function Unsigned(s: string): string {
    if s != [] && s[0] in "+-" then s[1..] else s
  }
}
