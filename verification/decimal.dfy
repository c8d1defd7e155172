/** Unsigned decimal numbers as text: how they are printed, and what the parser accepts. */
module Decimal {
  import opened Bytes
  import opened Domain
  import opened Records

  const PLUS: Byte := 43

  /** The value of one digit. */
  function DigitValue(b: Byte): nat
    requires IsDigit(b)
  {
    b - 48
  }

  predicate AllDigits(s: Text) {
    forall i :: 0 <= i < |s| ==> IsDigit(s[i])
  }

  /** The number a run of digits denotes. */
  function Value(s: Text): (n: nat)
    requires AllDigits(s)
  {
    if s == [] then 0 else Value(s[..|s| - 1]) * 10 + DigitValue(s[|s| - 1])
  }

  /** Decimal digits, most significant first and without leading zeros. */
  function Digits(n: nat): (s: Text)
    ensures |s| > 0 && AllDigits(s)
  {
    if n < 10 then [48 + n] else Digits(n / 10) + [48 + n % 10]
  }

  /** Parsing into an unsigned integer type with largest value `max`: one optional plus sign, then at least one
      digit, leading zeros allowed, no overflow. */
  function Parse(s: Text, max: nat): Option<nat> {
    var digits := if |s| > 1 && s[0] == PLUS then s[1..] else s;
    if digits == [] || !AllDigits(digits) || Value(digits) > max then None else Some(Value(digits))
  }

  lemma {:induction false} ValueOfDigits(n: nat)
    ensures Value(Digits(n)) == n
  {
    if n >= 10 {
      ValueOfDigits(n / 10);
      assert Digits(n)[..|Digits(n)| - 1] == Digits(n / 10);
    }
  }

  /** What is printed parses back, up to the type's range. */
  lemma ParsePrinted(n: nat, max: nat)
    ensures Parse(Digits(n), max) == if n <= max then Some(n) else None
  {
    ValueOfDigits(n);
    assert IsDigit(Digits(n)[0]);
  }

  /** Different numbers print differently. */
  lemma PrintedUniquely(m: nat, n: nat)
    requires Digits(m) == Digits(n)
    ensures m == n
  {
    ValueOfDigits(m);
    ValueOfDigits(n);
  }
}
