/** Decimal text of integers, as Java's `Integer.toString` writes it: an
    optional '-' followed by the digits, most significant first, with no
    leading zeros. `Parse` is its reference inverse. */
module Decimal {

  predicate IsDigit(c: char) {
    '0' <= c <= '9'
  }

  function DigitChar(d: nat): (c: char)
    requires d < 10
    ensures IsDigit(c) && (c as int) - ('0' as int) == d
  {
    ['0', '1', '2', '3', '4', '5', '6', '7', '8', '9'][d]
  }

  function DigitValue(c: char): (d: nat)
    requires IsDigit(c)
    ensures d < 10
  {
    (c as int) - ('0' as int)
  }

  /** The decimal digits of `n`, most significant first. */
  function NatText(n: nat): (s: string)
    ensures |s| > 0
    ensures forall k :: 0 <= k < |s| ==> IsDigit(s[k])
    ensures |s| > 1 ==> s[0] != '0'
    ensures n > 0 ==> s[0] != '0'
    decreases n
  {
    if n < 10 then [DigitChar(n)] else NatText(n / 10) + [DigitChar(n % 10)]
  }

  /** `Integer.toString(n)`. */
  function Text(n: int): (s: string)
    ensures |s| > 0
    ensures s[0] == '-' <==> n < 0
    ensures forall k :: (if n < 0 then 1 else 0) <= k < |s| ==> IsDigit(s[k])
    // no leading zero: "0" is the only text starting with '0', and "-0" never appears
    ensures n >= 0 && |s| > 1 ==> s[0] != '0'
    ensures n < 0 ==> |s| > 1 && s[1] != '0'
  {
    if n < 0 then "-" + NatText(-n) else NatText(n)
  }

  /** The value of a run of decimal digits; the empty run is worth 0. */
  function DigitsValue(s: string): nat
    requires forall k :: 0 <= k < |s| ==> IsDigit(s[k])
    decreases |s|
  {
    if |s| == 0 then 0 else DigitsValue(s[..|s| - 1]) * 10 + DigitValue(s[|s| - 1])
  }

  datatype ParseResult = Invalid | Value(n: int)

  /** Reads back what `Text` writes: an optional '-' and one or more digits. */
  function Parse(s: string): ParseResult
  {
    if |s| > 0 && s[0] == '-' then
      (if |s| > 1 && forall k :: 1 <= k < |s| ==> IsDigit(s[k]) then Value(0 - DigitsValue(s[1..]) as int) else Invalid)
    else if |s| > 0 && forall k :: 0 <= k < |s| ==> IsDigit(s[k]) then Value(DigitsValue(s))
    else Invalid
  }

  lemma {:induction false} NatTextRoundTrip(n: nat)
    ensures DigitsValue(NatText(n)) == n
    decreases n
  {
    var s := NatText(n);
    if n >= 10 {
      NatTextRoundTrip(n / 10);
      assert s[..|s| - 1] == NatText(n / 10);
    }
  }

  /** Every integer's decimal text reads back as that integer. */
  lemma TextRoundTrip(n: int)
    ensures Parse(Text(n)) == Value(n)
  {
    if n < 0 {
      NatTextRoundTrip(-n);
      assert Text(n)[1..] == NatText(-n);
    } else {
      NatTextRoundTrip(n);
    }
  }

  /** Distinct integers have distinct decimal texts. */
  lemma TextInjective(a: int, b: int)
    requires Text(a) == Text(b)
    ensures a == b
  {
    TextRoundTrip(a);
    TextRoundTrip(b);
  }
}
