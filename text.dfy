// Decimal rendering of integers as Swift does it: string interpolation of an
// `Int` and the `%02d` conversion of `String(format:)`. A digit parser is the
// partner that shows the renderings lose nothing.
module Text {

  predicate IsDigit(c: char) {
    '0' <= c <= '9'
  }

  predicate AllDigits(s: string) {
    forall i :: 0 <= i < |s| ==> IsDigit(s[i])
  }

  function DigitChar(n: nat): (c: char)
    requires n < 10
    ensures IsDigit(c) && (c as int) - ('0' as int) == n
  {
    "0123456789"[n]
  }

  /** `"\(n)"` for a non-negative `Int`: no sign, no leading zeros. */
  function NatToString(n: nat): (r: string)
    ensures 1 <= |r|
    decreases n
  {
    if n < 10 then [DigitChar(n)] else NatToString(n / 10) + [DigitChar(n % 10)]
  }

  /** `"\(i)"` for any `Int`. */
  function IntToString(i: int): (r: string)
    ensures |r| >= 1
    ensures r[0] == '-' <==> i < 0
  {
    if i < 0 then "-" + NatToString(-i)
    else
      NatToStringRoundTrip(i);
      NatToString(i)
  }

  /** The value of a string of decimal digits. */
  function ParseDigits(s: string): nat
    requires AllDigits(s)
  {
    if s == [] then 0
    else ParseDigits(s[..|s| - 1]) * 10 + ((s[|s| - 1] as int) - ('0' as int))
  }

  /** `String(format: "%02d", n)`: at least two characters, padded with a
      leading zero; a negative value already fills the width with its sign. */
  function Pad2(n: int): (r: string)
    ensures |r| >= 2
  {
    if n < 0 then IntToString(n)
    else if n < 10 then "0" + NatToString(n)
    else NatToString(n)
  }

  lemma {:induction false} NatToStringRoundTrip(n: nat)
    ensures AllDigits(NatToString(n))
    ensures ParseDigits(NatToString(n)) == n
    ensures |NatToString(n)| == 1 <==> n < 10
    decreases n
  {
    if n >= 10 {
      NatToStringRoundTrip(n / 10);
      var r := NatToString(n);
      assert r[..|r| - 1] == NatToString(n / 10);
    }
  }

  /** Two-digit fields render as exactly two digits and read back unchanged. */
  lemma Pad2RoundTrip(n: int)
    requires 0 <= n < 100
    ensures |Pad2(n)| == 2 && AllDigits(Pad2(n))
    ensures ParseDigits(Pad2(n)) == n
  {
    NatToStringRoundTrip(n);
    if n < 10 {
      var r := Pad2(n);
      assert r[..1] == "0";
    } else {
      NatToStringRoundTrip(n / 10);
    }
  }

  /** Whatever the value, the second character of a `%02d` field is a digit. */
  lemma Pad2SecondIsDigit(n: int)
    ensures |Pad2(n)| >= 2 && IsDigit(Pad2(n)[1])
  {
    if n < 0 {
      NatToStringRoundTrip(-n);
    } else if n < 10 {
      NatToStringRoundTrip(n);
    } else {
      NatToStringRoundTrip(n);
    }
  }
}
