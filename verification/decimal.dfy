/**
  Decimal text of integers as JavaScript's `String(n)` writes it for an
  integer-valued number, left padding as `String.prototype.padStart` does it,
  and the digit reader that inverts both.
 */
module Decimal {

  predicate IsDigit(c: char) {
    '0' <= c <= '9'
  }

  predicate AllDigits(s: string) {
    forall i :: 0 <= i < |s| ==> IsDigit(s[i])
  }

  function DigitChar(d: nat): (c: char)
    requires d < 10
    ensures IsDigit(c) && DigitValue(c) == d
  {
    (48 + d) as char
  }

  function DigitValue(c: char): (d: nat)
    requires IsDigit(c)
    ensures d < 10
  {
    (c as int) - 48
  }

  /** `String(n)` for a non-negative integer: digits, most significant first, no leading zero. */
  function NatToString(n: nat): (s: string)
    ensures |s| >= 1 && AllDigits(s)
    ensures |s| > 1 ==> s[0] != '0'
    ensures |s| == 1 <==> n < 10
    ensures |s| <= 2 <==> n < 100
    decreases n
  {
    if n < 10 then [DigitChar(n)] else NatToString(n / 10) + [DigitChar(n % 10)]
  }

  /** `String(i)` for any integer: a minus sign in front of a negative value. */
  function IntToString(i: int): (s: string)
    ensures i >= 0 ==> s == NatToString(i)
    ensures i < 0 <==> (|s| > 0 && s[0] == '-')
    ensures i < 0 ==> s[1..] == NatToString(-i)
  {
    if i < 0 then "-" + NatToString(-i) else NatToString(i)
  }

  function Repeat(c: char, n: nat): (r: string)
    ensures |r| == n
    ensures forall k :: 0 <= k < n ==> r[k] == c
  {
    seq(n, _ => c)
  }

  /** `s.padStart(width, fill)` for a one-character fill. */
  function PadStart(s: string, width: nat, fill: char): (r: string)
    ensures |r| == if |s| >= width then |s| else width
    ensures r[|r| - |s|..] == s
    ensures forall k :: 0 <= k < |r| - |s| ==> r[k] == fill
  {
    if |s| >= width then s else Repeat(fill, width - |s|) + s
  }

  /** The value of a digit string; leading zeros are allowed. */
  function ParseDigits(s: string): nat
    requires AllDigits(s)
    decreases |s|
  {
    if s == [] then 0 else 10 * ParseDigits(s[..|s| - 1]) + DigitValue(s[|s| - 1])
  }

  lemma ParseTwoDigits(s: string)
    requires AllDigits(s) && |s| == 2
    ensures ParseDigits(s) == 10 * DigitValue(s[0]) + DigitValue(s[1])
  {
    var p := s[..1];
    assert p[..0] == [] && p[0] == s[0];
    assert ParseDigits(p) == DigitValue(s[0]);
  }

  /** Reading back what `String(n)` wrote gives `n`. */
  lemma {:induction false} ParseNatToString(n: nat)
    ensures ParseDigits(NatToString(n)) == n
    decreases n
  {
    if n >= 10 {
      var s := NatToString(n);
      assert s[..|s| - 1] == NatToString(n / 10);
      ParseNatToString(n / 10);
    }
  }

  /** Zeros in front of a digit string do not change its value. */
  lemma {:induction false} ParseLeadingZeros(z: nat, s: string)
    requires AllDigits(s)
    ensures AllDigits(Repeat('0', z) + s)
    ensures ParseDigits(Repeat('0', z) + s) == ParseDigits(s)
    decreases |s|
  {
    var t := Repeat('0', z) + s;
    if s == [] {
      assert t == Repeat('0', z);
      ZerosParseToZero(z);
    } else {
      assert t[..|t| - 1] == Repeat('0', z) + s[..|s| - 1];
      ParseLeadingZeros(z, s[..|s| - 1]);
    }
  }

  lemma {:induction false} ZerosParseToZero(z: nat)
    ensures AllDigits(Repeat('0', z))
    ensures ParseDigits(Repeat('0', z)) == 0
    decreases z
  {
    if z > 0 {
      assert Repeat('0', z)[..z - 1] == Repeat('0', z - 1);
      ZerosParseToZero(z - 1);
    }
  }

  /** A field as the clocks print it: `String(n).padStart(2, "0")`. */
  function TwoDigits(n: nat): (s: string)
  {
    PadStart(NatToString(n), 2, '0')
  }

  /** A two-digit field is all digits, at least two long, exactly two when `n < 100`, and reads back as `n`. */
  lemma TwoDigitsRoundTrip(n: nat)
    ensures AllDigits(TwoDigits(n))
    ensures |TwoDigits(n)| >= 2
    ensures n < 100 ==> |TwoDigits(n)| == 2
    ensures ParseDigits(TwoDigits(n)) == n
  {
    var d := NatToString(n);
    ParseNatToString(n);
    if |d| < 2 {
      assert TwoDigits(n) == Repeat('0', 2 - |d|) + d;
      ParseLeadingZeros(2 - |d|, d);
    }
  }
}
