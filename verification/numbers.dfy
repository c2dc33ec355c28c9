/**
  Decimal text of integers, as a template literal `${n}` prints them, and the
  sign-prefixed form the pages use for XP deltas.
 */
module Numbers {

  predicate IsDigit(c: char) {
    '0' <= c <= '9'
  }

  function DigitChar(d: nat): (c: char)
    requires d < 10
    ensures IsDigit(c)
  {
    ('0' as int + d) as char
  }

  function DigitValue(c: char): nat
    requires IsDigit(c)
  {
    c as int - '0' as int
  }

  /** The decimal digits of `n`, without leading zeros. */
  function NatText(n: nat): (r: string)
    ensures |r| > 0
    ensures forall i :: 0 <= i < |r| ==> IsDigit(r[i])
    ensures |r| > 1 ==> r[0] != '0'
    decreases n
  {
    if n < 10 then [DigitChar(n)] else NatText(n / 10) + [DigitChar(n % 10)]
  }

  /** Reads a run of decimal digits. */
  function ParseNat(s: string): nat
    requires forall i :: 0 <= i < |s| ==> IsDigit(s[i])
  {
    if |s| == 0 then 0 else ParseNat(s[..|s| - 1]) * 10 + DigitValue(s[|s| - 1])
  }

  lemma {:induction false} ParseNatText(n: nat)
    ensures ParseNat(NatText(n)) == n
    decreases n
  {
    if n >= 10 {
      var t := NatText(n);
      assert t[..|t| - 1] == NatText(n / 10);
      ParseNatText(n / 10);
    }
  }

  /** `${n}` for an integer `n`. */
  function IntText(n: int): string {
    if n < 0 then "-" + NatText(-n) else NatText(n)
  }

  /** A value printed with "+" in front when it is strictly positive. */
  function SignedText(n: int): string {
    (if n > 0 then "+" else "") + IntText(n)
  }

  /** Reads back what `SignedText` prints: an optional sign, then digits. */
  function ParseSigned(s: string): int {
    if |s| > 0 && (s[0] == '+' || s[0] == '-') then
      var digits := s[1..];
      if forall i :: 0 <= i < |digits| ==> IsDigit(digits[i]) then
        var v: int := ParseNat(digits);
        if s[0] == '-' then -v else v
      else 0
    else if forall i :: 0 <= i < |s| ==> IsDigit(s[i]) then ParseNat(s)
    else 0
  }

  /** A sign followed by digits reads back as the signed value of the digits. */
  lemma ParseSignedDigits(sign: char, digits: string)
    requires sign == '+' || sign == '-'
    requires forall i :: 0 <= i < |digits| ==> IsDigit(digits[i])
    ensures ParseSigned([sign] + digits) == if sign == '-' then -(ParseNat(digits) as int) else ParseNat(digits)
  {
    assert ([sign] + digits)[1..] == digits;
  }

  /** A positive value prints as "+" and its digits. */
  lemma SignedTextPositive(n: int)
    requires n > 0
    ensures SignedText(n) == ['+'] + NatText(n)
  {
  }

  /** A negative value prints as "-" and the digits of its magnitude. */
  lemma SignedTextNegative(n: int)
    requires n < 0
    ensures SignedText(n) == ['-'] + NatText(-n)
  {
  }

  /** Zero prints as "0" and reads back as zero. */
  lemma SignedTextZero()
    ensures SignedText(0) == "0" && ParseSigned("0") == 0
  {
    assert NatText(0) == [DigitChar(0)] == "0";
    assert ParseNat("0") == ParseNat("") * 10 + DigitValue('0');
  }

  /**
    The signed text shows the value itself, never clamped: it reads back as
    `n`, it starts with "+" exactly when `n` is positive and with "-" exactly
    when `n` is negative.
   */
  lemma SignedTextRoundTrip(n: int)
    ensures ParseSigned(SignedText(n)) == n
    ensures |SignedText(n)| > 0
    ensures SignedText(n)[0] == '+' <==> n > 0
    ensures SignedText(n)[0] == '-' <==> n < 0
  {
    if n > 0 {
      SignedTextPositive(n);
      ParseSignedDigits('+', NatText(n));
      ParseNatText(n);
    } else if n < 0 {
      SignedTextNegative(n);
      ParseSignedDigits('-', NatText(-n));
      ParseNatText(-n);
    } else {
      SignedTextZero();
    }
  }
}
