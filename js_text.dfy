/**
 * The JavaScript built-ins the core uses on text: `String(n)` for a
 * non-negative integer, `parseInt(s)` without a radix, and `padStart`.
 */
module JsText {
  import opened Wrappers

  /** The white space and line terminators that `parseInt` skips before a number. */
  predicate IsWhiteSpace(c: char) {
    c == '\t' || c == '\n' || c == '\U{000B}' || c == '\U{000C}' || c == '\r' || c == ' ' ||
    c == '\U{00A0}' || c == '\U{1680}' || ('\U{2000}' <= c <= '\U{200A}') ||
    c == '\U{2028}' || c == '\U{2029}' || c == '\U{202F}' || c == '\U{205F}' ||
    c == '\U{3000}' || c == '\U{FEFF}'
  }

  /** `s` without its leading white space. */
  function TrimStart(s: string): (r: string)
    ensures |r| <= |s| && r == s[|s| - |r|..]
    ensures r == [] || !IsWhiteSpace(r[0])
  {
    if s != [] && IsWhiteSpace(s[0]) then TrimStart(s[1..]) else s
  }

  /** The value of `c` as a digit of radix up to 36 ('0'..'9', then 'a'..'z' or 'A'..'Z'), or -1. */
  function DigitValue(c: char): (d: int)
    ensures -1 <= d < 36
  {
    if '0' <= c <= '9' then c as int - '0' as int
    else if 'a' <= c <= 'z' then c as int - 'a' as int + 10
    else if 'A' <= c <= 'Z' then c as int - 'A' as int + 10
    else -1
  }

  predicate IsDigit(c: char, radix: nat) {
    0 <= DigitValue(c) < radix
  }

  predicate AllDigits(s: string, radix: nat) {
    forall i :: 0 <= i < |s| ==> IsDigit(s[i], radix)
  }

  /** The longest prefix of `s` made of digits of the given radix. */
  function DigitPrefix(s: string, radix: nat): (r: string)
    ensures |r| <= |s| && r == s[..|r|]
    ensures |r| < |s| ==> !IsDigit(s[|r|], radix)
  {
    if s != [] && IsDigit(s[0], radix) then [s[0]] + DigitPrefix(s[1..], radix) else []
  }

  /** The number that a string of digits denotes, most significant digit first. */
  function DigitsValue(ds: string, radix: nat): nat
  {
    if ds == [] then 0
    else DigitsValue(ds[..|ds| - 1], radix) * radix + (if DigitValue(ds[|ds| - 1]) < 0 then 0 else DigitValue(ds[|ds| - 1]))
  }

  /**
   * The unsigned part of `parseInt`: radix 16 after a "0x" or "0X" prefix,
   * radix 10 otherwise, then the longest run of digits; none gives `None`.
   */
  function ParseUnsigned(u: string): (r: Option<nat>)
  {
    if |u| >= 2 && u[0] == '0' && (u[1] == 'x' || u[1] == 'X') then
      var digits := DigitPrefix(u[2..], 16);
      if digits == [] then None else Some(DigitsValue(digits, 16))
    else
      var digits := DigitPrefix(u, 10);
      if digits == [] then None else Some(DigitsValue(digits, 10))
  }

  /** A signed number: an optional '-' or '+' followed by the unsigned part. */
  function ParseSigned(t: string): (r: Option<int>)
  {
    if |t| > 0 && t[0] == '-' then Negated(ParseUnsigned(t[1..]))
    else if |t| > 0 && t[0] == '+' then Widened(ParseUnsigned(t[1..]))
    else Widened(ParseUnsigned(t))
  }

  function Negated(u: Option<nat>): (r: Option<int>)
  {
    match u
    case None => None
    case Some(m) => Some(-(m as int))
  }

  function Widened(u: Option<nat>): (r: Option<int>)
  {
    match u
    case None => None
    case Some(m) => Some(m as int)
  }

  /**
   * JavaScript's `parseInt(s)` with no radix argument: skip leading white space,
   * then read a signed number; NaN is `None`.
   */
  function ParseInt(s: string): (r: Option<int>)
  {
    ParseSigned(TrimStart(s))
  }

  function DigitChar(d: nat): (c: char)
    requires d < 10
    ensures DigitValue(c) == d
  {
    ('0' as int + d) as char
  }

  /** `String(n)` for a non-negative integer: its decimal digits without leading zeros. */
  function NatToString(n: nat): (s: string)
    ensures |s| >= 1 && AllDigits(s, 10)
    ensures n < 10 ==> |s| == 1
    ensures 10 <= n < 100 ==> |s| == 2
  {
    if n < 10 then [DigitChar(n)] else NatToString(n / 10) + [DigitChar(n % 10)]
  }

  /** `String(n)` for any integer. */
  function IntToString(n: int): (s: string)
  {
    if n < 0 then "-" + NatToString(-n) else NatToString(n)
  }

  /** `s.padStart(width, fill)` for a one-character fill string. */
  function PadStart(s: string, width: nat, fill: char): (r: string)
    ensures |r| == if |s| < width then width else |s|
    ensures r[|r| - |s|..] == s
    ensures forall i :: 0 <= i < |r| - |s| ==> r[i] == fill
  {
    if |s| < width then Repeat(fill, width - |s|) + s else s
  }

  /** `k` copies of `c`. */
  function Repeat(c: char, k: nat): (r: string)
    ensures |r| == k && forall i :: 0 <= i < k ==> r[i] == c
  {
    if k == 0 then [] else [c] + Repeat(c, k - 1)
  }

  /** Reading back the digits that `String(n)` writes gives `n`. */
  lemma {:induction false} NatToStringValue(n: nat)
    ensures DigitsValue(NatToString(n), 10) == n
  {
    if n >= 10 {
      var s := NatToString(n);
      NatToStringValue(n / 10);
      assert s[..|s| - 1] == NatToString(n / 10);
    }
  }

  /** Leading zeros do not change the value of a digit string. */
  lemma {:induction false} LeadingZeroValue(ds: string, radix: nat)
    requires AllDigits(ds, radix) && radix > 0
    ensures AllDigits("0" + ds, radix)
    ensures DigitsValue("0" + ds, radix) == DigitsValue(ds, radix)
  {
    if ds != [] {
      LeadingZeroValue(ds[..|ds| - 1], radix);
      assert ("0" + ds)[..|ds|] == "0" + ds[..|ds| - 1];
    }
  }

  /** A decimal digit is one of '0'..'9'. */
  lemma DecimalDigitChar(c: char)
    requires IsDigit(c, 10)
    ensures '0' <= c <= '9'
  {
  }

  /** A string made only of digits is its own longest digit prefix. */
  lemma {:induction false} DigitPrefixOfDigits(ds: string, radix: nat)
    requires AllDigits(ds, radix)
    ensures DigitPrefix(ds, radix) == ds
  {
    if ds != [] {
      DigitPrefixOfDigits(ds[1..], radix);
    }
  }

  /** A run of decimal digits is read whole, in radix 10. */
  lemma ParseUnsignedDigits(ds: string)
    requires |ds| >= 1 && AllDigits(ds, 10)
    ensures ParseUnsigned(ds) == Some(DigitsValue(ds, 10))
  {
    if |ds| >= 2 {
      DecimalDigitChar(ds[1]);
    }
    DigitPrefixOfDigits(ds, 10);
  }

  /** Nothing is trimmed from a string that starts with a digit or a sign. */
  lemma TrimStartKeeps(s: string)
    requires |s| >= 1 && (IsDigit(s[0], 10) || s[0] == '-')
    ensures TrimStart(s) == s
  {
    if s[0] != '-' {
      DecimalDigitChar(s[0]);
    }
    NotWhiteSpace(s[0]);
  }

  /** Digits and the minus sign are not white space. */
  lemma NotWhiteSpace(c: char)
    requires '0' <= c <= '9' || c == '-'
    ensures !IsWhiteSpace(c)
  {
  }

  /** An unsigned run of decimal digits is read as its value. */
  lemma ParseSignedDigits(ds: string)
    requires |ds| >= 1 && AllDigits(ds, 10)
    ensures ParseSigned(ds) == Some(DigitsValue(ds, 10) as int)
  {
    DecimalDigitChar(ds[0]);
    ParseUnsignedDigits(ds);
  }

  /** `parseInt` reads a string of decimal digits as its value. */
  lemma ParseDigits(ds: string)
    requires |ds| >= 1 && AllDigits(ds, 10)
    ensures ParseInt(ds) == Some(DigitsValue(ds, 10) as int)
  {
    TrimStartKeeps(ds);
    ParseSignedDigits(ds);
  }

  /** `parseInt` reads a minus sign followed by decimal digits as a negative value. */
  lemma ParseNegative(t: string, ds: string)
    requires |ds| >= 1 && AllDigits(ds, 10)
    requires |t| > 0 && t[0] == '-' && t[1..] == ds
    ensures ParseInt(t) == Some(-(DigitsValue(ds, 10) as int))
  {
    TrimStartMinus(t);
    ParseSignedDigitsNegative(t, ds);
  }

  /** A minus sign followed by decimal digits is read as a negative value. */
  lemma ParseSignedDigitsNegative(t: string, ds: string)
    requires |ds| >= 1 && AllDigits(ds, 10)
    requires |t| > 0 && t[0] == '-' && t[1..] == ds
    ensures ParseSigned(t) == Some(-(DigitsValue(ds, 10) as int))
  {
    ParseUnsignedDigits(ds);
    ParseSignedNegative(t, DigitsValue(ds, 10));
  }

  /** A leading minus sign is not white space: nothing is trimmed. */
  lemma TrimStartMinus(t: string)
    requires |t| > 0 && t[0] == '-'
    ensures TrimStart(t) == t
  {
    NotWhiteSpace('-');
  }

  /** A leading '-' negates whatever the unsigned part after it reads. */
  lemma ParseSignedNegative(t: string, v: nat)
    requires |t| > 0 && t[0] == '-' && ParseUnsigned(t[1..]) == Some(v)
    ensures ParseSigned(t) == Some(-(v as int))
  {
  }

  /** `parseInt(String(n))` gives back `n` for every integer. */
  lemma ParseIntRoundTrip(n: int)
    ensures ParseInt(IntToString(n)) == Some(n)
  {
    if n < 0 {
      ParseNegativeRoundTrip(n);
    } else {
      ParseNatRoundTrip(n);
    }
  }

  lemma ParseNatRoundTrip(n: int)
    requires n >= 0
    ensures ParseInt(IntToString(n)) == Some(n)
  {
    var ds := NatToString(n);
    assert IntToString(n) == ds;
    NatToStringValue(n);
    ParseDigits(ds);
  }

  lemma ParseNegativeRoundTrip(n: int)
    requires n < 0
    ensures ParseInt(IntToString(n)) == Some(n)
  {
    NegativeStringFacts(n);
    ReadNegative(n, NatToString(-n));
  }

  /** `String(n)` for a negative `n` is a minus sign and the digits of `-n`. */
  lemma NegativeStringFacts(n: int)
    requires n < 0
    ensures var ds := NatToString(-n);
      IntToString(n) == "-" + ds && AllDigits(ds, 10) && |ds| >= 1 && DigitsValue(ds, 10) == -n
  {
    NatToStringValue(-n);
  }

  /** The last step of the negative round trip, from the shape of `String(n)`. */
  lemma ReadNegative(n: int, ds: string)
    requires n < 0
    requires IntToString(n) == "-" + ds && AllDigits(ds, 10) && |ds| >= 1 && DigitsValue(ds, 10) == -n
    ensures ParseInt(IntToString(n)) == Some(n)
  {
    var t := IntToString(n);
    assert t[0] == '-' && t[1..] == ds;
    ParseNegative(t, ds);
  }

  /** Any number of leading zeros leaves the value of a digit string unchanged. */
  lemma {:induction false} ZeroPaddedValue(ds: string, k: nat)
    requires AllDigits(ds, 10)
    ensures AllDigits(Repeat('0', k) + ds, 10)
    ensures DigitsValue(Repeat('0', k) + ds, 10) == DigitsValue(ds, 10)
  {
    if k > 0 {
      var shorter := Repeat('0', k - 1) + ds;
      ZeroPaddedValue(ds, k - 1);
      LeadingZeroValue(shorter, 10);
      assert Repeat('0', k) == "0" + Repeat('0', k - 1);
      assert Repeat('0', k) + ds == "0" + shorter;
    } else {
      assert Repeat('0', k) + ds == ds;
    }
  }

  /** `parseInt` reads a zero-padded `String(n)` back as `n`. */
  lemma ParsePadded(n: nat, width: nat)
    ensures ParseInt(PadStart(NatToString(n), width, '0')) == Some(n)
  {
    var ds := NatToString(n);
    var k := if |ds| < width then width - |ds| else 0;
    assert PadStart(ds, width, '0') == Repeat('0', k) + ds;
    NatToStringValue(n);
    ParseZeroPadded(ds, k);
  }

  /** `parseInt` reads digits behind any number of zeros as the digits' value. */
  lemma ParseZeroPadded(ds: string, k: nat)
    requires |ds| >= 1 && AllDigits(ds, 10)
    ensures ParseInt(Repeat('0', k) + ds) == Some(DigitsValue(ds, 10) as int)
  {
    ZeroPaddedValue(ds, k);
    ParseDigits(Repeat('0', k) + ds);
  }
}
