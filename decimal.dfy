/** ASCII character classes and Java's decimal integer text.

    `Character.isLetterOrDigit` and `Character.toLowerCase` are taken on ASCII
    only; `Integer.parseInt` and `Long.parseLong` accept ASCII digits only.
 */
module Decimal {
  import opened Results

  const MinInt32: int := -0x8000_0000
  const MaxInt32: int := 0x7fff_ffff
  const MinInt64: int := -0x8000_0000_0000_0000
  const MaxInt64: int := 0x7fff_ffff_ffff_ffff

  type Int32 = x: int | MinInt32 <= x <= MaxInt32
  type Int64 = x: int | MinInt64 <= x <= MaxInt64

  /** Java's `int` addition, which wraps around modulo 2^32. */
  function Add32(a: Int32, b: Int32): (r: Int32)
    ensures MinInt32 <= a + b <= MaxInt32 ==> r == a + b
    ensures a + b > MaxInt32 ==> r == a + b - 0x1_0000_0000
    ensures a + b < MinInt32 ==> r == a + b + 0x1_0000_0000
  {
    var s := a + b;
    if s > MaxInt32 then s - 0x1_0000_0000
    else if s < MinInt32 then s + 0x1_0000_0000
    else s
  }

  predicate IsDigit(c: char) { '0' <= c <= '9' }

  predicate IsLetter(c: char) { 'a' <= c <= 'z' || 'A' <= c <= 'Z' }

  predicate IsLetterOrDigit(c: char) { IsLetter(c) || IsDigit(c) }

  function ToLower(c: char): char {
    if 'A' <= c <= 'Z' then (c as int + 32) as char else c
  }

  function LowerCase(s: string): (r: string)
    ensures |r| == |s|
    ensures forall i :: 0 <= i < |s| ==> r[i] == ToLower(s[i])
  {
    if s == [] then [] else [ToLower(s[0])] + LowerCase(s[1..])
  }

  predicate AllDigits(s: string) {
    forall i :: 0 <= i < |s| ==> IsDigit(s[i])
  }

  function DigitValue(c: char): nat
    requires IsDigit(c)
  {
    c as int - '0' as int
  }

  function DigitChar(d: nat): (c: char)
    requires d < 10
    ensures IsDigit(c) && DigitValue(c) == d
  {
    ('0' as int + d) as char
  }

  /** The value of a string of decimal digits, most significant first. */
  function DigitsValue(s: string): nat
    requires AllDigits(s)
  {
    if s == [] then 0 else DigitsValue(s[..|s| - 1]) * 10 + DigitValue(s[|s| - 1])
  }

  /** `Integer.toString` on a nonnegative value: no sign, no leading zero. */
  function NatToString(n: nat): (s: string)
    ensures |s| > 0 && AllDigits(s)
    ensures n >= 10 ==> s[0] != '0'
    decreases n
  {
    if n < 10 then [DigitChar(n)] else NatToString(n / 10) + [DigitChar(n % 10)]
  }

  /** `Integer.toString` / `Long.toString`. */
  function IntToString(n: int): (s: string)
    ensures |s| > 0 && forall i :: 0 <= i < |s| ==> IsDigit(s[i]) || s[i] == '-'
  {
    if n < 0 then "-" + NatToString(-n) else NatToString(n)
  }

  /** A decimal text with an optional leading sign: what `Integer.parseInt`
      and `Long.parseLong` read, whatever its value. Leading zeros, "+" and
      "-0" are all allowed. */
  predicate SignedText(s: string) {
    |s| > 0 && |Unsigned(s)| > 0 && AllDigits(Unsigned(s))
  }

  /** The text without its sign, if it has one. */
  function Unsigned(s: string): string
    requires |s| > 0
  {
    if s[0] == '-' || s[0] == '+' then s[1..] else s
  }

  /** The value a signed decimal text denotes. */
  function SignedValue(s: string): int
    requires SignedText(s)
  {
    if s[0] == '-' then -(DigitsValue(Unsigned(s)) as int) else DigitsValue(Unsigned(s))
  }

  /** `Integer.parseInt` (lo, hi = the int range) and `Long.parseLong` (the long
      range): an optional sign, then at least one decimal digit, and a value in
      range; anything else (empty text, blanks, a lone sign) is a format error. */
  function ParseSigned(s: string, lo: int, hi: int): (r: Option<int>)
    ensures r.Some? ==> lo <= r.value <= hi
    ensures r.Some? ==> |s| > 0 && forall i :: 0 <= i < |s| ==> IsDigit(s[i]) || (i == 0 && (s[i] == '-' || s[i] == '+'))
  {
    if |s| == 0 then None
    else if s[0] == '-' || s[0] == '+' then
      if |s| == 1 || !AllDigits(s[1..]) then None
      else
        var v: int := if s[0] == '-' then -(DigitsValue(s[1..]) as int) else DigitsValue(s[1..]);
        if lo <= v <= hi then Some(v) else None
    else if !AllDigits(s) then None
    else
      var v := DigitsValue(s);
      if lo <= v <= hi then Some(v) else None
  }

  function ParseInt32(s: string): (r: Option<Int32>)
  {
    match ParseSigned(s, MinInt32, MaxInt32)
    case None => None
    case Some(v) => Some(v as Int32)
  }

  function ParseInt64(s: string): (r: Option<Int64>)
  {
    match ParseSigned(s, MinInt64, MaxInt64)
    case None => None
    case Some(v) => Some(v as Int64)
  }

  /** The reader accepts exactly the signed decimal texts whose value lies in
      range, and gives that value. */
  lemma ParseSignedSpec(s: string, lo: int, hi: int)
    ensures ParseSigned(s, lo, hi).Some? <==> SignedText(s) && lo <= SignedValue(s) <= hi
    ensures ParseSigned(s, lo, hi).Some? ==> ParseSigned(s, lo, hi).value == SignedValue(s)
  {
  }

  /** `Integer.parseInt`: a signed decimal text in the int range, read as its value. */
  lemma ParseInt32Spec(s: string)
    ensures ParseInt32(s).Some? <==> SignedText(s) && MinInt32 <= SignedValue(s) <= MaxInt32
    ensures ParseInt32(s).Some? ==> ParseInt32(s).value as int == SignedValue(s)
  {
    ParseSignedSpec(s, MinInt32, MaxInt32);
  }

  /** `Long.parseLong`: a signed decimal text in the long range, read as its value. */
  lemma ParseInt64Spec(s: string)
    ensures ParseInt64(s).Some? <==> SignedText(s) && MinInt64 <= SignedValue(s) <= MaxInt64
    ensures ParseInt64(s).Some? ==> ParseInt64(s).value as int == SignedValue(s)
  {
    ParseSignedSpec(s, MinInt64, MaxInt64);
  }

  /** A plus sign, leading zeros and a negative zero are all read. */
  lemma LenientTexts()
    ensures ParseInt32("+7") == Some(7) && ParseInt32("007") == Some(7) && ParseInt32("-0") == Some(0)
    ensures ParseInt64("+7") == Some(7)
  {
    assert Unsigned("+7") == "7" && Unsigned("-0") == "0" && Unsigned("007") == "007";
    assert DigitsValue("7") == 7;
    assert "007"[..2] == "00" && "00"[..1] == "0" && "0"[..0] == "";
    assert DigitsValue("007") == 7;
    assert DigitsValue("0") == 0;
  }

  lemma {:induction false} NatToStringValue(n: nat)
    ensures DigitsValue(NatToString(n)) == n
    decreases n
  {
    var s := NatToString(n);
    if n >= 10 {
      NatToStringValue(n / 10);
      assert s[..|s| - 1] == NatToString(n / 10);
    }
  }

  /** Printing an integer and parsing it back gives the integer. */
  lemma IntToStringRoundTrip(n: int, lo: int, hi: int)
    requires lo <= n <= hi
    ensures ParseSigned(IntToString(n), lo, hi) == Some(n)
  {
    var s := IntToString(n);
    if n < 0 {
      assert s[1..] == NatToString(-n);
      NatToStringValue(-n);
    } else {
      NatToStringValue(n);
    }
  }

  /** The text of an integer never contains a dot. */
  lemma IntToStringHasNoDot(n: int)
    ensures '.' !in IntToString(n)
  {
  }

  /** The value read does not depend on the range; only acceptance does. */
  lemma ParseSignedRange(s: string, v: int, lo: int, hi: int, lo2: int, hi2: int)
    requires ParseSigned(s, lo, hi) == Some(v)
    ensures ParseSigned(s, lo2, hi2) == if lo2 <= v <= hi2 then Some(v) else None
  {
  }
}
