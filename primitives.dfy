/** The .NET primitives the service relies on: nullable values, 32-bit integers
    with their unchecked and saturating conversions, the string checks of
    System.String, and the Int32 parser behind Convert.ToInt32(string). */
module Primitives {

  /** A nullable reference (`T?` in C#). */
  datatype Option<+T> = None | Some(value: T)

  /** A value or the exception an operation throws. */
  datatype Result<+T, +E> = Success(value: T) | Failure(error: E)

  const MinInt32: int := -0x8000_0000
  const MaxInt32: int := 0x7FFF_FFFF
  const TwoTo32: int := 0x1_0000_0000

  /** C#'s `int`. */
  type Int32 = x: int | MinInt32 <= x <= MaxInt32

  /** Unchecked Int32 arithmetic: the result modulo 2^32 in the Int32 range. */
  function Wrap32(x: int): (r: Int32)
    ensures MinInt32 <= x <= MaxInt32 ==> r == x
    ensures (x - r) % TwoTo32 == 0
  {
    var m := (x - MinInt32) % TwoTo32;
    assert x - (m + MinInt32) == TwoTo32 * ((x - MinInt32) / TwoTo32);
    m + MinInt32
  }

  /** The saturating conversion of an out-of-range value to Int32 (.NET 9 and later). */
  function Saturate32(x: int): (r: Int32)
    ensures MinInt32 <= x <= MaxInt32 ==> r == x
    ensures x > MaxInt32 ==> r == MaxInt32
    ensures x < MinInt32 ==> r == MinInt32
  {
    if x > MaxInt32 then MaxInt32 else if x < MinInt32 then MinInt32 else x
  }

  /** char.IsWhiteSpace: the Unicode White_Space characters. */
  predicate IsWhiteSpace(c: char)
  {
    || c == ' ' || ('\t' <= c <= '\r') || c == '\U{85}' || c == '\U{A0}' || c == '\U{1680}'
    || ('\U{2000}' <= c <= '\U{200A}') || c == '\U{2028}' || c == '\U{2029}'
    || c == '\U{202F}' || c == '\U{205F}' || c == '\U{3000}'
  }

  /** string.IsNullOrWhiteSpace. */
  predicate IsNullOrWhiteSpace(s: Option<string>)
  {
    s.None? || forall i | 0 <= i < |s.value| :: IsWhiteSpace(s.value[i])
  }

  /** string.IsNullOrEmpty. */
  predicate IsNullOrEmpty(s: Option<string>)
  {
    s.None? || |s.value| == 0
  }

  /** Lower-casing of one character, for the ASCII capitals; every other
      character is kept. No character outside A-Z lower-cases to one of the
      letters of "desc", so the one comparison that uses it is decided exactly. */
  function ToLowerChar(c: char): (r: char)
    ensures 'A' <= c <= 'Z' ==> r as int == c as int + 32
    ensures !('A' <= c <= 'Z') ==> r == c
  {
    if 'A' <= c <= 'Z' then (c as int + 32) as char else c
  }

  /** string.ToLower, at the precision described for ToLowerChar. */
  function ToLower(s: string): (r: string)
    ensures |r| == |s|
    ensures forall i | 0 <= i < |s| :: r[i] == ToLowerChar(s[i])
  {
    seq(|s|, i requires 0 <= i < |s| => ToLowerChar(s[i]))
  }

  /** Ordinal string.Contains: `t` occurs in `s` at some position. */
  predicate Contains(s: string, t: string)
  {
    exists i | 0 <= i <= |s| - |t| :: OccursAt(s, t, i)
  }

  predicate OccursAt(s: string, t: string, i: nat)
  {
    i + |t| <= |s| && s[i..i + |t|] == t
  }

  // ---------------------------------------------------------------------------
  // Convert.ToInt32(string): Int32.Parse with NumberStyles.Integer, that is
  // [white][sign]digits[white], throwing FormatException or OverflowException.
  // ---------------------------------------------------------------------------

  datatype ParseError = FormatError | OverflowError

  /** The white space NumberStyles.AllowLeadingWhite/AllowTrailingWhite admit. */
  predicate IsParseWhite(c: char)
  {
    c == ' ' || ('\t' <= c <= '\r')
  }

  predicate IsDigit(c: char)
  {
    '0' <= c <= '9'
  }

  predicate IsSign(c: char)
  {
    c == '-' || c == '+'
  }

  predicate AllDigits(s: string)
  {
    forall i | 0 <= i < |s| :: IsDigit(s[i])
  }

  function TrimStart(s: string): (r: string)
    ensures |r| <= |s| && r == s[|s| - |r|..]
    ensures |r| > 0 ==> !IsParseWhite(r[0])
    ensures forall i | 0 <= i < |s| - |r| :: IsParseWhite(s[i])
  {
    if |s| > 0 && IsParseWhite(s[0]) then TrimStart(s[1..]) else s
  }

  function TrimEnd(s: string): (r: string)
    ensures |r| <= |s| && r == s[..|r|]
    ensures |r| > 0 ==> !IsParseWhite(r[|r| - 1])
    ensures forall i | |r| <= i < |s| :: IsParseWhite(s[i])
  {
    if |s| > 0 && IsParseWhite(s[|s| - 1]) then TrimEnd(s[..|s| - 1]) else s
  }

  function DigitValue(c: char): nat
    requires IsDigit(c)
  {
    (c - '0') as nat
  }

  /** The value of a decimal numeral. */
  function DigitsValue(s: string): nat
    requires AllDigits(s)
  {
    if |s| == 0 then 0 else 10 * DigitsValue(s[..|s| - 1]) + DigitValue(s[|s| - 1])
  }

  /** Int32.Parse in the invariant culture: the sign, if any, comes after the
      leading white space and the digits follow it directly. */
  function ParseInt32(s: string): (r: Result<Int32, ParseError>)
  {
    ParseSignedDigits(TrimEnd(TrimStart(s)))
  }

  /** The part of the parse after the white space is trimmed. */
  function ParseSignedDigits(t: string): (r: Result<Int32, ParseError>)
  {
    var negative := |t| > 0 && t[0] == '-';
    var body := if |t| > 0 && IsSign(t[0]) then t[1..] else t;
    if |body| == 0 || !AllDigits(body) then Failure(FormatError)
    else
      var magnitude: int := DigitsValue(body);
      var v := if negative then -magnitude else magnitude;
      if MinInt32 <= v <= MaxInt32 then Success(v) else Failure(OverflowError)
  }

  function DigitChar(d: nat): (c: char)
    requires d < 10
    ensures IsDigit(c) && DigitValue(c) == d
  {
    '0' + d as char
  }

  /** The shortest decimal numeral of n. */
  function NatToDigits(n: nat): (s: string)
    ensures |s| > 0
    decreases n
  {
    if n < 10 then [DigitChar(n)] else NatToDigits(n / 10) + [DigitChar(n % 10)]
  }

  /** Int32.ToString(): an optional minus sign and the decimal digits. */
  function Int32ToString(n: Int32): (text: string)
  {
    var m: int := n;
    if m < 0 then "-" + NatToDigits(-m) else NatToDigits(m)
  }

  lemma {:induction false} NatToDigitsValue(n: nat)
    ensures AllDigits(NatToDigits(n)) && DigitsValue(NatToDigits(n)) == n
    decreases n
  {
    if n >= 10 {
      NatToDigitsValue(n / 10);
      var s := NatToDigits(n);
      assert s[..|s| - 1] == NatToDigits(n / 10);
    }
  }

  /** The parser reads back what Int32.ToString writes. */
  lemma ParseFormatRoundTrip(n: Int32)
    ensures ParseInt32(Int32ToString(n)) == Success(n)
  {
    var s := Int32ToString(n);
    var k: int := n;
    var m: nat := if k < 0 then -k else k;
    var digits := NatToDigits(m);
    NatToDigitsValue(m);
    assert s == if k < 0 then "-" + digits else digits;
    assert !IsParseWhite(s[0]) && !IsParseWhite(s[|s| - 1]);
    assert TrimStart(s) == s;
    assert TrimEnd(s) == s;
    if k < 0 {
      assert s[1..] == digits;
      assert ParseSignedDigits(s) == Success(n);
    } else {
      assert ParseSignedDigits(s) == Success(n);
    }
  }

  /** A character that is neither white space, a sign nor a digit makes the
      parse fail with a FormatException (a GUID string, for one). */
  lemma NonNumeralRejected(s: string, i: nat)
    requires i < |s| && !IsParseWhite(s[i]) && !IsSign(s[i]) && !IsDigit(s[i])
    ensures ParseInt32(s) == Failure(FormatError)
  {
    var u := TrimStart(s);
    var t := TrimEnd(u);
    var j := i - (|s| - |u|);
    assert 0 <= j < |u| && u[j] == s[i];
    assert j < |t| && t[j] == s[i];
    var body := if |t| > 0 && IsSign(t[0]) then t[1..] else t;
    if |t| > 0 && IsSign(t[0]) {
      assert j > 0 && body[j - 1] == s[i];
    } else {
      assert body[j] == s[i];
    }
    assert !AllDigits(body);
  }
}
