/**
 * The integer parsing the engine relies on: .NET's `int.Parse`, `long.Parse`,
 * `uint.Parse` and `ulong.Parse` with their default number style (optional
 * white space, an optional sign, decimal digits, optional white space), and
 * `int.Parse(s, NumberStyles.HexNumber)` (optional white space, hexadecimal
 * digits, optional white space, read as a 32-bit two's complement value).
 * `FormatInteger` and `FormatHex` are the matching `ToString()` and
 * `ToString("X")`; the round-trip lemmas tie each parser to its formatter.
 */
module Numbers {
  import opened Wrappers
  import opened Logging

  const Int32Min := -0x8000_0000
  const Int32Max := 0x7FFF_FFFF
  const UInt32Max := 0xFFFF_FFFF
  const Int64Min := -0x8000_0000_0000_0000
  const Int64Max := 0x7FFF_FFFF_FFFF_FFFF
  const UInt64Max := 0xFFFF_FFFF_FFFF_FFFF

  /** .NET's white space for number parsing: U+0009 to U+000D and U+0020. */
  predicate IsWhite(c: char) {
    c == ' ' || '\t' <= c <= '\r'
  }

  /** `TrimStart` of the white space above: the longest suffix that does not start with white space. */
  function TrimStart(s: string): (r: string)
    ensures |r| <= |s|
    ensures r == [] || !IsWhite(r[0])
  {
    if s != [] && IsWhite(s[0]) then TrimStart(s[1..]) else s
  }

  /** `TrimEnd` of the white space above: the longest prefix that does not end with white space. */
  function TrimEnd(s: string): (r: string)
    ensures |r| <= |s|
    ensures r == [] || !IsWhite(r[|r| - 1])
  {
    if s != [] && IsWhite(s[|s| - 1]) then TrimEnd(s[..|s| - 1]) else s
  }

  /** TrimStart removes a prefix made only of white space, and nothing else. */
  lemma {:induction false} TrimStartRemovesWhite(s: string)
    ensures TrimStart(s) == s[|s| - |TrimStart(s)|..]
    ensures forall i :: 0 <= i < |s| - |TrimStart(s)| ==> IsWhite(s[i])
    decreases |s|
  {
    if s != [] && IsWhite(s[0]) {
      TrimStartRemovesWhite(s[1..]);
    }
  }

  /** TrimEnd removes a suffix made only of white space, and nothing else. */
  lemma {:induction false} TrimEndRemovesWhite(s: string)
    ensures TrimEnd(s) == s[..|TrimEnd(s)|]
    ensures forall i :: |TrimEnd(s)| <= i < |s| ==> IsWhite(s[i])
    decreases |s|
  {
    if s != [] && IsWhite(s[|s| - 1]) {
      TrimEndRemovesWhite(s[..|s| - 1]);
    }
  }

  /** The digit a character stands for: 0-9, 10-15 for a-f and A-F, 16 for anything else. */
  function CharValue(c: char): (d: nat)
    ensures d <= 16
  {
    if '0' <= c <= '9' then c as int - '0' as int
    else if 'a' <= c <= 'f' then c as int - 'a' as int + 10
    else if 'A' <= c <= 'F' then c as int - 'A' as int + 10
    else 16
  }

  predicate AllDigits(s: string, radix: nat) {
    forall i :: 0 <= i < |s| ==> CharValue(s[i]) < radix
  }

  /** The value of a digit string, most significant digit first. */
  function DigitsValue(s: string, radix: nat): nat
    requires AllDigits(s, radix)
  {
    if s == [] then 0 else DigitsValue(s[..|s| - 1], radix) * radix + CharValue(s[|s| - 1])
  }

  /** The character `ToString` writes for a digit (upper case for 10 to 15). */
  function DigitChar(d: nat): (c: char)
    requires d < 16
    ensures CharValue(c) == d
  {
    if d < 10 then ('0' as int + d) as char else ('A' as int + d - 10) as char
  }

  /** The two bases the engine reads numbers in. */
  predicate IsRadix(radix: nat) {
    radix == 10 || radix == 16
  }

  lemma DivMod(n: nat, radix: nat)
    requires IsRadix(radix)
    ensures n / radix * radix + n % radix == n && n % radix < radix
    ensures n >= radix ==> n / radix < n
  {
    if radix == 10 { } else { }
  }

  /** The shortest digit string of `n` in base `radix`. */
  function ToDigits(n: nat, radix: nat): (s: string)
    requires IsRadix(radix)
    ensures |s| > 0 && AllDigits(s, radix)
    decreases n
  {
    DivMod(n, radix);
    if n < radix then [DigitChar(n)] else ToDigits(n / radix, radix) + [DigitChar(n % radix)]
  }

  lemma {:induction false} DigitsRoundTrip(n: nat, radix: nat)
    requires IsRadix(radix)
    ensures DigitsValue(ToDigits(n, radix), radix) == n
    decreases n
  {
    var s := ToDigits(n, radix);
    DivMod(n, radix);
    if n >= radix {
      assert s[..|s| - 1] == ToDigits(n / radix, radix);
      DigitsRoundTrip(n / radix, radix);
    }
  }

  lemma DigitIsNotWhite(c: char)
    requires CharValue(c) < 16
    ensures !IsWhite(c)
  {
  }

  lemma NothingToTrim(s: string)
    requires |s| > 0 && !IsWhite(s[0]) && !IsWhite(s[|s| - 1])
    ensures TrimStart(s) == s && TrimEnd(s) == s
  {
  }

  /**
   * The number `s` denotes under the default integer style, before the
   * check against the target type's range: None when `s` is not a number.
   */
  function ParseInteger(s: string): Option<int> {
    ParseSigned(TrimEnd(TrimStart(s)))
  }

  /** An optional sign, then decimal digits, with no white space around them. */
  function ParseSigned(t: string): Option<int> {
    var signed := |t| > 0 && (t[0] == '+' || t[0] == '-');
    var digits := if signed then t[1..] else t;
    if |digits| > 0 && AllDigits(digits, 10) then
      var magnitude: int := DigitsValue(digits, 10);
      Some(if signed && t[0] == '-' then -magnitude else magnitude)
    else
      None
  }

  /** Text made only of the white space `TrimStart` and `TrimEnd` remove. */
  predicate AllWhite(w: string) {
    forall i :: 0 <= i < |w| ==> IsWhite(w[i])
  }

  lemma {:induction false} TrimStartSkipsPadding(w: string, x: string)
    requires AllWhite(w) && (x == [] || !IsWhite(x[0]))
    ensures TrimStart(w + x) == x
    decreases |w|
  {
    if w == [] {
      assert w + x == x;
    } else {
      assert (w + x)[1..] == w[1..] + x;
      TrimStartSkipsPadding(w[1..], x);
    }
  }

  lemma {:induction false} TrimEndSkipsPadding(x: string, w: string)
    requires AllWhite(w) && (x == [] || !IsWhite(x[|x| - 1]))
    ensures TrimEnd(x + w) == x
    decreases |w|
  {
    if w == [] {
      assert x + w == x;
    } else {
      assert (x + w)[..|x + w| - 1] == x + w[..|w| - 1];
      TrimEndSkipsPadding(x, w[..|w| - 1]);
    }
  }

  /** The white space around a signed numeral is trimmed off, and nothing else. */
  lemma TrimPadding(w1: string, x: string, w2: string)
    requires AllWhite(w1) && AllWhite(w2)
    requires |x| > 0 && !IsWhite(x[0]) && !IsWhite(x[|x| - 1])
    ensures TrimEnd(TrimStart(w1 + x + w2)) == x
  {
    assert w1 + x + w2 == w1 + (x + w2);
    TrimStartSkipsPadding(w1, x + w2);
    TrimEndSkipsPadding(x, w2);
  }

  lemma ParseUnsignedNumeral(digits: string)
    requires |digits| > 0 && AllDigits(digits, 10)
    ensures ParseSigned(digits) == Some(DigitsValue(digits, 10))
  {
    assert CharValue(digits[0]) < 10;
  }

  lemma ParseSignedNumeral(sign: char, digits: string)
    requires sign == '+' || sign == '-'
    requires |digits| > 0 && AllDigits(digits, 10)
    ensures var m: int := DigitsValue(digits, 10);
            ParseSigned([sign] + digits) == Some(if sign == '-' then -m else m)
  {
    assert ([sign] + digits)[1..] == digits;
  }

  /**
   * What the default integer style reads: white space, an optional sign,
   * decimal digits (leading zeros allowed), white space.
   */
  lemma ParsePaddedNumeral(w1: string, sign: string, digits: string, w2: string)
    requires AllWhite(w1) && AllWhite(w2)
    requires sign == "" || sign == "+" || sign == "-"
    requires |digits| > 0 && AllDigits(digits, 10)
    ensures var m: int := DigitsValue(digits, 10);
            ParseInteger(w1 + sign + digits + w2) == Some(if sign == "-" then -m else m)
  {
    var x := sign + digits;
    if sign == "" {
      assert x == digits;
      ParseUnsignedNumeral(digits);
    } else {
      assert x == [sign[0]] + digits;
      ParseSignedNumeral(sign[0], digits);
    }
    DigitIsNotWhite(digits[0]);
    DigitIsNotWhite(digits[|digits| - 1]);
    assert x[|x| - 1] == digits[|digits| - 1];
    assert x[0] == if sign == "" then digits[0] else sign[0];
    Regroup(w1, sign, digits, w2);
    TrimPadding(w1, x, w2);
  }

  lemma Regroup(a: string, b: string, c: string, d: string)
    ensures a + b + c + d == a + (b + c) + d
  {
  }

  /** `ToString()` of an integer: a minus sign when negative, then decimal digits. */
  function FormatInteger(n: int): (s: string)
    ensures |s| > 0 && !IsWhite(s[0]) && !IsWhite(s[|s| - 1])
  {
    if n < 0 then "-" + ToDigits(-n, 10) else ToDigits(n, 10)
  }

  lemma {:induction false} ParseFormatRoundTrip(n: int)
    ensures ParseInteger(FormatInteger(n)) == Some(n)
  {
    var s := FormatInteger(n);
    NothingToTrim(s);
    var magnitude := if n < 0 then -n else n;
    var digits := ToDigits(magnitude, 10);
    DigitsRoundTrip(magnitude, 10);
    if n < 0 {
      assert s == "-" + digits;
      assert s[1..] == digits;
    } else {
      assert s == digits;
      assert CharValue(s[0]) < 10;
      assert s[0] != '+' && s[0] != '-';
    }
  }

  /** Parse into the integer type whose range is `lo..hi`; a number outside it overflows. */
  function ParseBounded(s: string, lo: int, hi: int): (r: Result<int, Failure>)
    ensures r.Success? ==> lo <= r.value <= hi
    ensures r.Failure? ==> r.error == FormatError || r.error == OverflowError
    ensures r == Failure(FormatError) <==> ParseInteger(s).None?
    ensures r == Failure(OverflowError) <==> ParseInteger(s).Some? && !(lo <= ParseInteger(s).value <= hi)
    ensures r.Success? ==> Some(r.value) == ParseInteger(s)
  {
    match ParseInteger(s)
    case None => Failure(FormatError)
    case Some(n) => if lo <= n <= hi then Success(n) else Failure(OverflowError)
  }

  /** `int.Parse(s)` */
  function ParseInt32(s: string): Result<int, Failure> {
    ParseBounded(s, Int32Min, Int32Max)
  }

  /** `long.Parse(s)` */
  function ParseInt64(s: string): Result<int, Failure> {
    ParseBounded(s, Int64Min, Int64Max)
  }

  /** `uint.Parse(s)` */
  function ParseUInt32(s: string): Result<int, Failure> {
    ParseBounded(s, 0, UInt32Max)
  }

  /** `ulong.Parse(s)` */
  function ParseUInt64(s: string): Result<int, Failure> {
    ParseBounded(s, 0, UInt64Max)
  }

  lemma ParseBoundedRoundTrip(n: int, lo: int, hi: int)
    ensures ParseBounded(FormatInteger(n), lo, hi) ==
            if lo <= n <= hi then Success(n) else Failure(OverflowError)
  {
    ParseFormatRoundTrip(n);
  }

  /**
   * `int.Parse(s, NumberStyles.HexNumber)`: hexadecimal digits with optional
   * white space around them and no sign or `0x` prefix.
   */
  function ParseHex32(s: string): (r: Result<int, Failure>)
    ensures r.Success? ==> Int32Min <= r.value <= Int32Max
  {
    HexPattern(TrimEnd(TrimStart(s)))
  }

  /**
   * Hexadecimal digits of either case read as a 32-bit pattern: a value
   * above 0xFFFFFFFF overflows; a value from 0x80000000 up is the negative
   * int with the same two's complement bits.
   */
  function HexPattern(t: string): (r: Result<int, Failure>)
    ensures r.Success? <==> |t| > 0 && AllDigits(t, 16) && DigitsValue(t, 16) <= UInt32Max
    ensures r.Failure? ==> (r.error == OverflowError <==> |t| > 0 && AllDigits(t, 16))
    ensures r.Failure? ==> (r.error == FormatError <==> !(|t| > 0 && AllDigits(t, 16)))
    ensures r.Success? ==> Int32Min <= r.value <= Int32Max
    ensures r.Success? && r.value >= 0 ==> r.value == DigitsValue(t, 16)
    ensures r.Success? && r.value < 0 ==> r.value + UInt32Max + 1 == DigitsValue(t, 16)
  {
    if |t| == 0 || !AllDigits(t, 16) then Failure(FormatError)
    else
      var v := DigitsValue(t, 16);
      if v > UInt32Max then Failure(OverflowError)
      else Success(if v <= Int32Max then v else v - (UInt32Max + 1))
  }

  /** `ToString("X")` of a 32-bit pattern. */
  function FormatHex(n: nat): (s: string)
    ensures |s| > 0 && AllDigits(s, 16)
  {
    ToDigits(n, 16)
  }

  lemma {:induction false} HexRoundTrip(n: nat)
    requires n <= UInt32Max
    ensures ParseHex32(FormatHex(n)) == Success(if n <= Int32Max then n else n - (UInt32Max + 1))
  {
    var s := FormatHex(n);
    DigitIsNotWhite(s[0]);
    DigitIsNotWhite(s[|s| - 1]);
    NothingToTrim(s);
    DigitsRoundTrip(n, 16);
  }

  /** Two digit strings whose digits have the same values denote the same number. */
  lemma {:induction false} SameDigitsSameValue(a: string, b: string, radix: nat)
    requires |a| == |b| && AllDigits(a, radix) && AllDigits(b, radix)
    requires forall i :: 0 <= i < |a| ==> CharValue(a[i]) == CharValue(b[i])
    ensures DigitsValue(a, radix) == DigitsValue(b, radix)
    decreases |a|
  {
    if a != [] {
      SameDigitsSameValue(a[..|a| - 1], b[..|b| - 1], radix);
    }
  }

  /** A zero in front does not change the value of a digit string. */
  lemma {:induction false} LeadingZeroValue(t: string, radix: nat)
    requires AllDigits(t, radix) && radix > 0
    ensures AllDigits("0" + t, radix) && DigitsValue("0" + t, radix) == DigitsValue(t, radix)
    decreases |t|
  {
    if t != [] {
      var front := t[..|t| - 1];
      LeadingZeroValue(front, radix);
      assert ("0" + t)[..|t|] == "0" + front;
    }
  }

  /** The hexadecimal parse reads a-f as A-F: only the digits' values matter. */
  lemma HexIgnoresCase(a: string, b: string)
    requires |a| == |b| && AllDigits(a, 16) && AllDigits(b, 16)
    requires forall i :: 0 <= i < |a| ==> CharValue(a[i]) == CharValue(b[i])
    ensures ParseHex32(a) == ParseHex32(b)
  {
    if a != [] {
      HexNeedsNoTrim(a);
      HexNeedsNoTrim(b);
      SameDigitsSameValue(a, b, 16);
      SameValueSamePattern(a, b);
    }
  }

  lemma SameValueSamePattern(a: string, b: string)
    requires |a| > 0 && |b| > 0 && AllDigits(a, 16) && AllDigits(b, 16)
    requires DigitsValue(a, 16) == DigitsValue(b, 16)
    ensures HexPattern(a) == HexPattern(b)
  {
  }

  lemma HexNeedsNoTrim(t: string)
    requires |t| > 0 && AllDigits(t, 16)
    ensures ParseHex32(t) == HexPattern(t)
  {
    DigitIsNotWhite(t[0]);
    DigitIsNotWhite(t[|t| - 1]);
    NothingToTrim(t);
  }

  /** A value name padded with a leading zero reads as the same code. */
  lemma HexIgnoresLeadingZero(t: string)
    requires |t| > 0 && AllDigits(t, 16)
    ensures ParseHex32("0" + t) == ParseHex32(t)
  {
    var z := "0" + t;
    LeadingZeroValue(t, 16);
    HexNeedsNoTrim(t);
    HexNeedsNoTrim(z);
    SameValueSamePattern(z, t);
  }

  /** `c` with A-F written as a-f. */
  function LowerDigit(c: char): (l: char)
    ensures CharValue(l) == CharValue(c)
  {
    if 'A' <= c <= 'F' then (c as int - 'A' as int + 'a' as int) as char else c
  }

  /** A digit string in lower case, as the hive's value names are written. */
  function LowerDigits(s: string): (l: string)
    ensures |l| == |s| && forall i :: 0 <= i < |s| ==> l[i] == LowerDigit(s[i])
  {
    seq(|s|, i requires 0 <= i < |s| => LowerDigit(s[i]))
  }

  /** The lower-case rendering of any 32-bit pattern parses back to its two's complement value. */
  lemma LowerHexRoundTrip(n: nat)
    requires n <= UInt32Max
    ensures ParseHex32(LowerDigits(FormatHex(n))) == Success(if n <= Int32Max then n else n - (UInt32Max + 1))
  {
    var s := FormatHex(n);
    var l := LowerDigits(s);
    assert forall i :: 0 <= i < |l| ==> CharValue(l[i]) == CharValue(s[i]);
    HexIgnoresCase(l, s);
    HexRoundTrip(n);
  }
}
