/** The pieces of the Java platform that GenericData calls: the exceptions it can raise, the fixed-width
    integer types, the narrowing casts, Long.toString/Boolean.toString, and the parsers
    Long.parseLong, Integer.parseInt, Short.parseShort, Byte.parseByte and Boolean.parseBoolean. */
module JavaLang {

  /** A Java reference that may be null. */
  datatype Option<+T> = None | Some(value: T)

  /** The exceptions the core can raise. */
  datatype Exception =
    | IllegalState            // "Data is immutable"
    | ArrayIndexOutOfBounds   // a raw access past either end of a Data[]
    | NumberFormat            // a parseX on text that is not a number of that width
    | NullPointer             // a method called on a null String
    | NegativeArraySize       // new Data[n] with n < 0

  /** The result of a Java call that returns a value or throws. */
  datatype Result<+T> = Ok(value: T) | Throw(error: Exception)

  const LONG_MIN: int := -0x8000_0000_0000_0000
  const LONG_MAX: int := 0x7FFF_FFFF_FFFF_FFFF
  const INT_MIN: int := -0x8000_0000
  const INT_MAX: int := 0x7FFF_FFFF
  const SHORT_MIN: int := -0x8000
  const SHORT_MAX: int := 0x7FFF
  const BYTE_MIN: int := -0x80
  const BYTE_MAX: int := 0x7F

  type Long = x: int | LONG_MIN <= x <= LONG_MAX
  type Int = x: int | INT_MIN <= x <= INT_MAX
  type Short = x: int | SHORT_MIN <= x <= SHORT_MAX
  type Byte = x: int | BYTE_MIN <= x <= BYTE_MAX

  /** The cast (int) applied to a long: keep the low 32 bits, read as two's complement. */
  function ToInt(x: Long): (r: Int)
    ensures INT_MIN <= x <= INT_MAX ==> r == x
    ensures (r - x) % 0x1_0000_0000 == 0
  {
    var m := x % 0x1_0000_0000;
    if m >= 0x8000_0000 then m - 0x1_0000_0000 else m
  }

  /** The cast (short) applied to a long or an int: keep the low 16 bits. */
  function ToShort(x: Long): (r: Short)
    ensures SHORT_MIN <= x <= SHORT_MAX ==> r == x
    ensures (r - x) % 0x1_0000 == 0
  {
    var m := x % 0x1_0000;
    if m >= 0x8000 then m - 0x1_0000 else m
  }

  /** The cast (byte) applied to a long or an int: keep the low 8 bits. */
  function ToByte(x: Long): (r: Byte)
    ensures BYTE_MIN <= x <= BYTE_MAX ==> r == x
    ensures (r - x) % 0x100 == 0
  {
    var m := x % 0x100;
    if m >= 0x80 then m - 0x100 else m
  }

  // ---------------------------------------------------------------------------------------------
  // Decimal text

  predicate IsDigit(c: char) { '0' <= c <= '9' }

  predicate AllDigits(s: string) { forall i :: 0 <= i < |s| ==> IsDigit(s[i]) }

  function DigitChar(d: nat): (c: char)
    requires d < 10
    ensures IsDigit(c)
  {
    "0123456789"[d]
  }

  function DigitValue(c: char): (d: nat)
    requires IsDigit(c)
    ensures d < 10
  {
    (c as int - '0' as int) as nat
  }

  /** The natural number that a string of decimal digits denotes (most significant digit first). */
  function DigitsValue(s: string): nat
    requires AllDigits(s)
  {
    if s == [] then 0 else DigitsValue(s[..|s| - 1]) * 10 + DigitValue(s[|s| - 1])
  }

  /** The shortest decimal text of a natural number. */
  function NatToString(n: nat): (s: string)
    ensures |s| > 0 && AllDigits(s)
    ensures |s| > 1 ==> s[0] != '0'
  {
    if n < 10 then [DigitChar(n)] else NatToString(n / 10) + [DigitChar(n % 10)]
  }

  /** Long.toString(v): an optional minus sign followed by the shortest decimal digits. */
  function LongToString(v: Long): (s: string)
  {
    if v < 0 then "-" + NatToString(-(v as int)) else NatToString(v)
  }

  /** Boolean.toString(b). */
  function BoolToString(b: bool): string
  {
    if b then "true" else "false"
  }

  /** The parser shared by Long.parseLong, Integer.parseInt, Short.parseShort and Byte.parseByte in radix
      10: null or empty text, a lone sign, a character that is not a digit after an optional leading
      '-' or '+', or a value outside [lo, hi] raise NumberFormatException. */
  function ParseDecimal(s: Option<string>, lo: int, hi: int): (r: Result<int>)
    ensures r.Ok? ==> lo <= r.value <= hi
  {
    if s.None? || s.value == [] then Throw(NumberFormat)
    else
      var t := s.value;
      var negative := t[0] == '-';
      var digits := if t[0] == '-' || t[0] == '+' then t[1..] else t;
      if digits == [] || !AllDigits(digits) then Throw(NumberFormat)
      else
        var v: int := if negative then -(DigitsValue(digits) as int) else DigitsValue(digits);
        if lo <= v <= hi then Ok(v) else Throw(NumberFormat)
  }

  function ParseLong(s: Option<string>): (r: Result<Long>)
  {
    match ParseDecimal(s, LONG_MIN, LONG_MAX)
    case Ok(v) => Ok(v)
    case Throw(e) => Throw(e)
  }

  function ParseInt(s: Option<string>): (r: Result<Int>)
  {
    match ParseDecimal(s, INT_MIN, INT_MAX)
    case Ok(v) => Ok(v)
    case Throw(e) => Throw(e)
  }

  function ParseShort(s: Option<string>): (r: Result<Short>)
  {
    match ParseDecimal(s, SHORT_MIN, SHORT_MAX)
    case Ok(v) => Ok(v)
    case Throw(e) => Throw(e)
  }

  function ParseByte(s: Option<string>): (r: Result<Byte>)
  {
    match ParseDecimal(s, BYTE_MIN, BYTE_MAX)
    case Ok(v) => Ok(v)
    case Throw(e) => Throw(e)
  }

  /** Boolean.parseBoolean(s): "true" ignoring case; null or anything else is false. It never throws. */
  function ParseBoolean(s: Option<string>): bool
  {
    s.Some? && |s.value| == 4 &&
    SameIgnoringCase(s.value[0], 't') && SameIgnoringCase(s.value[1], 'r') &&
    SameIgnoringCase(s.value[2], 'u') && SameIgnoringCase(s.value[3], 'e')
  }

  /** c equals the lower-case ASCII letter `lower` or its upper-case form. */
  predicate SameIgnoringCase(c: char, lower: char)
    requires 'a' <= lower <= 'z'
  {
    c == lower || c as int == lower as int - 32
  }

  /** An independent reference: ASCII lower-casing of a whole string. */
  function LowerAscii(s: string): (r: string)
    ensures |r| == |s|
  {
    if s == [] then []
    else
      var c := s[0];
      [if 'A' <= c <= 'Z' then (c as int + 32) as char else c] + LowerAscii(s[1..])
  }

  // ---------------------------------------------------------------------------------------------
  // Properties of the library behaviour

  /** Boolean.parseBoolean accepts exactly the strings whose ASCII lower-case form is "true". */
  lemma {:induction false} ParseBooleanIsLowerCaseTrue(s: string)
    ensures ParseBoolean(Some(s)) <==> LowerAscii(s) == "true"
  {
    if |s| == 4 {
      LowerAsciiAt(s, 0);
      LowerAsciiAt(s, 1);
      LowerAsciiAt(s, 2);
      LowerAsciiAt(s, 3);
      if LowerAscii(s) == "true" {
        assert LowerAscii(s)[0] == 't' && LowerAscii(s)[1] == 'r';
        assert LowerAscii(s)[2] == 'u' && LowerAscii(s)[3] == 'e';
      } else {
        var l := LowerAscii(s);
        assert l != ['t', 'r', 'u', 'e'];
        assert l[0] != 't' || l[1] != 'r' || l[2] != 'u' || l[3] != 'e';
      }
    } else {
      assert |LowerAscii(s)| != 4;
    }
  }

  lemma {:induction false} LowerAsciiAt(s: string, i: nat)
    requires i < |s|
    ensures LowerAscii(s)[i] == if 'A' <= s[i] <= 'Z' then (s[i] as int + 32) as char else s[i]
  {
    if i > 0 {
      LowerAsciiAt(s[1..], i - 1);
    }
  }

  /** Boolean.parseBoolean(Boolean.toString(b)) == b. */
  lemma BooleanRoundTrip(b: bool)
    ensures ParseBoolean(Some(BoolToString(b))) == b
  {
  }

  lemma {:induction false} DigitsValueOfNatToString(n: nat)
    ensures DigitsValue(NatToString(n)) == n
  {
    var s := NatToString(n);
    if n >= 10 {
      DigitsValueOfNatToString(n / 10);
      assert s[..|s| - 1] == NatToString(n / 10);
      assert DigitValue(s[|s| - 1]) == n % 10;
    } else {
      assert DigitValue(s[0]) == n;
    }
  }

  /** Parsing the decimal rendering of a long gives back the long when it lies in [lo, hi], and
      raises NumberFormatException otherwise. */
  lemma RenderedParses(v: Long, lo: int, hi: int)
    ensures ParseDecimal(Some(LongToString(v)), lo, hi) == if lo <= v <= hi then Ok(v) else Throw(NumberFormat)
  {
    var t := LongToString(v);
    if v < 0 {
      DigitsValueOfNatToString(-(v as int));
      assert t[0] == '-' && t[1..] == NatToString(-(v as int));
    } else {
      DigitsValueOfNatToString(v);
      assert t[0] != '-' && t[0] != '+';
    }
  }

  /** Long.parseLong(Long.toString(v)) == v. */
  lemma LongRoundTrip(v: Long)
    ensures ParseLong(Some(LongToString(v))) == Ok(v)
  {
    RenderedParses(v, LONG_MIN, LONG_MAX);
  }

  /** Integer.parseInt, Short.parseShort and Byte.parseByte of Long.toString(v) give v back exactly when
      v fits the narrower width; otherwise they raise NumberFormatException (they never wrap). */
  lemma NarrowParsesOfRendered(v: Long)
    ensures ParseInt(Some(LongToString(v))) == if INT_MIN <= v <= INT_MAX then Ok(v) else Throw(NumberFormat)
    ensures ParseShort(Some(LongToString(v))) == if SHORT_MIN <= v <= SHORT_MAX then Ok(v) else Throw(NumberFormat)
    ensures ParseByte(Some(LongToString(v))) == if BYTE_MIN <= v <= BYTE_MAX then Ok(v) else Throw(NumberFormat)
  {
    RenderedParses(v, INT_MIN, INT_MAX);
    RenderedParses(v, SHORT_MIN, SHORT_MAX);
    RenderedParses(v, BYTE_MIN, BYTE_MAX);
  }

  /** The widths nest: a text that parses as a byte parses as a short, an int and a long, to the same
      value; a text that does not parse as a long parses as nothing narrower. */
  lemma ParsersNest(s: Option<string>)
    ensures ParseByte(s).Ok? ==> ParseShort(s) == Ok(ParseByte(s).value)
    ensures ParseShort(s).Ok? ==> ParseInt(s) == Ok(ParseShort(s).value)
    ensures ParseInt(s).Ok? ==> ParseLong(s) == Ok(ParseInt(s).value)
    ensures ParseLong(s).Throw? ==> ParseInt(s).Throw? && ParseShort(s).Throw? && ParseByte(s).Throw?
  {
  }
}
