/**
 * The behaviour of the Java platform calls the filters depend on:
 * `Boolean.valueOf(String)`, `Long.valueOf(String)` and `Integer.valueOf(String)`,
 * the decimal rendering of `long` and `int` values, `String.equalsIgnoreCase`,
 * commons-lang `StringUtils.isNotBlank`, and two's-complement `long` arithmetic.
 * Case folding, whitespace and digits are those of ASCII.
 */
module JavaLang {
  import opened Wrappers

  const MIN_LONG: int := -0x8000_0000_0000_0000
  const MAX_LONG: int := 0x7FFF_FFFF_FFFF_FFFF
  const MIN_INT: int := -0x8000_0000
  const MAX_INT: int := 0x7FFF_FFFF

  /** A Java `long`. */
  type Long = x: int | MIN_LONG <= x <= MAX_LONG

  /** A Java `int`. */
  type Int = x: int | MIN_INT <= x <= MAX_INT

  /** The `long` a computation produces when its exact value is `x`: two's-complement wrap-around. */
  function WrapLong(x: int): (r: Long)
    ensures MIN_LONG <= x <= MAX_LONG ==> r == x
    ensures x > MAX_LONG && x - 0x1_0000_0000_0000_0000 <= MAX_LONG ==> r == x - 0x1_0000_0000_0000_0000
    ensures x < MIN_LONG && x + 0x1_0000_0000_0000_0000 >= MIN_LONG ==> r == x + 0x1_0000_0000_0000_0000
    ensures (r - x) % 0x1_0000_0000_0000_0000 == 0
  {
    (x - MIN_LONG) % 0x1_0000_0000_0000_0000 + MIN_LONG
  }

  // ---------------------------------------------------------------------------------------------
  // Case-insensitive comparison

  function ToLowerAscii(c: char): char {
    if 'A' <= c <= 'Z' then (c as int + 32) as char else c
  }

  function ToUpperAscii(c: char): char {
    if 'a' <= c <= 'z' then (c as int - 32) as char else c
  }

  /** The per-character test of `String.regionMatches(true, ...)`, which `equalsIgnoreCase` uses. */
  predicate CharEqualsIgnoreCase(a: char, b: char) {
    || a == b
    || ToUpperAscii(a) == ToUpperAscii(b)
    || ToLowerAscii(ToUpperAscii(a)) == ToLowerAscii(ToUpperAscii(b))
  }

  /** `a.equalsIgnoreCase(b)` for a non-null argument `b`. */
  predicate EqualsIgnoreCase(a: string, b: string) {
    |a| == |b| && forall i :: 0 <= i < |a| ==> CharEqualsIgnoreCase(a[i], b[i])
  }

  /** Under ASCII folding, Java's three-step character test is equality of lower-case forms. */
  lemma CharEqualsIgnoreCaseIsLowerCaseEquality(a: char, b: char)
    ensures CharEqualsIgnoreCase(a, b) <==> ToLowerAscii(a) == ToLowerAscii(b)
  {
  }

  /** `equalsIgnoreCase` is an equivalence relation. */
  lemma EqualsIgnoreCaseIsEquivalence(a: string, b: string, c: string)
    ensures EqualsIgnoreCase(a, a)
    ensures EqualsIgnoreCase(a, b) ==> EqualsIgnoreCase(b, a)
    ensures EqualsIgnoreCase(a, b) && EqualsIgnoreCase(b, c) ==> EqualsIgnoreCase(a, c)
  {
    if EqualsIgnoreCase(a, b) {
      forall i | 0 <= i < |b|
        ensures CharEqualsIgnoreCase(b[i], a[i])
      {
        CharEqualsIgnoreCaseIsLowerCaseEquality(a[i], b[i]);
        CharEqualsIgnoreCaseIsLowerCaseEquality(b[i], a[i]);
      }
      if EqualsIgnoreCase(b, c) {
        forall i | 0 <= i < |a|
          ensures CharEqualsIgnoreCase(a[i], c[i])
        {
          CharEqualsIgnoreCaseIsLowerCaseEquality(a[i], b[i]);
          CharEqualsIgnoreCaseIsLowerCaseEquality(b[i], c[i]);
          CharEqualsIgnoreCaseIsLowerCaseEquality(a[i], c[i]);
        }
      }
    }
  }

  /** A character equals a lower-case ASCII letter ignoring case iff it is that letter in either case. */
  lemma CharMatchesLetter(c: char, letter: char)
    requires 'a' <= letter <= 'z'
    ensures CharEqualsIgnoreCase(c, letter) <==> c == letter || c == (letter as int - 32) as char
  {
    CharEqualsIgnoreCaseIsLowerCaseEquality(c, letter);
  }

  // ---------------------------------------------------------------------------------------------
  // Boolean.valueOf

  /** `Boolean.valueOf(s)`: true iff `s` is non-null and equals "true" ignoring case. */
  predicate ParseBoolean(s: Option<string>) {
    s.Some? && EqualsIgnoreCase(s.value, "true")
  }

  /** The strings `Boolean.valueOf` accepts are exactly the sixteen spellings of "true" in mixed case. */
  lemma ParseBooleanAcceptsExactlyTrueSpellings(s: Option<string>)
    ensures ParseBoolean(s) <==>
      && s.Some?
      && |s.value| == 4
      && forall i :: 0 <= i < 4 ==> s.value[i] == "true"[i] || s.value[i] == "TRUE"[i]
  {
    if s.Some? && |s.value| == 4 {
      forall i | 0 <= i < 4
        ensures CharEqualsIgnoreCase(s.value[i], "true"[i]) <==> s.value[i] == "true"[i] || s.value[i] == "TRUE"[i]
      {
        CharMatchesLetter(s.value[i], "true"[i]);
      }
    }
  }

  // ---------------------------------------------------------------------------------------------
  // StringUtils.isNotBlank

  /** `Character.isWhitespace` on ASCII: space, tab, line feed, vertical tab, form feed, carriage return and the separators U+001C to U+001F. */
  predicate IsWhitespace(c: char) {
    c == ' ' || ('\t' <= c <= '\r') || ('\U{1C}' <= c <= '\U{1F}')
  }

  /** `StringUtils.isNotBlank(s)`: non-null, and some character is not whitespace. */
  predicate IsNotBlank(s: Option<string>) {
    s.Some? && exists i :: 0 <= i < |s.value| && !IsWhitespace(s.value[i])
  }

  // ---------------------------------------------------------------------------------------------
  // Decimal rendering and parsing

  predicate IsDigit(c: char) {
    '0' <= c <= '9'
  }

  predicate AllDigits(s: string) {
    forall i :: 0 <= i < |s| ==> IsDigit(s[i])
  }

  function DigitChar(d: nat): (c: char)
    requires d < 10
    ensures IsDigit(c) && c as int - '0' as int == d
  {
    ('0' as int + d) as char
  }

  /** The value of a string of decimal digits, most significant digit first. */
  function DigitsValue(s: string): nat
    requires AllDigits(s)
  {
    if s == [] then 0 else DigitsValue(s[..|s| - 1]) * 10 + (s[|s| - 1] as int - '0' as int)
  }

  /** The decimal digits of `n` without leading zeros. */
  function NatDigits(n: nat): (s: string)
    ensures s != [] && AllDigits(s)
    ensures s[0] == '0' ==> n == 0
  {
    if n < 10 then [DigitChar(n)] else NatDigits(n / 10) + [DigitChar(n % 10)]
  }

  /** `Long.toString(n)`, `Integer.toString(n)`: what `StringBuilder.append(long)` and string concatenation write for a number. */
  function DecimalString(n: int): (r: string)
    ensures r != [] && (r[0] == '-' <==> n < 0)
  {
    if n < 0 then "-" + NatDigits(-n) else NatDigits(n)
  }

  /** The exact value of a string `Long.parseLong` reads as a number: an optional '-' or '+', then one or more digits. */
  function SignedDigitsValue(s: string): Option<int> {
    if s == [] then None
    else
      var digits := if s[0] == '-' || s[0] == '+' then s[1..] else s;
      if digits == [] || !AllDigits(digits) then None
      else if s[0] == '-' then Some(0 - DigitsValue(digits))
      else Some(DigitsValue(digits))
  }

  /**
   * `Long.parseLong(s)` (with `lo`, `hi` the bounds of `long`) or `Integer.parseInt(s)`
   * (the bounds of `int`) in radix 10. `None` stands for the NumberFormatException
   * thrown for null, for a malformed string and for a value out of range.
   */
  function ParseInteger(s: Option<string>, lo: int, hi: int): (r: Option<int>)
    ensures r.Some? ==> lo <= r.value <= hi && s.Some? && SignedDigitsValue(s.value) == r
    ensures s.Some? && SignedDigitsValue(s.value).Some? && lo <= SignedDigitsValue(s.value).value <= hi ==> r == SignedDigitsValue(s.value)
  {
    if s.None? then None
    else match SignedDigitsValue(s.value)
      case None => None
      case Some(v) => if lo <= v <= hi then Some(v) else None
  }

  /** `Long.valueOf(s)`. */
  function ParseLong(s: Option<string>): (r: Option<int>)
    ensures r.Some? ==> MIN_LONG <= r.value <= MAX_LONG
  {
    ParseInteger(s, MIN_LONG, MAX_LONG)
  }

  /** `Integer.valueOf(s)`. */
  function ParseInt(s: Option<string>): (r: Option<int>)
    ensures r.Some? ==> MIN_INT <= r.value <= MAX_INT
  {
    ParseInteger(s, MIN_INT, MAX_INT)
  }

  /** A string exactly as `Long.toString` writes it: no '+', no leading zero, no "-0". */
  predicate IsCanonicalDecimal(s: string) {
    var digits := if s != [] && s[0] == '-' then s[1..] else s;
    digits != [] && AllDigits(digits) && (digits[0] == '0' ==> s == "0")
  }

  lemma {:induction false} DigitsValueOfNatDigits(n: nat)
    ensures DigitsValue(NatDigits(n)) == n
  {
    if n >= 10 {
      var s := NatDigits(n);
      assert s[..|s| - 1] == NatDigits(n / 10);
      DigitsValueOfNatDigits(n / 10);
    }
  }

  lemma {:induction false} DigitsValuePositive(s: string)
    requires s != [] && AllDigits(s) && s[0] != '0'
    ensures DigitsValue(s) >= 1
  {
    if |s| > 1 {
      DigitsValuePositive(s[..|s| - 1]);
    }
  }

  lemma {:induction false} NatDigitsOfDigitsValue(s: string)
    requires s != [] && AllDigits(s) && (s[0] == '0' ==> |s| == 1)
    ensures NatDigits(DigitsValue(s)) == s
  {
    if |s| > 1 {
      var init := s[..|s| - 1];
      NatDigitsOfDigitsValue(init);
      DigitsValuePositive(init);
      var v := DigitsValue(s);
      var d := s[|s| - 1] as int - '0' as int;
      assert v == DigitsValue(init) * 10 + d;
      assert v / 10 == DigitsValue(init) && v % 10 == d;
      assert s == init + [s[|s| - 1]];
    }
  }

  /** Every character `DecimalString` writes is a digit or the minus sign. */
  lemma DecimalStringAlphabet(n: int)
    ensures var s := DecimalString(n);
      s != [] && forall i :: 0 <= i < |s| ==> IsDigit(s[i]) || s[i] == '-'
  {
  }

  /** Rendering a number in range and parsing it back gives the number. */
  lemma ParseDecimalString(n: int, lo: int, hi: int)
    requires lo <= n <= hi
    ensures ParseInteger(Some(DecimalString(n)), lo, hi) == Some(n)
  {
    var s := DecimalString(n);
    if n < 0 {
      assert s[1..] == NatDigits(-n);
      DigitsValueOfNatDigits(-n);
    } else {
      DigitsValueOfNatDigits(n);
    }
  }

  /** A canonical decimal has a value, and rendering that value gives the same characters back. */
  lemma CanonicalDecimalValue(s: string)
    requires IsCanonicalDecimal(s)
    ensures SignedDigitsValue(s).Some? && DecimalString(SignedDigitsValue(s).value) == s
  {
    if s[0] == '-' {
      NegativeCanonicalDecimalValue(s);
    } else {
      assert IsDigit(s[0]) && AllDigits(s);
      assert SignedDigitsValue(s) == Some(DigitsValue(s));
      NatDigitsOfDigitsValue(s);
    }
  }

  lemma NegativeCanonicalDecimalValue(s: string)
    requires IsCanonicalDecimal(s) && s[0] == '-'
    ensures SignedDigitsValue(s) == Some(0 - DigitsValue(s[1..]))
    ensures DecimalString(0 - DigitsValue(s[1..])) == s
  {
    var digits := s[1..];
    assert digits != [] && AllDigits(digits) && digits[0] != '0';
    NatDigitsOfDigitsValue(digits);
    DigitsValuePositive(digits);
    assert s == "-" + digits;
  }

  /** Parsing a canonical decimal and rendering the number gives the same characters back. */
  lemma DecimalStringOfParse(s: string, lo: int, hi: int)
    requires IsCanonicalDecimal(s)
    requires ParseInteger(Some(s), lo, hi).Some?
    ensures DecimalString(ParseInteger(Some(s), lo, hi).value) == s
  {
    CanonicalDecimalValue(s);
  }

  /** Examples: null, empty, a lone sign and padding are rejected. */
  lemma ParseLongRejections()
    ensures ParseLong(None).None?
    ensures ParseLong(Some("")).None?
    ensures ParseLong(Some("-")).None?
    ensures ParseLong(Some(" 60")).None?
  {
    assert !IsDigit(" 60"[0]);
  }

  /** Examples: a '+' sign and leading zeros are accepted. */
  lemma ParseLongAcceptances()
    ensures ParseLong(Some("+60")) == Some(60)
    ensures ParseLong(Some("-0060")) == Some(-60)
  {
    assert "+60"[1..] == "60" && "60"[..1] == "6" && "6"[..0] == "";
    assert DigitsValue("60") == 60;
    assert "-0060"[1..] == "0060";
    assert "0060"[..3] == "006" && "006"[..2] == "00" && "00"[..1] == "0" && "0"[..0] == "";
    assert DigitsValue("0060") == 60;
  }
}
