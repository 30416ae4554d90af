/** The few pieces of the Java platform the string utilities and data holders rely on:
    32-bit integers, nullable references, Java's character classification and
    Integer.toString. */
module JavaLang {

  /** Java's `int`. */
  newtype Int32 = x: int | -0x8000_0000 <= x < 0x8000_0000

  /** A Java reference that may be `null`. */
  datatype Nullable<T> = Null | Ref(value: T)

  /** A Java `String` variable: `null` or a sequence of characters. A Dafny
      `char` is a Unicode scalar value, so a character outside the Basic
      Multilingual Plane is one `char` here where Java stores two UTF-16 code
      units (a surrogate pair). */
  type JString = Nullable<string>

  /** The outcome of a parse: `None` is a failed parse, not a Java `null`. */
  datatype Option<T> = None | Some(value: T)

  // ---------------------------------------------------------------------------
  // Character classification

  /** Java's `Character.isLetter`, `Character.isAlphabetic` and `Character.isDigit`.
      Their Unicode tables are not modelled: every operation takes the three
      classifiers as a parameter, and `WellFormed` says what is known of them. */
  datatype CharClasses = CharClasses(
    isLetter: char -> bool,
    isAlphabetic: char -> bool,
    isDigit: char -> bool)

  predicate IsAscii(c: char) {
    c as int < 128
  }

  /** A character beyond U+FFFF, which Java holds as a surrogate pair. */
  predicate IsSupplementary(c: char) {
    c as int >= 0x10000
  }

  predicate IsAsciiLetter(c: char) {
    'A' <= c <= 'Z' || 'a' <= c <= 'z'
  }

  predicate IsAsciiDigit(c: char) {
    '0' <= c <= '9'
  }

  /** What Java guarantees of its tables: every letter is alphabetic (the
      alphabetic class adds letter numbers and other alphabetic marks), and on
      the ASCII range the letters and the alphabetic characters are exactly
      A-Z and a-z and the digits exactly 0-9. The `char` overloads test one
      UTF-16 code unit at a time, and a surrogate is none of the three, so a
      character beyond U+FFFF counts as none of them either. */
  ghost predicate WellFormed(cc: CharClasses) {
    && (forall c :: cc.isLetter(c) ==> cc.isAlphabetic(c))
    && (forall c :: IsSupplementary(c) ==> !cc.isLetter(c) && !cc.isAlphabetic(c) && !cc.isDigit(c))
    && (forall c :: IsAscii(c) ==> (cc.isLetter(c) <==> IsAsciiLetter(c)))
    && (forall c :: IsAscii(c) ==> (cc.isAlphabetic(c) <==> IsAsciiLetter(c)))
    && (forall c :: IsAscii(c) ==> (cc.isDigit(c) <==> IsAsciiDigit(c)))
  }

  /** The classifiers restricted to ASCII: one instance of the tables. */
  const Ascii := CharClasses(IsAsciiLetter, IsAsciiLetter, IsAsciiDigit)

  lemma AsciiWellFormed()
    ensures WellFormed(Ascii)
  {
  }

  // ---------------------------------------------------------------------------
  // Integer.toString

  function DigitChar(d: nat): (c: char)
    requires d < 10
    ensures IsAsciiDigit(c)
  {
    ('0' as int + d) as char
  }

  function DigitValue(c: char): (d: nat)
    requires IsAsciiDigit(c)
    ensures d < 10 && DigitChar(d) == c
  {
    c as int - '0' as int
  }

  /** The decimal digits of `n`, most significant first, without leading zeros. */
  function NatDecimal(n: nat): (r: string)
    ensures |r| >= 1
    ensures forall i :: 0 <= i < |r| ==> IsAsciiDigit(r[i])
    ensures r[0] == '0' ==> n == 0 && r == "0"
    decreases n
  {
    if n < 10 then [DigitChar(n)] else NatDecimal(n / 10) + [DigitChar(n % 10)]
  }

  /** Java's `Integer.toString(i)`, which is also what `"" + i` produces. */
  function Decimal(i: Int32): (r: string)
    ensures |r| >= 1
    ensures r[0] == '-' <==> i < 0
  {
    if i < 0 then "-" + NatDecimal(-(i as int)) else NatDecimal(i as nat)
  }

  /** Reads back a non-empty run of decimal digits (the inverse of `NatDecimal`). */
  function ParseNat(s: string): (r: Option<nat>)
    ensures r.Some? ==> s != []
    decreases |s|
  {
    if s == [] || !IsAsciiDigit(s[|s| - 1]) then None
    else if |s| == 1 then Some(DigitValue(s[0]))
    else match ParseNat(s[..|s| - 1])
      case None => None
      case Some(n) => Some(10 * n + DigitValue(s[|s| - 1]))
  }

  /** Reads back an optionally signed decimal number (the inverse of `Decimal`). */
  function ParseDecimal(s: string): Option<int> {
    if s != [] && s[0] == '-' then
      match ParseNat(s[1..])
      case None => None
      case Some(n) => Some(-(n as int))
    else
      match ParseNat(s)
      case None => None
      case Some(n) => Some(n)
  }

  lemma {:induction false} ParseNatDecimal(n: nat)
    ensures ParseNat(NatDecimal(n)) == Some(n)
    decreases n
  {
    if n >= 10 {
      var s := NatDecimal(n);
      assert s[..|s| - 1] == NatDecimal(n / 10);
      ParseNatDecimal(n / 10);
    }
  }

  /** Every `int` is read back from its decimal form. */
  lemma DecimalRoundTrip(i: Int32)
    ensures ParseDecimal(Decimal(i)) == Some(i as int)
  {
    var s := Decimal(i);
    if i < 0 {
      var n: nat := -(i as int);
      var digits := NatDecimal(n);
      assert s == "-" + digits;
      assert s[1..] == digits;
      ParseNatDecimal(n);
      assert ParseNat(s[1..]) == Some(n);
    } else {
      var digits := NatDecimal(i as nat);
      assert s == digits && s[0] != '-';
      ParseNatDecimal(i as nat);
    }
  }

  /** Distinct integers have distinct decimal forms. */
  lemma DecimalInjective(i: Int32, j: Int32)
    requires Decimal(i) == Decimal(j)
    ensures i == j
  {
    DecimalRoundTrip(i);
    DecimalRoundTrip(j);
  }

  function Pow10(k: nat): (p: nat)
    ensures p >= 1
  {
    if k == 0 then 1 else 10 * Pow10(k - 1)
  }

  lemma {:induction false} NatDecimalLength(n: nat, k: nat)
    requires 1 <= k && n < Pow10(k)
    ensures |NatDecimal(n)| <= k
    decreases n
  {
    if n >= 10 {
      NatDecimalLength(n / 10, k - 1);
    }
  }

  /** An `int` takes one to eleven characters: at most ten digits and a sign. */
  lemma DecimalLength(i: Int32)
    ensures 1 <= |Decimal(i)| <= 11
  {
    assert Pow10(10) == 10_000_000_000;
    NatDecimalLength(if i < 0 then -(i as int) else i as int, 10);
  }
}
