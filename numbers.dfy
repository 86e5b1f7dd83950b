/**
 * JavaScript's global parseFloat on the decimal strings the catalog returns for
 * prices, with exact rational values in place of IEEE doubles. NaN is None.
 */
module Numbers {
  import opened Wrappers
  import opened Text

  predicate IsDigit(c: char) {
    '0' <= c <= '9'
  }

  predicate AllDigits(s: string) {
    forall i :: 0 <= i < |s| ==> IsDigit(s[i])
  }

  function DigitValue(c: char): nat
    requires IsDigit(c)
  {
    c as int - '0' as int
  }

  function DigitChar(d: nat): (c: char)
    requires d < 10
    ensures IsDigit(c) && DigitValue(c) == d
  {
    ('0' as int + d) as char
  }

  /** The longest prefix of s made of decimal digits. */
  function LeadingDigits(s: string): (r: string)
    ensures |r| <= |s| && r == s[..|r|] && AllDigits(r)
    ensures |r| == |s| || !IsDigit(s[|r|])
  {
    if s != [] && IsDigit(s[0]) then [s[0]] + LeadingDigits(s[1..]) else []
  }

  /** The value of a string of decimal digits, most significant first. */
  function DigitsValue(ds: string): nat
    requires AllDigits(ds)
  {
    if ds == [] then 0 else 10 * DigitsValue(ds[..|ds| - 1]) + DigitValue(ds[|ds| - 1])
  }

  /** The value of the digits after a decimal point: 0.d1d2d3... */
  function FractionValue(ds: string): real
    requires AllDigits(ds)
  {
    if ds == [] then 0.0 else (DigitValue(ds[0]) as real + FractionValue(ds[1..])) / 10.0
  }

  /** m * 10^e. */
  function Scaled(m: real, e: int): real
    decreases if e < 0 then -e else e
  {
    if e == 0 then m
    else if e > 0 then 10.0 * Scaled(m, e - 1)
    else Scaled(m, e + 1) / 10.0
  }

  /** The exponent of an ExponentPart ("e", optional sign, digits) at the start of s, or 0 when there is none. */
  function ExponentOf(s: string): int {
    if |s| >= 1 && (s[0] == 'e' || s[0] == 'E') then
      var signed := |s| >= 2 && (s[1] == '-' || s[1] == '+');
      var ds := LeadingDigits(if signed then s[2..] else s[1..]);
      if ds == [] then 0
      else if signed && s[1] == '-' then -(DigitsValue(ds) as int)
      else DigitsValue(ds)
    else 0
  }

  /**
   * parseFloat: skip leading white space, read an optional sign, then the longest
   * decimal literal; whatever follows is ignored. No digits at all yields NaN, here None.
   */
  function ParseFloat(s: string): Option<real> {
    ParseSigned(TrimStart(s))
  }

  function ParseSigned(t: string): Option<real> {
    if t != [] && t[0] == '-' then
      match ParseUnsigned(t[1..])
      case Some(x) => Some(-x)
      case None => None
    else if t != [] && t[0] == '+' then ParseUnsigned(t[1..])
    else ParseUnsigned(t)
  }

  /** The longest StrUnsignedDecimalLiteral at the start of u: digits, an optional point and fraction, an optional exponent. */
  function ParseUnsigned(u: string): Option<real> {
    var whole := LeadingDigits(u);
    ParseAfterWhole(whole, u[|whole|..])
  }

  /** The rest of the literal once its leading digits `whole` are read; t is the text after them. */
  function ParseAfterWhole(whole: string, t: string): Option<real>
    requires AllDigits(whole)
  {
    if |t| > 0 && t[0] == '.' then
      var fraction := LeadingDigits(t[1..]);
      if whole == [] && fraction == [] then None
      else Some(Magnitude(whole, fraction, t[1 + |fraction|..]))
    else if whole == [] then None
    else Some(Magnitude(whole, [], t))
  }

  /** whole.fraction scaled by the exponent that starts `after`, if any. */
  function Magnitude(whole: string, fraction: string, after: string): real
    requires AllDigits(whole) && AllDigits(fraction)
  {
    Scaled(DigitsValue(whole) as real + FractionValue(fraction), ExponentOf(after))
  }

  lemma TrimStartNoSpace(t: string)
    requires t != [] && !IsSpace(t[0])
    ensures TrimStart(t) == t
  {
  }

  /** The shortest decimal numeral of n. */
  function NatText(n: nat): (r: string)
    ensures |r| >= 1 && AllDigits(r)
  {
    if n < 10 then [DigitChar(n)] else NatText(n / 10) + [DigitChar(n % 10)]
  }

  /** A price of c cents as the catalog writes it: whole units, a point, two digits ("19.99"). */
  function CentsText(c: nat): string {
    NatText(c / 100) + "." + [DigitChar(c / 10 % 10), DigitChar(c % 10)]
  }

  lemma {:induction false} NatTextValue(n: nat)
    ensures DigitsValue(NatText(n)) == n
  {
    if n >= 10 {
      NatTextValue(n / 10);
      var r := NatText(n);
      assert r[..|r| - 1] == NatText(n / 10);
    }
  }

  lemma {:induction false} LeadingDigitsStop(ds: string, rest: string)
    requires AllDigits(ds)
    requires rest == [] || !IsDigit(rest[0])
    ensures LeadingDigits(ds + rest) == ds
  {
    if ds != [] {
      assert (ds + rest)[1..] == ds[1..] + rest;
      LeadingDigitsStop(ds[1..], rest);
      assert [ds[0]] + ds[1..] == ds;
    }
  }

  lemma CentsSplit(c: nat)
    ensures (c / 100) as real + (10 * (c / 10 % 10) + c % 10) as real / 100.0 == c as real / 100.0
  {
    var q := c / 10;
    assert c == 10 * q + c % 10;
    assert q == 10 * (q / 10) + q % 10;
    assert c / 100 == q / 10;
    assert c == 100 * (c / 100) + 10 * (q % 10) + c % 10;
  }

  lemma TwoDigitFraction(c: nat)
    ensures FractionValue([DigitChar(c / 10 % 10), DigitChar(c % 10)]) == (10 * (c / 10 % 10) + c % 10) as real / 100.0
  {
    var tens, ones := DigitChar(c / 10 % 10), DigitChar(c % 10);
    var fraction := [tens, ones];
    assert fraction[1..] == [ones];
    assert [ones][1..] == [];
    assert FractionValue([ones]) == (c % 10) as real / 10.0;
    assert FractionValue(fraction) == ((c / 10 % 10) as real + (c % 10) as real / 10.0) / 10.0;
  }

  lemma WholeThenPoint(whole: string, tail: string)
    requires whole != [] && AllDigits(whole) && tail != [] && tail[0] == '.'
    ensures ParseUnsigned(whole + tail) == ParseAfterWhole(whole, tail)
  {
    LeadingDigitsStop(whole, tail);
    assert (whole + tail)[|whole|..] == tail;
  }

  lemma PointThenFraction(whole: string, fraction: string, rest: string)
    requires AllDigits(whole) && AllDigits(fraction) && (rest == [] || !IsDigit(rest[0]))
    requires whole != [] || fraction != []
    ensures ParseAfterWhole(whole, "." + fraction + rest) == Some(Magnitude(whole, fraction, rest))
  {
    var tail := "." + fraction + rest;
    assert tail[1..] == fraction + rest;
    LeadingDigitsStop(fraction, rest);
    assert tail[1 + |fraction|..] == rest;
  }

  lemma MagnitudeWithoutExponent(whole: string, fraction: string, rest: string)
    requires AllDigits(whole) && AllDigits(fraction)
    requires rest == [] || !(rest[0] == 'e' || rest[0] == 'E')
    ensures Magnitude(whole, fraction, rest) == DigitsValue(whole) as real + FractionValue(fraction)
  {
  }

  lemma UnsignedDecimal(whole: string, fraction: string, rest: string)
    requires whole != [] && AllDigits(whole) && AllDigits(fraction)
    requires rest == [] || !(IsDigit(rest[0]) || rest[0] == 'e' || rest[0] == 'E')
    ensures ParseUnsigned(whole + "." + fraction + rest) == Some(Magnitude(whole, fraction, rest))
    ensures Magnitude(whole, fraction, rest) == DigitsValue(whole) as real + FractionValue(fraction)
  {
    var tail := "." + fraction + rest;
    assert whole + "." + fraction + rest == whole + tail;
    WholeThenPoint(whole, tail);
    PointThenFraction(whole, fraction, rest);
    MagnitudeWithoutExponent(whole, fraction, rest);
  }

  /**
   * parseFloat reads a price written in cents notation back exactly, whatever
   * non-numeric text follows it.
   */
  lemma ParseCents(c: nat, rest: string)
    requires rest == [] || !(IsDigit(rest[0]) || rest[0] == 'e' || rest[0] == 'E')
    ensures ParseFloat(CentsText(c) + rest) == Some(c as real / 100.0)
  {
    var whole := NatText(c / 100);
    var fraction := [DigitChar(c / 10 % 10), DigitChar(c % 10)];
    var s := CentsText(c) + rest;
    assert s == whole + "." + fraction + rest;
    assert !IsSpace(s[0]) && s[0] != '-' && s[0] != '+';
    assert TrimStart(s) == s;
    UnsignedDecimal(whole, fraction, rest);
    NatTextValue(c / 100);
    TwoDigitFraction(c);
    CentsSplit(c);
  }

  /** A minus sign before a number is read, so negative prices come back negative. */
  lemma SignedMinus(t: string)
    ensures ParseSigned("-" + t) == match ParseUnsigned(t) case Some(x) => Some(-x) case None => None
  {
    assert ("-" + t)[1..] == t;
  }

  lemma ParseMinus(t: string)
    requires t != [] && IsDigit(t[0])
    ensures ParseFloat(t).Some?
    ensures ParseFloat("-" + t) == Some(-ParseFloat(t).value)
  {
    TrimStartNoSpace(t);
    TrimStartNoSpace("-" + t);
    SignedMinus(t);
    assert LeadingDigits(t) != [];
  }

  /**
   * Strings with no digit before any other text, such as "" or "abc", are NaN.
   * A leading 'I' is excluded: JavaScript reads "Infinity" as a number.
   */
  lemma ParseNoDigits(s: string)
    requires s == [] || !(IsSpace(s[0]) || IsDigit(s[0]) || s[0] in "+-." || s[0] == 'I')
    ensures ParseFloat(s) == None
  {
  }
}
