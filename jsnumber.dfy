/**
 * The two JavaScript number operations the core depends on: `Number.parseFloat`
 * on a string (a partial parser: `None` stands for NaN) and `Math.round`.
 * Numbers are exact reals; IEEE-754 rounding is not modelled.
 */
module JsNumber {
  import opened Wrappers
  import opened Text

  /** The white space and line terminators `parseFloat` skips before the numeral. */
  predicate IsJsSpace(c: char) {
    var n := c as int;
    n == 0x09 || n == 0x0A || n == 0x0B || n == 0x0C || n == 0x0D || n == 0x20 || n == 0xA0 ||
    n == 0x1680 || (0x2000 <= n <= 0x200A) || n == 0x2028 || n == 0x2029 || n == 0x202F ||
    n == 0x205F || n == 0x3000 || n == 0xFEFF
  }

  function TrimStart(s: string): (r: string)
    ensures |r| <= |s| && r == s[|s| - |r|..]
    ensures r != [] ==> !IsJsSpace(r[0])
    ensures s != [] && !IsJsSpace(s[0]) ==> r == s
  {
    if s != [] && IsJsSpace(s[0]) then TrimStart(s[1..]) else s
  }

  /** The length of the longest all-digit prefix of `s`. */
  function DigitRun(s: string): (n: nat)
    ensures n <= |s| && AllDigits(s[..n])
    ensures n < |s| ==> !IsDigit(s[n])
  {
    if s != [] && IsDigit(s[0]) then
      var n := 1 + DigitRun(s[1..]);
      assert s[..n] == [s[0]] + s[1..][..n - 1];
      n
    else 0
  }

  function Pow10(n: nat): (r: real)
    ensures r >= 1.0
  {
    if n == 0 then 1.0 else 10.0 * Pow10(n - 1)
  }

  /** 10 to an integer power. */
  function Scale(e: int): (r: real)
    ensures r > 0.0
  {
    if e >= 0 then Pow10(e) else 1.0 / Pow10(-e)
  }

  /** The exponent part `e[+|-]digits` at the start of `s`, or 0 when there is none. */
  function Exponent(s: string): int {
    if |s| >= 2 && (s[0] == 'e' || s[0] == 'E') then
      var neg := s[1] == '-';
      var rest := if s[1] == '-' || s[1] == '+' then s[2..] else s[1..];
      var k := DigitRun(rest);
      if k == 0 then 0
      else if neg then -(DigitsValue(rest[..k]) as int) else DigitsValue(rest[..k])
    else 0
  }

  /**
   * `Number.parseFloat(s)`: skip leading white space, read the longest prefix of
   * the form `[+-] digits [. digits] [e[+-]digits]` holding at least one digit,
   * and ignore the rest. `None` is NaN (no digit at all).
   */
  function ParseFloat(s: string): Option<real> {
    ParseSigned(TrimStart(s))
  }

  /** An optionally signed numeral at the start of `t`. */
  function ParseSigned(t: string): Option<real> {
    if t != [] && t[0] == '-' then
      match ParseUnsigned(t[1..])
      case None => None
      case Some(v) => Some(-v)
    else if t != [] && t[0] == '+' then ParseUnsigned(t[1..])
    else ParseUnsigned(t)
  }

  /** The unsigned numeral `digits [. digits] [exponent]` at the start of `a`. */
  function ParseUnsigned(a: string): Option<real> {
    var n := DigitRun(a);
    var dot := n < |a| && a[n] == '.';
    var b := if dot then a[n + 1..] else a[n..];
    var f := if dot then DigitRun(b) else 0;
    if n + f == 0 then None
    else Some(Mantissa(a[..n], b[..f]) * Scale(Exponent(b[f..])))
  }

  /** The value of `whole.frac`. */
  function Mantissa(whole: string, frac: string): real
    requires AllDigits(whole) && AllDigits(frac)
  {
    DigitsValue(whole) as real + DigitsValue(frac) as real / Pow10(|frac|)
  }

  /** Parsing the decimal rendering of a natural number gives that number back. */
  lemma ParseFloatOfNatToString(n: nat)
    ensures ParseFloat(NatToString(n)) == Some(n as real)
  {
    var s := NatToString(n);
    assert IsDigit(s[0]);
    ParseFloatOfUnsigned(s);
    ParseUnsignedOfDigits(s);
  }

  /** Without leading space or sign, `parseFloat` reads an unsigned numeral. */
  lemma ParseFloatOfUnsigned(s: string)
    requires s != [] && !IsJsSpace(s[0]) && s[0] != '-' && s[0] != '+'
    ensures ParseFloat(s) == ParseUnsigned(s)
  {
    assert TrimStart(s) == s;
  }

  /** An all-digit numeral parses to its decimal value. */
  lemma ParseUnsignedOfDigits(s: string)
    requires s != [] && AllDigits(s)
    ensures ParseUnsigned(s) == Some(DigitsValue(s) as real)
  {
    var n := DigitRun(s);
    assert n == |s| by { DigitRunOfDigits(s); }
    var b := s[n..];
    assert b == [] && s[..n] == s;
    assert Mantissa(s, b[..0]) == DigitsValue(s) as real by { MantissaWhole(s); }
    assert Scale(Exponent(b[0..])) == 1.0;
  }

  /** A numeral without a fraction has the value of its digits. */
  lemma MantissaWhole(s: string)
    requires AllDigits(s)
    ensures Mantissa(s, []) == DigitsValue(s) as real
  {
    assert DigitsValue([]) == 0;
    assert Pow10(0) == 1.0;
  }

  lemma {:induction false} DigitRunOfDigits(s: string)
    requires AllDigits(s)
    ensures DigitRun(s) == |s|
  {
    if s != [] { DigitRunOfDigits(s[1..]); }
  }

  /** A text whose first character is not white space, a sign, a dot or a digit. */
  predicate StartsWord(s: string) {
    s != [] && !IsJsSpace(s[0]) && !IsDigit(s[0]) && s[0] != '+' && s[0] != '-' && s[0] != '.'
  }

  /** Such a text holds no numeral: `parseFloat` gives NaN. */
  lemma ParseFloatOfWord(s: string)
    requires StartsWord(s)
    ensures ParseFloat(s) == None
  {
    ParseFloatOfUnsigned(s);
    ParseUnsignedOfNonDigit(s);
  }

  /** A numeral cannot start with anything but a digit or a dot. */
  lemma ParseUnsignedOfNonDigit(a: string)
    requires a != [] && !IsDigit(a[0]) && a[0] != '.'
    ensures ParseUnsigned(a) == None
  {
    assert DigitRun(a) == 0;
  }

  /** Leading white space is skipped up to the first other character. */
  lemma {:induction false} TrimStartSkips(w: string, s: string)
    requires forall i :: 0 <= i < |w| ==> IsJsSpace(w[i])
    requires s == [] || !IsJsSpace(s[0])
    ensures TrimStart(w + s) == s
  {
    if w != [] {
      assert (w + s)[0] == w[0] && (w + s)[1..] == w[1..] + s;
      TrimStartSkips(w[1..], s);
    }
  }

  /** The digit scan stops at the first character that is not a digit. */
  lemma {:induction false} DigitRunPrefix(a: string, t: string)
    requires AllDigits(a)
    requires t == [] || !IsDigit(t[0])
    ensures DigitRun(a + t) == |a|
  {
    if a != [] {
      assert (a + t)[0] == a[0] && (a + t)[1..] == a[1..] + t;
      DigitRunPrefix(a[1..], t);
    }
  }

  /** A text that cannot continue a numeral: empty, or starting with none of `0-9 . e E`. */
  predicate EndsNumeral(t: string) {
    t == [] || (!IsDigit(t[0]) && t[0] != '.' && t[0] != 'e' && t[0] != 'E')
  }

  /** `whole.frac` followed by text that is not an exponent reads as `whole.frac`. */
  lemma ParseUnsignedOfDecimal(whole: string, frac: string, t: string)
    requires AllDigits(whole) && AllDigits(frac) && |whole| + |frac| > 0
    requires EndsNumeral(t)
    ensures ParseUnsigned(whole + ("." + (frac + t))) == Some(Mantissa(whole, frac))
  {
    var a := whole + ("." + (frac + t));
    DigitRunPrefix(whole, "." + (frac + t));
    var n := |whole|;
    assert a[n] == '.' && a[..n] == whole && a[n + 1..] == frac + t;
    var b := frac + t;
    DigitRunPrefix(frac, t);
    assert b[..|frac|] == frac && b[|frac|..] == t;
    assert Exponent(t) == 0;
  }

  /** Digits followed by text that cannot continue a numeral read as a whole number. */
  lemma ParseUnsignedOfWhole(whole: string, t: string)
    requires whole != [] && AllDigits(whole)
    requires EndsNumeral(t)
    ensures ParseUnsigned(whole + t) == Some(DigitsValue(whole) as real)
  {
    var a := whole + t;
    DigitRunPrefix(whole, t);
    var n := |whole|;
    assert a[..n] == whole && a[n..] == t;
    assert n < |a| ==> a[n] == t[0];
    assert !(n < |a| && a[n] == '.');
    assert t[..0] == [] && t[0..] == t;
    MantissaWhole(whole);
    assert Exponent(t) == 0 && Scale(0) == 1.0;
  }

  /** Leading white space does not change what `parseFloat` reads. */
  lemma ParseFloatSkipsSpace(w: string, s: string)
    requires forall i :: 0 <= i < |w| ==> IsJsSpace(w[i])
    requires s == [] || !IsJsSpace(s[0])
    ensures ParseFloat(w + s) == ParseFloat(s)
  {
    TrimStartSkips(w, s);
  }

  /**
   * A price typed as `whole.frac`, with any leading white space and any
   * trailing text that does not continue the numeral, reads as `whole.frac`.
   */
  lemma ParseFloatOfDecimalText(w: string, whole: string, frac: string, t: string)
    requires forall i :: 0 <= i < |w| ==> IsJsSpace(w[i])
    requires AllDigits(whole) && AllDigits(frac) && |whole| + |frac| > 0
    requires EndsNumeral(t)
    ensures ParseFloat(w + (whole + ("." + (frac + t)))) == Some(Mantissa(whole, frac))
  {
    var s := whole + ("." + (frac + t));
    assert s[0] == (if whole != [] then whole[0] else '.');
    ParseFloatSkipsSpace(w, s);
    ParseFloatOfUnsigned(s);
    ParseUnsignedOfDecimal(whole, frac, t);
  }

  /**
   * A whole-number price, with any leading white space and any trailing text
   * that does not continue the numeral, reads as that number.
   */
  lemma ParseFloatOfWholeText(w: string, whole: string, t: string)
    requires forall i :: 0 <= i < |w| ==> IsJsSpace(w[i])
    requires whole != [] && AllDigits(whole)
    requires EndsNumeral(t)
    ensures ParseFloat(w + (whole + t)) == Some(DigitsValue(whole) as real)
  {
    var s := whole + t;
    assert s[0] == whole[0];
    ParseFloatSkipsSpace(w, s);
    ParseFloatOfUnsigned(s);
    ParseUnsignedOfWhole(whole, t);
  }

  /** For instance, `" 12.50 Rs"` reads as 12.5. */
  lemma ParseFloatOfPriceText()
    ensures ParseFloat(" 12.50 Rs") == Some(12.5)
  {
    assert " 12.50 Rs" == " " + ("12" + ("." + ("50" + " Rs")));
    MantissaOfPriceText();
    ParseFloatOfDecimalText(" ", "12", "50", " Rs");
  }

  lemma MantissaOfPriceText()
    ensures AllDigits("12") && AllDigits("50") && Mantissa("12", "50") == 12.5
  {
    assert "12"[..1] == "1" && "50"[..1] == "5";
    assert DigitsValue("12") == 12;
    assert DigitsValue("50") == 50;
    assert Pow10(2) == 100.0;
  }

  /** `Math.round(x)`: the nearest integer, halves rounded up. */
  function Round(x: real): (r: int)
    ensures x - 0.5 < r as real <= x + 0.5
  {
    (x + 0.5).Floor
  }
}
