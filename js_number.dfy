/** JavaScript's `Number(string)` conversion and `Math.round`, over exact
    reals. A string `Number` cannot read becomes `None`, standing for `NaN`.
    The decimal forms covered are an optional sign followed by digits with an
    optional fractional part; surrounding white space is ignored and the
    empty string reads as 0. */
module JsNumber {
  import opened Seqs
  import Strings

  predicate IsDigit(c: char) {
    '0' <= c <= '9'
  }

  predicate AllDigits(s: string) {
    forall i :: 0 <= i < |s| ==> IsDigit(s[i])
  }

  function DigitValue(c: char): (d: nat)
    requires IsDigit(c)
    ensures d < 10
  {
    c as int - '0' as int
  }

  function DigitChar(d: nat): (c: char)
    requires d < 10
    ensures IsDigit(c) && DigitValue(c) == d
  {
    ('0' as int + d) as char
  }

  /** Value of a string of decimal digits, most significant digit first. */
  function DigitsValue(s: string): nat
    requires AllDigits(s)
  {
    if s == [] then 0 else DigitsValue(s[..|s| - 1]) * 10 + DigitValue(s[|s| - 1])
  }

  /** Value of the digits after a decimal point. */
  function FractionValue(s: string): (f: real)
    requires AllDigits(s)
    ensures 0.0 <= f < 1.0
  {
    if s == [] then 0.0 else (DigitValue(s[0]) as real + FractionValue(s[1..])) / 10.0
  }

  /** Digits, optionally followed by `.` and more digits, with at least one digit in all. */
  function ParseUnsigned(s: string): (r: Option<real>)
    ensures r.Some? ==> r.value >= 0.0
  {
    var k := Strings.IndexOf(s, '.');
    var whole := s[..k];
    var fraction := if k < |s| then s[k + 1..] else "";
    if AllDigits(whole) && AllDigits(fraction) && |whole| + |fraction| > 0 then
      Some(DigitsValue(whole) as real + FractionValue(fraction))
    else None
  }

  /** A string with no white space at either end: empty reads as 0, then an optional sign. */
  function ParseTrimmed(t: string): Option<real> {
    if t == "" then Some(0.0)
    else
      var unsigned := if t[0] == '-' || t[0] == '+' then t[1..] else t;
      match ParseUnsigned(unsigned)
      case Some(v) => Some(if t[0] == '-' then -v else v)
      case None => None
  }

  /** `Number(s)`; `None` is `NaN`. White space is stripped from both ends one
      character at a time; `ParseIgnoresWhitespace` ties this to `trim`. */
  function ParseNumber(s: string): (r: Option<real>)
    decreases |s|
  {
    if s != [] && Strings.IsWhitespace(s[0]) then ParseNumber(s[1..])
    else if s != [] && Strings.IsWhitespace(s[|s| - 1]) then ParseNumber(s[..|s| - 1])
    else ParseTrimmed(s)
  }

  /** `Number(s)` reads the trimmed string. */
  lemma {:induction false} ParseIgnoresWhitespace(s: string)
    ensures ParseNumber(s) == ParseTrimmed(Strings.Trim(s))
    decreases |s|
  {
    if s == [] {
      assert Strings.Trim(s) == [];
    } else if Strings.IsWhitespace(s[0]) {
      assert ParseNumber(s) == ParseNumber(s[1..]);
      ParseIgnoresWhitespace(s[1..]);
      Strings.TrimDropsLeading(s);
    } else if Strings.IsWhitespace(s[|s| - 1]) {
      assert ParseNumber(s) == ParseNumber(s[..|s| - 1]);
      ParseIgnoresWhitespace(s[..|s| - 1]);
      Strings.TrimDropsTrailing(s);
    } else {
      assert ParseNumber(s) == ParseTrimmed(s);
      Strings.TrimUnchanged(s);
    }
  }

  /** A trimmed string that starts with neither a digit, a point nor a sign is `NaN`. */
  lemma BadStartNotANumber(t: string)
    requires t != [] && !IsDigit(t[0]) && t[0] !in ".-+"
    ensures ParseTrimmed(t) == None
  {
    var k := Strings.IndexOf(t, '.');
    assert k > 0;
    assert t[..k][0] == t[0];
  }

  /** `Number(s) || 0`: a string that does not read as a number counts as 0,
      and so does the empty string an untouched field holds. */
  function NumberOrZero(s: string): (r: real)
    ensures ParseNumber(s).None? ==> r == 0.0
    ensures s == "" ==> r == 0.0
  {
    match ParseNumber(s)
    case Some(v) => v
    case None => 0.0
  }

  /** The decimal rendering of a natural number, without leading zeros. */
  function NatToString(n: nat): (s: string)
    ensures s != [] && AllDigits(s)
  {
    if n < 10 then [DigitChar(n)] else NatToString(n / 10) + [DigitChar(n % 10)]
  }

  lemma {:induction false} DigitsOfNatToString(n: nat)
    ensures DigitsValue(NatToString(n)) == n
  {
    var s := NatToString(n);
    if n >= 10 {
      DigitsOfNatToString(n / 10);
      assert s[..|s| - 1] == NatToString(n / 10);
    } else {
      assert s[..|s| - 1] == [];
    }
  }

  /** A non-empty string of digits reads as its decimal value. */
  lemma ParseDigits(s: string)
    requires s != [] && AllDigits(s)
    ensures ParseNumber(s) == Some(DigitsValue(s) as real)
  {
    assert IsDigit(s[0]) && IsDigit(s[|s| - 1]);
    var k := Strings.IndexOf(s, '.');
    assert k == |s|;
    assert s[..k] == s;
  }

  /** `Number` reads back every rendered natural number. */
  lemma NatToStringRoundTrip(n: nat)
    ensures ParseNumber(NatToString(n)) == Some(n as real)
  {
    ParseDigits(NatToString(n));
    DigitsOfNatToString(n);
  }

  /** `Number` never reads a string without a minus sign as a negative number. */
  lemma NoMinusNotNegative(s: string)
    requires '-' !in s
    requires ParseNumber(s).Some?
    ensures ParseNumber(s).value >= 0.0
  {
    ParseIgnoresWhitespace(s);
    var t := Strings.Trim(s);
    if t != "" {
      Strings.TrimIsInfix(s);
      assert t[0] in s;
    }
  }

  /** `Math.round`: the nearest integer, halves rounding up. */
  function Round(x: real): (n: int)
    ensures n as real - 0.5 <= x < n as real + 0.5
  {
    (x + 0.5).Floor
  }
}
