/**
  JavaScript's `parseFloat` over strings, with exact `real` results.

  The longest prefix of the (left-trimmed) text that reads as a decimal
  literal — optional sign, digits with an optional fraction, an optional
  exponent — gives the value; a text with no such prefix gives NaN, which
  is `None` here.
*/
module NumberParsing {
  import opened Wrappers

  predicate IsDigit(c: char) {
    '0' <= c <= '9'
  }

  predicate AllDigits(s: string) {
    forall i :: 0 <= i < |s| ==> IsDigit(s[i])
  }

  /** The value of a digit character; other characters count as 0. */
  function DigitValue(c: char): nat {
    if IsDigit(c) then c as int - '0' as int else 0
  }

  function DigitChar(d: nat): (c: char)
    requires d < 10
    ensures IsDigit(c) && DigitValue(c) == d
  {
    ('0' as int + d) as char
  }

  /** The number of digits that start `s`. */
  function DigitRun(s: string): (n: nat)
    ensures n <= |s|
    ensures n < |s| ==> !IsDigit(s[n])
  {
    if |s| > 0 && IsDigit(s[0]) then 1 + DigitRun(s[1..]) else 0
  }

  /** A text made only of digits is one run. */
  lemma {:induction false} DigitRunAll(s: string)
    requires AllDigits(s)
    ensures DigitRun(s) == |s|
  {
    if |s| > 0 {
      DigitRunAll(s[1..]);
    }
  }

  /** The value of a string of decimal digits, most significant first. */
  function DigitsValue(ds: string): nat {
    if |ds| == 0 then 0 else DigitsValue(ds[..|ds| - 1]) * 10 + DigitValue(ds[|ds| - 1])
  }

  /**
    The white-space characters `parseFloat` skips before the literal: the
    ECMAScript WhiteSpace (tab, vertical tab, form feed, the byte-order mark
    and the space separators) and LineTerminator characters.
  */
  predicate IsSpace(c: char) {
    || c == '\t' || c == '\n' || c == '\U{000B}' || c == '\U{000C}' || c == '\r' || c == ' '
    || c == '\U{00A0}' || c == '\U{1680}' || '\U{2000}' <= c <= '\U{200A}'
    || c == '\U{2028}' || c == '\U{2029}' || c == '\U{202F}' || c == '\U{205F}' || c == '\U{3000}'
    || c == '\U{FEFF}'
  }

  function TrimStart(s: string): (t: string)
    ensures |t| <= |s| && t == s[|s| - |t|..]
    ensures |t| > 0 ==> !IsSpace(t[0])
  {
    if |s| > 0 && IsSpace(s[0]) then TrimStart(s[1..]) else s
  }

  /** `m` scaled by ten to the power `e`, one factor of ten at a time. */
  function Scale(m: real, e: int): real
    decreases if e >= 0 then e else -e
  {
    if e == 0 then m
    else if e > 0 then Scale(m, e - 1) * 10.0
    else Scale(m, e + 1) / 10.0
  }

  /** The exponent part starting at `s[0]`, or 0 when `s` does not start with one. */
  function Exponent(s: string): int {
    if |s| >= 2 && (s[0] == 'e' || s[0] == 'E') then
      var signed := s[1] == '+' || s[1] == '-';
      var ds := if signed then s[2..] else s[1..];
      var k := DigitRun(ds);
      if k == 0 then 0
      else if s[1] == '-' then -(DigitsValue(ds[..k]) as int)
      else DigitsValue(ds[..k])
    else 0
  }

  /** A literal starts at `s[0]`: a digit, or a point followed by a digit. */
  predicate StartsLiteral(s: string) {
    |s| > 0 && (IsDigit(s[0]) || (s[0] == '.' && |s| > 1 && IsDigit(s[1])))
  }

  /** `t` without its leading sign, if it has one. */
  function Unsigned(t: string): string {
    if |t| > 0 && (t[0] == '-' || t[0] == '+') then t[1..] else t
  }

  /** An unsigned decimal literal at the start of `s`: `digits [. [digits]]` or `. digits`, then an optional exponent. */
  function ParseUnsigned(s: string): Option<real> {
    var k := DigitRun(s);
    if k < |s| && s[k] == '.' then Fraction(s[..k], s[k + 1..])
    else if k == 0 then None
    else Some(Scale(DigitsValue(s[..k]) as real, Exponent(s[k..])))
  }

  /** An unsigned literal is read exactly when the text starts with a digit, or with a point and a digit. */
  lemma ParseUnsignedDefined(s: string)
    ensures ParseUnsigned(s).Some? <==> StartsLiteral(s)
  {
    if |s| > 1 && s[0] == '.' {
      assert s[1..][0] == s[1];
    }
  }

  /** The literal once its whole digits `w` and the point are read: fraction digits at the start of `rest`, then an exponent. */
  function Fraction(w: string, rest: string): Option<real> {
    var f := DigitRun(rest);
    if |w| == 0 && f == 0 then None
    else Some(Scale(DigitsValue(w) as real + Scale(DigitsValue(rest[..f]) as real, -(f as int)), Exponent(rest[f..])))
  }

  /** `parseFloat(s)`; `None` stands for NaN. */
  function ParseFloat(s: string): Option<real> {
    var t := TrimStart(s);
    if |t| > 0 && t[0] == '-' then
      match ParseUnsigned(t[1..])
      case Some(v) => Some(-v)
      case None => None
    else if |t| > 0 && t[0] == '+' then ParseUnsigned(t[1..])
    else ParseUnsigned(t)
  }

  /**
    `parseFloat` gives a number exactly when, after the leading white space
    and an optional sign, a digit or a point and a digit follow.
  */
  lemma ParseFloatAcceptSet(s: string)
    ensures ParseFloat(s).Some? <==> StartsLiteral(Unsigned(TrimStart(s)))
  {
    ParseUnsignedDefined(Unsigned(TrimStart(s)));
  }

  /** The decimal digits of `n`, as `String(n)` writes a non-negative integer. */
  function ShowNat(n: nat): (s: string)
    ensures |s| > 0 && AllDigits(s)
  {
    if n < 10 then [DigitChar(n)] else ShowNat(n / 10) + [DigitChar(n % 10)]
  }

  /** Reading the digits of `n` back gives `n`. */
  lemma {:induction false} DigitsValueShowNat(n: nat)
    ensures DigitsValue(ShowNat(n)) == n
  {
    if n >= 10 {
      var s := ShowNat(n);
      assert s[..|s| - 1] == ShowNat(n / 10);
      DigitsValueShowNat(n / 10);
    }
  }

  /** A blank field (empty or only white space) parses to NaN. */
  lemma BlankIsNaN(s: string)
    requires forall i :: 0 <= i < |s| ==> IsSpace(s[i])
    ensures ParseFloat(s) == None
  {
    assert |TrimStart(s)| == 0;
  }

  /** The digits of `n` read as an unsigned literal give `n`. */
  lemma ParseUnsignedShowNat(n: nat)
    ensures ParseUnsigned(ShowNat(n)) == Some(n as real)
  {
    var s := ShowNat(n);
    DigitRunAll(s);
    assert s[..|s|] == s;
    DigitsValueShowNat(n);
    assert Exponent(s[|s|..]) == 0;
  }

  /** `parseFloat(String(n)) == n` for every non-negative integer. */
  lemma ParseShowNat(n: nat)
    ensures ParseFloat(ShowNat(n)) == Some(n as real)
  {
    calc {
      ParseFloat(ShowNat(n));
      { ParseFloatUnsigned(ShowNat(n)); }
      ParseUnsigned(ShowNat(n));
      { ParseUnsignedShowNat(n); }
      Some(n as real);
    }
  }

  /** A text that starts with a minus sign reads as the negated literal after it. */
  lemma ParseFloatNegated(u: string)
    ensures ParseFloat("-" + u) == match ParseUnsigned(u) case Some(v) => Some(-v) case None => None
  {
    var t := "-" + u;
    assert !IsSpace(t[0]);
    assert TrimStart(t) == t;
    assert t[1..] == u;
  }

  /** A text that starts with a digit reads as an unsigned literal. */
  lemma ParseFloatUnsigned(t: string)
    requires |t| > 0 && IsDigit(t[0])
    ensures ParseFloat(t) == ParseUnsigned(t)
  {
    assert TrimStart(t) == t;
  }

  /** `parseFloat("-" + String(n)) == -n`. */
  lemma ParseNegativeShowNat(n: nat)
    ensures ParseFloat("-" + ShowNat(n)) == Some(-(n as real))
  {
    ParseUnsignedShowNat(n);
    ParseFloatNegatedSome(ShowNat(n), n as real);
  }

  /** `DigitRun` stops at the first character after a run of digits. */
  lemma {:induction false} DigitRunStops(w: string, rest: string)
    requires AllDigits(w) && |rest| > 0 && !IsDigit(rest[0])
    ensures DigitRun(w + rest) == |w|
  {
    if |w| == 0 {
      assert w + rest == rest;
    } else {
      assert (w + rest)[1..] == w[1..] + rest;
      DigitRunStops(w[1..], rest);
    }
  }

  /** `x.toFixed(2)` for `x >= 0` counts in hundredths: the nearest whole number of cents, ties rounded up. */
  function Cents(x: real): (c: nat)
    requires x >= 0.0
    ensures c as real - 0.5 <= 100.0 * x < c as real + 0.5
  {
    (100.0 * x + 0.5).Floor
  }

  /** The integer part, a point and exactly two fraction digits of `c` hundredths. */
  function CentsText(c: nat): string {
    ShowNat(c / 100) + "." + [DigitChar(c % 100 / 10), DigitChar(c % 10)]
  }

  /**
    `x.toFixed(2)`: a minus sign for a negative `x`, then its magnitude in
    hundredths. The text ends in a point and exactly two digits, with at
    least one digit before the point.
  */
  function ToFixed2(x: real): (r: string)
    ensures |r| >= 4 && r[|r| - 3] == '.' && IsDigit(r[|r| - 2]) && IsDigit(r[|r| - 1])
    ensures r[0] == '-' <==> x < 0.0
    ensures IsDigit(r[if x < 0.0 then 1 else 0])
  {
    var c := if x < 0.0 then Cents(-x) else Cents(x);
    var u := CentsText(c);
    assert u[0] == ShowNat(c / 100)[0];
    if x < 0.0 then "-" + u else u
  }

  /** The value `x.toFixed(2)` denotes. */
  function RoundTo2(x: real): (r: real)
    ensures -0.005 <= r - x <= 0.005
    ensures (r == 0.0) <==> -0.005 < x < 0.005
    ensures x >= 0.0 ==> r >= 0.0
    ensures x <= 0.0 ==> r <= 0.0
  {
    if x < 0.0 then -(Cents(-x) as real / 100.0) else Cents(x) as real / 100.0
  }

  /** Two digit characters form a run of length 2 with the value they spell. */
  lemma TwoDigits(a: nat, b: nat)
    requires a < 10 && b < 10
    ensures DigitRun([DigitChar(a), DigitChar(b)]) == 2
    ensures DigitsValue([DigitChar(a), DigitChar(b)]) == 10 * a + b
  {
    var f := [DigitChar(a), DigitChar(b)];
    assert f[1..] == [DigitChar(b)];
    assert DigitRun(f[1..][1..]) == 0;
    assert f[..1] == [DigitChar(a)];
    assert DigitsValue(f[..1][..0]) == 0;
  }

  /** A literal whose whole digits are followed by a point continues as a fraction. */
  lemma PointStartsFraction(s: string, w: string, rest: string)
    requires AllDigits(w) && s == w + "." + rest
    ensures ParseUnsigned(s) == Fraction(w, rest)
  {
    assert s == w + ("." + rest);
    DigitRunStops(w, "." + rest);
    assert s[..|w|] == w;
    assert s[|w| + 1..] == rest;
  }

  /** Fraction digits that run to the end of the text carry no exponent. */
  lemma FractionOfDigits(w: string, f: string)
    requires |w| > 0 && AllDigits(f)
    ensures Fraction(w, f) == Some(DigitsValue(w) as real + Scale(DigitsValue(f) as real, -(|f| as int)))
  {
    DigitRunAll(f);
    assert f[..|f|] == f;
    assert Exponent(f[|f|..]) == 0;
  }

  /** A text after a literal that neither continues its digits nor opens an exponent. */
  predicate EndsLiteral(rest: string) {
    |rest| == 0 || (!IsDigit(rest[0]) && rest[0] != 'e' && rest[0] != 'E')
  }

  /** Fraction digits followed by a text that ends the literal read as the digits alone. */
  lemma FractionIgnoresEnd(w: string, f: string, rest: string)
    requires AllDigits(f) && EndsLiteral(rest)
    ensures Fraction(w, f + rest) == Fraction(w, f)
  {
    var t := f + rest;
    DigitRunAll(f);
    assert f[..|f|] == f && f[|f|..] == [];
    if |rest| > 0 {
      DigitRunStops(f, rest);
      assert t[..|f|] == f && t[|f|..] == rest;
    } else {
      assert t == f;
    }
    assert Exponent(rest) == 0 == Exponent([]);
  }

  /** `digits.digits` reads as the whole part plus the fraction. */
  lemma ParseUnsignedDecimal(w: string, f: string)
    requires |w| > 0 && AllDigits(w) && AllDigits(f)
    ensures ParseUnsigned(w + "." + f) == Some(DigitsValue(w) as real + Scale(DigitsValue(f) as real, -(|f| as int)))
  {
    PointStartsFraction(w + "." + f, w, f);
    FractionOfDigits(w, f);
  }

  lemma ParseUnsignedCentsText(c: nat)
    ensures ParseUnsigned(CentsText(c)) == Some(c as real / 100.0)
  {
    var w := ShowNat(c / 100);
    var f := [DigitChar(c % 100 / 10), DigitChar(c % 10)];
    ParseUnsignedDecimal(w, f);
    DigitsValueShowNat(c / 100);
    CentsDigits(c);
    TwoDigits(c % 100 / 10, c % 10);
    ScaleHundredth(DigitsValue(f) as real);
    CentsSum(c);
  }

  /** The two fraction digits of `c` hundredths spell `c % 100`. */
  lemma CentsDigits(c: nat)
    ensures 10 * (c % 100 / 10) + c % 10 == c % 100
  {
    var q, r := c / 100, c % 100;
    assert c == 100 * q + r;
    assert r == 10 * (r / 10) + r % 10;
    ModOfSum(10 * q + r / 10, r % 10);
    assert c == 10 * (10 * q + r / 10) + r % 10;
  }

  /** The remainder of `10 * k + m` by ten is the digit `m`. */
  lemma ModOfSum(k: nat, m: nat)
    requires m < 10
    ensures (10 * k + m) % 10 == m
  {
  }

  /** Scaling by ten to the power -2 divides by a hundred. */
  lemma ScaleHundredth(v: real)
    ensures Scale(v, -2) == v / 100.0
  {
    assert Scale(v, -1) == v / 10.0;
  }

  /** Whole units and leftover hundredths add up to `c` hundredths. */
  lemma CentsSum(c: nat)
    ensures (c / 100) as real + (c % 100) as real / 100.0 == c as real / 100.0
  {
    assert c == 100 * (c / 100) + c % 100;
  }

  /** The text of `c` hundredths, followed by a text that ends the literal, reads as `c / 100`. */
  lemma ParseUnsignedCentsTextThen(c: nat, rest: string)
    requires EndsLiteral(rest)
    ensures ParseUnsigned(CentsText(c) + rest) == Some(c as real / 100.0)
  {
    var w := ShowNat(c / 100);
    var f := [DigitChar(c % 100 / 10), DigitChar(c % 10)];
    assert CentsText(c) + rest == w + "." + (f + rest);
    PointStartsFraction(CentsText(c) + rest, w, f + rest);
    FractionIgnoresEnd(w, f, rest);
    PointStartsFraction(CentsText(c), w, f);
    ParseUnsignedCentsText(c);
  }

  /**
    Reading `x.toFixed(2)` back, with anything after it that ends the
    literal (" on …" in a summary row), gives `x` rounded to hundredths.
  */
  lemma ParseToFixed2Then(x: real, rest: string)
    requires EndsLiteral(rest)
    ensures ParseFloat(ToFixed2(x) + rest) == Some(RoundTo2(x))
  {
    if x < 0.0 {
      NegativeFixedThen(x, rest);
    } else {
      NonNegativeFixedThen(x, rest);
    }
  }

  lemma NegativeFixedThen(x: real, rest: string)
    requires x < 0.0 && EndsLiteral(rest)
    ensures ParseFloat(ToFixed2(x) + rest) == Some(RoundTo2(x))
  {
    var c := Cents(-x);
    calc {
      ParseFloat(ToFixed2(x) + rest);
      { NegativeText(x); }
      ParseFloat(("-" + CentsText(c)) + rest);
      { NegativeCentsThen(c, rest); }
      Some(-(c as real / 100.0));
      { NegativeText(x); }
      Some(RoundTo2(x));
    }
  }

  /** A minus sign, the text of `c` hundredths and a text that ends the literal read as `-c / 100`. */
  lemma NegativeCentsThen(c: nat, rest: string)
    requires EndsLiteral(rest)
    ensures ParseFloat(("-" + CentsText(c)) + rest) == Some(-(c as real / 100.0))
  {
    var u := CentsText(c);
    SignThen(u, rest);
    ParseUnsignedCentsTextThen(c, rest);
    ParseFloatNegatedSome(u + rest, c as real / 100.0);
  }

  /** A negative amount is written as a minus sign and its magnitude in hundredths. */
  lemma NegativeText(x: real)
    requires x < 0.0
    ensures ToFixed2(x) == "-" + CentsText(Cents(-x)) && RoundTo2(x) == -(Cents(-x) as real / 100.0)
  {
  }

  lemma SignThen(u: string, rest: string)
    ensures ("-" + u) + rest == "-" + (u + rest)
  {
  }

  /** A minus sign before a literal that reads as `v` reads as `-v`. */
  lemma ParseFloatNegatedSome(u: string, v: real)
    requires ParseUnsigned(u) == Some(v)
    ensures ParseFloat("-" + u) == Some(-v)
  {
    ParseFloatNegated(u);
  }

  lemma NonNegativeFixedThen(x: real, rest: string)
    requires x >= 0.0 && EndsLiteral(rest)
    ensures ParseFloat(ToFixed2(x) + rest) == Some(RoundTo2(x))
  {
    var c := Cents(x);
    calc {
      ParseFloat(ToFixed2(x) + rest);
      { NonNegativeText(x); }
      ParseFloat(CentsText(c) + rest);
      { CentsThen(c, rest); }
      Some(c as real / 100.0);
      { NonNegativeText(x); }
      Some(RoundTo2(x));
    }
  }

  /** The text of `c` hundredths and a text that ends the literal read as `c / 100`. */
  lemma CentsThen(c: nat, rest: string)
    requires EndsLiteral(rest)
    ensures ParseFloat(CentsText(c) + rest) == Some(c as real / 100.0)
  {
    var t := CentsText(c) + rest;
    assert t[0] == ShowNat(c / 100)[0];
    ParseUnsignedCentsTextThen(c, rest);
    ParseFloatUnsignedSome(t, c as real / 100.0);
  }

  /** A non-negative amount is written as its magnitude in hundredths. */
  lemma NonNegativeText(x: real)
    requires x >= 0.0
    ensures ToFixed2(x) == CentsText(Cents(x)) && RoundTo2(x) == Cents(x) as real / 100.0
  {
  }

  /** A text that starts with a digit and reads as the unsigned literal `v` parses to `v`. */
  lemma ParseFloatUnsignedSome(t: string, v: real)
    requires |t| > 0 && IsDigit(t[0]) && ParseUnsigned(t) == Some(v)
    ensures ParseFloat(t) == Some(v)
  {
    ParseFloatUnsigned(t);
  }

  /** Reading `x.toFixed(2)` back gives `x` rounded to hundredths. */
  lemma ParseToFixed2(x: real)
    ensures ParseFloat(ToFixed2(x)) == Some(RoundTo2(x))
  {
    ParseToFixed2Then(x, "");
    assert ToFixed2(x) + "" == ToFixed2(x);
  }

  /** `toFixed(2)` never yields an empty text. */
  lemma ToFixed2NonEmpty(x: real)
    ensures ToFixed2(x) != ""
  {
    var c := if x < 0.0 then Cents(-x) else Cents(x);
    assert |CentsText(c)| >= 1;
  }
}
