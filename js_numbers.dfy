/**
 * JavaScript numbers as the skip engine meets them: `parseInt(text, 10)`,
 * `parseFloat(text)`, `isNaN`, `>= 0` and `<`. A finite value is kept exactly,
 * as an integer times a power of ten (the rounding of IEEE-754 doubles is not
 * modelled); NaN and the infinities that `parseFloat` can return are.
 */
module JsNumbers {
  import opened Wrappers
  import opened JsStrings

  /** The exact number `mantissa * 10^exponent`. */
  datatype Scaled = Scaled(mantissa: int, exponent: int)

  /** A JavaScript number (minus zero is not told apart from zero). */
  datatype JsNumber = NaN | Finite(value: Scaled) | Infinity(negative: bool)

  const Zero: JsNumber := Finite(Scaled(0, 0))

  /** `!isNaN(n) && n >= 0`: the test every caller applies before using a parsed count. */
  predicate IsCount(n: JsNumber)
  {
    (n.Finite? && n.value.mantissa >= 0) || n == Infinity(false)
  }

  /** A parsed value kept only when it passes `!isNaN(parsed) && parsed >= 0`. */
  function AcceptCount(n: JsNumber): (r: Option<JsNumber>)
    ensures r.Some? ==> r.value == n && IsCount(n)
    ensures r.None? ==> n.NaN? || (n.Finite? && n.value.mantissa < 0) || n == Infinity(true)
  {
    if IsCount(n) then Some(n) else None
  }

  /** JavaScript's `n < t` for a number and an integer: false whenever `n` is NaN. */
  predicate LessThan(n: JsNumber, t: int)
  {
    match n
    case NaN => false
    case Finite(Scaled(m, e)) => if e >= 0 then m * Pow10(e) < t else m < t * Pow10(-e)
    case Infinity(negative) => negative
  }

  /** `n * 10^k`. */
  function TimesPow10(n: JsNumber, k: nat): (r: JsNumber)
    ensures r.NaN? <==> n.NaN?
    ensures n.Finite? ==> r == Finite(Scaled(n.value.mantissa, n.value.exponent + k))
    ensures n.Infinity? ==> r == n
  {
    match n
    case NaN => NaN
    case Finite(Scaled(m, e)) => Finite(Scaled(m, e + k))
    case Infinity(_) => n
  }

  /** The optional sign both parsers accept after leading white space. */
  function SplitSign(s: string): (r: (bool, string))
    ensures r.1 == if |s| > 0 && (s[0] == '+' || s[0] == '-') then s[1..] else s
    ensures r.0 <==> |s| > 0 && s[0] == '-'
  {
    if |s| > 0 && (s[0] == '+' || s[0] == '-') then (s[0] == '-', s[1..]) else (false, s)
  }

  function Signed(negative: bool, v: nat): int
  {
    if negative then -(v as int) else v
  }

  /**
   * `parseInt(s, 10)`: leading white space, an optional sign, then the longest
   * run of decimal digits; NaN when there is no digit.
   */
  function ParseInt(s: string): (r: JsNumber)
    ensures !r.Infinity?
    ensures r.Finite? ==> r.value.exponent == 0
    ensures r.Finite? && r.value.mantissa < 0 ==> SplitSign(TrimStart(s)).0
    ensures r.NaN? <==> LeadingDigits(SplitSign(TrimStart(s)).1) == 0
  {
    var (negative, rest) := SplitSign(TrimStart(s));
    var n := LeadingDigits(rest);
    if n == 0 then NaN else Finite(Scaled(Signed(negative, DigitsValue(rest[..n])), 0))
  }

  /** The exponent of a complete `e`/`E` part at the start of `s`; 0 when there is none. */
  function ExponentPart(s: string): int
  {
    if |s| > 0 && (s[0] == 'e' || s[0] == 'E') then
      var (negative, digits) := SplitSign(s[1..]);
      var n := LeadingDigits(digits);
      if n == 0 then 0 else Signed(negative, DigitsValue(digits[..n]))
    else 0
  }

  /** An unsigned decimal literal as `parseFloat` reads it: integer digits, fraction digits, exponent. */
  datatype DecimalLiteral = DecimalLiteral(whole: string, fraction: string, exponent: int)

  predicate WellFormed(d: DecimalLiteral)
  {
    AllDigits(d.whole) && AllDigits(d.fraction) && (|d.whole| > 0 || |d.fraction| > 0)
  }

  /**
   * The longest prefix of `s` that is an unsigned decimal literal (`12`, `1.5`,
   * `1.`, `.5`, each with an optional exponent); None when `s` starts neither
   * with a digit nor with a point and a digit.
   */
  function LexDecimal(s: string): (r: Option<DecimalLiteral>)
    ensures r.Some? ==> WellFormed(r.value)
    ensures r.None? <==> LeadingDigits(s) == 0 && !(|s| > 1 && s[0] == '.' && IsDigit(s[1]))
  {
    var a := LeadingDigits(s);
    var afterWhole := s[a..];
    var hasPoint := |afterWhole| > 0 && afterWhole[0] == '.';
    var b := if hasPoint then LeadingDigits(afterWhole[1..]) else 0;
    if a == 0 && b == 0 then None
    else
      var fraction := if hasPoint then afterWhole[1..][..b] else [];
      var rest := if hasPoint then afterWhole[1 + b..] else afterWhole;
      Some(DecimalLiteral(s[..a], fraction, ExponentPart(rest)))
  }

  /** The exact value of a decimal literal: its digits read as one integer, shifted by the fraction's length. */
  function LiteralValue(d: DecimalLiteral): (v: Scaled)
    requires WellFormed(d)
    ensures v.mantissa >= 0
  {
    Scaled(DigitsValue(d.whole + d.fraction), d.exponent - |d.fraction|)
  }

  const InfinityText: string := "Infinity"

  /**
   * `parseFloat(s)`: leading white space, an optional sign, then the longest
   * prefix that is `Infinity` or an unsigned decimal literal; NaN otherwise.
   */
  function ParseFloat(s: string): (r: JsNumber)
    ensures r.NaN? <==> !(InfinityText <= SplitSign(TrimStart(s)).1) && LexDecimal(SplitSign(TrimStart(s)).1).None?
    ensures (r.Finite? && r.value.mantissa < 0) || r == Infinity(true) ==> SplitSign(TrimStart(s)).0
  {
    var (negative, rest) := SplitSign(TrimStart(s));
    if InfinityText <= rest then Infinity(negative)
    else
      match LexDecimal(rest)
      case None => NaN
      case Some(d) =>
        var v := LiteralValue(d);
        Finite(Scaled(Signed(negative, v.mantissa), v.exponent))
  }

  /** Text that starts with a digit has no leading white space, no sign and no `Infinity`. */
  lemma NoBlankOrSign(s: string)
    requires |s| > 0 && IsDigit(s[0])
    ensures SplitSign(TrimStart(s)) == (false, s)
    ensures !(InfinityText <= s)
  {
    assert !IsWhiteSpace(s[0]);
    assert TrimStart(s) == s;
    assert s[0] != '+' && s[0] != '-';
    assert s[0] != InfinityText[0];
  }

  /** Digits followed by anything but a digit: `parseInt` reads exactly those digits (`parseInt("12abc")` is 12). */
  lemma ParseIntOfDigits(ds: string, tail: string)
    requires |ds| > 0 && AllDigits(ds)
    requires tail == [] || !IsDigit(tail[0])
    ensures ParseInt(ds + tail) == Finite(Scaled(DigitsValue(ds), 0))
  {
    var s := ds + tail;
    NoBlankOrSign(s);
    LeadingDigitsOfRun(ds, tail);
    assert s[..|ds|] == ds;
  }

  /** `parseInt` reads back what `DecimalString` renders, whatever non-digit follows. */
  lemma ParseIntRoundTrip(n: nat, tail: string)
    requires tail == [] || !IsDigit(tail[0])
    ensures ParseInt(DecimalString(n) + tail) == Finite(Scaled(n, 0))
  {
    ParseIntOfDigits(DecimalString(n), tail);
    DecimalStringValue(n);
  }

  /** Text that starts with a digit is read by `parseFloat` as the literal its longest decimal prefix spells. */
  lemma ParseFloatOfLiteral(s: string, d: DecimalLiteral)
    requires |s| > 0 && IsDigit(s[0])
    requires LexDecimal(s) == Some(d)
    ensures ParseFloat(s) == Finite(LiteralValue(d))
  {
    NoBlankOrSign(s);
  }

  /**
   * Digits, a point, fraction digits and no exponent: `parseFloat` reads
   * all the digits as one integer scaled down by the fraction's length
   * (`parseFloat("1.2K")` is 12 * 10^-1).
   */
  lemma ParseFloatOfDecimal(ds: string, fs: string, tail: string)
    requires |ds| > 0 && AllDigits(ds) && AllDigits(fs)
    requires tail == [] || !(IsDigit(tail[0]) || tail[0] == 'e' || tail[0] == 'E')
    ensures ParseFloat(ds + "." + fs + tail) == Finite(Scaled(DigitsValue(ds + fs), -|fs|))
  {
    var s := ds + "." + fs + tail;
    var d := DecimalLiteral(ds, fs, 0);
    assert ParseFloat(s) == Finite(LiteralValue(d)) by {
      LexPointed(ds, fs, tail);
      assert s[0] == ds[0];
      ParseFloatOfLiteral(s, d);
    }
  }

  lemma LexPointed(ds: string, fs: string, tail: string)
    requires |ds| > 0 && AllDigits(ds) && AllDigits(fs)
    requires tail == [] || !(IsDigit(tail[0]) || tail[0] == 'e' || tail[0] == 'E')
    ensures LexDecimal(ds + "." + fs + tail) == Some(DecimalLiteral(ds, fs, 0))
  {
    var s := ds + "." + fs + tail;
    var afterWhole := "." + fs + tail;
    assert s == ds + afterWhole;
    LeadingDigitsOfRun(ds, afterWhole);
    assert s[..|ds|] == ds && s[|ds|..] == afterWhole;
    FractionOfPointed(fs, tail);
  }

  lemma FractionOfPointed(fs: string, tail: string)
    requires AllDigits(fs)
    requires tail == [] || !(IsDigit(tail[0]) || tail[0] == 'e' || tail[0] == 'E')
    ensures var afterWhole := "." + fs + tail;
      && afterWhole[1..] == fs + tail
      && LeadingDigits(afterWhole[1..]) == |fs|
      && afterWhole[1..][..|fs|] == fs
      && afterWhole[1 + |fs|..] == tail
      && ExponentPart(tail) == 0
  {
    var afterWhole := "." + fs + tail;
    assert afterWhole[1..] == fs + tail;
    LeadingDigitsOfRun(fs, tail);
  }

  /** Digits with no fraction and no exponent: `parseFloat` reads the integer (`parseFloat("3M")` is 3). */
  lemma ParseFloatOfDigits(ds: string, tail: string)
    requires |ds| > 0 && AllDigits(ds)
    requires tail == [] || !(IsDigit(tail[0]) || tail[0] == '.' || tail[0] == 'e' || tail[0] == 'E')
    ensures ParseFloat(ds + tail) == Finite(Scaled(DigitsValue(ds), 0))
  {
    var d := DecimalLiteral(ds, [], 0);
    assert ParseFloat(ds + tail) == Finite(LiteralValue(d)) by {
      LexUnpointed(ds, tail);
      assert (ds + tail)[0] == ds[0];
      ParseFloatOfLiteral(ds + tail, d);
    }
    WholeLiteralValue(ds);
  }

  /** A literal without fraction or exponent has the value of its digits. */
  lemma WholeLiteralValue(ds: string)
    requires AllDigits(ds) && |ds| > 0
    ensures LiteralValue(DecimalLiteral(ds, [], 0)) == Scaled(DigitsValue(ds), 0)
  {
    assert ds + [] == ds;
  }

  lemma LexUnpointed(ds: string, tail: string)
    requires |ds| > 0 && AllDigits(ds)
    requires tail == [] || !(IsDigit(tail[0]) || tail[0] == '.' || tail[0] == 'e' || tail[0] == 'E')
    ensures LexDecimal(ds + tail) == Some(DecimalLiteral(ds, [], 0))
  {
    var s := ds + tail;
    LeadingDigitsOfRun(ds, tail);
    assert s[..|ds|] == ds && s[|ds|..] == tail;
    assert ExponentPart(tail) == 0;
  }

  /**
   * A literal with an exponent: digits, a point, fraction digits, `e` or `E`,
   * an optional sign and exponent digits: the literal with that exponent,
   * whose value is all its digits shifted by the exponent less the number of
   * fraction digits (`parseFloat("1.5e3")` is 15 * 10^2).
   */
  lemma ParseFloatOfExponent(ds: string, fs: string, c: char, sign: string, negative: bool, es: string, tail: string)
    requires |ds| > 0 && AllDigits(ds) && AllDigits(fs)
    requires c == 'e' || c == 'E'
    requires if negative then sign == "-" else sign == [] || sign == "+"
    requires |es| > 0 && AllDigits(es)
    requires tail == [] || !IsDigit(tail[0])
    ensures ParseFloat(ds + "." + fs + [c] + sign + es + tail)
         == Finite(LiteralValue(DecimalLiteral(ds, fs, Signed(negative, DigitsValue(es)))))
  {
    var s := ds + "." + fs + [c] + sign + es + tail;
    var d := DecimalLiteral(ds, fs, Signed(negative, DigitsValue(es)));
    assert LexDecimal(s) == Some(d) && IsDigit(s[0]) by {
      LexOfExponent(ds, fs, c, sign, negative, es, tail);
    }
    ParseFloatOfLiteral(s, d);
  }

  /** The literal `parseFloat` reads from digits, a point, fraction digits and a complete exponent part. */
  lemma LexOfExponent(ds: string, fs: string, c: char, sign: string, negative: bool, es: string, tail: string)
    requires |ds| > 0 && AllDigits(ds) && AllDigits(fs)
    requires c == 'e' || c == 'E'
    requires if negative then sign == "-" else sign == [] || sign == "+"
    requires |es| > 0 && AllDigits(es)
    requires tail == [] || !IsDigit(tail[0])
    ensures LexDecimal(ds + "." + fs + [c] + sign + es + tail)
         == Some(DecimalLiteral(ds, fs, Signed(negative, DigitsValue(es))))
    ensures (ds + "." + fs + [c] + sign + es + tail)[0] == ds[0]
  {
    var rest := [c] + (sign + (es + tail));
    ExponentOf(c, sign, negative, es, tail);
    LexExponent(ds, fs, rest, Signed(negative, DigitsValue(es)));
    ExponentLiteralText(ds, fs, c, sign, es, tail);
  }

  lemma ExponentLiteralText(ds: string, fs: string, c: char, sign: string, es: string, tail: string)
    requires |ds| > 0
    ensures ds + "." + fs + [c] + sign + es + tail == ds + "." + fs + ([c] + (sign + (es + tail)))
    ensures (ds + "." + fs + ([c] + (sign + (es + tail))))[0] == ds[0]
  {
  }

  lemma LexExponent(ds: string, fs: string, rest: string, e: int)
    requires |ds| > 0 && AllDigits(ds) && AllDigits(fs)
    requires |rest| > 0 && !IsDigit(rest[0]) && ExponentPart(rest) == e
    ensures LexDecimal(ds + "." + fs + rest) == Some(DecimalLiteral(ds, fs, e))
  {
    var s := ds + "." + fs + rest;
    var afterWhole := "." + fs + rest;
    assert s == ds + afterWhole;
    LeadingDigitsOfRun(ds, afterWhole);
    assert s[..|ds|] == ds && s[|ds|..] == afterWhole;
    assert afterWhole[1..] == fs + rest;
    LeadingDigitsOfRun(fs, rest);
    assert afterWhole[1..][..|fs|] == fs && afterWhole[1 + |fs|..] == rest;
  }

  /**
   * Digits then an exponent part with no point between them: `parseFloat("15e2")`
   * is 15 * 10^2. The literal has no fraction.
   */
  lemma ParseFloatOfWholeExponent(ds: string, c: char, sign: string, negative: bool, es: string, tail: string)
    requires |ds| > 0 && AllDigits(ds)
    requires c == 'e' || c == 'E'
    requires if negative then sign == "-" else sign == [] || sign == "+"
    requires |es| > 0 && AllDigits(es)
    requires tail == [] || !IsDigit(tail[0])
    ensures ParseFloat(ds + [c] + sign + es + tail)
         == Finite(LiteralValue(DecimalLiteral(ds, [], Signed(negative, DigitsValue(es)))))
  {
    var s := ds + [c] + sign + es + tail;
    var d := DecimalLiteral(ds, [], Signed(negative, DigitsValue(es)));
    assert LexDecimal(s) == Some(d) && IsDigit(s[0]) by {
      var rest := [c] + (sign + (es + tail));
      ExponentOf(c, sign, negative, es, tail);
      LexWholeExponent(ds, rest, Signed(negative, DigitsValue(es)));
      WholeExponentText(ds, c, sign, es, tail);
    }
    ParseFloatOfLiteral(s, d);
  }

  lemma WholeExponentText(ds: string, c: char, sign: string, es: string, tail: string)
    requires |ds| > 0
    ensures ds + [c] + sign + es + tail == ds + ([c] + (sign + (es + tail)))
    ensures (ds + ([c] + (sign + (es + tail))))[0] == ds[0]
  {
  }

  lemma LexWholeExponent(ds: string, rest: string, e: int)
    requires |ds| > 0 && AllDigits(ds)
    requires |rest| > 0 && !IsDigit(rest[0]) && rest[0] != '.' && ExponentPart(rest) == e
    ensures LexDecimal(ds + rest) == Some(DecimalLiteral(ds, [], e))
  {
    var s := ds + rest;
    LeadingDigitsOfRun(ds, rest);
    assert s[..|ds|] == ds && s[|ds|..] == rest;
  }

  lemma ExponentOf(c: char, sign: string, negative: bool, es: string, tail: string)
    requires c == 'e' || c == 'E'
    requires if negative then sign == "-" else sign == [] || sign == "+"
    requires |es| > 0 && AllDigits(es)
    requires tail == [] || !IsDigit(tail[0])
    ensures ExponentPart([c] + (sign + (es + tail))) == Signed(negative, DigitsValue(es))
  {
    var u := es + tail;
    var t := sign + u;
    assert ([c] + t)[1..] == t;
    assert SplitSign(t).1 == u by {
      if sign == [] {
        assert t == u && t[0] == es[0];
        assert t[0] != '+' && t[0] != '-';
      } else {
        assert |sign| == 1 && t[0] == sign[0];
        assert t[1..] == u;
      }
    }
    var digits := es + tail;
    LeadingDigitsOfRun(es, tail);
    assert digits[..|es|] == es;
  }
}
