/**
 * Reading a like count out of a piece of text: `parseAbbreviated`
 * (content.js) and the numeric token that the aria-label fallbacks pick out
 * of a label with `/([\d,]+\.?\d*)\s*([KMBkmb])?/`.
 */
module Abbreviated {
  import opened Wrappers
  import opened JsStrings
  import opened JsNumbers

  /** The power of ten a trailing `B`, `M` or `K` (in either case) stands for; None for any other ending. */
  function SuffixPower(t: string): (p: Option<nat>)
    ensures p.Some? <==> |t| > 0 && t[|t| - 1] in "BbMmKk"
  {
    if |t| == 0 then None else LetterPower(t[|t| - 1])
  }

  /** `B`, `M` and `K`, in either case, scale by 10^9, 10^6 and 10^3. */
  function LetterPower(c: char): (p: Option<nat>)
    ensures p == Some(9) <==> c == 'B' || c == 'b'
    ensures p == Some(6) <==> c == 'M' || c == 'm'
    ensures p == Some(3) <==> c == 'K' || c == 'k'
    ensures p.None? <==> c !in "BbMmKk"
  {
    var upper := AsciiUpper(c);
    if upper == 'B' then Some(9)
    else if upper == 'M' then Some(6)
    else if upper == 'K' then Some(3)
    else None
  }

  /** The text `parseAbbreviated` actually parses: commas removed, then trimmed. */
  function Cleaned(text: string): string
  {
    Trim(RemoveCommas(text))
  }

  /**
   * `parseAbbreviated(text)`: a trailing `B`/`M`/`K` scales `parseFloat` of the
   * cleaned text by 10^9/10^6/10^3; any other text is read by `parseInt`.
   */
  function ParseAbbreviated(text: string): (r: JsNumber)
    ensures SuffixPower(Cleaned(text)).None? ==> r == ParseInt(Cleaned(text))
    ensures (r.Finite? && r.value.mantissa < 0) || r == Infinity(true) ==> SplitSign(TrimStart(Cleaned(text))).0
  {
    var t := Cleaned(text);
    match SuffixPower(t)
    case Some(k) => TimesPow10(ParseFloat(t), k)
    case None => ParseInt(t)
  }

  /** Comma-free text with no white space at either end is parsed as it stands. */
  lemma CleanedOfPlain(t: string)
    requires |t| > 0 && ',' !in t
    requires !IsWhiteSpace(t[0]) && !IsWhiteSpace(t[|t| - 1])
    ensures Cleaned(t) == t
  {
    RemoveCommasNoComma(t);
  }

  /** Thousands separators do not matter: a comma inserted anywhere in the text leaves the number unchanged. */
  lemma CommaAnywhere(a: string, b: string)
    ensures ParseAbbreviated(a + [','] + b) == ParseAbbreviated(a + b)
  {
    RemoveCommasAppend(a + [','], b);
    RemoveCommasAppend(a, [',']);
    RemoveCommasAppend(a, b);
    assert RemoveCommas([',']) == [];
    assert RemoveCommas(a) + [] == RemoveCommas(a);
  }

  /** A plain run of digits is read as the integer it spells. */
  lemma OfDigits(ds: string)
    requires |ds| > 0 && AllDigits(ds)
    ensures ParseAbbreviated(ds) == Finite(Scaled(DigitsValue(ds), 0))
  {
    PlainDigits(ds);
    assert ds + [] == ds;
    ParseIntOfDigits(ds, []);
  }

  lemma PlainDigits(ds: string)
    requires |ds| > 0 && AllDigits(ds)
    ensures Cleaned(ds) == ds && SuffixPower(ds).None?
  {
    DigitsHaveNoComma(ds);
    assert IsDigit(ds[0]) && IsDigit(ds[|ds| - 1]);
    CleanedOfPlain(ds);
  }

  /** An integer with a `B`/`M`/`K` suffix is that integer scaled by the suffix (`"3M"` is 3 * 10^6). */
  lemma OfSuffixedDigits(ds: string, c: char)
    requires |ds| > 0 && AllDigits(ds) && c in "BbMmKk"
    ensures ParseAbbreviated(ds + [c]) == Finite(Scaled(DigitsValue(ds), LetterPower(c).value))
  {
    var t := ds + [c];
    assert t == ds + [] + [c];
    SuffixedPlain(ds, [], c);
    ParseFloatOfDigits(ds, [c]);
  }

  /**
   * A decimal with a `B`/`M`/`K` suffix: all its digits read as one integer,
   * scaled by the suffix and down by the number of fraction digits
   * (`"1.2K"` is 12 * 10^(3-1)).
   */
  lemma OfSuffixedDecimal(ds: string, fs: string, c: char)
    requires |ds| > 0 && AllDigits(ds) && AllDigits(fs) && c in "BbMmKk"
    ensures ParseAbbreviated(ds + "." + fs + [c])
         == Finite(Scaled(DigitsValue(ds + fs), LetterPower(c).value - |fs|))
  {
    DecimalSuffixedPlain(ds, fs, c);
    ParseFloatOfDecimal(ds, fs, [c]);
  }

  lemma DecimalSuffixedPlain(ds: string, fs: string, c: char)
    requires |ds| > 0 && AllDigits(ds) && AllDigits(fs) && c in "BbMmKk"
    ensures ParseAbbreviated(ds + "." + fs + [c]) == TimesPow10(ParseFloat(ds + "." + fs + [c]), LetterPower(c).value)
  {
    DigitsHaveNoComma(fs);
    assert ds + "." + fs + [c] == ds + ("." + fs) + [c];
    SuffixedPlain(ds, "." + fs, c);
  }

  /** Digits, comma-free text and a suffix letter: parsed as it stands, by `parseFloat`, scaled by the letter. */
  lemma SuffixedPlain(ds: string, middle: string, c: char)
    requires |ds| > 0 && AllDigits(ds) && c in "BbMmKk" && ',' !in middle
    ensures ParseAbbreviated(ds + middle + [c]) == TimesPow10(ParseFloat(ds + middle + [c]), LetterPower(c).value)
  {
    var t := ds + middle + [c];
    PlainDigitsThenLetter(ds, middle, c);
    CleanedOfPlain(t);
    assert SuffixPower(t) == LetterPower(c);
  }

  lemma DigitsHaveNoComma(ds: string)
    requires AllDigits(ds)
    ensures ',' !in ds
  {
    forall i | 0 <= i < |ds| ensures ds[i] != ',' { assert IsDigit(ds[i]); }
  }

  lemma PlainDigitsThenLetter(ds: string, middle: string, c: char)
    requires |ds| > 0 && AllDigits(ds) && c in "BbMmKk" && ',' !in middle
    ensures var t := ds + middle + [c];
      ',' !in t && !IsWhiteSpace(t[0]) && !IsWhiteSpace(t[|t| - 1])
  {
    var t := ds + middle + [c];
    forall i | 0 <= i < |t| ensures t[i] != ',' {
      if i < |ds| { assert IsDigit(ds[i]); }
      else if i < |ds| + |middle| { assert t[i] == middle[i - |ds|]; assert middle[i - |ds|] in middle; }
    }
    assert IsDigit(t[0]);
  }

  /** `"12,345"` is 12345: the comma is a thousands separator. */
  lemma ThousandsExample()
    ensures ParseAbbreviated("12,345") == Finite(Scaled(12345, 0))
  {
    DigitsOfThousands();
    assert "12" + [','] + "345" == "12,345" && "12" + "345" == "12345";
    CommaAnywhere("12", "345");
    OfDigits("12345");
  }

  lemma DigitsOfThousands()
    ensures AllDigits("12345") && DigitsValue("12345") == 12345
  {
    assert DecimalString(12345) == "12345";
    DecimalStringValue(12345);
  }

  lemma DigitsOfTwelve()
    ensures AllDigits("12") && DigitsValue("12") == 12
  {
    assert DecimalString(12) == "12";
    DecimalStringValue(12);
  }

  /** `"3M"` is 3 * 10^6. */
  lemma MillionsExample()
    ensures ParseAbbreviated("3M") == Finite(Scaled(3, 6))
  {
    assert "3M" == "3" + ['M'];
    OfSuffixedDigits("3", 'M');
    assert DigitsValue("3") == 3 by {
      assert DecimalString(3) == "3";
      DecimalStringValue(3);
    }
  }

  /** `"1.2K"` is 12 * 10^2, that is 1200. */
  lemma ThousandsSuffixExample()
    ensures ParseAbbreviated("1.2K") == Finite(Scaled(12, 2))
  {
    DigitsOfTwelve();
    assert "1" + "2" == "12";
    assert "1.2K" == "1" + "." + "2" + ['K'];
    OfSuffixedDecimal("1", "2", 'K');
  }

  /** `"12abc"` is 12: `parseInt` stops at the first non-digit. */
  lemma TrailingJunkExample()
    ensures ParseAbbreviated("12abc") == Finite(Scaled(12, 0))
  {
    JunkIsPlain();
    JunkDigits();
  }

  lemma JunkIsPlain()
    ensures Cleaned("12abc") == "12abc" && SuffixPower("12abc").None?
  {
    CleanedOfPlain("12abc");
  }

  lemma JunkDigits()
    ensures ParseInt("12abc") == Finite(Scaled(12, 0))
  {
    DigitsOfTwelve();
    assert "12abc" == "12" + "abc";
    ParseIntOfDigits("12", "abc");
  }

  predicate IsSuffixLetter(c: char)
  {
    c in "KMBkmb"
  }

  /** The length of the greedy `[\d,]+\.?\d*` at the start of `s` (0 when `s` does not start with a digit or comma). */
  function StemLength(s: string): (n: nat)
    ensures n <= |s|
  {
    var run := LeadingRun(s, DigitOrComma);
    var point := if run < |s| && s[run] == '.' then run + 1 else run;
    point + LeadingDigits(s[point..])
  }

  /** What the token regex captures at the start of `s`: the stem, then a suffix letter if one follows after optional white space. */
  function TokenAt(s: string): string
  {
    var number := StemLength(s);
    var gap := number + LeadingRun(s[number..], Space);
    var suffix := if gap < |s| && IsSuffixLetter(s[gap]) then [s[gap]] else [];
    s[..number] + suffix
  }

  /**
   * `aria.match(/([\d,]+\.?\d*)\s*([KMBkmb])?/)` read as
   * `numMatch[1] + (numMatch[2] || '')`: the match starts at the first digit
   * or comma of the aria-label (`TokenStartsAtFirstDigitOrComma`) and spans
   * what `TokenShape` describes; None when the label holds no digit and no
   * comma.
   */
  function NumericToken(aria: string): (tok: Option<string>)
    ensures tok.None? <==> forall i :: 0 <= i < |aria| ==> !InClass(aria[i], DigitOrComma)
  {
    var i := FirstInClass(aria, DigitOrComma);
    if i == |aria| then None else Some(TokenAt(aria[i..]))
  }

  /** The count a label yields: its numeric token, parsed, exactly when the parse passes `!isNaN(n) && n >= 0`. */
  function LabelCount(aria: string): (r: Option<JsNumber>)
    ensures r.Some? ==> IsCount(r.value)
    ensures r.Some? ==> NumericToken(aria).Some? && r.value == ParseAbbreviated(NumericToken(aria).value)
    ensures NumericToken(aria).Some? && IsCount(ParseAbbreviated(NumericToken(aria).value)) ==>
              r == Some(ParseAbbreviated(NumericToken(aria).value))
  {
    match NumericToken(aria)
    case None => None
    case Some(tok) => AcceptCount(ParseAbbreviated(tok))
  }

  /** The search skips text free of digits and commas: the token is what the rest of the label starts with. */
  lemma TokenStartsAtFirstDigitOrComma(prefix: string, rest: string)
    requires forall i :: 0 <= i < |prefix| ==> !InClass(prefix[i], DigitOrComma)
    requires |rest| > 0 && InClass(rest[0], DigitOrComma)
    ensures NumericToken(prefix + rest) == Some(TokenAt(rest))
  {
    FirstInClassAfter(prefix, rest, DigitOrComma);
    assert (prefix + rest)[|prefix|..] == rest;
  }

  /**
   * The shape of every token: after text free of digits and commas, a
   * non-empty run of digits and commas, optionally a point and more digits,
   * then optional white space; the token is the run and the fraction, with
   * the next character appended when it is a suffix letter (so
   * `"along with 1,234 other people"` gives `"1,234"`, `"1.2K likes"` gives
   * `"1.2K"` and `"5 more"` gives `"5m"`).
   */
  lemma TokenShape(prefix: string, run: string, frac: string, ws: string, rest: string)
    requires forall i :: 0 <= i < |prefix| ==> !InClass(prefix[i], DigitOrComma)
    requires |run| > 0 && forall i :: 0 <= i < |run| ==> InClass(run[i], DigitOrComma)
    requires frac == [] || (frac[0] == '.' && AllDigits(frac[1..]))
    requires forall i :: 0 <= i < |ws| ==> IsWhiteSpace(ws[i])
    requires rest == [] || !IsWhiteSpace(rest[0])
    requires frac == [] && ws + rest != [] ==> !InClass((ws + rest)[0], DigitOrComma) && (ws + rest)[0] != '.'
    requires frac != [] && ws + rest != [] ==> !IsDigit((ws + rest)[0])
    ensures NumericToken(prefix + run + frac + ws + rest)
         == Some(run + frac + (if rest != [] && IsSuffixLetter(rest[0]) then [rest[0]] else []))
  {
    var t := run + frac + ws + rest;
    TokenText(prefix, run, frac, ws, rest);
    assert StemLength(t) == |run + frac| by {
      StemOf(run, frac, ws + rest);
    }
    TokenAtShape(run + frac, ws, rest);
    TokenStartsAtFirstDigitOrComma(prefix, t);
  }

  lemma TokenText(prefix: string, run: string, frac: string, ws: string, rest: string)
    requires |run| > 0
    ensures prefix + run + frac + ws + rest == prefix + (run + frac + ws + rest)
    ensures run + frac + (ws + rest) == run + frac + ws + rest
    ensures (run + frac + ws + rest)[0] == run[0]
  {
  }

  /** The usual label shape: `"along with 12,345 other people"` yields 12345. */
  lemma OtherPeopleExample()
    ensures NumericToken("along with 12,345 other people") == Some("12,345")
    ensures LabelCount("along with 12,345 other people") == Some(Finite(Scaled(12345, 0)))
  {
    OtherPeopleToken();
    ThousandsExample();
  }

  lemma OtherPeopleToken()
    ensures NumericToken("along with 12,345 other people") == Some("12,345")
  {
    var ws, rest := " ", "other people";
    AlongWithHasNoDigit();
    OtherPeopleText();
    assert ws + rest != [] && (ws + rest)[0] == ' ';
    assert !IsWhiteSpace(rest[0]) && !IsSuffixLetter(rest[0]);
    TokenShape("along with ", "12,345", [], ws, rest);
    assert "12,345" + [] + [] == "12,345";
  }

  lemma AlongWithHasNoDigit()
    ensures forall i :: 0 <= i < |"along with "| ==> !InClass("along with "[i], DigitOrComma)
  {
  }

  lemma OtherPeopleText()
    ensures "along with 12,345 other people" == "along with " + "12,345" + [] + " " + "other people"
    ensures forall i :: 0 <= i < |"12,345"| ==> InClass("12,345"[i], DigitOrComma)
  {
  }

  lemma NoFractionNoSpace(prefix: string, run: string, rest: string)
    ensures prefix + run + [] + [] + rest == prefix + run + rest
    ensures run + [] + [] == run && [] + rest == rest
  {
  }

  lemma StemOf(run: string, frac: string, after: string)
    requires |run| > 0 && forall i :: 0 <= i < |run| ==> InClass(run[i], DigitOrComma)
    requires frac == [] || (frac[0] == '.' && AllDigits(frac[1..]))
    requires frac == [] && after != [] ==> !InClass(after[0], DigitOrComma) && after[0] != '.'
    requires frac != [] && after != [] ==> !IsDigit(after[0])
    ensures StemLength(run + frac + after) == |run| + |frac|
  {
    var s := run + frac + after;
    assert s == run + (frac + after);
    assert frac + after == [] || (frac + after)[0] == if frac != [] then frac[0] else after[0];
    LeadingRunOf(run, frac + after, DigitOrComma);
    assert s[|run|..] == frac + after;
    if frac != [] {
      assert s[|run| + 1..] == frac[1..] + after;
      LeadingDigitsOfRun(frac[1..], after);
    } else {
      assert s[|run|..] == after;
    }
  }

  lemma TokenAtShape(stem: string, ws: string, rest: string)
    requires StemLength(stem + ws + rest) == |stem|
    requires forall i :: 0 <= i < |ws| ==> IsWhiteSpace(ws[i])
    requires rest == [] || !IsWhiteSpace(rest[0])
    ensures TokenAt(stem + ws + rest) == stem + (if rest != [] && IsSuffixLetter(rest[0]) then [rest[0]] else [])
  {
    var s := stem + ws + rest;
    assert s[|stem|..] == ws + rest;
    LeadingRunOf(ws, rest, Space);
    assert s[..|stem|] == stem;
    if rest != [] {
      assert s[|stem| + |ws|] == rest[0];
    }
  }

  /**
   * The token is the first number in the label: text free of digits and
   * commas, then digits, then a character that cannot continue the match.
   */
  lemma TokenIsFirstNumber(prefix: string, ds: string, rest: string)
    requires forall i :: 0 <= i < |prefix| ==> !InClass(prefix[i], DigitOrComma)
    requires |ds| > 0 && AllDigits(ds)
    requires rest == [] || !(InClass(rest[0], DigitOrComma) || rest[0] == '.' || IsWhiteSpace(rest[0]) || IsSuffixLetter(rest[0]))
    ensures NumericToken(prefix + ds + rest) == Some(ds)
  {
    NoFractionNoSpace(prefix, ds, rest);
    TokenShape(prefix, ds, [], [], rest);
  }

  /**
   * A comma that comes before the first digit is where the match starts, so
   * the token is the bare comma and the aria yields no count
   * (`"Like, 5 others"` gives the token `","`).
   */
  lemma CommaBeforeNumber(prefix: string, rest: string)
    requires forall i :: 0 <= i < |prefix| ==> !InClass(prefix[i], DigitOrComma)
    requires rest == [] || !(InClass(rest[0], DigitOrComma) || rest[0] == '.' || IsWhiteSpace(rest[0]) || IsSuffixLetter(rest[0]))
    ensures NumericToken(prefix + "," + rest) == Some(",")
    ensures LabelCount(prefix + "," + rest).None?
  {
    CommaToken(prefix, rest);
    CommaIsNaN();
  }

  /** A bare comma cleans to the empty text, which `parseInt` reads as NaN. */
  lemma CommaIsNaN()
    ensures ParseAbbreviated(",").NaN?
  {
    assert RemoveCommas(",") == [];
    assert Cleaned(",") == [];
  }

  lemma CommaToken(prefix: string, rest: string)
    requires forall i :: 0 <= i < |prefix| ==> !InClass(prefix[i], DigitOrComma)
    requires rest == [] || !(InClass(rest[0], DigitOrComma) || rest[0] == '.' || IsWhiteSpace(rest[0]) || IsSuffixLetter(rest[0]))
    ensures NumericToken(prefix + "," + rest) == Some(",")
  {
    NoFractionNoSpace(prefix, ",", rest);
    TokenShape(prefix, ",", [], [], rest);
  }
}
