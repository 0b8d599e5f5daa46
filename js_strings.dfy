/**
 * The JavaScript string built-ins the skip engine relies on, over `seq<char>`:
 * `String.prototype.trim`, `replace(/,/g, '')`, the ASCII digit class `\d`
 * and the ASCII case folding used by the `i` regular-expression flag.
 */
module JsStrings {

  /** JavaScript's WhiteSpace and LineTerminator code points: what `trim()` removes and what `\s` matches. */
  predicate IsWhiteSpace(c: char)
  {
    c == '\t' || c == '\n' || c == '\U{B}' || c == '\U{C}' || c == '\r' || c == ' '
    || c == '\U{A0}' || c == '\U{1680}' || ('\U{2000}' <= c <= '\U{200A}')
    || c == '\U{2028}' || c == '\U{2029}' || c == '\U{202F}' || c == '\U{205F}'
    || c == '\U{3000}' || c == '\U{FEFF}'
  }

  /** The ASCII digit class `\d`. */
  predicate IsDigit(c: char)
  {
    '0' <= c <= '9'
  }

  function DigitValue(c: char): (d: nat)
    requires IsDigit(c)
    ensures d < 10
  {
    (c as int) - ('0' as int)
  }

  function DigitChar(d: nat): (c: char)
    requires d < 10
    ensures IsDigit(c) && DigitValue(c) == d
  {
    (('0' as int) + d) as char
  }

  /** ASCII lower-casing, the only folding JavaScript's non-unicode `i` flag applies to ASCII targets. */
  function AsciiLower(c: char): (l: char)
    ensures 'A' <= c <= 'Z' ==> l as int == c as int + 32
    ensures !('A' <= c <= 'Z') ==> l == c
  {
    if 'A' <= c <= 'Z' then (c as int + 32) as char else c
  }

  /** `toUpperCase()` on one character, as far as the letters the source tests for (`B`, `M`, `K`) are concerned. */
  function AsciiUpper(c: char): (u: char)
    ensures 'a' <= c <= 'z' ==> u as int == c as int - 32
    ensures !('a' <= c <= 'z') ==> u == c
  {
    if 'a' <= c <= 'z' then (c as int - 32) as char else c
  }

  /** `s.trimStart()`: drops the leading white space and nothing else. */
  function TrimStart(s: string): (r: string)
    ensures |r| <= |s| && r == s[|s| - |r|..]
    ensures forall i :: 0 <= i < |s| - |r| ==> IsWhiteSpace(s[i])
    ensures r == [] || !IsWhiteSpace(r[0])
  {
    if |s| > 0 && IsWhiteSpace(s[0]) then TrimStart(s[1..]) else s
  }

  /** `s.trimEnd()`: drops the trailing white space and nothing else. */
  function TrimEnd(s: string): (r: string)
    ensures |r| <= |s| && r == s[..|r|]
    ensures forall i :: |r| <= i < |s| ==> IsWhiteSpace(s[i])
    ensures r == [] || !IsWhiteSpace(r[|r| - 1])
  {
    if |s| > 0 && IsWhiteSpace(s[|s| - 1]) then TrimEnd(s[..|s| - 1]) else s
  }

  /** `s.trim()`. */
  function Trim(s: string): (r: string)
    ensures r == [] || (!IsWhiteSpace(r[0]) && !IsWhiteSpace(r[|r| - 1]))
  {
    TrimEnd(TrimStart(s))
  }

  /**
   * `trim()` removes exactly the white space at both ends: white space, then
   * a middle that neither starts nor ends with white space, then white space,
   * trims to the middle.
   */
  lemma TrimMiddle(a: string, m: string, b: string)
    requires forall i :: 0 <= i < |a| ==> IsWhiteSpace(a[i])
    requires forall i :: 0 <= i < |b| ==> IsWhiteSpace(b[i])
    requires m == [] || (!IsWhiteSpace(m[0]) && !IsWhiteSpace(m[|m| - 1]))
    ensures Trim(a + m + b) == m
  {
    if m != [] {
      assert a + m + b == a + (m + b) && (m + b)[0] == m[0];
      TrimStartSkips(a, m + b);
      TrimEndSkips(m, b);
    } else {
      var w := a + b;
      assert a + m + b == w + [];
      assert forall i :: 0 <= i < |w| ==> IsWhiteSpace(w[i]) by {
        forall i | 0 <= i < |w| ensures IsWhiteSpace(w[i]) {
          if i >= |a| {
            assert w[i] == b[i - |a|];
          }
        }
      }
      TrimStartSkips(w, []);
    }
  }

  lemma {:induction false} TrimStartSkips(a: string, x: string)
    requires forall i :: 0 <= i < |a| ==> IsWhiteSpace(a[i])
    requires x == [] || !IsWhiteSpace(x[0])
    ensures TrimStart(a + x) == x
  {
    if a == [] {
      assert a + x == x;
    } else {
      assert (a + x)[0] == a[0] && (a + x)[1..] == a[1..] + x;
      TrimStartSkips(a[1..], x);
    }
  }

  lemma {:induction false} TrimEndSkips(x: string, b: string)
    requires forall i :: 0 <= i < |b| ==> IsWhiteSpace(b[i])
    requires x == [] || !IsWhiteSpace(x[|x| - 1])
    ensures TrimEnd(x + b) == x
  {
    if b == [] {
      assert x + b == x;
    } else {
      var s := x + b;
      assert s[|s| - 1] == b[|b| - 1];
      assert s[..|s| - 1] == x + b[..|b| - 1];
      TrimEndSkips(x, b[..|b| - 1]);
    }
  }

  /** `s.replace(/,/g, '')`: every comma removed, every other character kept in order. */
  function RemoveCommas(s: string): (r: string)
    ensures ',' !in r
    ensures |r| <= |s|
    ensures multiset(r) == multiset(s)[',' := 0]
  {
    if s == [] then []
    else
      assert s == [s[0]] + s[1..];
      if s[0] == ',' then RemoveCommas(s[1..])
      else [s[0]] + RemoveCommas(s[1..])
  }

  lemma {:induction false} RemoveCommasAppend(a: string, b: string)
    ensures RemoveCommas(a + b) == RemoveCommas(a) + RemoveCommas(b)
  {
    if a == [] {
      assert a + b == b;
    } else {
      assert (a + b)[0] == a[0] && (a + b)[1..] == a[1..] + b;
      RemoveCommasAppend(a[1..], b);
    }
  }

  /** A string without commas is left alone, so removing commas twice is removing them once. */
  lemma {:induction false} RemoveCommasNoComma(s: string)
    requires ',' !in s
    ensures RemoveCommas(s) == s
  {
    if s != [] {
      assert s[0] in s;
      assert forall c :: c in s[1..] ==> c in s;
      RemoveCommasNoComma(s[1..]);
    }
  }

  lemma RemoveCommasIdempotent(s: string)
    ensures RemoveCommas(RemoveCommas(s)) == RemoveCommas(s)
  {
    RemoveCommasNoComma(RemoveCommas(s));
  }

  /**
   * The character classes of the source's regular expressions: `\d`, `[\d,]`,
   * `\s` and the video-id class `[a-zA-Z0-9_-]`.
   */
  datatype CharClass = Digit | DigitOrComma | Space | IdChar

  predicate InClass(c: char, k: CharClass)
  {
    match k
    case Digit => IsDigit(c)
    case DigitOrComma => IsDigit(c) || c == ','
    case Space => IsWhiteSpace(c)
    case IdChar => 'a' <= c <= 'z' || 'A' <= c <= 'Z' || IsDigit(c) || c == '_' || c == '-'
  }

  /** The length of the greedy match of `k*` at the start of `s`. */
  function LeadingRun(s: string, k: CharClass): (n: nat)
    ensures n <= |s|
    ensures forall i :: 0 <= i < n ==> InClass(s[i], k)
    ensures n < |s| ==> !InClass(s[n], k)
  {
    if |s| > 0 && InClass(s[0], k) then 1 + LeadingRun(s[1..], k) else 0
  }

  /** The greedy `\d*` at the start of `s`. */
  function LeadingDigits(s: string): (n: nat)
    ensures n <= |s|
    ensures forall i :: 0 <= i < n ==> IsDigit(s[i])
    ensures n < |s| ==> !IsDigit(s[n])
  {
    LeadingRun(s, Digit)
  }

  /** Where an unanchored search for one character of class `k` first succeeds; `|s|` when it fails. */
  function FirstInClass(s: string, k: CharClass): (i: nat)
    ensures i <= |s|
    ensures forall j :: 0 <= j < i ==> !InClass(s[j], k)
    ensures i < |s| ==> InClass(s[i], k)
  {
    if s == [] then 0 else if InClass(s[0], k) then 0 else 1 + FirstInClass(s[1..], k)
  }

  predicate AllDigits(s: string)
  {
    forall i :: 0 <= i < |s| ==> IsDigit(s[i])
  }

  /** The value of a string of decimal digits, most significant first. */
  function DigitsValue(s: string): nat
    requires AllDigits(s)
  {
    if s == [] then 0 else 10 * DigitsValue(s[..|s| - 1]) + DigitValue(s[|s| - 1])
  }

  function Pow10(n: nat): (p: nat)
    ensures p >= 1
  {
    if n == 0 then 1 else 10 * Pow10(n - 1)
  }

  /** The shortest decimal rendering of `n` (no sign, no leading zero). */
  function DecimalString(n: nat): (s: string)
    ensures |s| > 0 && AllDigits(s)
    ensures |s| > 1 ==> s[0] != '0'
  {
    if n < 10 then [DigitChar(n)] else DecimalString(n / 10) + [DigitChar(n % 10)]
  }

  lemma {:induction false} DecimalStringValue(n: nat)
    ensures DigitsValue(DecimalString(n)) == n
  {
    var s := DecimalString(n);
    if n >= 10 {
      assert s[..|s| - 1] == DecimalString(n / 10);
      DecimalStringValue(n / 10);
    }
  }

  /** A digit run followed by a non-digit is read exactly up to its end. */
  lemma {:induction false} LeadingDigitsOfRun(ds: string, tail: string)
    requires AllDigits(ds)
    requires tail == [] || !IsDigit(tail[0])
    ensures LeadingDigits(ds + tail) == |ds|
  {
    LeadingRunOf(ds, tail, Digit);
  }

  lemma {:induction false} LeadingRunOf(run: string, tail: string, k: CharClass)
    requires forall i :: 0 <= i < |run| ==> InClass(run[i], k)
    requires tail == [] || !InClass(tail[0], k)
    ensures LeadingRun(run + tail, k) == |run|
  {
    if run == [] {
      assert run + tail == tail;
    } else {
      assert (run + tail)[0] == run[0] && (run + tail)[1..] == run[1..] + tail;
      LeadingRunOf(run[1..], tail, k);
    }
  }

  /** Searching past a stretch with no character of class `k` finds what the rest of the text starts with. */
  lemma {:induction false} FirstInClassAfter(prefix: string, rest: string, k: CharClass)
    requires forall i :: 0 <= i < |prefix| ==> !InClass(prefix[i], k)
    requires |rest| > 0 && InClass(rest[0], k)
    ensures FirstInClass(prefix + rest, k) == |prefix|
  {
    if prefix == [] {
      assert prefix + rest == rest;
    } else {
      assert (prefix + rest)[0] == prefix[0] && (prefix + rest)[1..] == prefix[1..] + rest;
      FirstInClassAfter(prefix[1..], rest, k);
    }
  }
}
