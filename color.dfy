/** Colours (src/color.js): a normalised record parsed from `#rgb`,
    `#rrggbb`, `rgb(r, g, b)` and `rgba(r, g, b, a)` strings and printed back
    as `rgba(r, g, b, a)`. Numbers are exact: channels are `int`, alpha is
    `real`. */
module Colors {
  import opened Wrappers

  /** `new Color(r, g, b, a)`; the parsers that read no alpha give 1. */
  datatype Color = Color(r: int, g: int, b: int, a: real)

  /** `opacity(val)`: the same channels with a new alpha. */
  function Opacity(c: Color, val: real): (r: Color)
    ensures r.r == c.r && r.g == c.g && r.b == c.b && r.a == val
  {
    c.(a := val)
  }

  predicate StartsWith(s: string, prefix: string) {
    |prefix| <= |s| && s[..|prefix|] == prefix
  }

  /** `fromString`: dispatch on the prefix; anything else is not a colour. */
  function FromString(s: string): (r: Option<Color>)
    ensures r.Some? ==> StartsWith(s, "#") || StartsWith(s, "rgb(") || StartsWith(s, "rgba(")
    ensures StartsWith(s, "#") ==> r == FromHexString(s)
    ensures !StartsWith(s, "#") && StartsWith(s, "rgb(") ==> r == FromRgbString(s)
    ensures !StartsWith(s, "#") && !StartsWith(s, "rgb(") && StartsWith(s, "rgba(") ==> r == FromRgbaString(s)
  {
    if StartsWith(s, "#") then FromHexString(s)
    else if StartsWith(s, "rgb(") then FromRgbString(s)
    else if StartsWith(s, "rgba(") then FromRgbaString(s)
    else None
  }

  // ---------------------------------------------------------------- hex

  const HexDigits: string := "0123456789ABCDEF"

  /** `toUpperCase` on one character, for the ASCII letters. */
  function UpperCase(c: char): (u: char)
    ensures 'a' <= c <= 'z' ==> u as int == c as int - 32
    ensures !('a' <= c <= 'z') ==> u == c
  {
    if 'a' <= c <= 'z' then (c as int - 32) as char else c
  }

  function Upper(s: string): (u: string)
    ensures |u| == |s| && forall k :: 0 <= k < |s| ==> u[k] == UpperCase(s[k])
  {
    seq(|s|, k requires 0 <= k < |s| => UpperCase(s[k]))
  }

  /** `h.indexOf(c)`: the position of `c` in `0123456789ABCDEF`, or -1. */
  function IndexOf(c: char): (i: int)
    ensures -1 <= i < 16
  {
    if '0' <= c <= '9' then c as int - '0' as int
    else if 'A' <= c <= 'F' then c as int - 'A' as int + 10
    else -1
  }

  /** `IndexOf` agrees with searching the digit string itself. */
  lemma IndexOfSearches(c: char)
    ensures 0 <= IndexOf(c) ==> HexDigits[IndexOf(c)] == c
    ensures IndexOf(c) == -1 <==> c !in HexDigits
  {
  }

  /** `h.indexOf(str[k])`, where reading past the end gives `undefined`, which
      `indexOf` does not find either. */
  function DigitAt(s: string, k: nat): (i: int)
    ensures -1 <= i < 16
    ensures k >= |s| ==> i == -1
    ensures 0 <= i ==> k < |s| && HexDigits[i] == s[k]
  {
    if k < |s| then IndexOf(s[k]) else -1
  }

  /** A 4-character string `#abc` becomes `#aabbcc`; other lengths stay. */
  function Expand(s: string): (t: string)
    ensures |s| == 4 ==> (|t| == 7 && t[0] == s[0] && t[1] == t[2] == s[1]
                          && t[3] == t[4] == s[2] && t[5] == t[6] == s[3])
    ensures |s| != 4 ==> t == s
  {
    if |s| == 4 then [s[0], s[1], s[1], s[2], s[2], s[3], s[3]] else s
  }

  /** `fromHexString` as the source writes it: it never fails, and a
      character outside the hex digits, or a missing one, counts as -1. */
  function FromHexStringAsWritten(s: string): (r: Color)
    ensures r.a == 1.0
    ensures -17 <= r.r <= 255 && -17 <= r.g <= 255 && -17 <= r.b <= 255
  {
    var t := Expand(Upper(s));
    Color(DigitAt(t, 1) * 16 + DigitAt(t, 2),
          DigitAt(t, 3) * 16 + DigitAt(t, 4),
          DigitAt(t, 5) * 16 + DigitAt(t, 6), 1.0)
  }

  /** `#GG0000` is not a colour, yet the source returns red -17 for it. */
  lemma HexAsWrittenAcceptsBadDigits()
    ensures FromHexStringAsWritten("#GG0000") == Color(-17, 0, 0, 1.0)
    ensures FromHexString("#GG0000") == None
  {
    var t := Expand(Upper("#GG0000"));
    assert t == "#GG0000";
    assert !WellFormedHex("#GG0000") by {
      assert !IsHexDigit("#GG0000"[1]);
    }
  }

  /** A hex digit in either case: `indexOf` finds its upper-case form. */
  predicate IsHexDigit(c: char) {
    0 <= HexValue(c)
  }

  /** The value of one hex digit, either case. */
  function HexValue(c: char): int {
    IndexOf(UpperCase(c))
  }

  /** `#rgb` or `#rrggbb` (the leading character is not examined, as in the
      source), with hex digits in either case. */
  predicate WellFormedHex(s: string) {
    (|s| == 4 || |s| == 7) && forall k :: 1 <= k < |s| ==> IsHexDigit(s[k])
  }

  predicate InByteRange(c: Color) {
    0 <= c.r <= 255 && 0 <= c.g <= 255 && 0 <= c.b <= 255
  }

  function Channel(t: string, k: nat): int
    requires k + 1 < |t|
  {
    IndexOf(t[k]) * 16 + IndexOf(t[k + 1])
  }

  /** `fromHexString` with the intended result for input that is not a hex
      colour: `None` instead of a colour with negative channels. On
      well-formed input it agrees with the source. */
  function FromHexString(s: string): (r: Option<Color>)
    ensures r.Some? <==> WellFormedHex(s)
    ensures r.Some? ==> InByteRange(r.value) && r.value.a == 1.0
    ensures r.Some? ==> r.value == FromHexStringAsWritten(s)
  {
    if WellFormedHex(s) then
      var t := Expand(Upper(s));
      ExpandedDigits(s);
      Some(Color(Channel(t, 1), Channel(t, 3), Channel(t, 5), 1.0))
    else
      None
  }

  /** After expansion, a well-formed string holds seven characters, and
      every one after the first is an upper-case hex digit. */
  lemma ExpandedDigits(s: string)
    requires WellFormedHex(s)
    ensures var t := Expand(Upper(s));
      |t| == 7 && forall k :: 1 <= k < 7 ==> 0 <= IndexOf(t[k]) == HexValue(s[if |s| == 7 then k else (k + 1) / 2])
  {
    var t := Expand(Upper(s));
    forall k | 1 <= k < 7
      ensures 0 <= IndexOf(t[k]) == HexValue(s[if |s| == 7 then k else (k + 1) / 2])
    {
      if |s| == 7 { assert IsHexDigit(s[k]); }
      else { assert IsHexDigit(s[(k + 1) / 2]); }
    }
  }

  /** `#rrggbb`: each channel is 16 times its first digit plus its second. */
  lemma HexLong(s: string)
    requires |s| == 7 && WellFormedHex(s)
    ensures FromHexString(s) == Some(Color(
      16 * HexValue(s[1]) + HexValue(s[2]),
      16 * HexValue(s[3]) + HexValue(s[4]),
      16 * HexValue(s[5]) + HexValue(s[6]), 1.0))
  {
    var t := Expand(Upper(s));
    assert t == Upper(s);
    assert forall k :: 1 <= k < 7 ==> DigitAt(t, k) == HexValue(s[k]);
    var c := FromHexStringAsWritten(s);
    assert c.r == 16 * HexValue(s[1]) + HexValue(s[2]);
    assert c.g == 16 * HexValue(s[3]) + HexValue(s[4]);
    assert c.b == 16 * HexValue(s[5]) + HexValue(s[6]);
  }

  /** `#rgb`: each digit is doubled, so each channel is 17 times its digit. */
  lemma HexShort(s: string)
    requires |s| == 4 && WellFormedHex(s)
    ensures FromHexString(s) == Some(Color(
      17 * HexValue(s[1]), 17 * HexValue(s[2]), 17 * HexValue(s[3]), 1.0))
  {
    var t := Expand(Upper(s));
    assert forall k :: 1 <= k < 7 ==> DigitAt(t, k) == HexValue(s[(k + 1) / 2]);
    var c := FromHexStringAsWritten(s);
    assert c.r == 17 * HexValue(s[1]);
    assert c.g == 17 * HexValue(s[2]);
    assert c.b == 17 * HexValue(s[3]);
  }

  /** Letter case does not matter. */
  lemma HexCaseInsensitive(s: string)
    ensures FromHexString(Upper(s)) == FromHexString(s)
  {
    assert Upper(Upper(s)) == Upper(s);
  }

  // --------------------------------------------------- regular expressions

  /** `\d` */
  predicate IsDigit(c: char) {
    '0' <= c <= '9'
  }

  /** `\s`: the white space and line terminators of ECMAScript. */
  predicate IsSpace(c: char) {
    c == '\t' || c == '\n' || c == '\U{000B}' || c == '\U{000C}' || c == '\r' || c == ' '
    || c == '\U{00A0}' || c == '\U{1680}' || ('\U{2000}' <= c <= '\U{200A}')
    || c == '\U{2028}' || c == '\U{2029}' || c == '\U{202F}' || c == '\U{205F}'
    || c == '\U{3000}' || c == '\U{FEFF}'
  }

  predicate AllDigits(d: string) {
    forall k :: 0 <= k < |d| ==> IsDigit(d[k])
  }

  /** How many digits `s` starts with (`\d+` and `\d*` are greedy). */
  function DigitSpan(s: string): (n: nat)
    ensures n <= |s| && AllDigits(s[..n]) && (n < |s| ==> !IsDigit(s[n]))
  {
    if s != [] && IsDigit(s[0]) then
      var n := 1 + DigitSpan(s[1..]);
      assert s[..n] == [s[0]] + s[1..][..n - 1];
      n
    else 0
  }

  /** How many white-space characters `s` starts with. */
  function SpaceSpan(s: string): (n: nat)
    ensures n <= |s| && (forall k :: 0 <= k < n ==> IsSpace(s[k])) && (n < |s| ==> !IsSpace(s[n]))
  {
    if s != [] && IsSpace(s[0]) then 1 + SpaceSpan(s[1..]) else 0
  }

  /** A captured number: the digits before the point and those after it
      (empty when there is no fractional part). */
  datatype Numeral = Numeral(whole: string, frac: string)

  predicate ValidNumeral(n: Numeral) {
    0 < |n.whole| && AllDigits(n.whole) && AllDigits(n.frac)
  }

  /** The text a numeral was read from. */
  function NumeralText(n: Numeral): string {
    if n.frac == [] then n.whole else n.whole + "." + n.frac
  }

  /** The pieces of the two patterns: a literal, `\s*`, a captured `(\d+)`,
      and a captured `(\d+(?:\.\d+)?)`. */
  datatype Token = Lit(text: string) | Spaces | Int | Decimal

  /** `rgb\((\d+)\s*,\s*(\d+)\s*,\s*(\d+)\)` */
  const RgbPattern: seq<Token> :=
    [Lit("rgb("), Int, Spaces, Lit(","), Spaces, Int, Spaces, Lit(","), Spaces, Int, Lit(")")]

  /** `rgba\((\d+)\s*,\s*(\d+)\s*,\s*(\d+)\s*,\s*(\d+(?:\.\d+)?)\)` */
  const RgbaPattern: seq<Token> :=
    [Lit("rgba("), Int, Spaces, Lit(","), Spaces, Int, Spaces, Lit(","), Spaces, Int,
     Spaces, Lit(","), Spaces, Decimal, Lit(")")]

  /** The number of capturing groups in `pat` from token `k` on. */
  function Groups(pat: seq<Token>, k: nat): nat
    requires k <= |pat|
    decreases |pat| - k
  {
    if k == |pat| then 0
    else (if pat[k].Int? || pat[k].Decimal? then 1 else 0) + Groups(pat, k + 1)
  }

  lemma RgbGroups()
    ensures Groups(RgbPattern, 0) == 3
  {
    assert Groups(RgbPattern, 9) == 1;
    assert Groups(RgbPattern, 5) == 2;
  }

  lemma RgbaGroups()
    ensures Groups(RgbaPattern, 0) == 4
  {
    assert Groups(RgbaPattern, 10) == 1;
  }

  function Capture(n: Numeral, rest: Option<(seq<Numeral>, string)>): Option<(seq<Numeral>, string)> {
    if rest.None? then None else Some(([n] + rest.value.0, rest.value.1))
  }

  /** Whether the tokens of `pat` from `k` on match at the start of `s`: the
      captured numbers and what is left of `s`. Each repeated class is read
      greedily and never given back. For the two patterns above that loses
      no match, because what follows each repetition can never start with a
      character the repetition consumed. */
  function MatchAt(s: string, pat: seq<Token>, k: nat): (m: Option<(seq<Numeral>, string)>)
    requires k <= |pat|
    ensures m.Some? ==> |m.value.0| == Groups(pat, k) && |m.value.1| <= |s|
    ensures m.Some? ==> forall n :: 0 <= n < |m.value.0| ==> ValidNumeral(m.value.0[n])
    decreases |pat| - k
  {
    if k == |pat| then Some(([], s))
    else match pat[k]
      case Lit(t) =>
        if StartsWith(s, t) then MatchAt(s[|t|..], pat, k + 1) else None
      case Spaces =>
        MatchAt(s[SpaceSpan(s)..], pat, k + 1)
      case Int =>
        var j := DigitSpan(s);
        if j == 0 then None else Capture(Numeral(s[..j], ""), MatchAt(s[j..], pat, k + 1))
      case Decimal =>
        var j := DigitSpan(s);
        if j == 0 then None
        else if j + 1 < |s| && s[j] == '.' && IsDigit(s[j + 1]) then
          var e := j + 1 + DigitSpan(s[j + 1..]);
          assert s[j + 1..e] == s[j + 1..][..e - j - 1];
          Capture(Numeral(s[..j], s[j + 1..e]), MatchAt(s[e..], pat, k + 1))
        else
          Capture(Numeral(s[..j], ""), MatchAt(s[j..], pat, k + 1))
  }

  /** Whether `pat` matches `s` at position `p`. */
  predicate MatchesAt(s: string, p: nat, pat: seq<Token>)
    requires p <= |s|
  {
    MatchAt(s[p..], pat, 0).Some?
  }

  /** Where `pat.exec(s)` finds its match, searching from position `i`: the
      leftmost position at which the pattern matches. */
  function FirstMatch(s: string, i: nat, pat: seq<Token>): (j: Option<nat>)
    requires i <= |s|
    ensures j.None? <==> forall p :: i <= p <= |s| ==> !MatchesAt(s, p, pat)
    ensures j.Some? ==> i <= j.value <= |s| && MatchesAt(s, j.value, pat)
    ensures j.Some? ==> forall p :: i <= p < j.value ==> !MatchesAt(s, p, pat)
    decreases |s| - i
  {
    if MatchesAt(s, i, pat) then Some(i)
    else if i == |s| then None
    else FirstMatch(s, i + 1, pat)
  }

  /** `pat.exec(s)`: the captures of the leftmost match anywhere in `s`
      (the regular expressions are not anchored). */
  function Exec(s: string, pat: seq<Token>): (m: Option<seq<Numeral>>)
    ensures m.Some? ==> |m.value| == Groups(pat, 0)
    ensures m.Some? ==> forall n :: 0 <= n < |m.value| ==> ValidNumeral(m.value[n])
  {
    match FirstMatch(s, 0, pat)
    case None => None
    case Some(j) => Some(MatchAt(s[j..], pat, 0).value.0)
  }

  function DigitsValue(d: string): (v: nat)
    requires AllDigits(d)
  {
    if d == [] then 0
    else 10 * DigitsValue(d[..|d| - 1]) + (d[|d| - 1] as int - '0' as int)
  }

  function Pow10(n: nat): (p: nat)
    ensures 0 < p
  {
    if n == 0 then 1 else 10 * Pow10(n - 1)
  }

  /** `parseInt(text, 10)`: the digits before any point, which is
      `parseFloat` of the same text truncated. */
  function ParseInt(n: Numeral): (x: nat)
    requires ValidNumeral(n)
    ensures x as real <= ParseFloat(n) < x as real + 1.0
    ensures n.frac == [] ==> x as real == ParseFloat(n)
  {
    FractionBelowOne(n.frac);
    DigitsValue(n.whole)
  }

  /** The value of a digit run is below 10 to the power of its length. */
  lemma {:induction false} DigitsBelow(d: string)
    requires AllDigits(d)
    ensures DigitsValue(d) < Pow10(|d|)
  {
    if d != [] {
      DigitsBelow(d[..|d| - 1]);
    }
  }

  /** A fraction's digits after the point denote a value in [0, 1). */
  lemma FractionBelowOne(f: string)
    requires AllDigits(f)
    ensures 0.0 <= DigitsValue(f) as real / Pow10(|f|) as real < 1.0
  {
    DigitsBelow(f);
    QuotientNonNegative(DigitsValue(f) as real, Pow10(|f|) as real);
    QuotientBelowOne(DigitsValue(f) as real, Pow10(|f|) as real);
  }

  lemma QuotientBelowOne(x: real, y: real)
    requires 0.0 <= x < y
    ensures x / y < 1.0
  {
  }

  /** `parseFloat(text)`, exactly. */
  function ParseFloat(n: Numeral): (x: real)
    requires ValidNumeral(n)
    ensures 0.0 <= x
    ensures n.frac == [] ==> x == DigitsValue(n.whole) as real
  {
    QuotientNonNegative(DigitsValue(n.frac) as real, Pow10(|n.frac|) as real);
    DigitsValue(n.whole) as real + DigitsValue(n.frac) as real / Pow10(|n.frac|) as real
  }

  lemma QuotientNonNegative(x: real, y: real)
    requires 0.0 <= x && 0.0 < y
    ensures 0.0 <= x / y
  {
  }

  /** `fromRGBString`: three integers, alpha 1, or `None` when the pattern
      matches nowhere in `s`. */
  function FromRgbString(s: string): (r: Option<Color>)
    ensures r.None? <==> forall j :: 0 <= j <= |s| ==> !MatchesAt(s, j, RgbPattern)
    ensures r.Some? ==> r.value.a == 1.0 && 0 <= r.value.r && 0 <= r.value.g && 0 <= r.value.b
  {
    match Exec(s, RgbPattern)
    case None => None
    case Some(caps) =>
      RgbGroups();
      Some(Color(ParseInt(caps[0]), ParseInt(caps[1]), ParseInt(caps[2]), 1.0))
  }

  /** `fromRGBAString`: three integers and a decimal alpha, or `None` when
      the pattern matches nowhere in `s`. */
  function FromRgbaString(s: string): (r: Option<Color>)
    ensures r.None? <==> forall j :: 0 <= j <= |s| ==> !MatchesAt(s, j, RgbaPattern)
    ensures r.Some? ==> 0.0 <= r.value.a && 0 <= r.value.r && 0 <= r.value.g && 0 <= r.value.b
  {
    match Exec(s, RgbaPattern)
    case None => None
    case Some(caps) =>
      RgbaGroups();
      Some(Color(ParseInt(caps[0]), ParseInt(caps[1]), ParseInt(caps[2]), ParseFloat(caps[3])))
  }

  // ------------------------------------------------------------- printing

  function DigitChar(d: nat): (c: char)
    requires d < 10
    ensures IsDigit(c) && c as int - '0' as int == d
  {
    ('0' as int + d) as char
  }

  /** The decimal text of a natural number. */
  function NatText(n: nat): (t: string)
    ensures 0 < |t| && AllDigits(t)
  {
    if n < 10 then [DigitChar(n)] else NatText(n / 10) + [DigitChar(n % 10)]
  }

  /** How JavaScript prints an integer-valued number: a minus sign exactly
      for a negative number, then the decimal digits of its size. */
  function IntText(i: int): (t: string)
    ensures 0 < |t| && (t[0] == '-' <==> i < 0)
    ensures 0 <= i ==> AllDigits(t) && DigitsValue(t) == i
    ensures i < 0 ==> AllDigits(t[1..]) && DigitsValue(t[1..]) == -i
  {
    if i < 0 then
      NatTextValue(-i);
      var t := "-" + NatText(-i);
      assert t[1..] == NatText(-i);
      t
    else
      NatTextValue(i);
      NatText(i)
  }

  /** `toString()`: `rgba(r, g, b, a)`. How JavaScript prints the alpha is
      the parameter `numberText`. */
  function ToString(c: Color, numberText: real -> string): (t: string)
    ensures StartsWith(t, "rgba(") && t[|t| - 1] == ')'
  {
    "rgba(" + IntText(c.r) + ", " + IntText(c.g) + ", " + IntText(c.b) + ", "
      + numberText(c.a) + ")"
  }

  // ------------------------------------------------------------ round trip

  /** Reading back the decimal text of a number gives the number. */
  lemma {:induction false} NatTextValue(n: nat)
    ensures DigitsValue(NatText(n)) == n
  {
    if n >= 10 {
      var t := NatText(n);
      assert t[..|t| - 1] == NatText(n / 10);
      NatTextValue(n / 10);
    }
  }

  lemma {:induction false} DigitSpanOf(d: string, y: string)
    requires AllDigits(d) && (y == [] || !IsDigit(y[0]))
    ensures DigitSpan(d + y) == |d|
  {
    if d != [] {
      assert (d + y)[1..] == d[1..] + y;
      DigitSpanOf(d[1..], y);
    }
  }

  lemma LitStep(t: string, y: string, pat: seq<Token>, k: nat)
    requires k < |pat| && pat[k] == Lit(t)
    ensures MatchAt(t + y, pat, k) == MatchAt(y, pat, k + 1)
  {
    assert (t + y)[..|t|] == t;
    assert (t + y)[|t|..] == y;
  }

  predicate AllSpaces(w: string) {
    forall k :: 0 <= k < |w| ==> IsSpace(w[k])
  }

  lemma {:induction false} SpaceSpanOf(w: string, y: string)
    requires AllSpaces(w) && (y == [] || !IsSpace(y[0]))
    ensures SpaceSpan(w + y) == |w|
  {
    if w != [] {
      assert (w + y)[1..] == w[1..] + y;
      SpaceSpanOf(w[1..], y);
    }
  }

  /** `\s*` consumes exactly a run of white space. */
  lemma SpacesStep(w: string, y: string, pat: seq<Token>, k: nat)
    requires k < |pat| && pat[k] == Spaces && AllSpaces(w) && (y == [] || !IsSpace(y[0]))
    ensures MatchAt(w + y, pat, k) == MatchAt(y, pat, k + 1)
  {
    SpaceSpanOf(w, y);
    assert (w + y)[|w|..] == y;
  }

  lemma IntStep(d: string, y: string, pat: seq<Token>, k: nat)
    requires k < |pat| && pat[k] == Int
    requires 0 < |d| && AllDigits(d) && (y == [] || !IsDigit(y[0]))
    ensures MatchAt(d + y, pat, k) == Capture(Numeral(d, ""), MatchAt(y, pat, k + 1))
  {
    DigitSpanOf(d, y);
    assert (d + y)[..|d|] == d;
    assert (d + y)[|d|..] == y;
  }

  lemma DecimalStep(n: Numeral, y: string, pat: seq<Token>, k: nat)
    requires k < |pat| && pat[k] == Decimal && ValidNumeral(n)
    requires y != [] && !IsDigit(y[0]) && y[0] != '.'
    ensures MatchAt(NumeralText(n) + y, pat, k) == Capture(n, MatchAt(y, pat, k + 1))
  {
    if n.frac == [] {
      WholeStep(n.whole, y, pat, k);
    } else {
      FractionStep(n, y, pat, k);
    }
  }

  /** A numeral without a point against `(\d+(?:\.\d+)?)`. */
  lemma WholeStep(d: string, y: string, pat: seq<Token>, k: nat)
    requires k < |pat| && pat[k] == Decimal && 0 < |d| && AllDigits(d)
    requires y != [] && !IsDigit(y[0]) && y[0] != '.'
    ensures MatchAt(d + y, pat, k) == Capture(Numeral(d, ""), MatchAt(y, pat, k + 1))
  {
    var s := d + y;
    DigitSpanOf(d, y);
    assert s[|d|] == y[0];
    assert s[..|d|] == d;
    assert s[|d|..] == y;
  }

  lemma SplitAt(a: string, b: string)
    ensures (a + b)[..|a|] == a && (a + b)[|a|..] == b
  {
  }

  /** Digits, a point, and `r`: the digits end at the point. */
  lemma WholeThenPoint(w: string, r: string)
    requires AllDigits(w)
    ensures var s := w + ("." + r);
      && DigitSpan(s) == |w| && s[|w|] == '.' && s[..|w|] == w && s[|w| + 1..] == r
  {
    var s := w + ("." + r);
    SplitAt(w, "." + r);
    DigitSpanOf(w, "." + r);
    assert s[|w| + 1..] == ("." + r)[1..];
  }

  /** The slices of `s` after a point at `j`, when `f + y` follows it. */
  lemma AfterPoint(s: string, j: nat, f: string, y: string)
    requires j < |s| && s[j + 1..] == f + y
    ensures s[j + 1..j + 1 + |f|] == f && s[j + 1 + |f|..] == y
  {
    SplitAt(f, y);
    assert s[j + 1..j + 1 + |f|] == s[j + 1..][..|f|];
    assert s[j + 1 + |f|..] == s[j + 1..][|f|..];
  }

  /** The pieces of `whole.frac` followed by `y`, as the matcher cuts them. */
  lemma FractionSlices(n: Numeral, y: string)
    requires ValidNumeral(n) && n.frac != [] && (y == [] || !IsDigit(y[0]))
    ensures DigitSpan(n.whole + "." + n.frac + y) == |n.whole|
    ensures (n.whole + "." + n.frac + y)[|n.whole|] == '.'
    ensures (n.whole + "." + n.frac + y)[|n.whole| + 1..] == n.frac + y
    ensures (n.whole + "." + n.frac + y)[..|n.whole|] == n.whole
    ensures (n.whole + "." + n.frac + y)[|n.whole| + 1..|n.whole| + 1 + |n.frac|] == n.frac
    ensures (n.whole + "." + n.frac + y)[|n.whole| + 1 + |n.frac|..] == y
  {
    var s := n.whole + "." + n.frac + y;
    assert s == n.whole + ("." + (n.frac + y));
    WholeThenPoint(n.whole, n.frac + y);
    AfterPoint(s, |n.whole|, n.frac, y);
  }

  /** A numeral with a point against `(\d+(?:\.\d+)?)`. */
  lemma FractionStep(n: Numeral, y: string, pat: seq<Token>, k: nat)
    requires k < |pat| && pat[k] == Decimal && ValidNumeral(n) && n.frac != []
    requires y != [] && !IsDigit(y[0])
    ensures MatchAt(n.whole + "." + n.frac + y, pat, k) == Capture(n, MatchAt(y, pat, k + 1))
  {
    var s := n.whole + "." + n.frac + y;
    FractionSlices(n, y);
    DigitSpanOf(n.frac, y);
    assert s[|n.whole| + 1] == n.frac[0];
  }

  /** `,\s*` against a comma, white space, and what follows. */
  lemma CommaStep(w: string, y: string, pat: seq<Token>, k: nat)
    requires k + 1 < |pat| && pat[k] == Lit(",") && pat[k + 1] == Spaces
    requires AllSpaces(w) && (y == [] || !IsSpace(y[0]))
    ensures MatchAt("," + (w + y), pat, k) == MatchAt(y, pat, k + 2)
  {
    SpacesStep(w, y, pat, k + 1);
    LitStep(",", w + y, pat, k);
  }

  /** `(\d+)\s*` against digits, white space, then a comma. */
  lemma NumberStep(d: string, w: string, u: string, pat: seq<Token>, k: nat)
    requires k + 1 < |pat| && pat[k] == Int && pat[k + 1] == Spaces
    requires 0 < |d| && AllDigits(d) && AllSpaces(w) && u != [] && u[0] == ','
    ensures MatchAt(d + (w + u), pat, k) == Capture(Numeral(d, ""), MatchAt(u, pat, k + 2))
  {
    SpacesStep(w, u, pat, k + 1);
    assert (w + u)[0] == if w == [] then u[0] else w[0];
    IntStep(d, w + u, pat, k);
  }

  /** The white space before and after one comma of the patterns. */
  datatype Gap = Gap(before: string, after: string)

  predicate ValidGap(g: Gap) {
    AllSpaces(g.before) && AllSpaces(g.after)
  }

  /** How `toString` separates the fields: no space before the comma, one
      after. */
  const PrintedGap: Gap := Gap("", " ")

  /** A decimal integer and the comma after it, with white space around the
      comma. */
  function Field(d: string, g: Gap): string {
    d + (g.before + ("," + g.after))
  }

  lemma PrintedField(d: string)
    ensures ValidGap(PrintedGap) && Field(d, PrintedGap) == d + ", "
  {
  }

  /** A field starts with its first digit, which is no white space. */
  lemma FieldHead(d: string, g: Gap, y: string)
    requires 0 < |d| && AllDigits(d)
    ensures Field(d, g) + y != [] && !IsSpace((Field(d, g) + y)[0])
  {
    assert (Field(d, g) + y)[0] == d[0];
  }

  /** One field `d , ` against `(\d+)\s*,\s*`, whatever the white space. */
  lemma SpacedFieldStep(d: string, g: Gap, y: string, pat: seq<Token>, k: nat)
    requires k + 3 < |pat| && pat[k] == Int && pat[k + 1] == Spaces
    requires pat[k + 2] == Lit(",") && pat[k + 3] == Spaces
    requires 0 < |d| && AllDigits(d) && ValidGap(g) && (y == [] || !IsSpace(y[0]))
    ensures MatchAt(Field(d, g) + y, pat, k) == Capture(Numeral(d, ""), MatchAt(y, pat, k + 4))
  {
    var u := "," + (g.after + y);
    assert Field(d, g) + y == d + (g.before + u);
    NumberStep(d, g.before, u, pat, k);
    CommaStep(g.after, y, pat, k + 2);
  }

  /** One printed field `d, ` against `(\d+)\s*,\s*`. */
  lemma FieldStep(d: string, y: string, pat: seq<Token>, k: nat)
    requires k + 3 < |pat| && pat[k] == Int && pat[k + 1] == Spaces
    requires pat[k + 2] == Lit(",") && pat[k + 3] == Spaces
    requires 0 < |d| && AllDigits(d) && (y == [] || IsDigit(y[0]) || !IsSpace(y[0]))
    ensures MatchAt(d + ", " + y, pat, k) == Capture(Numeral(d, ""), MatchAt(y, pat, k + 4))
  {
    PrintedField(d);
    assert d + ", " + y == Field(d, PrintedGap) + y;
    SpacedFieldStep(d, PrintedGap, y, pat, k);
  }

  /** The text that follows `rgba(` in a printed colour. */
  function PrintedFields(r: nat, g: nat, b: nat, alpha: Numeral): string {
    NatText(r) + ", " + (NatText(g) + ", " + (NatText(b) + ", " + (NumeralText(alpha) + ")")))
  }

  /** The tokens of the `rgba` pattern that the printed fields meet. */
  lemma RgbaLayout()
    ensures |RgbaPattern| == 15 && RgbaPattern[0] == Lit("rgba(")
    ensures forall k :: k in {1, 5, 9} ==> RgbaPattern[k] == Int
    ensures forall k :: k in {2, 4, 6, 8, 10, 12} ==> RgbaPattern[k] == Spaces
    ensures forall k :: k in {3, 7, 11} ==> RgbaPattern[k] == Lit(",")
    ensures RgbaPattern[13] == Decimal && RgbaPattern[14] == Lit(")")
  {
  }

  /** The text after `rgba(`: three integers each followed by a comma with
      white space around it, then the alpha and `)`. */
  function RgbaFields(d1: string, g1: Gap, d2: string, g2: Gap, d3: string, g3: Gap, alpha: Numeral): string {
    Field(d1, g1) + (Field(d2, g2) + (Field(d3, g3) + (NumeralText(alpha) + ")")))
  }

  /** Three integers and their gaps, as `fromRGBString` and `fromRGBAString`
      accept them. */
  predicate ValidFields(d1: string, g1: Gap, d2: string, g2: Gap, d3: string) {
    && 0 < |d1| && AllDigits(d1) && 0 < |d2| && AllDigits(d2) && 0 < |d3| && AllDigits(d3)
    && ValidGap(g1) && ValidGap(g2)
  }

  lemma MatchAlphaField(alpha: Numeral)
    requires ValidNumeral(alpha)
    ensures MatchAt(NumeralText(alpha) + ")", RgbaPattern, 13) == Some(([alpha], ""))
  {
    RgbaLayout();
    LitStep(")", "", RgbaPattern, 14);
    assert ")" + "" == ")";
    DecimalStep(alpha, ")", RgbaPattern, 13);
    assert [alpha] + [] == [alpha];
  }

  lemma MatchBlueField(d3: string, g3: Gap, alpha: Numeral)
    requires 0 < |d3| && AllDigits(d3) && ValidGap(g3) && ValidNumeral(alpha)
    ensures MatchAt(Field(d3, g3) + (NumeralText(alpha) + ")"), RgbaPattern, 9)
         == Some(([Numeral(d3, "")] + [alpha], ""))
  {
    RgbaLayout();
    var a := NumeralText(alpha) + ")";
    assert a[0] == alpha.whole[0];
    MatchAlphaField(alpha);
    SpacedFieldStep(d3, g3, a, RgbaPattern, 9);
  }

  lemma MatchGreenField(d2: string, g2: Gap, d3: string, g3: Gap, alpha: Numeral)
    requires 0 < |d2| && AllDigits(d2) && ValidGap(g2)
    requires 0 < |d3| && AllDigits(d3) && ValidGap(g3) && ValidNumeral(alpha)
    ensures MatchAt(Field(d2, g2) + (Field(d3, g3) + (NumeralText(alpha) + ")")), RgbaPattern, 5)
         == Some(([Numeral(d2, "")] + ([Numeral(d3, "")] + [alpha]), ""))
  {
    RgbaLayout();
    var x := Field(d3, g3) + (NumeralText(alpha) + ")");
    FieldHead(d3, g3, NumeralText(alpha) + ")");
    MatchBlueField(d3, g3, alpha);
    SpacedFieldStep(d2, g2, x, RgbaPattern, 5);
  }

  lemma MatchRedField(d1: string, g1: Gap, d2: string, g2: Gap, d3: string, g3: Gap, alpha: Numeral)
    requires ValidFields(d1, g1, d2, g2, d3) && ValidGap(g3) && ValidNumeral(alpha)
    ensures MatchAt(RgbaFields(d1, g1, d2, g2, d3, g3, alpha), RgbaPattern, 1)
         == Some(([Numeral(d1, "")] + ([Numeral(d2, "")] + ([Numeral(d3, "")] + [alpha])), ""))
  {
    RgbaLayout();
    var y := Field(d2, g2) + (Field(d3, g3) + (NumeralText(alpha) + ")"));
    FieldHead(d2, g2, Field(d3, g3) + (NumeralText(alpha) + ")"));
    MatchGreenField(d2, g2, d3, g3, alpha);
    SpacedFieldStep(d1, g1, y, RgbaPattern, 1);
  }

  /** `fromRGBAString` reads three integers and a decimal alpha, whatever
      white space surrounds the commas. */
  lemma ReadRgba(d1: string, g1: Gap, d2: string, g2: Gap, d3: string, g3: Gap, alpha: Numeral)
    requires ValidFields(d1, g1, d2, g2, d3) && ValidGap(g3) && ValidNumeral(alpha)
    ensures FromString("rgba(" + RgbaFields(d1, g1, d2, g2, d3, g3, alpha))
         == Some(Color(DigitsValue(d1), DigitsValue(d2), DigitsValue(d3), ParseFloat(alpha)))
  {
    var s := "rgba(" + RgbaFields(d1, g1, d2, g2, d3, g3, alpha);
    var caps := [Numeral(d1, "")] + ([Numeral(d2, "")] + ([Numeral(d3, "")] + [alpha]));
    RgbaLayout();
    MatchRedField(d1, g1, d2, g2, d3, g3, alpha);
    LitStep("rgba(", RgbaFields(d1, g1, d2, g2, d3, g3, alpha), RgbaPattern, 0);
    assert s[0..] == s;
    assert FirstMatch(s, 0, RgbaPattern) == Some(0);
    assert Exec(s, RgbaPattern) == Some(caps);
    assert s[..5] == "rgba(";
    RgbaDispatch(s);
  }

  /** `fromRGBAString` reads the printed fields back. */
  lemma ReadPrintedRgba(r: nat, g: nat, b: nat, alpha: Numeral)
    requires ValidNumeral(alpha)
    ensures FromString("rgba(" + PrintedFields(r, g, b, alpha)) == Some(Color(r, g, b, ParseFloat(alpha)))
  {
    PrintedField(NatText(r));
    PrintedField(NatText(g));
    PrintedField(NatText(b));
    assert PrintedFields(r, g, b, alpha)
        == RgbaFields(NatText(r), PrintedGap, NatText(g), PrintedGap, NatText(b), PrintedGap, alpha);
    NatTextValue(r);
    NatTextValue(g);
    NatTextValue(b);
    ReadRgba(NatText(r), PrintedGap, NatText(g), PrintedGap, NatText(b), PrintedGap, alpha);
  }

  /** Round trip: printing a colour with non-negative integer channels and
      reading the text back gives the colour again, whenever the alpha is
      printed as a decimal numeral that denotes it. */
  lemma RoundTrip(c: Color, numberText: real -> string, alpha: Numeral)
    requires 0 <= c.r && 0 <= c.g && 0 <= c.b
    requires ValidNumeral(alpha) && numberText(c.a) == NumeralText(alpha) && ParseFloat(alpha) == c.a
    ensures FromString(ToString(c, numberText)) == Some(c)
  {
    var s := ToString(c, numberText);
    assert s == "rgba(" + PrintedFields(c.r, c.g, c.b, alpha);
    ReadPrintedRgba(c.r, c.g, c.b, alpha);
    assert s[..5] == "rgba(";
    RgbaDispatch(s);
  }

  /** The round trip for an opaque colour: JavaScript prints the alpha 1 as
      `1`. */
  lemma RoundTripOpaque(c: Color, numberText: real -> string)
    requires 0 <= c.r && 0 <= c.g && 0 <= c.b && c.a == 1.0
    requires numberText(1.0) == "1"
    ensures FromString(ToString(c, numberText)) == Some(c)
  {
    var one := Numeral("1", "");
    assert DigitsValue("1") == 1 by {
      assert "1"[..0] == [];
    }
    RoundTrip(c, numberText, one);
  }

  // ------------------------------------------------------------- rgb text

  lemma RgbLayout()
    ensures |RgbPattern| == 11 && RgbPattern[0] == Lit("rgb(")
    ensures forall k :: k in {1, 5, 9} ==> RgbPattern[k] == Int
    ensures forall k :: k in {2, 4, 6, 8} ==> RgbPattern[k] == Spaces
    ensures forall k :: k in {3, 7} ==> RgbPattern[k] == Lit(",")
    ensures RgbPattern[10] == Lit(")")
  {
  }

  /** The text after `rgb(` for three channels. */
  function RgbFields(r: nat, g: nat, b: nat): string {
    NatText(r) + ", " + (NatText(g) + ", " + (NatText(b) + ")"))
  }

  /** The text after `rgb(`: three integers, with white space around the two
      commas. */
  function SpacedRgbFields(d1: string, g1: Gap, d2: string, g2: Gap, d3: string): string {
    Field(d1, g1) + (Field(d2, g2) + (d3 + ")"))
  }

  /** `(\d+)\)` at the end of a pattern against digits and `)`. */
  lemma MatchRgbBlue(d3: string, pat: seq<Token>, k: nat)
    requires k + 2 == |pat| && pat[k] == Int && pat[k + 1] == Lit(")")
    requires 0 < |d3| && AllDigits(d3)
    ensures MatchAt(d3 + ")", pat, k) == Some(([Numeral(d3, "")], ""))
  {
    LitStep(")", "", pat, k + 1);
    assert ")" + "" == ")";
    IntStep(d3, ")", pat, k);
    assert [Numeral(d3, "")] + [] == [Numeral(d3, "")];
  }

  /** A field, then `(\d+)\)` at the end of a pattern. */
  lemma MatchRgbGreen(d2: string, g2: Gap, d3: string, pat: seq<Token>, k: nat)
    requires k + 6 == |pat| && pat[k] == Int && pat[k + 1] == Spaces
    requires pat[k + 2] == Lit(",") && pat[k + 3] == Spaces
    requires pat[k + 4] == Int && pat[k + 5] == Lit(")")
    requires 0 < |d2| && AllDigits(d2) && ValidGap(g2) && 0 < |d3| && AllDigits(d3)
    ensures MatchAt(Field(d2, g2) + (d3 + ")"), pat, k)
         == Some(([Numeral(d2, "")] + [Numeral(d3, "")], ""))
  {
    var t := d3 + ")";
    assert t[0] == d3[0];
    MatchRgbBlue(d3, pat, k + 4);
    SpacedFieldStep(d2, g2, t, pat, k);
  }

  /** Two fields, then `(\d+)\)` at the end of a pattern. */
  lemma MatchRgbRed(d1: string, g1: Gap, d2: string, g2: Gap, d3: string, pat: seq<Token>, k: nat)
    requires k + 10 == |pat| && pat[k] == Int && pat[k + 1] == Spaces
    requires pat[k + 2] == Lit(",") && pat[k + 3] == Spaces
    requires pat[k + 4] == Int && pat[k + 5] == Spaces
    requires pat[k + 6] == Lit(",") && pat[k + 7] == Spaces
    requires pat[k + 8] == Int && pat[k + 9] == Lit(")")
    requires ValidFields(d1, g1, d2, g2, d3)
    ensures MatchAt(SpacedRgbFields(d1, g1, d2, g2, d3), pat, k)
         == Some(([Numeral(d1, "")] + ([Numeral(d2, "")] + [Numeral(d3, "")]), ""))
  {
    var y := Field(d2, g2) + (d3 + ")");
    FieldHead(d2, g2, d3 + ")");
    MatchRgbGreen(d2, g2, d3, pat, k + 4);
    SpacedFieldStep(d1, g1, y, pat, k);
  }

  lemma MatchSpacedRgb(d1: string, g1: Gap, d2: string, g2: Gap, d3: string)
    requires ValidFields(d1, g1, d2, g2, d3)
    ensures MatchAt("rgb(" + SpacedRgbFields(d1, g1, d2, g2, d3), RgbPattern, 0)
         == Some(([Numeral(d1, "")] + ([Numeral(d2, "")] + [Numeral(d3, "")]), ""))
  {
    RgbLayout();
    MatchRgbRed(d1, g1, d2, g2, d3, RgbPattern, 1);
    LitStep("rgb(", SpacedRgbFields(d1, g1, d2, g2, d3), RgbPattern, 0);
  }

  /** `fromRGBString` reads three decimal integers separated by commas with
      any white space around them, as the opaque colour they denote. */
  lemma ReadSpacedRgb(d1: string, g1: Gap, d2: string, g2: Gap, d3: string)
    requires ValidFields(d1, g1, d2, g2, d3)
    ensures FromString("rgb(" + SpacedRgbFields(d1, g1, d2, g2, d3))
         == Some(Color(DigitsValue(d1), DigitsValue(d2), DigitsValue(d3), 1.0))
  {
    var s := "rgb(" + SpacedRgbFields(d1, g1, d2, g2, d3);
    MatchSpacedRgb(d1, g1, d2, g2, d3);
    assert s[0..] == s;
    assert FirstMatch(s, 0, RgbPattern) == Some(0);
    assert FromRgbString(s) == Some(Color(DigitsValue(d1), DigitsValue(d2), DigitsValue(d3), 1.0));
    assert s[..4] == "rgb(";
    assert s[..1] != "#" by {
      assert s[..1][0] == s[0] == 'r';
    }
  }

  /** `rgb(r, g, b)` with decimal channels is read as the opaque colour
      (r, g, b). */
  lemma ReadRgb(r: nat, g: nat, b: nat)
    ensures FromString("rgb(" + RgbFields(r, g, b)) == Some(Color(r, g, b, 1.0))
  {
    PrintedField(NatText(r));
    PrintedField(NatText(g));
    assert RgbFields(r, g, b) == SpacedRgbFields(NatText(r), PrintedGap, NatText(g), PrintedGap, NatText(b));
    NatTextValue(r);
    NatTextValue(g);
    NatTextValue(b);
    ReadSpacedRgb(NatText(r), PrintedGap, NatText(g), PrintedGap, NatText(b));
  }

  /** The source's own examples of colour strings. */
  lemma HexLongExamples()
    ensures FromString("#1234AB") == Some(Color(18, 52, 171, 1.0))
    ensures FromString("#1234ab") == Some(Color(18, 52, 171, 1.0))
  {
    assert WellFormedHex("#1234AB");
    HexLong("#1234AB");
    assert WellFormedHex("#1234ab");
    HexLong("#1234ab");
  }

  lemma HexShortExamples()
    ensures FromString("#AB2") == Some(Color(170, 187, 34, 1.0))
    ensures FromString("#ab2") == Some(Color(170, 187, 34, 1.0))
  {
    assert WellFormedHex("#AB2");
    HexShort("#AB2");
    assert WellFormedHex("#ab2");
    HexShort("#ab2");
  }

  lemma ExampleNumbers()
    ensures NatText(18) == "18" && NatText(52) == "52" && NatText(171) == "171"
  {
    assert NatText(1) == "1" && NatText(5) == "5" && NatText(17) == "17";
  }

  lemma RgbExample()
    ensures FromString("rgb(18, 52, 171)") == Some(Color(18, 52, 171, 1.0))
  {
    ExampleNumbers();
    assert RgbFields(18, 52, 171) == "18, 52, 171)";
    assert "rgb(18, 52, 171)" == "rgb(" + "18, 52, 171)";
    ReadRgb(18, 52, 171);
  }

  lemma ExampleDigits()
    ensures DigitsValue("18") == 18 && DigitsValue("52") == 52 && DigitsValue("171") == 171
  {
    assert "18"[..1] == "1" && "52"[..1] == "5" && "171"[..2] == "17" && "17"[..1] == "1";
  }

  /** White space around the commas is optional and free in length. */
  lemma SpacedRgbExample()
    ensures FromString("rgb(18,52 ,  171)") == Some(Color(18, 52, 171, 1.0))
  {
    var tight, loose := Gap("", ""), Gap(" ", "  ");
    assert SpacedRgbFields("18", tight, "52", loose, "171") == "18,52 ,  171)";
    assert "rgb(18,52 ,  171)" == "rgb(" + "18,52 ,  171)";
    ExampleDigits();
    ReadSpacedRgb("18", tight, "52", loose, "171");
  }

  lemma RgbaExampleText()
    ensures "rgba(18, 52, 171, 0.2)" == "rgba(" + PrintedFields(18, 52, 171, Numeral("0", "2"))
  {
    ExampleNumbers();
    assert NumeralText(Numeral("0", "2")) == "0.2";
    assert PrintedFields(18, 52, 171, Numeral("0", "2")) == "18, 52, 171, 0.2)";
  }

  /** A string that starts with `rgba(` is read by `fromRGBAString`. */
  lemma RgbaDispatch(s: string)
    requires StartsWith(s, "rgba(")
    ensures FromString(s) == FromRgbaString(s)
  {
    assert s[..1] != "#" by {
      assert s[..1][0] == s[..5][0] == 'r';
    }
    assert s[..4] != "rgb(" by {
      assert s[..4][3] == s[..5][3] == 'a';
    }
  }

  lemma AlphaExampleValue()
    ensures ValidNumeral(Numeral("0", "2")) && ParseFloat(Numeral("0", "2")) == 0.2
  {
    assert "0"[..0] == [] && "2"[..0] == [];
    assert DigitsValue("0") == 0 && DigitsValue("2") == 2;
    assert Pow10(1) == 10;
    assert 2 as real / 10 as real == 0.2;
  }

  lemma RgbaExample()
    ensures FromString("rgba(18, 52, 171, 0.2)") == Some(Color(18, 52, 171, 0.2))
  {
    var alpha := Numeral("0", "2");
    AlphaExampleValue();
    RgbaExampleText();
    ReadPrintedRgba(18, 52, 171, alpha);
    RgbaDispatch("rgba(18, 52, 171, 0.2)");
  }

  /** Nothing matches the `rgb` pattern where no `rgb(` begins. */
  lemma NoRgbAt(s: string, j: nat)
    requires j <= |s| && (|s| - j < 4 || s[j] != 'r')
    ensures !MatchesAt(s, j, RgbPattern)
  {
    RgbLayout();
    if |s| - j >= 4 {
      assert s[j..][..4][0] == s[j];
    }
  }

  lemma UnknownPrefixExamples()
    ensures FromString("abc") == None
    ensures FromString("invalid") == None
  {
    assert "abc"[..1] != "#" && "invalid"[..1] != "#" by {
      assert "abc"[..1][0] == 'a' && "invalid"[..1][0] == 'i';
    }
    assert "abc"[..1] != "r" && "invalid"[..1] != "r" by {
      assert "abc"[..1][0] == 'a' && "invalid"[..1][0] == 'i';
    }
    assert !StartsWith("invalid", "rgb(") by {
      assert "invalid"[..4][0] == 'i';
    }
    assert !StartsWith("invalid", "rgba(") by {
      assert "invalid"[..5][0] == 'i';
    }
  }

  lemma EmptyRgbExample()
    ensures FromString("rgb()") == None
  {
    RgbLayout();
    var s := "rgb()";
    assert s == "rgb(" + ")";
    assert s[..4] == "rgb(" && s[..1] != "#" by {
      assert s[..1][0] == 'r';
    }
    LitStep("rgb(", ")", RgbPattern, 0);
    assert !MatchesAt(s, 0, RgbPattern) by {
      assert s[0..] == s;
      assert DigitSpan(")") == 0;
    }
    forall j | 1 <= j <= |s| ensures !MatchesAt(s, j, RgbPattern) {
      NoRgbAt(s, j);
    }
  }

  /** Two fields and then a character that is neither a digit nor white
      space: the `rgb` pattern fails at the third number. */
  lemma NonDigitThirdField(a: string, b: string, y: string)
    requires 0 < |a| && AllDigits(a) && 0 < |b| && AllDigits(b)
    requires y != [] && !IsDigit(y[0]) && !IsSpace(y[0])
    ensures !MatchesAt("rgb(" + (a + ", " + (b + ", " + y)), 0, RgbPattern)
  {
    RgbLayout();
    var rest := a + ", " + (b + ", " + y);
    var t := "rgb(" + rest;
    assert t[0..] == t;
    LitStep("rgb(", rest, RgbPattern, 0);
    FieldStep(a, b + ", " + y, RgbPattern, 1);
    FieldStep(b, y, RgbPattern, 5);
    assert DigitSpan(y) == 0;
  }

  lemma NonDigitRgbAtStart()
    ensures !MatchesAt("rgb(1, 2, E)", 0, RgbPattern)
  {
    assert "rgb(1, 2, E)" == "rgb(" + ("1" + ", " + ("2" + ", " + "E)"));
    assert !IsSpace('E');
    NonDigitThirdField("1", "2", "E)");
  }

  lemma NonDigitRgbExample()
    ensures FromString("rgb(1, 2, E)") == None
  {
    var t := "rgb(1, 2, E)";
    assert t[..4] == "rgb(" && t[..1] != "#" by {
      assert t[..1][0] == 'r';
    }
    NonDigitRgbAtStart();
    forall j | 1 <= j <= |t| ensures !MatchesAt(t, j, RgbPattern) {
      NoRgbAt(t, j);
    }
  }
}
