/** Character classes, trimming, case mapping and decimal conversion, each
    following the Java or JavaScript library routine the repository calls. */
module Text {
  import opened Wrappers

  // ---------------------------------------------------------------- classes

  /** The code points Java's `String.trim()` strips: everything up to U+0020. */
  predicate IsJavaTrimChar(c: char) {
    c <= ' '
  }

  /** Java's `Character.isWhitespace`, the test behind `String.isBlank()` and
      Spring's `StringUtils.hasText`: the space separators other than the
      no-break spaces, the line and paragraph separators, and the controls
      U+0009..U+000D and U+001C..U+001F. */
  predicate IsJavaWhitespace(c: char) {
    || c == ' '
    || ('\t' <= c <= '\r')
    || ('\U{001C}' <= c <= '\U{001F}')
    || c == '\U{1680}'
    || ('\U{2000}' <= c <= '\U{2006}')
    || ('\U{2008}' <= c <= '\U{200A}')
    || c == '\U{2028}' || c == '\U{2029}'
    || c == '\U{205F}' || c == '\U{3000}'
  }

  /** `\s` in a Java regular expression without the Unicode flag: [ \t\n\x0B\f\r]. */
  predicate IsRegexSpace(c: char) {
    c == ' ' || ('\t' <= c <= '\r')
  }

  /** ECMAScript WhiteSpace and LineTerminator code points: what
      `String.prototype.trim` and `Number(string)` strip. */
  predicate IsJsWhitespace(c: char) {
    || c == '\t' || c == '\n' || c == '\U{000B}' || c == '\U{000C}' || c == '\r'
    || c == ' ' || c == '\U{00A0}' || c == '\U{1680}'
    || ('\U{2000}' <= c <= '\U{200A}')
    || c == '\U{2028}' || c == '\U{2029}' || c == '\U{202F}'
    || c == '\U{205F}' || c == '\U{3000}' || c == '\U{FEFF}'
  }

  predicate IsDigit(c: char) {
    '0' <= c <= '9'
  }

  predicate IsAsciiLetter(c: char) {
    ('A' <= c <= 'Z') || ('a' <= c <= 'z')
  }

  predicate AllDigits(s: string) {
    forall i :: 0 <= i < |s| ==> IsDigit(s[i])
  }

  // ---------------------------------------------------------------- trimming

  /** `s` without its leading run of `isSpace` characters. */
  function DropLeading(s: string, isSpace: char -> bool): (r: string)
    ensures |r| <= |s| && r == s[|s| - |r|..]
    ensures forall i :: 0 <= i < |s| - |r| ==> isSpace(s[i])
    ensures |r| > 0 ==> !isSpace(r[0])
  {
    if |s| > 0 && isSpace(s[0]) then DropLeading(s[1..], isSpace) else s
  }

  /** `s` without its trailing run of `isSpace` characters. */
  function DropTrailing(s: string, isSpace: char -> bool): (r: string)
    ensures |r| <= |s| && r == s[..|r|]
    ensures forall i :: |r| <= i < |s| ==> isSpace(s[i])
    ensures |r| > 0 ==> !isSpace(r[|r| - 1])
  {
    if |s| > 0 && isSpace(s[|s| - 1]) then DropTrailing(s[..|s| - 1], isSpace) else s
  }

  function Trim(s: string, isSpace: char -> bool): string {
    DropTrailing(DropLeading(s, isSpace), isSpace)
  }

  /** Java `String.trim()`. */
  function JavaTrim(s: string): string {
    Trim(s, IsJavaTrimChar)
  }

  /** JavaScript `String.prototype.trim()`. */
  function JsTrim(s: string): string {
    Trim(s, IsJsWhitespace)
  }

  /** A string survives JavaScript trimming exactly when it has a character
      that is not ECMAScript whitespace. */
  lemma JsTrimNonEmptyIff(s: string)
    ensures JsTrim(s) != [] <==> exists i :: 0 <= i < |s| && !IsJsWhitespace(s[i])
  {
    TrimEmptyIff(s, IsJsWhitespace);
  }

  /** Trimming leaves nothing exactly when every character is strippable. */
  lemma TrimEmptyIff(s: string, isSpace: char -> bool)
    ensures Trim(s, isSpace) == [] <==> forall i :: 0 <= i < |s| ==> isSpace(s[i])
  {
    if Trim(s, isSpace) == [] {
      assert |DropLeading(s, isSpace)| == 0;
    }
  }

  lemma {:induction false} DropLeadingPast(pad: string, word: string, isSpace: char -> bool)
    requires forall i :: 0 <= i < |pad| ==> isSpace(pad[i])
    requires |word| > 0 && !isSpace(word[0])
    ensures DropLeading(pad + word, isSpace) == word
  {
    if |pad| > 0 {
      assert (pad + word)[1..] == pad[1..] + word;
      DropLeadingPast(pad[1..], word, isSpace);
    } else {
      assert pad + word == word;
    }
  }

  lemma {:induction false} DropTrailingPast(word: string, pad: string, isSpace: char -> bool)
    requires forall i :: 0 <= i < |pad| ==> isSpace(pad[i])
    requires |word| > 0 && !isSpace(word[|word| - 1])
    ensures DropTrailing(word + pad, isSpace) == word
  {
    if |pad| > 0 {
      assert (word + pad)[..|word + pad| - 1] == word + pad[..|pad| - 1];
      DropTrailingPast(word, pad[..|pad| - 1], isSpace);
    } else {
      assert word + pad == word;
    }
  }

  /** Trimming removes exactly the strippable padding around a word that
      starts and ends with a kept character. */
  lemma TrimAround(before: string, word: string, after: string, isSpace: char -> bool)
    requires forall i :: 0 <= i < |before| ==> isSpace(before[i])
    requires forall i :: 0 <= i < |after| ==> isSpace(after[i])
    requires |word| > 0 && !isSpace(word[0]) && !isSpace(word[|word| - 1])
    ensures Trim(before + word + after, isSpace) == word
  {
    assert before + word + after == before + (word + after);
    DropLeadingPast(before, word + after, isSpace);
    DropTrailingPast(word, after, isSpace);
  }

  /** A string that starts and ends with a kept character is its own trim. */
  lemma TrimUnpadded(s: string, isSpace: char -> bool)
    requires |s| > 0 && !isSpace(s[0]) && !isSpace(s[|s| - 1])
    ensures Trim(s, isSpace) == s
  {
    assert [] + s + [] == s;
    TrimAround([], s, [], isSpace);
  }

  /** Trimming twice is trimming once. */
  lemma TrimIdempotent(s: string, isSpace: char -> bool)
    ensures Trim(Trim(s, isSpace), isSpace) == Trim(s, isSpace)
  {
    var t := Trim(s, isSpace);
    if |t| > 0 {
      var lead := DropLeading(s, isSpace);
      assert t[0] == lead[0];
      TrimUnpadded(t, isSpace);
    }
  }

  /** The trimmed string is the slice of the input between two runs of
      strippable characters. */
  lemma TrimBounds(s: string, isSpace: char -> bool) returns (a: int, b: int)
    ensures 0 <= a <= b <= |s| && s[a..b] == Trim(s, isSpace)
    ensures forall i :: 0 <= i < a ==> isSpace(s[i])
    ensures forall i :: b <= i < |s| ==> isSpace(s[i])
  {
    var lead := DropLeading(s, isSpace);
    var t := DropTrailing(lead, isSpace);
    a := |s| - |lead|;
    b := a + |t|;
    assert s[a..b] == t;
    forall i | b <= i < |s|
      ensures isSpace(s[i])
    {
      assert s[i] == lead[i - a];
    }
  }

  /** Spring `StringUtils.hasText`: non-null with a non-whitespace character. */
  predicate HasText(s: string) {
    exists i :: 0 <= i < |s| && !IsJavaWhitespace(s[i])
  }

  predicate HasTextOpt(s: Option<string>) {
    s.Some? && HasText(s.value)
  }

  /** Java `String.isBlank()`. */
  predicate IsBlank(s: string) {
    forall i :: 0 <= i < |s| ==> IsJavaWhitespace(s[i])
  }

  /** JavaScript truthiness of a string: defined and non-empty. */
  predicate Truthy(s: Option<string>) {
    s.Some? && |s.value| > 0
  }

  // ---------------------------------------------------------------- lengths

  /** Java `String.length()`: UTF-16 code units, two for a supplementary character. */
  function Utf16Length(s: string): (n: nat)
    ensures |s| <= n <= 2 * |s|
  {
    if |s| == 0 then 0
    else Utf16Length(s[..|s| - 1]) + (if s[|s| - 1] as int > 0xFFFF then 2 else 1)
  }

  // ---------------------------------------------------------------- case

  function UpperChar(c: char): char {
    if 'a' <= c <= 'z' then (c as int - 32) as char else c
  }

  function LowerChar(c: char): char {
    if 'A' <= c <= 'Z' then (c as int + 32) as char else c
  }

  /** `toUpperCase()` on the ASCII letters; other characters are kept. */
  function Upper(s: string): (r: string)
    ensures |r| == |s|
    ensures forall i :: 0 <= i < |s| ==> r[i] == UpperChar(s[i])
  {
    seq(|s|, i requires 0 <= i < |s| => UpperChar(s[i]))
  }

  /** `toLowerCase()` on the ASCII letters; other characters are kept. */
  function Lower(s: string): (r: string)
    ensures |r| == |s|
    ensures forall i :: 0 <= i < |s| ==> r[i] == LowerChar(s[i])
  {
    seq(|s|, i requires 0 <= i < |s| => LowerChar(s[i]))
  }

  /** Java `equalsIgnoreCase` restricted to ASCII case pairs. */
  predicate EqualsIgnoreCase(a: string, b: string) {
    Lower(a) == Lower(b)
  }

  // ---------------------------------------------------------------- search

  predicate OccursAt(s: string, sub: string, i: int) {
    0 <= i && i + |sub| <= |s| && s[i..i + |sub|] == sub
  }

  /** Java `String.contains` and JavaScript `String.prototype.includes`. */
  predicate Contains(s: string, sub: string) {
    exists i :: 0 <= i <= |s| - |sub| && OccursAt(s, sub, i)
  }

  /** The position of the first `c` in `s`. */
  function FirstIndex(s: string, c: char): (i: nat)
    requires c in s
    ensures i < |s| && s[i] == c
    ensures forall j :: 0 <= j < i ==> s[j] != c
  {
    if s[0] == c then 0 else 1 + FirstIndex(s[1..], c)
  }

  /** Replace the first occurrence of `from` with `to` (JavaScript
      `replace` with a one-character string pattern). */
  function ReplaceFirst(s: string, from: char, to: char): (r: string)
    ensures |r| == |s|
    ensures from !in s ==> r == s
    ensures from in s ==> && r[FirstIndex(s, from)] == to
                          && forall j :: 0 <= j < |s| && j != FirstIndex(s, from) ==> r[j] == s[j]
  {
    if from in s then
      var i := FirstIndex(s, from);
      s[..i] + [to] + s[i + 1..]
    else s
  }

  /** The first `c` is at the first position holding it and no earlier one. */
  lemma FirstIndexAt(s: string, c: char, i: int)
    requires 0 <= i < |s| && s[i] == c
    requires forall j :: 0 <= j < i ==> s[j] != c
    ensures FirstIndex(s, c) == i
  {
  }

  /** The first `from` after a prefix without one is the one replaced. */
  lemma ReplaceFirstAfter(pre: string, post: string, from: char, to: char)
    requires from !in pre
    ensures ReplaceFirst(pre + [from] + post, from, to) == pre + [to] + post
  {
    var s := pre + [from] + post;
    FirstIndexAt(s, from, |pre|);
    assert s[..|pre|] == pre && s[|pre| + 1..] == post;
  }

  /** Replacing back undoes a replacement when the replacement character
      did not occur before. */
  lemma ReplaceFirstBack(s: string, from: char, to: char)
    requires to !in s
    ensures ReplaceFirst(ReplaceFirst(s, from, to), to, from) == s
  {
    if from in s {
      var i := FirstIndex(s, from);
      var t := ReplaceFirst(s, from, to);
      FirstIndexAt(t, to, i);
      assert t == s[..i] + [to] + s[i + 1..];
      assert t[..i] == s[..i] && t[i + 1..] == s[i + 1..];
      assert s == s[..i] + [from] + s[i + 1..];
    }
  }

  // ---------------------------------------------------------------- decimal

  function DigitChar(d: nat): char
    requires d < 10
  {
    ('0' as int + d) as char
  }

  function DigitValue(c: char): nat
    requires IsDigit(c)
  {
    c as int - '0' as int
  }

  /** The number a string of decimal digits denotes. */
  function DigitsValue(s: string): nat
    requires AllDigits(s)
  {
    if |s| == 0 then 0 else DigitsValue(s[..|s| - 1]) * 10 + DigitValue(s[|s| - 1])
  }

  /** Java `String.valueOf(long)` / JavaScript `toString()` of a non-negative integer. */
  function NatToString(n: nat): (r: string)
    ensures 1 <= |r|
    ensures AllDigits(r) && DigitsValue(r) == n
    ensures |r| > 1 ==> r[0] != '0'
  {
    if n < 10 then [DigitChar(n)]
    else
      var r := NatToString(n / 10) + [DigitChar(n % 10)];
      assert r[..|r| - 1] == NatToString(n / 10);
      r
  }

  /** Decimal rendering of any integer, with a leading '-' when negative. */
  function IntToString(n: int): string {
    if n < 0 then "-" + NatToString(-n) else NatToString(n)
  }

  function Pow10(k: nat): (p: nat)
    ensures p >= 1
  {
    if k == 0 then 1 else 10 * Pow10(k - 1)
  }

  /** A number below 10^k needs at most k digits. */
  lemma {:induction false} NatToStringLength(n: nat, k: nat)
    requires 1 <= k && n < Pow10(k)
    ensures |NatToString(n)| <= k
  {
    if n >= 10 {
      assert Pow10(1) == 10;
      assert n / 10 < Pow10(k - 1);
      NatToStringLength(n / 10, k - 1);
    }
  }

  /** A number at least 10^k has more than k digits. */
  lemma {:induction false} NatToStringLengthBelow(n: nat, k: nat)
    requires Pow10(k) <= n
    ensures k < |NatToString(n)|
  {
    if k > 0 {
      NatToStringLengthBelow(n / 10, k - 1);
    }
  }

  /** Larger numbers never have fewer digits. */
  lemma {:induction false} NatToStringMonotone(a: nat, b: nat)
    requires a <= b
    ensures |NatToString(a)| <= |NatToString(b)|
  {
    if a >= 10 {
      NatToStringMonotone(a / 10, b / 10);
    }
  }

  /** Distinct numbers have distinct renderings. */
  lemma NatToStringInjective(a: nat, b: nat)
    requires NatToString(a) == NatToString(b)
    ensures a == b
  {
  }

  /** `String.format("%0<width>d", n)` for a non-negative n. */
  function ZeroPad(n: nat, width: nat): (r: string)
    ensures AllDigits(r) && DigitsValue(r) == n
    ensures |r| == if |NatToString(n)| < width then width else |NatToString(n)|
    ensures r[|r| - |NatToString(n)|..] == NatToString(n)
    ensures forall i :: 0 <= i < |r| - |NatToString(n)| ==> r[i] == '0'
  {
    var digits := NatToString(n);
    if |digits| >= width then digits
    else
      var r := seq(width - |digits|, _ => '0') + digits;
      ZerosValue(seq(width - |digits|, _ => '0'), digits);
      r
  }

  /** Leading zeros do not change a digit string's value. */
  lemma {:induction false} ZerosValue(zeros: string, digits: string)
    requires forall i :: 0 <= i < |zeros| ==> zeros[i] == '0'
    requires AllDigits(digits)
    ensures AllDigits(zeros + digits) && DigitsValue(zeros + digits) == DigitsValue(digits)
  {
    if |digits| == 0 {
      assert zeros + digits == zeros;
      AllZerosValue(zeros);
    } else {
      var init := digits[..|digits| - 1];
      ZerosValue(zeros, init);
      assert (zeros + digits)[..|zeros + digits| - 1] == zeros + init;
    }
  }

  lemma {:induction false} AllZerosValue(zeros: string)
    requires forall i :: 0 <= i < |zeros| ==> zeros[i] == '0'
    ensures AllDigits(zeros) && DigitsValue(zeros) == 0
  {
    if |zeros| > 0 {
      AllZerosValue(zeros[..|zeros| - 1]);
    }
  }

  const LongMin: int := -0x8000_0000_0000_0000
  const LongMax: int := 0x7FFF_FFFF_FFFF_FFFF

  /** Java `Long.parseLong(s)` over ASCII digits: an optional sign, then at
      least one digit, and a value inside the signed 64-bit range; `None`
      stands for the NumberFormatException. */
  function ParseLong(s: string): (r: Option<int>)
    ensures r.Some? ==> LongMin <= r.value <= LongMax
    ensures |s| == 0 ==> r.None?
    ensures r.Some? ==> exists k :: 0 <= k <= 1 && k < |s| && AllDigits(s[k..])
  {
    if |s| == 0 then None
    else
      var negative := s[0] == '-';
      var start := if s[0] == '-' || s[0] == '+' then 1 else 0;
      var digits := s[start..];
      if |digits| == 0 || !AllDigits(digits) then None
      else
        var v: int := if negative then 0 - DigitsValue(digits) else DigitsValue(digits);
        if LongMin <= v <= LongMax then Some(v) else None
  }

  /** Every long value renders to a string that parses back to it. */
  lemma ParseLongRoundTrip(n: int)
    requires LongMin <= n <= LongMax
    ensures ParseLong(IntToString(n)) == Some(n)
  {
    if n < 0 {
      assert IntToString(n)[1..] == NatToString(-n);
    }
  }
}
