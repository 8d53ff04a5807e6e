/** JavaScript's `Number(string)` conversion, as far as the board needs it:
    which strings convert to NaN, and the exact value of a plain decimal
    integer. Other numeric literals (fractions, exponents, hexadecimal,
    binary and octal forms, `Infinity`, and integers too large for a double
    to hold exactly) are numbers whose value the model does not track. */
module JsNumber {
  import opened Text

  /** The result of a conversion. */
  datatype NumberValue =
    | NaN
    | Exact(value: int)
    | Untracked

  /** 2^53: every integer up to this magnitude is a double exactly. */
  const MaxSafe: int := 0x20_0000_0000_0000

  predicate IsHexDigit(c: char) {
    IsDigit(c) || ('a' <= c <= 'f') || ('A' <= c <= 'F')
  }

  predicate IsSign(c: char) {
    c == '+' || c == '-'
  }

  /** A sign, then one or more ASCII digits: StrDecimalLiteral without a
      fraction or an exponent. */
  predicate IsPlainInteger(t: string) {
    var start := if |t| > 0 && IsSign(t[0]) then 1 else 0;
    start < |t| && AllDigits(t[start..])
  }

  /** The value of a plain integer literal. */
  function PlainValue(t: string): int
    requires IsPlainInteger(t)
  {
    var start := if IsSign(t[0]) then 1 else 0;
    var magnitude: int := DigitsValue(t[start..]);
    if t[0] == '-' then -magnitude else magnitude
  }

  /** NonDecimalIntegerLiteral: `0x`, `0b` or `0o` (either case) and at
      least one digit of that base. */
  predicate IsNonDecimal(t: string) {
    && |t| >= 3 && t[0] == '0'
    && (|| ((t[1] == 'x' || t[1] == 'X') && forall i :: 2 <= i < |t| ==> IsHexDigit(t[i]))
        || ((t[1] == 'b' || t[1] == 'B') && forall i :: 2 <= i < |t| ==> t[i] == '0' || t[i] == '1')
        || ((t[1] == 'o' || t[1] == 'O') && forall i :: 2 <= i < |t| ==> '0' <= t[i] <= '7'))
  }

  /** The digits of a decimal literal, with at most one '.' and at least one digit. */
  predicate IsMantissa(m: string) {
    || (|m| > 0 && AllDigits(m))
    || (exists p :: 0 <= p < |m| && m[p] == '.' && AllDigits(m[..p]) && AllDigits(m[p + 1..]) && |m| >= 2)
  }

  /** ExponentPart: 'e' or 'E', an optional sign, one or more digits. */
  predicate IsExponent(e: string) {
    |e| >= 2 && (e[0] == 'e' || e[0] == 'E') && IsPlainInteger(e[1..])
  }

  /** StrUnsignedDecimalLiteral. */
  predicate IsUnsignedDecimal(u: string) {
    || u == "Infinity"
    || (exists k :: 0 <= k <= |u| && IsMantissa(u[..k]) && (k == |u| || IsExponent(u[k..])))
  }

  /** StrNumericLiteral: a decimal literal with an optional sign, or a
      non-decimal integer literal. */
  predicate IsNumericLiteral(t: string) {
    || IsNonDecimal(t)
    || IsUnsignedDecimal(t)
    || (|t| > 0 && IsSign(t[0]) && IsUnsignedDecimal(t[1..]))
  }

  /** Every plain integer is a numeric literal. */
  lemma PlainIsLiteral(t: string)
    requires IsPlainInteger(t)
    ensures IsNumericLiteral(t)
  {
    var start := if IsSign(t[0]) then 1 else 0;
    var u := t[start..];
    assert u[..|u|] == u;
    assert IsMantissa(u[..|u|]);
    assert IsUnsignedDecimal(u);
    if start == 1 {
      assert u == t[1..];
    } else {
      assert u == t;
    }
  }

  /** `Number(s)`: the ECMAScript whitespace around the literal is ignored,
      an empty or all-whitespace string is 0, a plain integer within 2^53
      is its exact value, and anything that is not a numeric literal is NaN. */
  function Parse(s: string): (r: NumberValue)
    ensures r.NaN? <==> JsTrim(s) != [] && !IsNumericLiteral(JsTrim(s))
    ensures JsTrim(s) == [] ==> r == Exact(0)
    ensures IsPlainInteger(JsTrim(s)) && -MaxSafe <= PlainValue(JsTrim(s)) <= MaxSafe ==>
      r == Exact(PlainValue(JsTrim(s)))
  {
    var t := JsTrim(s);
    if t == [] then Exact(0)
    else if IsPlainInteger(t) then
      PlainIsLiteral(t);
      var v := PlainValue(t);
      if -MaxSafe <= v <= MaxSafe then Exact(v) else Untracked
    else if IsNumericLiteral(t) then Untracked
    else NaN
  }

  /** The decimal rendering of an integer has no whitespace to trim. */
  lemma IntToStringUnpadded(n: int)
    ensures IntToString(n) != [] && JsTrim(IntToString(n)) == IntToString(n)
    ensures !IsJsWhitespace(IntToString(n)[0]) && !IsJsWhitespace(IntToString(n)[|IntToString(n)| - 1])
  {
    var s := IntToString(n);
    var digits := NatToString(if n < 0 then -n else n);
    assert IsDigit(digits[0]) && IsDigit(digits[|digits| - 1]);
    if n < 0 {
      assert s[1..] == digits;
      assert s[|s| - 1] == digits[|digits| - 1];
    }
    TrimUnpadded(s, IsJsWhitespace);
  }

  /** The decimal rendering of an integer within 2^53 converts back to it. */
  lemma ParseRoundTrip(n: int)
    requires -MaxSafe <= n <= MaxSafe
    ensures Parse(IntToString(n)) == Exact(n)
  {
    IntToStringUnpadded(n);
    var digits := NatToString(if n < 0 then -n else n);
    SignedDigitsParse(IntToString(n), digits, n);
  }

  /** An unpadded string of digits, with a '-' for a negative value, reads
      as that value. */
  lemma SignedDigitsParse(s: string, digits: string, n: int)
    requires |digits| > 0 && AllDigits(digits)
    requires DigitsValue(digits) == (if n < 0 then -n else n)
    requires s == (if n < 0 then "-" + digits else digits)
    requires JsTrim(s) == s
    requires -MaxSafe <= n <= MaxSafe
    ensures Parse(s) == Exact(n)
  {
    if n < 0 {
      assert s[1..] == digits;
    }
  }

  /** An empty payload converts to 0, not NaN. */
  lemma ParseEmpty()
    ensures Parse("") == Exact(0)
  {
  }

  /** Whitespace around an integer's digits is ignored. */
  lemma {:induction false} ParsePadded(before: string, n: int, after: string)
    requires forall i :: 0 <= i < |before| ==> IsJsWhitespace(before[i])
    requires forall i :: 0 <= i < |after| ==> IsJsWhitespace(after[i])
    requires -MaxSafe <= n <= MaxSafe
    ensures Parse(before + IntToString(n) + after) == Exact(n)
  {
    var s := before + IntToString(n) + after;
    IntToStringUnpadded(n);
    TrimAround(before, IntToString(n), after, IsJsWhitespace);
    ParseOfTrimmed(s);
    ParseRoundTrip(n);
  }

  /** Only the trimmed payload matters. */
  lemma ParseOfTrimmed(s: string)
    ensures Parse(s) == Parse(JsTrim(s))
  {
    TrimIdempotent(s, IsJsWhitespace);
  }

  /** A literal that starts with a non-zero digit and runs into letters
      other than 'e' is NaN: no prefix is a mantissa followed by an exponent. */
  lemma {:induction false} LetterTailIsNaN(t: string)
    requires |t| > 0 && '1' <= t[0] <= '9'
    requires forall i :: 0 <= i < |t| ==> IsDigit(t[i]) || ('a' <= t[i] <= 'z' && t[i] != 'e')
    requires !IsDigit(t[|t| - 1])
    ensures Parse(t) == NaN
  {
    TrimUnpadded(t, IsJsWhitespace);
    assert JsTrim(t) == t;
    assert !AllDigits(t);
    assert !IsPlainInteger(t);
    assert !IsNonDecimal(t);
    forall k | 0 <= k <= |t|
      ensures !(IsMantissa(t[..k]) && (k == |t| || IsExponent(t[k..])))
    {
      if k == |t| {
        assert t[..k] == t;
      } else {
        assert t[k..][0] == t[k];
      }
    }
    assert !IsUnsignedDecimal(t);
  }

  /** Trailing characters that are not part of a literal make NaN. */
  lemma ParseTrailingGarbage()
    ensures Parse("12abc") == NaN
  {
    LetterTailIsNaN("12abc");
  }

  /** A digit, 'e' and a digit form a number whose value is not tracked. */
  lemma {:induction false} ExponentIsUntracked(t: string)
    requires |t| == 3 && IsDigit(t[0]) && t[1] == 'e' && IsDigit(t[2])
    ensures Parse(t).Untracked?
  {
    TrimUnpadded(t, IsJsWhitespace);
    assert JsTrim(t) == t;
    assert !IsPlainInteger(t);
    assert AllDigits(t[..1]) && IsMantissa(t[..1]);
    assert t[1..][1..] == t[2..] && AllDigits(t[2..]);
    assert IsPlainInteger(t[1..][1..]);
    assert IsExponent(t[1..]);
    assert IsUnsignedDecimal(t);
  }

  /** An exponent form is a number, not NaN. */
  lemma ParseExponent()
    ensures Parse("1e3").Untracked?
  {
    ExponentIsUntracked("1e3");
  }
}
