/**
 * The few JavaScript string built-ins the pipeline relies on: `String.prototype.substring`,
 * `String.prototype.trim`, the decimal rendering of a number inside a template literal, and
 * the ASCII case folding of a regular expression with the `i` flag.
 */
module JsStrings {

  function Clamp(x: int, lo: int, hi: int): int
    requires lo <= hi
  {
    if x < lo then lo else if x > hi then hi else x
  }

  /**
   * `s.substring(start, end)`: both ends clamped to the string, swapped when reversed. An end
   * past the string stops at its end, and a start and an end both at or past the end of the
   * string give the empty string.
   */
  function Substring(s: string, start: int, end: int): (r: string)
    ensures 0 <= start <= end <= |s| ==> r == s[start..end]
    ensures 0 <= start <= |s| <= end ==> r == s[start..]
    ensures |s| <= start && |s| <= end ==> r == []
    ensures start <= 0 && end <= 0 ==> r == []
    ensures |r| <= |s|
  {
    var a := Clamp(start, 0, |s|);
    var b := Clamp(end, 0, |s|);
    if a <= b then s[a..b] else s[b..a]
  }

  /** The characters `trim` removes: WhiteSpace (including every space separator) and LineTerminator. */
  predicate IsJsWhitespace(c: char) {
    || c == '\t' || c == '\n' || c == '\r' || c == ' '
    || c == '\U{000B}' || c == '\U{000C}' || c == '\U{00A0}' || c == '\U{1680}'
    || ('\U{2000}' <= c <= '\U{200A}')
    || c == '\U{2028}' || c == '\U{2029}' || c == '\U{202F}' || c == '\U{205F}'
    || c == '\U{3000}' || c == '\U{FEFF}'
  }

  function TrimStart(s: string): string {
    if s != [] && IsJsWhitespace(s[0]) then TrimStart(s[1..]) else s
  }

  function TrimEnd(s: string): string {
    if s != [] && IsJsWhitespace(s[|s| - 1]) then TrimEnd(s[..|s| - 1]) else s
  }

  /** `s.trim()`. */
  function Trim(s: string): string {
    TrimEnd(TrimStart(s))
  }

  /** Every character of `s` is one that `trim` removes. */
  predicate IsBlank(s: string) {
    forall i :: 0 <= i < |s| ==> IsJsWhitespace(s[i])
  }

  lemma {:induction false} TrimStartEmptyIffBlank(s: string)
    ensures TrimStart(s) == [] <==> IsBlank(s)
    decreases |s|
  {
    if s != [] && IsJsWhitespace(s[0]) {
      TrimStartEmptyIffBlank(s[1..]);
      assert IsBlank(s[1..]) ==> IsBlank(s) by {
        if IsBlank(s[1..]) {
          forall i | 0 <= i < |s| ensures IsJsWhitespace(s[i]) {
            if i > 0 { assert s[i] == s[1..][i - 1]; }
          }
        }
      }
    }
  }

  lemma {:induction false} TrimEndEmptyIffEmpty(s: string)
    requires s == [] || !IsJsWhitespace(s[0])
    ensures TrimEnd(s) == [] <==> s == []
    decreases |s|
  {
    if s != [] && IsJsWhitespace(s[|s| - 1]) {
      assert |s| > 1;
      TrimEndEmptyIffEmpty(s[..|s| - 1]);
    }
  }

  /** `!text.trim()` holds exactly for the strings made only of whitespace, the empty one included. */
  lemma TrimEmptyIffBlank(s: string)
    ensures Trim(s) == [] <==> IsBlank(s)
  {
    TrimStartEmptyIffBlank(s);
    TrimStartResult(s);
    TrimEndEmptyIffEmpty(TrimStart(s));
  }

  lemma {:induction false} TrimStartResult(s: string)
    ensures TrimStart(s) == [] || !IsJsWhitespace(TrimStart(s)[0])
    decreases |s|
  {
    if s != [] && IsJsWhitespace(s[0]) {
      TrimStartResult(s[1..]);
    }
  }

  function DigitChar(d: nat): char
    requires d < 10
  {
    ('0' as int + d) as char
  }

  predicate IsDigit(c: char) {
    '0' <= c <= '9'
  }

  /** The decimal rendering of a non-negative integer, as `${n}` produces it. */
  function NatToString(n: nat): (s: string)
    ensures |s| >= 1
    ensures forall i :: 0 <= i < |s| ==> IsDigit(s[i])
    ensures s[0] == '0' ==> n == 0
  {
    if n < 10 then [DigitChar(n)] else NatToString(n / 10) + [DigitChar(n % 10)]
  }

  /** Reads a string of decimal digits back as a number; the partner of NatToString. */
  function ParseDecimal(s: string): nat
    requires forall i :: 0 <= i < |s| ==> IsDigit(s[i])
  {
    if s == [] then 0
    else
      assert IsDigit(s[|s| - 1]);
      ParseDecimal(s[..|s| - 1]) * 10 + (s[|s| - 1] as int - '0' as int)
  }

  lemma {:induction false} NatToStringRoundTrip(n: nat)
    ensures ParseDecimal(NatToString(n)) == n
  {
    if n >= 10 {
      NatToStringRoundTrip(n / 10);
      var s := NatToString(n);
      assert s[..|s| - 1] == NatToString(n / 10);
    }
  }

  /** Lower-cases ASCII letters only, which is how `/…/i` compares the letters of `.pdf`. */
  function AsciiLower(c: char): char {
    if 'A' <= c <= 'Z' then (c as int + 32) as char else c
  }

  function AsciiLowerString(s: string): (r: string)
    ensures |r| == |s|
  {
    seq(|s|, i requires 0 <= i < |s| => AsciiLower(s[i]))
  }
}
