/** The one-time code: how it is drawn, how it is shown to the user, and how
    the login compares the typed string with it (`otp == generatedOTP`, a
    loose equality between a string and a number, which converts the string
    to a number first). */
module Otp {
  import Js

  const MinCode: int := 100000
  const MaxCode: int := 999999

  /** A six-digit code, the range of `Math.floor(100000 + Math.random() * 900000)`. */
  predicate InCodeRange(code: int) {
    MinCode <= code <= MaxCode
  }

  /** `Math.floor(100000 + r * 900000)` for a draw `0 <= r < 1`, in exact real
      arithmetic: always a six-digit code. */
  function DrawnCode(r: real): (code: int)
    requires 0.0 <= r < 1.0
    ensures InCodeRange(code)
    ensures code as real <= 100000.0 + r * 900000.0 < code as real + 1.0
  {
    (100000.0 + r * 900000.0).Floor
  }

  predicate AllDigits(s: string) {
    forall k :: 0 <= k < |s| ==> Js.IsDigit(s[k])
  }

  function DigitValue(c: char): (d: nat)
    requires Js.IsDigit(c)
    ensures d <= 9
  {
    (c as int) - ('0' as int)
  }

  function DigitChar(d: nat): (c: char)
    requires d <= 9
    ensures Js.IsDigit(c) && DigitValue(c) == d
  {
    ('0' as int + d) as char
  }

  /** The number a string of decimal digits denotes when converted by
      `Number(...)`; the empty string converts to 0, as in JavaScript. */
  function DecimalValue(s: string): (n: nat)
    requires AllDigits(s)
    decreases |s|
  {
    if s == [] then 0 else DecimalValue(s[..|s| - 1]) * 10 + DigitValue(s[|s| - 1])
  }

  /** The decimal rendering of `n`, as a template literal `${n}` shows it. */
  function DecimalString(n: nat): (s: string)
    ensures |s| > 0 && AllDigits(s)
    decreases n
  {
    if n < 10 then [DigitChar(n)] else DecimalString(n / 10) + [DigitChar(n % 10)]
  }

  /** Reading back the rendering of `n` gives `n`. */
  lemma {:induction false} DecimalRoundTrip(n: nat)
    ensures DecimalValue(DecimalString(n)) == n
    decreases n
  {
    var s := DecimalString(n);
    if n >= 10 {
      DecimalRoundTrip(n / 10);
      assert s[..|s| - 1] == DecimalString(n / 10);
    }
  }

  /** Leading zeros do not change the number a digit string denotes. */
  lemma {:induction false} LeadingZeroIgnored(s: string)
    requires AllDigits(s)
    ensures AllDigits("0" + s) && DecimalValue("0" + s) == DecimalValue(s)
    decreases |s|
  {
    if s != [] {
      var t := s[..|s| - 1];
      LeadingZeroIgnored(t);
      assert ("0" + s)[..|"0" + s| - 1] == "0" + t;
    }
  }

  /** Every code has exactly six digits. */
  lemma CodeHasSixDigits(code: int)
    requires InCodeRange(code)
    ensures |DecimalString(code)| == 6
  {
    var n5: nat := code / 10;
    var n4: nat := n5 / 10;
    var n3: nat := n4 / 10;
    var n2: nat := n3 / 10;
    var n1: nat := n2 / 10;
    assert 1 <= n1 < 10 && 10 <= n2 && 10 <= n3 && 10 <= n4 && 10 <= n5;
    assert |DecimalString(n2)| == 2;
    assert |DecimalString(n3)| == 3;
    assert |DecimalString(n4)| == 4;
    assert |DecimalString(n5)| == 5;
  }

  /** The number `Number(s)` gives for a string `s` that is, once the white
      space around it is removed, all decimal digits (possibly none); `None`
      for every other string. This is the decimal-digit part of JavaScript's
      string-to-number conversion. */
  function TypedNumber(s: string): Js.Option<nat>
  {
    var t := Js.Trim(s);
    if AllDigits(t) then Js.Some(DecimalValue(t)) else Js.None
  }

  /** `s == code` for a string `s` and a number `code`. */
  predicate Matches(s: string, code: int) {
    TypedNumber(s) == Js.Some(code)
  }

  /** A string matches at most one number, so a code that differs from the
      one compared against is never matched as well. */
  lemma MatchesAtMostOne(s: string, code: int, other: int)
    requires Matches(s, code) && other != code
    ensures !Matches(s, other)
  {
  }

  /** The code as the user is shown it, typed back with any white space
      around it, matches the code. */
  lemma MatchesShownCode(code: nat, before: string, after: string)
    requires Js.IsBlank(before)
    requires Js.IsBlank(after)
    ensures Matches(before + DecimalString(code) + after, code)
  {
    var d := DecimalString(code);
    DecimalRoundTrip(code);
    Js.DigitIsNotWhiteSpace(d[0]);
    Js.DigitIsNotWhiteSpace(d[|d| - 1]);
    Js.TrimAroundWord(before, d, after);
    assert Js.Trim(before + d + after) == d;
  }

  /** The code exactly as the user is shown it matches the code. */
  lemma MatchesRendering(code: nat)
    ensures Matches(DecimalString(code), code)
  {
    var d := DecimalString(code);
    MatchesShownCode(code, "", "");
    assert "" + d + "" == d;
  }
}
