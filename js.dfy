/** The few JavaScript built-ins the widget relies on: `null`-or-value cells,
    `String.prototype.trim`, `.length` (counted in UTF-16 code units) and the
    truthiness of a number-or-null cell.

    A JavaScript string is a sequence of UTF-16 code units; here a string is a
    sequence of Unicode scalar values. Every character class the widget tests
    (white space, ASCII letters, digits, `!@#$%^&*`) lies in the Basic
    Multilingual Plane, so the two views agree on those tests; they differ only
    in `.length`, which Utf16Length models. */
module Js {

  /** A state cell that holds `null` or a value. */
  datatype Option<T> = None | Some(value: T)

  /** ECMAScript LineTerminator: LF, CR, LINE SEPARATOR, PARAGRAPH SEPARATOR. */
  predicate IsLineTerminator(c: char) {
    var n := c as int;
    n == 0x0A || n == 0x0D || n == 0x2028 || n == 0x2029
  }

  /** ECMAScript WhiteSpace or LineTerminator: the characters `trim` removes
      (TAB, VT, FF, ZWNBSP and the space separators of category Zs). */
  predicate IsWhiteSpace(c: char) {
    var n := c as int;
    n == 0x09 || n == 0x0B || n == 0x0C || n == 0x20 || n == 0xA0 ||
    n == 0x1680 || (0x2000 <= n <= 0x200A) || n == 0x202F || n == 0x205F ||
    n == 0x3000 || n == 0xFEFF || IsLineTerminator(c)
  }

  /** An ASCII decimal digit, `[0-9]`. */
  predicate IsDigit(c: char) {
    '0' <= c <= '9'
  }

  lemma DigitIsNotWhiteSpace(c: char)
    requires IsDigit(c)
    ensures !IsWhiteSpace(c)
  {
  }

  /** Drops leading white space. */
  function TrimStart(s: string): string
    decreases |s|
  {
    if s != [] && IsWhiteSpace(s[0]) then TrimStart(s[1..]) else s
  }

  /** Drops trailing white space. */
  function TrimEnd(s: string): string
    decreases |s|
  {
    if s != [] && IsWhiteSpace(s[|s| - 1]) then TrimEnd(s[..|s| - 1]) else s
  }

  /** `s.trim()`: what is left once the white space at both ends is removed. */
  function Trim(s: string): string
  {
    TrimEnd(TrimStart(s))
  }

  /** TrimStart leaves a suffix of `s`, everything it drops is white space,
      and what it leaves does not start with white space. */
  lemma {:induction false} TrimStartIsSuffix(s: string)
    ensures |TrimStart(s)| <= |s| && TrimStart(s) == s[|s| - |TrimStart(s)|..]
    ensures forall k :: 0 <= k < |s| - |TrimStart(s)| ==> IsWhiteSpace(s[k])
    ensures TrimStart(s) != [] ==> !IsWhiteSpace(TrimStart(s)[0])
    decreases |s|
  {
    if s != [] && IsWhiteSpace(s[0]) {
      TrimStartIsSuffix(s[1..]);
      forall k | 1 <= k < |s| - |TrimStart(s)| ensures IsWhiteSpace(s[k]) {
        assert s[k] == s[1..][k - 1];
      }
    }
  }

  /** TrimEnd leaves a prefix of `s`, everything it drops is white space,
      and what it leaves does not end with white space. */
  lemma {:induction false} TrimEndIsPrefix(s: string)
    ensures |TrimEnd(s)| <= |s| && TrimEnd(s) == s[..|TrimEnd(s)|]
    ensures forall k :: |TrimEnd(s)| <= k < |s| ==> IsWhiteSpace(s[k])
    ensures TrimEnd(s) != [] ==> !IsWhiteSpace(TrimEnd(s)[|TrimEnd(s)| - 1])
    decreases |s|
  {
    if s != [] && IsWhiteSpace(s[|s| - 1]) {
      TrimEndIsPrefix(s[..|s| - 1]);
      forall k | |TrimEnd(s)| <= k < |s| - 1 ensures IsWhiteSpace(s[k]) {
        assert s[k] == s[..|s| - 1][k];
      }
    }
  }

  /** Every character of `s` is white space. */
  predicate IsBlank(s: string) {
    forall k :: 0 <= k < |s| ==> IsWhiteSpace(s[k])
  }

  /** `s.trim()` is empty (falsy) exactly when `s` is blank. */
  lemma TrimEmptyIff(s: string)
    ensures Trim(s) == [] <==> IsBlank(s)
  {
    var t := TrimStart(s);
    TrimStartIsSuffix(s);
    TrimEndIsPrefix(t);
    var i := |s| - |t|;
    if t != [] {
      assert s[i] == t[0];
    }
  }

  /** White space in front of `s` is dropped by `trim` whatever follows. */
  lemma {:induction false} TrimStartSkipsWhiteSpace(w: string, s: string)
    requires IsBlank(w)
    ensures TrimStart(w + s) == TrimStart(s)
    decreases |w|
  {
    if w != [] {
      var ws := w + s;
      assert ws[0] == w[0];
      assert ws[1..] == w[1..] + s;
      TrimStartSkipsWhiteSpace(w[1..], s);
      assert TrimStart(ws) == TrimStart(ws[1..]) by {
        assert IsWhiteSpace(w[0]);
      }
    } else {
      assert w + s == s;
    }
  }

  /** White space after `s` is dropped by `trim` whatever precedes it. */
  lemma {:induction false} TrimEndSkipsWhiteSpace(s: string, w: string)
    requires IsBlank(w)
    ensures TrimEnd(s + w) == TrimEnd(s)
    decreases |w|
  {
    if w != [] {
      var sw := s + w;
      assert sw[|sw| - 1] == w[|w| - 1];
      assert sw[..|sw| - 1] == s + w[..|w| - 1];
      TrimEndSkipsWhiteSpace(s, w[..|w| - 1]);
      assert TrimEnd(sw) == TrimEnd(sw[..|sw| - 1]) by {
        assert IsWhiteSpace(w[|w| - 1]);
      }
    } else {
      assert s + w == s;
    }
  }

  /** `trim` gives back a word that neither starts nor ends with white space,
      whatever white space surrounds it. */
  lemma TrimAroundWord(before: string, x: string, after: string)
    requires IsBlank(before)
    requires IsBlank(after)
    requires x != [] && !IsWhiteSpace(x[0]) && !IsWhiteSpace(x[|x| - 1])
    ensures Trim(before + x + after) == x
  {
    assert before + x + after == before + (x + after);
    TrimStartSkipsWhiteSpace(before, x + after);
    assert TrimStart(x + after) == x + after by {
      assert (x + after)[0] == x[0];
    }
    TrimEndSkipsWhiteSpace(x, after);
  }

  /** A character outside the Basic Multilingual Plane is a surrogate pair,
      two UTF-16 code units. */
  function CodeUnits(c: char): nat
  {
    if c as int > 0xFFFF then 2 else 1
  }

  /** `s.length`: the number of UTF-16 code units of `s`. It lies between
      |s| and 2|s|, and equals |s| exactly when `s` stays in the Basic
      Multilingual Plane. */
  function Utf16Length(s: string): (n: nat)
    ensures |s| <= n <= 2 * |s|
    ensures n == |s| <==> forall k :: 0 <= k < |s| ==> s[k] as int <= 0xFFFF
  {
    if s == [] then 0 else CodeUnits(s[0]) + Utf16Length(s[1..])
  }

  /** `.length` of a concatenation is the sum of the lengths. */
  lemma {:induction false} Utf16LengthAppend(a: string, b: string)
    ensures Utf16Length(a + b) == Utf16Length(a) + Utf16Length(b)
    decreases |a|
  {
    if a == [] {
      assert a + b == b;
    } else {
      assert (a + b)[0] == a[0];
      assert (a + b)[1..] == a[1..] + b;
      Utf16LengthAppend(a[1..], b);
    }
  }

  /** `cell` in a boolean context, for a cell holding `null` or a number:
      `null` and `0` are falsy, every other number truthy. */
  predicate IsTruthy(cell: Option<int>) {
    cell.Some? && cell.value != 0
  }
}
