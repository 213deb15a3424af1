/** The password policy of the login form: the regular expression
    `^(?=.*[0-9])(?=.*[!@#$%^&*])[a-zA-Z0-9!@#$%^&*]{8,}$` (no flags), written
    out as the matcher it stands for, and proved equal to the four plain
    conditions of the policy. */
module Password {
  import Js

  /** `[a-zA-Z]` */
  predicate IsAsciiLetter(c: char) {
    'a' <= c <= 'z' || 'A' <= c <= 'Z'
  }

  /** `[!@#$%^&*]`, the symbols the policy demands one of. */
  predicate IsSymbol(c: char) {
    c == '!' || c == '@' || c == '#' || c == '$' || c == '%' || c == '^' || c == '&' || c == '*'
  }

  /** `[a-zA-Z0-9!@#$%^&*]`, the only characters a password may contain. */
  predicate InPasswordClass(c: char) {
    IsAsciiLetter(c) || Js.IsDigit(c) || IsSymbol(c)
  }

  /** `.` without the `s` flag: any character but a line terminator. */
  predicate IsDot(c: char) {
    !Js.IsLineTerminator(c)
  }

  /** The lookahead `(?=.*[K])` at the start of `s`: a run of `.` characters
      followed by one character of the class `cls`. */
  predicate DotStarThen(s: string, cls: char -> bool)
    decreases |s|
  {
    |s| > 0 && (cls(s[0]) || (IsDot(s[0]) && DotStarThen(s[1..], cls)))
  }

  /** `[a-zA-Z0-9!@#$%^&*]{n,}$`: at least `n` class characters, then the end
      of the input. */
  predicate ClassRunToEnd(s: string, n: nat)
    decreases |s|
  {
    if s == [] then n == 0
    else InPasswordClass(s[0]) && ClassRunToEnd(s[1..], if n == 0 then 0 else n - 1)
  }

  /** `validatePassword(password)`: the anchored regular expression test. */
  predicate ValidatePassword(p: string) {
    DotStarThen(p, Js.IsDigit) && DotStarThen(p, IsSymbol) && ClassRunToEnd(p, 8)
  }

  /** The policy in plain words. */
  predicate SatisfiesPolicy(p: string) {
    && |p| >= 8
    && (forall k :: 0 <= k < |p| ==> InPasswordClass(p[k]))
    && (exists k :: 0 <= k < |p| && Js.IsDigit(p[k]))
    && (exists k :: 0 <= k < |p| && IsSymbol(p[k]))
  }

  /** The lookahead succeeds exactly when some character of the class is
      preceded only by `.` characters. */
  lemma {:induction false} DotStarThenIff(s: string, cls: char -> bool)
    ensures DotStarThen(s, cls) <==>
      exists i :: 0 <= i < |s| && cls(s[i]) && forall k :: 0 <= k < i ==> IsDot(s[k])
    decreases |s|
  {
    if s != [] {
      DotStarThenIff(s[1..], cls);
      if DotStarThen(s, cls) && !cls(s[0]) {
        var i :| 0 <= i < |s[1..]| && cls(s[1..][i]) && forall k :: 0 <= k < i ==> IsDot(s[1..][k]);
        assert cls(s[i + 1]);
        assert forall k :: 0 <= k < i + 1 ==> IsDot(s[k]) by {
          forall k | 0 <= k < i + 1 ensures IsDot(s[k]) {
            if k > 0 {
              assert s[k] == s[1..][k - 1];
            }
          }
        }
      }
      if !cls(s[0]) && (exists i :: 0 <= i < |s| && cls(s[i]) && forall k :: 0 <= k < i ==> IsDot(s[k])) {
        var i :| 0 <= i < |s| && cls(s[i]) && forall k :: 0 <= k < i ==> IsDot(s[k]);
        assert i > 0;
        assert IsDot(s[0]);
        assert cls(s[1..][i - 1]);
        assert forall k :: 0 <= k < i - 1 ==> IsDot(s[1..][k]) by {
          forall k | 0 <= k < i - 1 ensures IsDot(s[1..][k]) {
            assert s[1..][k] == s[k + 1];
          }
        }
      }
    }
  }

  /** `[K]{n,}$` accepts exactly the inputs of length at least `n` made of
      class characters only. */
  lemma {:induction false} ClassRunToEndIff(s: string, n: nat)
    ensures ClassRunToEnd(s, n) <==> |s| >= n && forall k :: 0 <= k < |s| ==> InPasswordClass(s[k])
    decreases |s|
  {
    if s != [] {
      var m := if n == 0 then 0 else n - 1;
      ClassRunToEndIff(s[1..], m);
      assert forall k :: 1 <= k < |s| ==> s[k] == s[1..][k - 1];
    }
  }

  /** No character of the password class is a line terminator. */
  lemma ClassCharIsDot(c: char)
    requires InPasswordClass(c)
    ensures IsDot(c)
  {
  }

  /** Over class characters only, `(?=.*[K])` just asks for one character
      of K somewhere. */
  lemma LookaheadOverClass(s: string, cls: char -> bool)
    requires forall k :: 0 <= k < |s| ==> InPasswordClass(s[k])
    ensures DotStarThen(s, cls) <==> exists i :: 0 <= i < |s| && cls(s[i])
  {
    DotStarThenIff(s, cls);
    if i :| 0 <= i < |s| && cls(s[i]) {
      forall k | 0 <= k < i ensures IsDot(s[k]) {
        ClassCharIsDot(s[k]);
      }
    }
  }

  /** `validatePassword` holds exactly when the password has at least eight
      characters, all letters, digits or `!@#$%^&*`, with at least one digit
      and at least one of those symbols. */
  lemma ValidatePasswordIff(p: string)
    ensures ValidatePassword(p) <==> SatisfiesPolicy(p)
  {
    ClassRunToEndIff(p, 8);
    if ClassRunToEnd(p, 8) {
      LookaheadOverClass(p, Js.IsDigit);
      LookaheadOverClass(p, IsSymbol);
    }
  }
}
