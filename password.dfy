/**
 * The signup password policy of src/utils/validatePassword.ts: the anchored
 * regular expression `^(?=.*[A-Za-z])(?=.*\d)(?=.*[@$!%*?&]).{6,}$`, tested
 * without flags.  `IsValidPassword` follows the pattern piece by piece
 * (three lookaheads tried at the start, then `.{6,}` up to the end); the
 * lemmas say what that means in plain terms.  Without the `u` flag the
 * pattern runs over UTF-16 code units, so `.{6,}` counts code units.
 */
module PasswordPolicy {
  import opened JsString

  /** The three character classes the lookaheads ask for. */
  datatype CharClass = Letter | Digit | Symbol

  /** `[A-Za-z]`, `\d` (ASCII digits only in JavaScript) and `[@$!%*?&]`. */
  predicate InClass(c: char, k: CharClass)
  {
    match k
    case Letter => 'A' <= c <= 'Z' || 'a' <= c <= 'z'
    case Digit => '0' <= c <= '9'
    case Symbol => c in "@$!%*?&"
  }

  /** A character the pattern accepts but that counts toward none of the three classes. */
  predicate IsNeutral(c: char)
  {
    !IsLineTerminator(c) && !InClass(c, Letter) && !InClass(c, Digit) && !InClass(c, Symbol)
  }

  /** The lookahead `(?=.*C)` tried at the start of `s`: a character of class C is reached before any line terminator. */
  predicate LookaheadFinds(s: string, k: CharClass)
  {
    s != [] && (InClass(s[0], k) || (!IsLineTerminator(s[0]) && LookaheadFinds(s[1..], k)))
  }

  /** `.{n,}$` tried at the start of `s`: at least `n` code units, none a line terminator, up to the end. */
  predicate DotsToEnd(s: string, n: int)
  {
    if s == [] then n <= 0 else !IsLineTerminator(s[0]) && DotsToEnd(s[1..], n - CodeUnits(s[0]))
  }

  /** `isValidPassword(password)`: an accepted password is free of line terminators and at least six code units long. */
  predicate IsValidPassword(password: string)
    ensures IsValidPassword(password) ==> NoLineTerminator(password) && Utf16Length(password) >= 6
  {
    DotsToEndIff(password, 6);
    LookaheadFinds(password, Letter) && LookaheadFinds(password, Digit) &&
    LookaheadFinds(password, Symbol) && DotsToEnd(password, 6)
  }

  // ---------------------------------------------------------------------------
  // The policy in plain terms

  predicate Contains(s: string, k: CharClass)
  {
    exists i :: 0 <= i < |s| && InClass(s[i], k)
  }

  predicate NoLineTerminator(s: string)
  {
    forall i :: 0 <= i < |s| ==> !IsLineTerminator(s[i])
  }

  /** A letter, a digit and one of `@ $ ! % * ? &`, at least six code units, and no line terminator. */
  predicate MeetsPolicy(s: string)
  {
    NoLineTerminator(s) && Contains(s, Letter) && Contains(s, Digit) && Contains(s, Symbol) &&
    Utf16Length(s) >= 6
  }

  lemma {:induction false} DotsToEndIff(s: string, n: int)
    ensures DotsToEnd(s, n) <==> NoLineTerminator(s) && Utf16Length(s) >= n
  {
    if s != [] {
      DotsToEndIff(s[1..], n - CodeUnits(s[0]));
      assert forall i :: 1 <= i < |s| ==> s[i] == s[1..][i - 1];
    }
  }

  lemma {:induction false} LookaheadIff(s: string, k: CharClass)
    requires NoLineTerminator(s)
    ensures LookaheadFinds(s, k) <==> Contains(s, k)
  {
    if s != [] {
      LookaheadIff(s[1..], k);
      if Contains(s[1..], k) {
        var i :| 0 <= i < |s[1..]| && InClass(s[1..][i], k);
        assert InClass(s[i + 1], k);
      }
      if Contains(s, k) && !InClass(s[0], k) {
        var i :| 0 <= i < |s| && InClass(s[i], k);
        assert InClass(s[1..][i - 1], k);
      }
    }
  }

  /** The pattern accepts exactly the passwords that meet the policy. */
  lemma {:induction false} IsValidPasswordCharacterisation(s: string)
    ensures IsValidPassword(s) <==> MeetsPolicy(s)
  {
    DotsToEndIff(s, 6);
    if NoLineTerminator(s) {
      LookaheadIff(s, Letter);
      LookaheadIff(s, Digit);
      LookaheadIff(s, Symbol);
    }
  }

  /** Fewer than six code units are rejected whatever they are. */
  lemma {:induction false} ShortPasswordRejected(s: string)
    requires Utf16Length(s) < 6
    ensures !IsValidPassword(s)
  {
    IsValidPasswordCharacterisation(s);
  }

  /** In particular any string of fewer than three characters, and any string of BMP characters shorter than six. */
  lemma {:induction false} ShortInCharactersRejected(s: string)
    requires |s| < 3 || (|s| < 6 && forall i :: 0 <= i < |s| ==> s[i] as int < 0x1_0000)
    ensures !IsValidPassword(s)
  {
    Utf16LengthBounds(s);
    ShortPasswordRejected(s);
  }

  /** A line terminator anywhere rejects the password: `.` does not match it and `$` only matches at the end. */
  lemma {:induction false} LineTerminatorRejected(s: string, i: nat)
    requires i < |s| && IsLineTerminator(s[i])
    ensures !IsValidPassword(s)
  {
    IsValidPasswordCharacterisation(s);
  }

  lemma {:induction false} ContainsConcat(a: string, b: string, k: CharClass)
    ensures Contains(a + b, k) <==> Contains(a, k) || Contains(b, k)
  {
    if Contains(a + b, k) {
      var i :| 0 <= i < |a + b| && InClass((a + b)[i], k);
      if i >= |a| {
        assert InClass(b[i - |a|], k);
      }
    }
    if Contains(a, k) {
      var i :| 0 <= i < |a| && InClass(a[i], k);
      assert InClass((a + b)[i], k);
    }
    if Contains(b, k) {
      var i :| 0 <= i < |b| && InClass(b[i], k);
      assert InClass((a + b)[|a| + i], k);
    }
  }

  lemma {:induction false} NoLineTerminatorConcat(a: string, b: string)
    ensures NoLineTerminator(a + b) <==> NoLineTerminator(a) && NoLineTerminator(b)
  {
    if NoLineTerminator(a + b) {
      assert forall i :: 0 <= i < |a| ==> a[i] == (a + b)[i];
      assert forall i :: 0 <= i < |b| ==> b[i] == (a + b)[|a| + i];
    }
  }

  /**
   * A neutral character (space, `#`, a non-ASCII letter, ...) inserted anywhere
   * is accepted by `.` but counts toward none of the three classes: only its
   * length matters.
   */
  lemma {:induction false} NeutralCharacterCountsOnlyTowardLength(p: string, c: char, q: string)
    requires IsNeutral(c)
    ensures IsValidPassword(p + [c] + q) <==>
      NoLineTerminator(p + q) && Contains(p + q, Letter) && Contains(p + q, Digit) &&
      Contains(p + q, Symbol) && Utf16Length(p + q) + CodeUnits(c) >= 6
  {
    var s := p + [c] + q;
    assert s == p + ([c] + q);
    IsValidPasswordCharacterisation(s);
    Utf16LengthConcat(p, [c] + q);
    Utf16LengthConcat([c], q);
    Utf16LengthConcat(p, q);
    NoLineTerminatorConcat(p, [c] + q);
    NoLineTerminatorConcat([c], q);
    NoLineTerminatorConcat(p, q);
    forall k: CharClass ensures Contains(s, k) <==> Contains(p + q, k) {
      ContainsConcat(p, [c] + q, k);
      ContainsConcat([c], q, k);
      ContainsConcat(p, q, k);
    }
  }

  /** Appending characters other than line terminators to an accepted password keeps it accepted. */
  lemma {:induction false} AppendKeepsAccepted(s: string, t: string)
    requires IsValidPassword(s) && NoLineTerminator(t)
    ensures IsValidPassword(s + t)
  {
    IsValidPasswordCharacterisation(s);
    IsValidPasswordCharacterisation(s + t);
    NoLineTerminatorConcat(s, t);
    Utf16LengthConcat(s, t);
    ContainsConcat(s, t, Letter);
    ContainsConcat(s, t, Digit);
    ContainsConcat(s, t, Symbol);
  }

  /** `Abcdef!` has no digit and is rejected. */
  lemma {:induction false} NoDigitExampleRejected()
    ensures !IsValidPassword("Abcdef!")
  {
    var bad := "Abcdef!";
    IsValidPasswordCharacterisation(bad);
    assert forall i :: 0 <= i < |bad| ==> !InClass(bad[i], Digit);
  }

  /** `Abcde1!` meets every requirement and is accepted. */
  lemma {:induction false} ExampleAccepted()
    ensures IsValidPassword("Abcde1!")
  {
    var good := "Abcde1!";
    IsValidPasswordCharacterisation(good);
    assert InClass(good[0], Letter) && InClass(good[5], Digit) && InClass(good[6], Symbol);
    assert forall i :: 0 <= i < |good| ==> !IsLineTerminator(good[i]) && good[i] as int < 0x1_0000;
    Utf16LengthBounds(good);
  }
}
