/**
 * The ECMAScript string operations the backend relies on: `startsWith`,
 * `split` with a one-character separator, and `trim`.  A Dafny `char` is a
 * Unicode scalar value; where JavaScript counts UTF-16 code units the
 * difference is written out (see `CodeUnits`).
 */
module JsString {

  /** `s.startsWith(prefix)`: `s` is `prefix` followed by the rest of `s`. */
  predicate StartsWith(s: string, prefix: string)
    ensures StartsWith(s, prefix) ==> |prefix| <= |s| && s == prefix + s[|prefix|..]
  {
    |prefix| <= |s| && s[..|prefix|] == prefix
  }

  /** Number of UTF-16 code units JavaScript uses for `c`: two above the Basic Multilingual Plane. */
  function CodeUnits(c: char): nat
  {
    if c as int < 0x1_0000 then 1 else 2
  }

  /** `s.length` in JavaScript: the number of UTF-16 code units of `s`. */
  function Utf16Length(s: string): nat
  {
    if s == [] then 0 else CodeUnits(s[0]) + Utf16Length(s[1..])
  }

  lemma {:induction false} Utf16LengthConcat(a: string, b: string)
    ensures Utf16Length(a + b) == Utf16Length(a) + Utf16Length(b)
  {
    if a != [] {
      assert (a + b)[0] == a[0];
      assert (a + b)[1..] == a[1..] + b;
      Utf16LengthConcat(a[1..], b);
    } else {
      assert a + b == b;
    }
  }

  /** A JavaScript length is never below the number of characters and at most twice it. */
  lemma {:induction false} Utf16LengthBounds(s: string)
    ensures |s| <= Utf16Length(s) <= 2 * |s|
    ensures (forall i :: 0 <= i < |s| ==> s[i] as int < 0x1_0000) ==> Utf16Length(s) == |s|
  {
    if s != [] {
      Utf16LengthBounds(s[1..]);
      assert forall i :: 0 <= i < |s[1..]| ==> s[1..][i] == s[i + 1];
    }
  }

  /** ECMAScript LineTerminator code points: the characters the regular-expression `.` does not match. */
  predicate IsLineTerminator(c: char)
  {
    c == '\n' || c == '\r' || c == '\U{2028}' || c == '\U{2029}'
  }

  /** ECMAScript WhiteSpace and LineTerminator code points: the characters `trim()` removes. */
  predicate IsWhitespace(c: char)
  {
    IsLineTerminator(c) || c == '\t' || c == '\U{000B}' || c == '\U{000C}' || c == ' ' ||
    c == '\U{00A0}' || c == '\U{1680}' || ('\U{2000}' <= c <= '\U{200A}') ||
    c == '\U{202F}' || c == '\U{205F}' || c == '\U{3000}' || c == '\U{FEFF}'
  }

  // ---------------------------------------------------------------------------
  // split

  /** Number of occurrences of `c` in `s`. */
  function Count(s: string, c: char): nat
  {
    if s == [] then 0 else (if s[0] == c then 1 else 0) + Count(s[1..], c)
  }

  /** `s` holds `c` exactly when it counts at least one occurrence of it. */
  lemma {:induction false} CountPositiveIff(s: string, c: char)
    ensures Count(s, c) > 0 <==> c in s
  {
    if s != [] {
      CountPositiveIff(s[1..], c);
      assert s == [s[0]] + s[1..];
    }
  }

  /** `parts.join(sep)`: the partner that `Split` inverts. */
  function Join(parts: seq<string>, sep: char): string
  {
    if |parts| == 0 then []
    else if |parts| == 1 then parts[0]
    else parts[0] + [sep] + Join(parts[1..], sep)
  }

  /**
   * `s.split(sep)` for a one-character separator: the pieces between the
   * separators, in order, so one more piece than there are separators
   * (`"".split(" ")` is `[""]`).
   */
  function Split(s: string, sep: char): (parts: seq<string>)
    ensures |parts| == Count(s, sep) + 1
    ensures forall i :: 0 <= i < |parts| ==> sep !in parts[i]
    ensures Join(parts, sep) == s
  {
    if s == [] then [[]]
    else
      var rest := Split(s[1..], sep);
      if s[0] == sep then
        assert Join([[]] + rest, sep) == [] + [sep] + Join(rest, sep);
        [[]] + rest
      else
        var parts := [[s[0]] + rest[0]] + rest[1..];
        assert parts[1..] == rest[1..];
        assert Join(parts, sep) == [s[0]] + Join(rest, sep) by {
          if |rest| > 1 {
            assert Join(rest, sep) == rest[0] + [sep] + Join(rest[1..], sep);
          }
        }
        parts
  }

  /** A string without the separator splits into itself alone. */
  lemma {:induction false} SplitWithoutSeparator(a: string, sep: char)
    requires sep !in a
    ensures Split(a, sep) == [a]
  {
    if a != [] {
      SplitWithoutSeparator(a[1..], sep);
      assert [a[0]] + a[1..] == a;
    }
  }

  /** The first separator closes the first piece; what follows is split on its own. */
  lemma {:induction false} SplitAtFirst(a: string, sep: char, b: string)
    requires sep !in a
    ensures Split(a + [sep] + b, sep) == [a] + Split(b, sep)
  {
    if a == [] {
      assert a + [sep] + b == [sep] + b;
      assert ([sep] + b)[1..] == b;
    } else {
      assert (a + [sep] + b)[1..] == a[1..] + [sep] + b;
      SplitAtFirst(a[1..], sep, b);
      assert [a[0]] + a[1..] == a;
    }
  }

  /** The first piece is the longest prefix of `s` free of the separator. */
  lemma {:induction false} SplitFirstPiece(s: string, sep: char)
    ensures StartsWith(s, Split(s, sep)[0])
    ensures sep !in Split(s, sep)[0]
    ensures |Split(s, sep)[0]| == |s| || s[|Split(s, sep)[0]|] == sep
  {
    if s != [] && s[0] != sep {
      SplitFirstPiece(s[1..], sep);
      var p := Split(s[1..], sep)[0];
      assert Split(s, sep)[0] == [s[0]] + p;
      assert s[..|p| + 1] == [s[0]] + s[1..][..|p|];
    }
  }

  // ---------------------------------------------------------------------------
  // trim

  /** The number of white-space characters `s` starts with. */
  function LeadingWhitespace(s: string): (k: nat)
    ensures k <= |s|
    ensures forall i :: 0 <= i < k ==> IsWhitespace(s[i])
    ensures k < |s| ==> !IsWhitespace(s[k])
  {
    if s != [] && IsWhitespace(s[0]) then 1 + LeadingWhitespace(s[1..]) else 0
  }

  /** The number of white-space characters `s` ends with. */
  function TrailingWhitespace(s: string): (k: nat)
    ensures k <= |s|
    ensures forall i :: |s| - k <= i < |s| ==> IsWhitespace(s[i])
    ensures k < |s| ==> !IsWhitespace(s[|s| - 1 - k])
  {
    if s != [] && IsWhitespace(s[|s| - 1]) then 1 + TrailingWhitespace(s[..|s| - 1]) else 0
  }

  /** `s.trimStart()`. */
  function TrimStart(s: string): string
  {
    s[LeadingWhitespace(s)..]
  }

  /** `s.trimEnd()`. */
  function TrimEnd(s: string): string
  {
    s[..|s| - TrailingWhitespace(s)]
  }

  /** `s.trim()`: no longer than `s`, and neither of its ends is white space. */
  function Trim(s: string): (r: string)
    ensures |r| <= |s|
    ensures IsTrimmed(r)
  {
    var t := TrimStart(s);
    var r := TrimEnd(t);
    assert r != [] ==> r[0] == t[0] && r[|r| - 1] == t[|t| - 1 - TrailingWhitespace(t)];
    r
  }

  /** Neither end of `s` is white space. */
  predicate IsTrimmed(s: string)
  {
    s != [] ==> !IsWhitespace(s[0]) && !IsWhitespace(s[|s| - 1])
  }

  /**
   * `trim()` keeps a contiguous slice of `s` whose two ends are not white
   * space, and what it drops on either side is white space only.
   */
  lemma {:induction false} TrimIsTrimmedSlice(s: string)
    ensures IsTrimmed(Trim(s))
    ensures var i := LeadingWhitespace(s); i + |Trim(s)| <= |s| && Trim(s) == s[i..i + |Trim(s)|]
    ensures forall j :: 0 <= j < LeadingWhitespace(s) ==> IsWhitespace(s[j])
    ensures forall j :: LeadingWhitespace(s) + |Trim(s)| <= j < |s| ==> IsWhitespace(s[j])
  {
    var i := LeadingWhitespace(s);
    var t := s[i..];
    var k := TrailingWhitespace(t);
    var r := t[..|t| - k];
    assert r == Trim(s);
    if r != [] {
      assert r[0] == s[i];
      assert r[|r| - 1] == t[|t| - 1 - k];
    }
    forall j | i + |r| <= j < |s|
      ensures IsWhitespace(s[j])
    {
      assert s[j] == t[j - i];
    }
  }

  /** Trimming twice is trimming once. */
  lemma {:induction false} TrimIdempotent(s: string)
    ensures Trim(Trim(s)) == Trim(s)
  {
    var r := Trim(s);
    TrimIsTrimmedSlice(s);
    assert LeadingWhitespace(r) == 0;
    assert TrimStart(r) == r;
    assert TrailingWhitespace(r) == 0;
  }

  /** `trim()` yields the empty string exactly for the strings made of white space alone. */
  lemma {:induction false} TrimEmptyIff(s: string)
    ensures Trim(s) == [] <==> forall i :: 0 <= i < |s| ==> IsWhitespace(s[i])
  {
    var i := LeadingWhitespace(s);
    var t := s[i..];
    var k := TrailingWhitespace(t);
    if Trim(s) == [] {
      assert |t| == k;
      assert t == [];
    } else {
      TrimIsTrimmedSlice(s);
      assert s[i] == Trim(s)[0];
    }
  }
}
