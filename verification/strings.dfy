/** Character classes, trimming, case folding and delimiter splitting, as the
    account manager gets them from the .NET string API.

    - White space is .NET's `char.IsWhiteSpace`, written out by code point.
    - Letters and digits are restricted to ASCII (`char.IsLetterOrDigit` is
      Unicode-aware in .NET).
    - Case-insensitive comparison (`StringComparison.OrdinalIgnoreCase`) and
      `ToLower` fold ASCII `A`-`Z` only.
 */
module Strings {

  /** `char.IsWhiteSpace`: U+0009..U+000D, U+0085 and the Unicode space,
      line and paragraph separators. */
  predicate IsWhiteSpace(c: char) {
    var n := c as int;
    || 0x09 <= n <= 0x0D
    || n == 0x20 || n == 0x85 || n == 0xA0 || n == 0x1680
    || 0x2000 <= n <= 0x200A
    || n == 0x2028 || n == 0x2029 || n == 0x202F || n == 0x205F || n == 0x3000
  }

  /** `char.IsLetterOrDigit`, restricted to ASCII. */
  predicate IsLetterOrDigit(c: char) {
    || 'a' <= c <= 'z'
    || 'A' <= c <= 'Z'
    || '0' <= c <= '9'
  }

  /** `string.IsNullOrWhiteSpace` of a non-null string. */
  predicate IsBlank(s: string) {
    forall i :: 0 <= i < |s| ==> IsWhiteSpace(s[i])
  }

  /** `string.TrimStart()`. */
  function TrimStart(s: string): string {
    if |s| > 0 && IsWhiteSpace(s[0]) then TrimStart(s[1..]) else s
  }

  /** `string.TrimEnd()`. */
  function TrimEnd(s: string): string {
    if |s| > 0 && IsWhiteSpace(s[|s| - 1]) then TrimEnd(s[..|s| - 1]) else s
  }

  /** `string.Trim()`. Its properties are stated by `TrimSpec`, which callers
      invoke where they need them. */
  function Trim(s: string): string {
    TrimEnd(TrimStart(s))
  }

  /** What `TrimStart` strips is exactly the longest white prefix. */
  lemma {:induction false} TrimStartSpec(s: string)
    ensures var r := TrimStart(s);
      && |r| <= |s| && r == s[|s| - |r|..]
      && (forall i :: 0 <= i < |s| - |r| ==> IsWhiteSpace(s[i]))
      && (|r| > 0 ==> !IsWhiteSpace(r[0]))
  {
    if |s| > 0 && IsWhiteSpace(s[0]) {
      TrimStartSpec(s[1..]);
    }
  }

  /** What `TrimEnd` strips is exactly the longest white suffix. */
  lemma {:induction false} TrimEndSpec(s: string)
    ensures var r := TrimEnd(s);
      && |r| <= |s| && r == s[..|r|]
      && (forall i :: |r| <= i < |s| ==> IsWhiteSpace(s[i]))
      && (|r| > 0 ==> !IsWhiteSpace(r[|r| - 1]))
  {
    if |s| > 0 && IsWhiteSpace(s[|s| - 1]) {
      TrimEndSpec(s[..|s| - 1]);
    }
  }

  /** The trimmed string has no white space at its ends, holds only
      characters of the input, and is empty exactly when the input is blank. */
  lemma TrimSpec(s: string)
    ensures var r := Trim(s);
      && |r| <= |s|
      && (forall c :: c in r ==> c in s)
      && (|r| == 0 <==> IsBlank(s))
      && (|r| > 0 ==> !IsWhiteSpace(r[0]) && !IsWhiteSpace(r[|r| - 1]))
  {
    var front := TrimStart(s);
    TrimStartSpec(s);
    TrimEndSpec(front);
  }

  /** A string that already has no white space at its ends is its own trim. */
  lemma TrimUnpadded(s: string)
    requires |s| > 0 && !IsWhiteSpace(s[0]) && !IsWhiteSpace(s[|s| - 1])
    ensures Trim(s) == s
  {
  }

  function LowerChar(c: char): char {
    if 'A' <= c <= 'Z' then (c as int + 32) as char else c
  }

  /** `ToLower()` / the folding behind `OrdinalIgnoreCase`, on ASCII letters. */
  function ToLower(s: string): string {
    seq(|s|, i requires 0 <= i < |s| => LowerChar(s[i]))
  }

  /** `a.Equals(b, StringComparison.OrdinalIgnoreCase)`. */
  predicate EqualsIgnoreCase(a: string, b: string) {
    ToLower(a) == ToLower(b)
  }

  /** Only the letters fold: a character that folds to a non-letter is that
      non-letter, so the brackets of a section header survive a
      case-insensitive match. */
  lemma LowerCharFixesNonLetters(c: char, d: char)
    requires !('A' <= d <= 'Z') && !('a' <= d <= 'z')
    ensures LowerChar(c) == d <==> c == d
  {
  }

  /** `s.Split(d)`: the pieces between occurrences of `d`; there is always at
      least one piece and no piece contains `d`. */
  function Split(s: string, d: char): (r: seq<string>)
    ensures |r| >= 1
    ensures forall k :: 0 <= k < |r| ==> d !in r[k]
  {
    if |s| == 0 then [""]
    else
      var rest := Split(s[1..], d);
      if s[0] == d then [""] + rest
      else [[s[0]] + rest[0]] + rest[1..]
  }

  /** `string.Join(d, parts)`. */
  function Join(parts: seq<string>, d: char): string
    requires |parts| >= 1
  {
    if |parts| == 1 then parts[0]
    else parts[0] + [d] + Join(parts[1..], d)
  }

  /** Splitting loses nothing: joining the pieces back gives the input. */
  lemma {:induction false} JoinSplit(s: string, d: char)
    ensures Join(Split(s, d), d) == s
  {
    if |s| > 0 {
      JoinSplit(s[1..], d);
      var rest := Split(s[1..], d);
      if s[0] == d {
        assert ([""] + rest)[1..] == rest;
      } else {
        var r := Split(s, d);
        assert r[0] == [s[0]] + rest[0];
        if |rest| > 1 {
          assert r[1..] == rest[1..];
        }
      }
    }
  }

  /** A string splits into two or more pieces exactly when it holds the delimiter. */
  lemma {:induction false} SplitPieces(s: string, d: char)
    ensures |Split(s, d)| >= 2 <==> d in s
  {
    if |s| > 0 {
      SplitPieces(s[1..], d);
      assert s == [s[0]] + s[1..];
    }
  }

  /** Splitting text with no delimiter in a leading part `a` glues `a` onto the
      first piece of the rest. */
  lemma {:induction false} SplitPrefix(a: string, b: string, d: char)
    requires d !in a
    ensures Split(a + b, d) == [a + Split(b, d)[0]] + Split(b, d)[1..]
  {
    if |a| > 0 {
      SplitPrefix(a[1..], b, d);
      assert (a + b)[1..] == a[1..] + b;
      assert (a + b)[0] == a[0];
      assert [a[0]] + (a[1..] + Split(b, d)[0]) == a + Split(b, d)[0];
    } else {
      var r := Split(b, d);
      assert a + b == b;
      assert a + r[0] == r[0];
      assert r == [r[0]] + r[1..];
    }
  }

  /** Two delimiter-free fields joined by the delimiter split back into themselves. */
  lemma SplitPair(a: string, b: string, d: char)
    requires d !in a && d !in b
    ensures Split(a + [d] + b, d) == [a, b]
  {
    var tail := [d] + b;
    assert Split(b, d) == [b] by {
      SplitPrefix(b, [], d);
      assert b + [] == b;
    }
    assert Split(tail, d) == ["", b] by {
      assert tail[1..] == b;
    }
    SplitPrefix(a, tail, d);
    assert a + [d] + b == a + tail;
    assert a + "" == a;
  }
}
