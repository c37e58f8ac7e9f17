/** How an account name becomes a Sandboxie box name when an account is added
    (`Viber_` followed by the letters and digits of the name, with a random
    fallback), and the filter applied to the box name again at launch time.
 */
module SandboxNames {
  import opened Strings

  /** The namespace tag every derived box name starts with. */
  const Prefix: string := "Viber_"

  /** `s.Where(keep)`: the characters of `s` that satisfy `keep`, in order. */
  function Filter(s: string, keep: char -> bool): (r: string)
    ensures |r| <= |s|
  {
    if |s| == 0 then []
    else (if keep(s[0]) then [s[0]] else []) + Filter(s[1..], keep)
  }

  /** The filter keeps exactly the characters that pass. */
  lemma {:induction false} FilterMembers(s: string, keep: char -> bool)
    ensures forall x :: x in Filter(s, keep) <==> x in s && keep(x)
  {
    if |s| > 0 {
      FilterMembers(s[1..], keep);
      assert s == [s[0]] + s[1..];
    }
  }

  /** A string all of whose characters pass is left alone. */
  lemma {:induction false} FilterKeepsAll(s: string, keep: char -> bool)
    requires forall i :: 0 <= i < |s| ==> keep(s[i])
    ensures Filter(s, keep) == s
  {
    if |s| > 0 {
      FilterKeepsAll(s[1..], keep);
      assert s == [s[0]] + s[1..];
    }
  }

  predicate HasLetterOrDigit(s: string) {
    exists i :: 0 <= i < |s| && IsLetterOrDigit(s[i])
  }

  predicate IsLowerHexDigit(c: char) {
    '0' <= c <= '9' || 'a' <= c <= 'f'
  }

  /** What `Guid.NewGuid().ToString("N").Substring(0, 8)` can return. */
  predicate IsFallbackToken(t: string) {
    |t| == 8 && forall i :: 0 <= i < 8 ==> IsLowerHexDigit(t[i])
  }

  /** The shape of every box name the deriver produces. */
  predicate IsDerivedName(r: string) {
    && |r| > |Prefix|
    && r[..|Prefix|] == Prefix
    && forall i :: |Prefix| <= i < |r| ==> IsLetterOrDigit(r[i])
  }

  /** The characters the launch-time filter lets through. */
  predicate IsBoxNameChar(c: char) {
    IsLetterOrDigit(c) || c == '_'
  }

  /** The box name derived for a (trimmed) account name, Program.cs lines
      712-718. `token` stands for the random GUID fragment. The fallback fires
      exactly when the name has no letter or digit; otherwise the result does
      not depend on the token at all. */
  function DeriveSandboxName(accountName: string, token: string): (r: string)
    requires IsFallbackToken(token)
    ensures IsDerivedName(r)
    ensures HasLetterOrDigit(accountName) ==> r == Prefix + Filter(accountName, IsLetterOrDigit)
    ensures !HasLetterOrDigit(accountName) ==> r == Prefix + token
  {
    var kept := Filter(accountName, IsLetterOrDigit);
    FilterMembers(accountName, IsLetterOrDigit);
    var candidate := Prefix + kept;
    assert !IsWhiteSpace(candidate[0]);
    assert HasLetterOrDigit(accountName) <==> |kept| > 0 by {
      if HasLetterOrDigit(accountName) {
        var i :| 0 <= i < |accountName| && IsLetterOrDigit(accountName[i]);
        assert accountName[i] in kept;
      }
      if |kept| > 0 {
        assert kept[0] in kept;
      }
    }
    if IsBlank(candidate) || |candidate| <= 6 then Prefix + token else candidate
  }

  /** The launch-time filter of line 981: only letters, digits and `_` remain. */
  function SafeBoxName(boxName: string): (r: string)
    ensures forall c :: c in r ==> IsBoxNameChar(c)
    ensures forall c :: c in r ==> c in boxName
  {
    FilterMembers(boxName, IsBoxNameChar);
    Filter(boxName, IsBoxNameChar)
  }

  /** A derived name holds no white space, brackets or path separators: it is
      usable both as an ini section name and as a command-line word. */
  lemma DerivedNameIsToken(r: string)
    requires IsDerivedName(r)
    ensures forall i :: 0 <= i < |r| ==> IsBoxNameChar(r[i])
  {
  }

  /** The launch-time filter does nothing to a derived name, so the box that
      Start.exe is asked for is the box the account was registered with. */
  lemma SafeBoxNameKeepsDerived(r: string)
    requires IsDerivedName(r)
    ensures SafeBoxName(r) == r
  {
    DerivedNameIsToken(r);
    FilterKeepsAll(r, IsBoxNameChar);
  }

  /** Derivation needs no randomness when the name has a letter or digit. */
  lemma DeriveIsDeterministic(accountName: string, t1: string, t2: string)
    requires IsFallbackToken(t1) && IsFallbackToken(t2)
    requires HasLetterOrDigit(accountName)
    ensures DeriveSandboxName(accountName, t1) == DeriveSandboxName(accountName, t2)
  {
  }
}
