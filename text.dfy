/**
 * The string trimming the line editor applies to its buffer before dispatch:
 * ECMAScript's String.prototype.trim, which removes every leading and every
 * trailing WhiteSpace or LineTerminator code point (ECMA-262, sections
 * 12.2 and 12.3).
 */
module Text {

  /** WhiteSpace (TAB, VT, FF, ZWNBSP and the Unicode Zs category) and LineTerminator (LF, CR, LS, PS). */
  predicate IsWhiteSpace(c: char) {
    || c == '\t' || c == '\U{000B}' || c == '\U{000C}' || c == ' ' || c == '\U{00A0}' || c == '\U{FEFF}'
    || c == '\U{1680}' || ('\U{2000}' <= c <= '\U{200A}') || c == '\U{202F}' || c == '\U{205F}' || c == '\U{3000}'
    || c == '\n' || c == '\r' || c == '\U{2028}' || c == '\U{2029}'
  }

  predicate AllWhiteSpace(s: string) {
    forall i :: 0 <= i < |s| ==> IsWhiteSpace(s[i])
  }

  /** Neither end of `s` is white space: what trimming leaves behind. */
  predicate Stripped(s: string) {
    s == [] || (!IsWhiteSpace(s[0]) && !IsWhiteSpace(s[|s| - 1]))
  }

  /** Drops the leading white space. */
  function TrimStart(s: string): string {
    if s != [] && IsWhiteSpace(s[0]) then TrimStart(s[1..]) else s
  }

  /** Drops the trailing white space. */
  function TrimEnd(s: string): string {
    if s != [] && IsWhiteSpace(s[|s| - 1]) then TrimEnd(s[..|s| - 1]) else s
  }

  /** String.prototype.trim. */
  function Trim(s: string): string {
    TrimEnd(TrimStart(s))
  }

  /** TrimStart keeps the suffix of `s` that starts at its first non-white-space character. */
  lemma {:induction false} TrimStartSpec(s: string)
    ensures var r := TrimStart(s);
      && |r| <= |s| && r == s[|s| - |r|..]
      && AllWhiteSpace(s[..|s| - |r|])
      && (r == [] || !IsWhiteSpace(r[0]))
    decreases |s|
  {
    if s != [] && IsWhiteSpace(s[0]) {
      TrimStartSpec(s[1..]);
      var r := TrimStart(s);
      assert s[1..][..|s| - 1 - |r|] == s[1..|s| - |r|];
      assert s[..|s| - |r|] == [s[0]] + s[1..|s| - |r|];
    }
  }

  /** TrimEnd keeps the prefix of `s` that ends at its last non-white-space character. */
  lemma {:induction false} TrimEndSpec(s: string)
    ensures var r := TrimEnd(s);
      && |r| <= |s| && r == s[..|r|]
      && AllWhiteSpace(s[|r|..])
      && (r == [] || !IsWhiteSpace(r[|r| - 1]))
    decreases |s|
  {
    if s != [] && IsWhiteSpace(s[|s| - 1]) {
      var init := s[..|s| - 1];
      TrimEndSpec(init);
      var r := TrimEnd(s);
      assert init[..|r|] == s[..|r|];
      assert s[|r|..] == init[|r|..] + [s[|s| - 1]];
    }
  }

  /**
   * What Trim returns: a stripped string that is the infix of `s` between
   * its leading white space `s[..k]` and its trailing white space.
   */
  lemma TrimSpec(s: string)
    ensures var r, k := Trim(s), |s| - |TrimStart(s)|;
      && Stripped(r)
      && 0 <= k && k + |r| <= |s| && r == s[k..k + |r|]
      && AllWhiteSpace(s[..k]) && AllWhiteSpace(s[k + |r|..])
  {
    var t := TrimStart(s);
    TrimStartSpec(s);
    TrimEndSpec(t);
    var r, k := Trim(s), |s| - |t|;
    assert r == t[..|r|] && t == s[k..];
    assert t[..|r|] == s[k..k + |r|];
    assert s[k + |r|..] == t[|r|..];
    assert r != [] ==> r[0] == t[0];
  }

  /**
   * The converse of Trim's contract: whatever white space surrounds a
   * stripped string, trimming gives back exactly that string.
   */
  lemma TrimOfPadded(front: string, core: string, back: string)
    requires AllWhiteSpace(front) && AllWhiteSpace(back) && Stripped(core)
    ensures Trim(front + core + back) == core
  {
    var s := front + core + back;
    TrimStartSpec(s);
    if core == [] {
      assert AllWhiteSpace(s);
    } else {
      // TrimStart stops exactly at the first character of core ...
      assert s[|front|] == core[0];
      assert forall j :: 0 <= j < |front| ==> s[j] == front[j];
      assert |s| - |TrimStart(s)| == |front|;
      var t := core + back;
      assert TrimStart(s) == t;
      TrimEndSpec(t);
      // ... and TrimEnd exactly at its last character
      assert t[|core| - 1] == core[|core| - 1];
      assert forall j :: |core| <= j < |t| ==> t[j] == back[j - |core|];
      assert |TrimEnd(t)| == |core|;
    }
  }

  lemma TrimOfStripped(s: string)
    requires Stripped(s)
    ensures Trim(s) == s
  {
    TrimOfPadded([], s, []);
    assert [] + s + [] == s;
  }

  lemma TrimIdempotent(s: string)
    ensures Trim(Trim(s)) == Trim(s)
  {
    TrimSpec(s);
    TrimOfStripped(Trim(s));
  }

  /** Trimming yields the empty string exactly when the input is all white space. */
  lemma TrimEmptyIffBlank(s: string)
    ensures Trim(s) == [] <==> AllWhiteSpace(s)
  {
    if AllWhiteSpace(s) {
      TrimOfPadded(s, [], []);
      assert s + [] + [] == s;
    } else {
      var i :| 0 <= i < |s| && !IsWhiteSpace(s[i]);
      TrimSpec(s);
      var k, n := |s| - |TrimStart(s)|, |Trim(s)|;
      forall j | 0 <= j < k ensures IsWhiteSpace(s[j]) {
        assert s[..k][j] == s[j];
      }
      forall j | k + n <= j < |s| ensures IsWhiteSpace(s[j]) {
        assert s[k + n..][j - k - n] == s[j];
      }
      assert k <= i < k + n;
    }
  }
}
