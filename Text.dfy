/** Whitespace and `String.prototype.trim`, as used by the add-box emptiness check. */
module Text {

  /** The characters `trim` removes: ECMAScript's WhiteSpace (tab, vertical tab,
      form feed, zero-width no-break space and every Unicode Zs space separator)
      together with its LineTerminator characters (LF, CR, LS, PS). */
  predicate IsWhitespace(c: char) {
    c == '\t' || c == '\U{000B}' || c == '\U{000C}' || c == '\U{FEFF}'
    || c == ' ' || c == '\U{00A0}' || c == '\U{1680}'
    || ('\U{2000}' <= c <= '\U{200A}')
    || c == '\U{202F}' || c == '\U{205F}' || c == '\U{3000}'
    || c == '\n' || c == '\r' || c == '\U{2028}' || c == '\U{2029}'
  }

  /** Every character of `s` is whitespace (the empty string included). */
  predicate IsBlank(s: string) {
    forall i :: 0 <= i < |s| ==> IsWhitespace(s[i])
  }

  /** `s` without its leading whitespace: the longest suffix of `s` that starts
      with a non-whitespace character, or the empty string. */
  function TrimStart(s: string): (r: string)
    ensures |r| <= |s| && r == s[|s| - |r|..]
    ensures forall i :: 0 <= i < |s| - |r| ==> IsWhitespace(s[i])
    ensures r != [] ==> !IsWhitespace(r[0])
  {
    if s != [] && IsWhitespace(s[0]) then TrimStart(s[1..]) else s
  }

  /** `s` without its trailing whitespace: the longest prefix of `s` that ends
      with a non-whitespace character, or the empty string. */
  function TrimEnd(s: string): (r: string)
    ensures |r| <= |s| && r == s[..|r|]
    ensures forall i :: |r| <= i < |s| ==> IsWhitespace(s[i])
    ensures r != [] ==> !IsWhitespace(r[|r| - 1])
  {
    if s != [] && IsWhitespace(s[|s| - 1]) then TrimEnd(s[..|s| - 1]) else s
  }

  /** Every character of `s` from index `lo` up to (not including) `hi` is whitespace. */
  predicate BlankBetween(s: string, lo: int, hi: int)
    requires 0 <= lo && hi <= |s|
  {
    forall i :: lo <= i < hi ==> IsWhitespace(s[i])
  }

  /** `r` occurs in `s` starting at index `a`. */
  predicate InfixAt(s: string, r: string, a: int) {
    0 <= a && a + |r| <= |s| && r == s[a..a + |r|]
  }

  /** `s.trim()`: both ends stripped. It is empty exactly when `s` is blank,
      and otherwise starts and ends with a non-whitespace character. */
  function Trim(s: string): (r: string)
    ensures |r| <= |s|
    ensures r == "" <==> IsBlank(s)
    ensures r != "" ==> !IsWhitespace(r[0]) && !IsWhitespace(r[|r| - 1])
  {
    var front := TrimStart(s);
    assert front == "" ==> IsBlank(s);
    assert front != "" ==> !IsBlank(s) by {
      if front != "" { assert s[|s| - |front|] == front[0]; }
    }
    TrimEnd(front)
  }

  /** What `Trim` keeps is the infix of `s` between a whitespace-only prefix
      and a whitespace-only suffix. */
  lemma TrimIsInfix(s: string)
    ensures exists a :: InfixAt(s, Trim(s), a) && BlankBetween(s, 0, a)
                        && BlankBetween(s, a + |Trim(s)|, |s|)
  {
    var front := TrimStart(s);
    var a := |s| - |front|;
    var r := TrimEnd(front);
    assert r == Trim(s);
    assert BlankBetween(s, a + |r|, |s|) by {
      forall i | a + |r| <= i < |s| ensures IsWhitespace(s[i]) {
        assert s[i] == front[i - a];
      }
    }
    assert InfixAt(s, r, a);
  }
}
