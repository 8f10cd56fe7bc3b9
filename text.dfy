/** Whitespace and String.prototype.trim, as the contact form uses them.
    One predicate, IsWhitespace, stands for the characters that `trim()`
    strips and that the regular-expression class `\s` matches: in
    ECMAScript both are the WhiteSpace and LineTerminator code points. */
module Text {

  /** ECMAScript WhiteSpace (TAB, VT, FF, SP, NBSP, ZWNBSP and the Zs
      category) together with LineTerminator (LF, CR, LS, PS). */
  const Whitespace: set<char> := {
    '\t', '\n', '\U{000B}', '\U{000C}', '\r', ' ', '\U{00A0}', '\U{1680}',
    '\U{2000}', '\U{2001}', '\U{2002}', '\U{2003}', '\U{2004}', '\U{2005}',
    '\U{2006}', '\U{2007}', '\U{2008}', '\U{2009}', '\U{200A}',
    '\U{2028}', '\U{2029}', '\U{202F}', '\U{205F}', '\U{3000}', '\U{FEFF}'
  }

  predicate IsWhitespace(c: char)
  {
    c in Whitespace
  }

  /** Every character of `s` is whitespace (the empty string included). */
  predicate AllWhitespace(s: string)
  {
    forall k :: 0 <= k < |s| ==> IsWhitespace(s[k])
  }

  /** The number of whitespace characters `s` starts with. */
  function LeadingWhitespace(s: string): (n: nat)
    ensures n <= |s|
    ensures forall k :: 0 <= k < n ==> IsWhitespace(s[k])
    ensures n < |s| ==> !IsWhitespace(s[n])
  {
    if |s| > 0 && IsWhitespace(s[0]) then
      var n := 1 + LeadingWhitespace(s[1..]);
      assert forall k :: 1 <= k < n ==> s[k] == s[1..][k - 1];
      n
    else
      0
  }

  /** The number of whitespace characters `s` ends with. */
  function TrailingWhitespace(s: string): (n: nat)
    ensures n <= |s|
    ensures forall k :: |s| - n <= k < |s| ==> IsWhitespace(s[k])
    ensures n < |s| ==> !IsWhitespace(s[|s| - 1 - n])
  {
    if |s| > 0 && IsWhitespace(s[|s| - 1]) then
      var t := s[..|s| - 1];
      var n := 1 + TrailingWhitespace(t);
      assert forall k :: |s| - n <= k < |s| - 1 ==> s[k] == t[k];
      n
    else
      0
  }

  /** String.prototype.trimStart: `s` without its leading whitespace. */
  function TrimStart(s: string): (r: string)
    ensures r != [] ==> !IsWhitespace(r[0])
  {
    s[LeadingWhitespace(s)..]
  }

  /** String.prototype.trimEnd: `s` without its trailing whitespace. */
  function TrimEnd(s: string): (r: string)
    ensures r != [] ==> !IsWhitespace(r[|r| - 1])
  {
    s[..|s| - TrailingWhitespace(s)]
  }

  /** String.prototype.trim: the slice of `s` that remains once the
      whitespace at both ends is stripped. It starts after the leading
      whitespace, everything after it is whitespace too, and it neither
      starts nor ends with whitespace. */
  function Trim(s: string): (r: string)
    ensures LeadingWhitespace(s) + |r| <= |s|
    ensures r == s[LeadingWhitespace(s)..LeadingWhitespace(s) + |r|]
    ensures forall k :: LeadingWhitespace(s) + |r| <= k < |s| ==> IsWhitespace(s[k])
    ensures r != [] ==> !IsWhitespace(r[0]) && !IsWhitespace(r[|r| - 1])
  {
    var o := LeadingWhitespace(s);
    var t := TrimStart(s);
    var r := TrimEnd(t);
    assert forall k :: o + |r| <= k < |s| ==> s[k] == t[k - o];
    assert r == t[..|r|];
    assert |r| > 0 ==> r[0] == t[0];
    r
  }

  /** A JavaScript string is falsy exactly when it is empty, so
      `!x.trim()` holds exactly when the trimmed string is empty. */
  predicate IsBlank(s: string)
  {
    Trim(s) == []
  }

  /** Trimming leaves nothing exactly when every character is whitespace. */
  lemma BlankIffAllWhitespace(s: string)
    ensures IsBlank(s) <==> AllWhitespace(s)
  {
    var o := LeadingWhitespace(s);
    assert o < |s| ==> !IsWhitespace(s[o]);
  }
}
