/** JavaScript's `String.prototype.trim`, which strips the ECMAScript
    WhiteSpace and LineTerminator code points from both ends of a string.
 */
module Text {

  /** ECMAScript LineTerminator: LF, CR, LINE SEPARATOR, PARAGRAPH SEPARATOR. */
  const LineTerminators: set<char> := {'\n', '\r', '\U{2028}', '\U{2029}'}

  /** ECMAScript WhiteSpace: TAB, VT, FF, ZWNBSP and every Unicode "Zs" space. */
  const WhiteSpaces: set<char> := {
    '\t', '\U{000B}', '\U{000C}', '\U{FEFF}',
    ' ', '\U{00A0}', '\U{1680}',
    '\U{2000}', '\U{2001}', '\U{2002}', '\U{2003}', '\U{2004}', '\U{2005}',
    '\U{2006}', '\U{2007}', '\U{2008}', '\U{2009}', '\U{200A}',
    '\U{202F}', '\U{205F}', '\U{3000}'
  }

  predicate IsTrimmable(c: char) {
    c in WhiteSpaces || c in LineTerminators
  }

  predicate AllTrimmable(s: string) {
    forall k :: 0 <= k < |s| ==> IsTrimmable(s[k])
  }

  /** Drops the leading trimmable characters: the result is the suffix of `s`
      that starts at its first non-trimmable character. */
  function TrimStart(s: string): (r: string)
    ensures |r| <= |s| && r == s[|s| - |r|..]
    ensures AllTrimmable(s[..|s| - |r|])
    ensures r != [] ==> !IsTrimmable(r[0])
  {
    if |s| > 0 && IsTrimmable(s[0]) then TrimStart(s[1..]) else s
  }

  /** Drops the trailing trimmable characters: the result is the prefix of `s`
      that ends at its last non-trimmable character. */
  function TrimEnd(s: string): (r: string)
    ensures |r| <= |s| && r == s[..|r|]
    ensures AllTrimmable(s[|r|..])
    ensures r != [] ==> !IsTrimmable(r[|r| - 1])
  {
    if |s| > 0 && IsTrimmable(s[|s| - 1]) then TrimEnd(s[..|s| - 1]) else s
  }

  /** `s.trim()`: a contiguous piece of `s`, starting where `TrimStart` cut,
      with no trimmable character at either end; what is cut on either side
      is all trimmable. */
  function Trim(s: string): (r: string)
    ensures |r| <= |s|
    ensures r != [] ==> !IsTrimmable(r[0]) && !IsTrimmable(r[|r| - 1])
    ensures var k := |s| - |TrimStart(s)|;
      && k + |r| <= |s|
      && r == s[k..k + |r|]
      && AllTrimmable(s[k + |r|..])
  {
    var t := TrimStart(s);
    var r := TrimEnd(t);
    TrimPieces(s, t, r);
    r
  }

  /** Cutting a trimmable head and then a trimmable tail leaves a contiguous
      piece of `s` with a trimmable tail after it. */
  lemma TrimPieces(s: string, t: string, r: string)
    requires |t| <= |s| && t == s[|s| - |t|..]
    requires |r| <= |t| && r == t[..|r|] && AllTrimmable(t[|r|..])
    ensures var k := |s| - |t|;
      && r == s[k..k + |r|]
      && AllTrimmable(s[k + |r|..])
  {
    var k := |s| - |t|;
    assert r == s[k..k + |r|];
    var cut, tail := s[k + |r|..], t[|r|..];
    forall i | 0 <= i < |cut|
      ensures IsTrimmable(cut[i])
    {
      assert cut[i] == tail[i];
    }
  }

  /** `s.trim() === ""` holds exactly when every character of `s` is trimmable. */
  lemma TrimEmptyIff(s: string)
    ensures Trim(s) == [] <==> AllTrimmable(s)
  {
    var t := TrimStart(s);
    if Trim(s) == [] {
      assert AllTrimmable(t[0..]);
      assert s == s[..|s| - |t|] + t;
    }
  }
}
