/**
 * The two JavaScript string operations the core applies to user input:
 * `String.prototype.trim` and `String.prototype.toLowerCase`, and the
 * character classes the two regular expressions of the user module use.
 */
module JsString {

  /** ECMAScript LineTerminator: what `.` in a regular expression does not match. */
  predicate IsLineTerminator(c: char) {
    c == '\n' || c == '\r' || c == '\U{2028}' || c == '\U{2029}'
  }

  /** ECMAScript WhiteSpace and LineTerminator characters outside the range U+2000..U+200A. */
  const SpaceChars: set<char> :=
    {'\n', '\r', '\U{2028}', '\U{2029}', ' ', '\t', '\U{B}', '\U{C}', '\U{FEFF}',
     '\U{A0}', '\U{1680}', '\U{202F}', '\U{205F}', '\U{3000}'}

  /** ECMAScript WhiteSpace or LineTerminator: what `trim` removes. */
  predicate IsWhitespace(c: char) {
    c in SpaceChars || '\U{2000}' <= c <= '\U{200A}'
  }

  predicate IsUpper(c: char) { 'A' <= c <= 'Z' }
  predicate IsLower(c: char) { 'a' <= c <= 'z' }
  predicate IsDigit(c: char) { '0' <= c <= '9' }
  /** `\w` of a regular expression without the `u` flag. */
  predicate IsWordChar(c: char) { IsUpper(c) || IsLower(c) || IsDigit(c) || c == '_' }

  function CharToLower(c: char): (d: char)
    ensures !IsUpper(d)
    ensures IsUpper(c) ==> IsLower(d)
    ensures !IsUpper(c) ==> d == c
  {
    if IsUpper(c) then (c as int + 32) as char else c
  }

  /** `toLowerCase` (on the ASCII letters). */
  function ToLowerCase(s: string): (r: string)
    ensures |r| == |s|
    ensures forall i :: 0 <= i < |s| ==> r[i] == CharToLower(s[i])
  {
    seq(|s|, i requires 0 <= i < |s| => CharToLower(s[i]))
  }

  predicate IsLowerCased(s: string) {
    forall i :: 0 <= i < |s| ==> !IsUpper(s[i])
  }

  lemma ToLowerCaseResult(s: string)
    ensures IsLowerCased(ToLowerCase(s))
    ensures IsLowerCased(s) ==> ToLowerCase(s) == s
  {
  }

  /** Lowering a character never turns whitespace into a non-space or back. */
  lemma CharToLowerKeepsWhitespace(c: char)
    ensures IsWhitespace(CharToLower(c)) <==> IsWhitespace(c)
  {
  }

  /** `trimStart`: drops the leading whitespace, keeps the rest untouched. */
  function TrimStart(s: string): (r: string)
    ensures |r| <= |s| && r == s[|s| - |r|..]
    ensures forall k :: 0 <= k < |s| - |r| ==> IsWhitespace(s[k])
    ensures r != [] ==> !IsWhitespace(r[0])
  {
    if s != [] && IsWhitespace(s[0]) then TrimStart(s[1..]) else s
  }

  /** `trimEnd`: drops the trailing whitespace, keeps the rest untouched. */
  function TrimEnd(s: string): (r: string)
    ensures |r| <= |s| && r == s[..|r|]
    ensures forall k :: |r| <= k < |s| ==> IsWhitespace(s[k])
    ensures r != [] ==> !IsWhitespace(r[|r| - 1])
  {
    if s != [] && IsWhitespace(s[|s| - 1]) then TrimEnd(s[..|s| - 1]) else s
  }

  /** `trim`: the longest infix of `s` that neither starts nor ends with whitespace. */
  function Trim(s: string): (r: string)
    ensures var i := |s| - |TrimStart(s)|;
      && i + |r| <= |s| && r == s[i..i + |r|]
      && (forall k :: 0 <= k < i ==> IsWhitespace(s[k]))
      && (forall k :: i + |r| <= k < |s| ==> IsWhitespace(s[k]))
    ensures r != [] ==> !IsWhitespace(r[0]) && !IsWhitespace(r[|r| - 1])
  {
    var t := TrimStart(s);
    var r := TrimEnd(t);
    TrimSlices(s, t, r);
    r
  }

  /**
   * A prefix `r` of a suffix `t` of `s`, with whitespace only around it, is
   * the infix of `s` that `trim` describes.
   */
  lemma TrimSlices(s: string, t: string, r: string)
    requires |t| <= |s| && t == s[|s| - |t|..]
    requires forall k :: 0 <= k < |s| - |t| ==> IsWhitespace(s[k])
    requires t != [] ==> !IsWhitespace(t[0])
    requires |r| <= |t| && r == t[..|r|]
    requires forall k :: |r| <= k < |t| ==> IsWhitespace(t[k])
    requires r != [] ==> !IsWhitespace(r[|r| - 1])
    ensures var i := |s| - |t|;
      && i + |r| <= |s| && r == s[i..i + |r|]
      && (forall k :: 0 <= k < i ==> IsWhitespace(s[k]))
      && (forall k :: i + |r| <= k < |s| ==> IsWhitespace(s[k]))
    ensures r != [] ==> !IsWhitespace(r[0]) && !IsWhitespace(r[|r| - 1])
  {
    var i := |s| - |t|;
    forall k | i <= k < |s| ensures s[k] == t[k - i] { }
    assert r == s[i..i + |r|] by {
      forall k | 0 <= k < |r| ensures r[k] == s[i + k] {
        assert r[k] == t[k];
      }
    }
    if r != [] {
      assert r[0] == t[0];
    }
  }

  /** A string with no whitespace at either end is left alone by `trim`. */
  lemma TrimNoop(s: string)
    requires s != [] ==> !IsWhitespace(s[0]) && !IsWhitespace(s[|s| - 1])
    ensures Trim(s) == s
  {
  }

  /** The key under which the user module looks up an e-mail or a username. */
  function LookupKey(s: string): string {
    ToLowerCase(Trim(s))
  }

  /** Normalising an already normalised key changes nothing. */
  lemma {:induction false} LookupKeyIdempotent(s: string)
    ensures LookupKey(LookupKey(s)) == LookupKey(s)
  {
    var k := LookupKey(s);
    var t := Trim(s);
    if k != [] {
      CharToLowerKeepsWhitespace(t[0]);
      CharToLowerKeepsWhitespace(t[|t| - 1]);
    }
    TrimNoop(k);
    ToLowerCaseResult(t);
    ToLowerCaseResult(k);
  }
}
