/** The string operations the pipeline uses: `trim()`, ASCII case mapping, the two
    case-insensitive regular expressions, and decimal digits of array indices. */
module JsString {

  /** ECMAScript WhiteSpace and LineTerminator code points: the characters `trim()` removes. */
  predicate IsWhitespace(c: char) {
    c == '\t' || c == '\n' || c == '\U{000B}' || c == '\U{000C}' || c == '\r' || c == ' '
    || c == '\U{00A0}' || c == '\U{1680}' || ('\U{2000}' <= c <= '\U{200A}')
    || c == '\U{2028}' || c == '\U{2029}' || c == '\U{202F}' || c == '\U{205F}' || c == '\U{3000}'
    || c == '\U{FEFF}'
  }

  /** A string that is empty or holds only whitespace. */
  ghost predicate IsBlank(s: string) {
    forall k :: 0 <= k < |s| ==> IsWhitespace(s[k])
  }

  /** `s.trimStart()`: the suffix left after dropping leading whitespace. */
  function TrimStart(s: string): (t: string)
    ensures |t| <= |s| && t == s[|s| - |t|..]
    ensures forall k :: 0 <= k < |s| - |t| ==> IsWhitespace(s[k])
    ensures t != [] ==> !IsWhitespace(t[0])
  {
    if s != [] && IsWhitespace(s[0]) then TrimStart(s[1..]) else s
  }

  /** `s.trimEnd()`: the prefix left after dropping trailing whitespace. */
  function TrimEnd(s: string): (t: string)
    ensures |t| <= |s| && t == s[..|t|]
    ensures forall k :: |t| <= k < |s| ==> IsWhitespace(s[k])
    ensures t != [] ==> !IsWhitespace(t[|t| - 1])
  {
    if s != [] && IsWhitespace(s[|s| - 1]) then TrimEnd(s[..|s| - 1]) else s
  }

  /** `s.trim()`: a slice of `s` that neither starts nor ends with whitespace, and is empty
      exactly when `s` is blank. */
  function Trim(s: string): (t: string)
    ensures t != [] ==> !IsWhitespace(t[0]) && !IsWhitespace(t[|t| - 1])
    ensures t == [] <==> IsBlank(s)
    ensures |t| <= |s|
  {
    var u := TrimStart(s);
    var t := TrimEnd(u);
    assert t != [] ==> t[0] == u[0];
    assert t == [] ==> u == [];
    t
  }

  /** A string that neither starts nor ends with whitespace is its own trim. */
  lemma TrimOfTrimmed(s: string)
    requires s != [] && !IsWhitespace(s[0]) && !IsWhitespace(s[|s| - 1])
    ensures Trim(s) == s
  {}

  function AsciiUpper(c: char): char {
    if 'a' <= c <= 'z' then (c as int - 32) as char else c
  }

  function AsciiLower(c: char): char {
    if 'A' <= c <= 'Z' then (c as int + 32) as char else c
  }

  /** `s.toLowerCase()` on the ASCII letters. */
  function ToLower(s: string): (t: string)
    ensures |t| == |s| && forall k :: 0 <= k < |s| ==> t[k] == AsciiLower(s[k])
  {
    seq(|s|, k requires 0 <= k < |s| => AsciiLower(s[k]))
  }

  /** `s` starts with `p` when letters are compared without case. A regular expression with
      the `i` flag compares upper-cased characters, and no character above U+007F is
      canonicalised to an ASCII one, so ASCII upper-casing is exact for an ASCII pattern. */
  predicate StartsWithIgnoreCase(s: string, p: string) {
    |p| <= |s| && forall k :: 0 <= k < |p| ==> AsciiUpper(s[k]) == AsciiUpper(p[k])
  }

  /** `new RegExp(p, "i").test(s)` for a pattern `p` of ASCII letters: `p` occurs somewhere in `s`. */
  predicate ContainsIgnoreCase(s: string, p: string) {
    exists i :: 0 <= i <= |s| && StartsWithIgnoreCase(s[i..], p)
  }

  /** `s.replace(/^v/i, "")`: drops one leading `v` or `V`. */
  function StripLeadingV(s: string): (t: string)
    ensures t == if s != [] && (s[0] == 'v' || s[0] == 'V') then s[1..] else s
  {
    if s != [] && (s[0] == 'v' || s[0] == 'V') then s[1..] else s
  }

  function Digit(d: nat): char
    requires d < 10
  {
    ('0' as int + d) as char
  }

  /** `String(n)` for an array index. */
  function Decimal(n: nat): (s: string)
    ensures s != [] && forall k :: 0 <= k < |s| ==> '0' <= s[k] <= '9'
  {
    if n < 10 then [Digit(n)] else Decimal(n / 10) + [Digit(n % 10)]
  }
}
