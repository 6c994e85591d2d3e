/** The JavaScript string operations the core relies on: `trim`, `startsWith`
    and `replace` with a string pattern. Strings are sequences of code points;
    every whitespace code point JavaScript knows lies in the Basic Multilingual
    Plane, so the UTF-16 representation makes no difference here. */
module JsString {

  /** The WhiteSpace and LineTerminator code points of ECMA-262, which `trim` strips:
      TAB, VT, FF, SP, NBSP, ZWNBSP (BOM), the other space separators of Unicode
      category Zs, and LF, CR, LS, PS. */
  predicate IsWhiteSpace(c: char)
  {
    || c == '\U{0009}' || c == '\U{000B}' || c == '\U{000C}' || c == '\U{0020}'
    || c == '\U{00A0}' || c == '\U{FEFF}' || c == '\U{1680}'
    || ('\U{2000}' <= c <= '\U{200A}') || c == '\U{202F}' || c == '\U{205F}' || c == '\U{3000}'
    || c == '\U{000A}' || c == '\U{000D}' || c == '\U{2028}' || c == '\U{2029}'
  }

  predicate AllWhiteSpace(s: string)
  {
    forall i :: 0 <= i < |s| ==> IsWhiteSpace(s[i])
  }

  /** The length of the whitespace prefix of `s`. */
  function LeadingWhiteSpace(s: string): (n: nat)
    ensures n <= |s|
    ensures forall i :: 0 <= i < n ==> IsWhiteSpace(s[i])
    ensures n < |s| ==> !IsWhiteSpace(s[n])
  {
    if |s| > 0 && IsWhiteSpace(s[0]) then
      var n := LeadingWhiteSpace(s[1..]);
      assert forall i :: 1 <= i < n + 1 ==> s[i] == s[1..][i - 1];
      1 + n
    else 0
  }

  /** Where the whitespace suffix of `s` begins. */
  function TrailingWhiteSpace(s: string): (n: nat)
    ensures n <= |s|
    ensures forall i :: n <= i < |s| ==> IsWhiteSpace(s[i])
    ensures n > 0 ==> !IsWhiteSpace(s[n - 1])
  {
    if |s| > 0 && IsWhiteSpace(s[|s| - 1]) then TrailingWhiteSpace(s[..|s| - 1]) else |s|
  }

  /** `String.prototype.trim`. The result neither starts nor ends with
      whitespace, and it is empty exactly when `s` is all whitespace;
      `TrimIsMiddle` says where in `s` it comes from. */
  function Trim(s: string): (r: string)
    ensures |r| > 0 ==> !IsWhiteSpace(r[0]) && !IsWhiteSpace(r[|r| - 1])
    ensures r == [] <==> AllWhiteSpace(s)
  {
    var a := LeadingWhiteSpace(s);
    var t := s[a..];
    var r := t[..TrailingWhiteSpace(t)];
    r
  }

  /** The trimmed string is the middle `s[a..a + |Trim(s)|]` of `s`, with only
      whitespace before `a` and after `a + |Trim(s)|`. */
  lemma TrimIsMiddle(s: string)
    ensures var r := Trim(s); var a := LeadingWhiteSpace(s);
      && a + |r| <= |s|
      && r == s[a..a + |r|]
      && (forall i :: 0 <= i < a ==> IsWhiteSpace(s[i]))
      && (forall i :: a + |r| <= i < |s| ==> IsWhiteSpace(s[i]))
  {
    var a := LeadingWhiteSpace(s);
    var t := s[a..];
    var r := Trim(s);
    assert r == t[..|r|];
    forall i | a + |r| <= i < |s| ensures IsWhiteSpace(s[i]) {
      assert s[i] == t[i - a];
    }
  }

  /** `s.startsWith(prefix)`: `s` is `prefix` followed by the rest of `s`. */
  function StartsWith(s: string, prefix: string): (r: bool)
    ensures r <==> |prefix| <= |s| && s == prefix + s[|prefix|..]
  {
    assert |prefix| <= |s| ==> s == s[..|prefix|] + s[|prefix|..];
    |prefix| <= |s| && s[..|prefix|] == prefix
  }

  /** `s.replace(pattern, replacement)` with a string pattern: only the FIRST
      occurrence of `pattern` is replaced (an empty pattern matches at 0). */
  function ReplaceFirst(s: string, pattern: string, replacement: string): (r: string)
    ensures StartsWith(s, pattern) ==> r == replacement + s[|pattern|..]
    ensures (forall i :: 0 <= i <= |s| ==> !StartsWith(s[i..], pattern)) ==> r == s
    decreases |s|
  {
    if StartsWith(s, pattern) then
      assert s[0..] == s;
      replacement + s[|pattern|..]
    else if |s| == 0 then s
    else
      assert forall i :: 0 <= i <= |s| - 1 ==> s[1..][i..] == s[i + 1..];
      [s[0]] + ReplaceFirst(s[1..], pattern, replacement)
  }

  /** A string built as `prefix + t` starts with `prefix`, and replacing the
      first occurrence of `prefix` by the empty string gives back `t`. */
  lemma StripPrefix(prefix: string, t: string)
    ensures StartsWith(prefix + t, prefix)
    ensures ReplaceFirst(prefix + t, prefix, "") == t
  {
    assert (prefix + t)[..|prefix|] == prefix;
    assert (prefix + t)[|prefix|..] == t;
  }
}
