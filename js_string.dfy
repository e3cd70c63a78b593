/**
 * The part of ECMAScript strings the routes rely on: String.prototype.trim,
 * which removes leading and trailing WhiteSpace and LineTerminator code points
 * (sections 12.2 and 12.3 of ECMA-262).
 */
module JsString {

  /** ECMAScript WhiteSpace (TAB, VT, FF, ZWNBSP and category Zs) and LineTerminator (LF, CR, LS, PS). */
  predicate IsWhitespace(c: char) {
    || c == '\t' || c == '\n' || c == '\U{B}' || c == '\U{C}' || c == '\r' || c == ' '
    || c == '\U{A0}' || c == '\U{1680}' || ('\U{2000}' <= c <= '\U{200A}')
    || c == '\U{2028}' || c == '\U{2029}' || c == '\U{202F}' || c == '\U{205F}'
    || c == '\U{3000}' || c == '\U{FEFF}'
  }

  predicate AllWhitespace(s: string) {
    forall i :: 0 <= i < |s| ==> IsWhitespace(s[i])
  }

  /** Drops the leading whitespace: the result is the suffix of `s` that starts at its first non-whitespace character. */
  function TrimStart(s: string): (r: string)
    ensures |r| <= |s| && r == s[|s| - |r|..]
    ensures r == [] || !IsWhitespace(r[0])
    ensures AllWhitespace(s[..|s| - |r|])
    decreases |s|
  {
    if |s| > 0 && IsWhitespace(s[0]) then
      var r := TrimStart(s[1..]);
      assert s[..|s| - |r|] == [s[0]] + s[1..][..|s| - 1 - |r|];
      r
    else s
  }

  /** Drops the trailing whitespace: the result is the prefix of `s` that ends at its last non-whitespace character. */
  function TrimEnd(s: string): (r: string)
    ensures |r| <= |s| && r == s[..|r|]
    ensures r == [] || !IsWhitespace(r[|r| - 1])
    ensures AllWhitespace(s[|r|..])
    decreases |s|
  {
    if |s| > 0 && IsWhitespace(s[|s| - 1]) then
      var r := TrimEnd(s[..|s| - 1]);
      assert s[|r|..] == s[..|s| - 1][|r|..] + [s[|s| - 1]];
      r
    else s
  }

  /** `s.trim()`. */
  function Trim(s: string): (r: string)
    ensures |r| <= |s|
    ensures r == [] || (!IsWhitespace(r[0]) && !IsWhitespace(r[|r| - 1]))
    ensures r == [] <==> AllWhitespace(s)
  {
    var t := TrimStart(s);
    var r := TrimEnd(t);
    assert r == [] ==> s == s[..|s| - |t|] + t;
    assert r != [] ==> s[|s| - |t|] == r[0] && !IsWhitespace(s[|s| - |t|]);
    r
  }

  /** Whitespace in front of a string that starts with a non-whitespace character is exactly what TrimStart drops. */
  lemma {:induction false} TrimStartPadded(pad: string, core: string)
    requires AllWhitespace(pad)
    requires core == [] || !IsWhitespace(core[0])
    ensures TrimStart(pad + core) == core
    decreases |pad|
  {
    if pad != [] {
      assert (pad + core)[1..] == pad[1..] + core;
      TrimStartPadded(pad[1..], core);
    }
  }

  /** Whitespace after a string that ends with a non-whitespace character is exactly what TrimEnd drops. */
  lemma {:induction false} TrimEndPadded(core: string, pad: string)
    requires AllWhitespace(pad)
    requires core == [] || !IsWhitespace(core[|core| - 1])
    ensures TrimEnd(core + pad) == core
    decreases |pad|
  {
    if pad != [] {
      assert (core + pad)[..|core + pad| - 1] == core + pad[..|pad| - 1];
      TrimEndPadded(core, pad[..|pad| - 1]);
    }
  }

  /**
   * Trim is characterised by what it keeps: padding a string whose two ends are not
   * whitespace with whitespace on either side and trimming gives the string back.
   */
  lemma TrimPadded(left: string, core: string, right: string)
    requires AllWhitespace(left) && AllWhitespace(right)
    requires core != [] && !IsWhitespace(core[0]) && !IsWhitespace(core[|core| - 1])
    ensures Trim(left + core + right) == core
  {
    assert left + core + right == left + (core + right);
    TrimStartPadded(left, core + right);
    TrimEndPadded(core, right);
  }

  /** Trimming twice is trimming once. */
  lemma TrimIdempotent(s: string)
    ensures Trim(Trim(s)) == Trim(s)
  {
    var r := Trim(s);
    if r != [] {
      assert r == [] + r + [];
      TrimPadded([], r, []);
    }
  }
}
