/**
 * The character classes and string operations of JavaScript that the
 * validation rules and the e-mail normalisation rely on.
 */
module JsText {

  /**
   * The characters matched by the regular-expression escape `\s` and removed
   * by `String.prototype.trim`: WhiteSpace and LineTerminator of ECMA-262
   * (sections 12.2 and 12.3), that is TAB, LF, VT, FF, CR, SPACE, NBSP,
   * every other Zs character, LINE SEPARATOR, PARAGRAPH SEPARATOR and ZWNBSP.
   */
  predicate IsJsWhitespace(c: char) {
    || c == '\t' || c == '\n' || c == '\U{B}' || c == '\U{C}' || c == '\r'
    || c == ' ' || c == '\U{A0}' || c == '\U{1680}'
    || ('\U{2000}' <= c <= '\U{200A}')
    || c == '\U{2028}' || c == '\U{2029}' || c == '\U{202F}' || c == '\U{205F}'
    || c == '\U{3000}' || c == '\U{FEFF}'
  }

  /** The character class `[0-9]`. */
  predicate IsAsciiDigit(c: char) {
    '0' <= c <= '9'
  }

  predicate IsAsciiUpper(c: char) {
    'A' <= c <= 'Z'
  }

  /** The ASCII alphabet, upper-case and lower-case, letter for letter. */
  const UpperLetters: string := "ABCDEFGHIJKLMNOPQRSTUVWXYZ"
  const LowerLetters: string := "abcdefghijklmnopqrstuvwxyz"

  /**
   * `toLowerCase` restricted to ASCII letters: the k-th upper-case letter of
   * the alphabet becomes the k-th lower-case letter; every other character is
   * kept.
   */
  function LowerChar(c: char): (d: char)
    ensures forall k :: 0 <= k < |UpperLetters| && c == UpperLetters[k] ==> d == LowerLetters[k]
    ensures !IsAsciiUpper(c) ==> d == c
    ensures !IsAsciiUpper(d)
    ensures IsJsWhitespace(d) <==> IsJsWhitespace(c)
  {
    if IsAsciiUpper(c) then (c as int + 32) as char else c
  }

  /** `toLowerCase` on a whole string: each character is lowered in place. */
  function ToLowerAscii(s: string): (r: string)
    ensures |r| == |s|
    ensures forall i :: 0 <= i < |s| ==> r[i] == LowerChar(s[i])
    ensures IsLowerAscii(r)
    ensures forall i, k :: 0 <= i < |s| && 0 <= k < |UpperLetters| && s[i] == UpperLetters[k] ==> r[i] == LowerLetters[k]
  {
    seq(|s|, i requires 0 <= i < |s| => LowerChar(s[i]))
  }

  /** No ASCII upper-case letter occurs in `s`. */
  predicate IsLowerAscii(s: string) {
    forall i :: 0 <= i < |s| ==> !IsAsciiUpper(s[i])
  }

  /** `s` neither starts nor ends with a whitespace character. */
  predicate IsTrimmed(s: string) {
    s == [] || (!IsJsWhitespace(s[0]) && !IsJsWhitespace(s[|s| - 1]))
  }

  /** Removes leading whitespace: the result is the suffix of `s` left after its whitespace prefix. */
  function TrimStart(s: string): (r: string)
    ensures |r| <= |s| && r == s[|s| - |r|..]
    ensures forall i :: 0 <= i < |s| - |r| ==> IsJsWhitespace(s[i])
    ensures r == [] || !IsJsWhitespace(r[0])
  {
    if s != [] && IsJsWhitespace(s[0]) then TrimStart(s[1..]) else s
  }

  /** Removes trailing whitespace: the result is the prefix of `s` left before its whitespace suffix. */
  function TrimEnd(s: string): (r: string)
    ensures |r| <= |s| && r == s[..|r|]
    ensures forall i :: |r| <= i < |s| ==> IsJsWhitespace(s[i])
    ensures r == [] || !IsJsWhitespace(r[|r| - 1])
  {
    if s != [] && IsJsWhitespace(s[|s| - 1]) then TrimEnd(s[..|s| - 1]) else s
  }

  /**
   * `String.prototype.trim`: the result is the slice `s[lo..lo + |r|]` with
   * nothing but whitespace on either side of it, and it is itself trimmed.
   */
  function Trim(s: string): (r: string)
    ensures IsTrimmed(r)
    ensures |r| <= |s|
    ensures exists lo :: 0 <= lo <= |s| - |r| && IsTrimSlice(s, lo, r)
  {
    var t := TrimStart(s);
    TrimIsSlice(s);
    TrimEnd(t)
  }

  /** Trimming the start and then the end leaves a slice of `s` with only whitespace around it. */
  lemma TrimIsSlice(s: string)
    ensures IsTrimSlice(s, |s| - |TrimStart(s)|, TrimEnd(TrimStart(s)))
  {
    var t := TrimStart(s);
    var r := TrimEnd(t);
    var lo := |s| - |t|;
    assert t == s[lo..] && r == t[..|r|];
    forall i | lo + |r| <= i < |s| ensures IsJsWhitespace(s[i]) {
      assert s[i] == t[i - lo];
    }
  }

  /** `r` sits at offset `lo` of `s` and everything of `s` around it is whitespace. */
  ghost predicate IsTrimSlice(s: string, lo: int, r: string) {
    && 0 <= lo && lo + |r| <= |s|
    && r == s[lo..lo + |r|]
    && (forall i :: 0 <= i < lo ==> IsJsWhitespace(s[i]))
    && (forall i :: lo + |r| <= i < |s| ==> IsJsWhitespace(s[i]))
  }

  /** Trimming a string that is already trimmed changes nothing. */
  lemma TrimmedIsFixed(s: string)
    requires IsTrimmed(s)
    ensures Trim(s) == s
  {
    assert TrimStart(s) == s;
  }

  /** Trimming a trimmed non-empty string followed by one whitespace character gives the string back. */
  lemma TrimTrailingSpace(s: string, c: char)
    requires s != [] && IsTrimmed(s) && IsJsWhitespace(c)
    ensures Trim(s + [c]) == s
  {
    var t := s + [c];
    assert t[0] == s[0];
    assert TrimStart(t) == t;
    assert t[..|t| - 1] == s;
    assert TrimEnd(s) == s;
  }

  /** Trimming a string that holds no ASCII upper-case letter gives one that holds none either. */
  lemma TrimKeepsLower(s: string)
    requires IsLowerAscii(s)
    ensures IsLowerAscii(Trim(s))
  {
    var r := Trim(s);
    var lo :| 0 <= lo <= |s| - |r| && IsTrimSlice(s, lo, r);
    forall i | 0 <= i < |r| ensures !IsAsciiUpper(r[i]) {
      assert r[i] == s[lo + i];
    }
  }

  /** Lower-casing a string that holds no ASCII upper-case letter changes nothing. */
  lemma LowerIsFixed(s: string)
    requires IsLowerAscii(s)
    ensures ToLowerAscii(s) == s
  {
  }
}
