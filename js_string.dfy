/**
 * The two pieces of JavaScript string semantics the login form relies on:
 * String.prototype.trim and the length property, which counts UTF-16 code
 * units. Dafny strings are sequences of Unicode scalar values.
 */
module JsString {

  /**
   * The characters trim removes: the ECMAScript WhiteSpace set (tab,
   * vertical tab, form feed, byte order mark and every space separator of
   * category Zs) together with the LineTerminator set.
   */
  predicate IsWhitespace(c: char) {
    || c == '\t' || c == '\U{000B}' || c == '\U{000C}' || c == '\U{FEFF}'
    || c == ' ' || c == '\U{00A0}' || c == '\U{1680}'
    || ('\U{2000}' <= c <= '\U{200A}')
    || c == '\U{202F}' || c == '\U{205F}' || c == '\U{3000}'
    || c == '\n' || c == '\r' || c == '\U{2028}' || c == '\U{2029}'
  }

  predicate AllWhitespace(s: string) {
    forall i :: 0 <= i < |s| ==> IsWhitespace(s[i])
  }

  function TrimStart(s: string): (r: string)
    decreases |s|
  {
    if s != [] && IsWhitespace(s[0]) then TrimStart(s[1..]) else s
  }

  function TrimEnd(s: string): (r: string)
    decreases |s|
  {
    if s != [] && IsWhitespace(s[|s| - 1]) then TrimEnd(s[..|s| - 1]) else s
  }

  /** String.prototype.trim: leading and trailing whitespace removed. */
  function Trim(s: string): (r: string) {
    TrimEnd(TrimStart(s))
  }

  /** UTF-16 code units of one scalar value: two above the Basic Multilingual Plane. */
  function CodeUnits(c: char): (n: nat) {
    if c as int > 0xFFFF then 2 else 1
  }

  /** The length property of a JavaScript string. */
  function Utf16Length(s: string): (n: nat)
    decreases |s|
  {
    if s == [] then 0 else CodeUnits(s[0]) + Utf16Length(s[1..])
  }

  lemma {:induction false} TrimStartIsSuffix(s: string) returns (i: nat)
    ensures i <= |s| && TrimStart(s) == s[i..]
    ensures AllWhitespace(s[..i])
    ensures i < |s| ==> !IsWhitespace(s[i])
    decreases |s|
  {
    if s != [] && IsWhitespace(s[0]) {
      var k := TrimStartIsSuffix(s[1..]);
      i := k + 1;
      assert s[1..][k..] == s[i..];
      assert forall m :: 1 <= m < i ==> s[..i][m] == s[1..][..k][m - 1];
    } else {
      i := 0;
    }
  }

  lemma {:induction false} TrimEndIsPrefix(s: string) returns (j: nat)
    ensures j <= |s| && TrimEnd(s) == s[..j]
    ensures AllWhitespace(s[j..])
    ensures 0 < j ==> !IsWhitespace(s[j - 1])
    decreases |s|
  {
    if s != [] && IsWhitespace(s[|s| - 1]) {
      var t := s[..|s| - 1];
      j := TrimEndIsPrefix(t);
      assert t[..j] == s[..j];
      assert forall m :: j <= m < |s| - 1 ==> s[m] == t[m];
    } else {
      j := |s|;
    }
  }

  /**
   * trim yields the infix of s between a whitespace-only prefix and a
   * whitespace-only suffix; a non-empty result starts and ends with a
   * character that is not whitespace.
   */
  lemma TrimIsInfix(s: string) returns (i: nat, j: nat)
    ensures i <= j <= |s| && Trim(s) == s[i..j]
    ensures AllWhitespace(s[..i]) && AllWhitespace(s[j..])
    ensures i < j ==> !IsWhitespace(s[i]) && !IsWhitespace(s[j - 1])
  {
    i := TrimStartIsSuffix(s);
    var t := s[i..];
    var k := TrimEndIsPrefix(t);
    j := i + k;
    assert t[..k] == s[i..j];
    assert t[k..] == s[j..];
    if i < j {
      assert t[0] == s[i];
      assert t[k - 1] == s[j - 1];
    }
  }

  /** trim yields the empty string exactly when every character is whitespace. */
  lemma TrimEmptyIffAllWhitespace(s: string)
    ensures Trim(s) == [] <==> AllWhitespace(s)
  {
    var i, j := TrimIsInfix(s);
    if Trim(s) == [] {
      assert i == j;
      forall m | 0 <= m < |s| ensures IsWhitespace(s[m]) {
        if m < i {
          assert s[m] == s[..i][m];
        } else {
          assert s[m] == s[j..][m - j];
        }
      }
    } else {
      assert !IsWhitespace(s[i]);
    }
  }

  /**
   * The length property counts at least one unit per character, and exactly
   * one when no character lies above the Basic Multilingual Plane.
   */
  lemma {:induction false} Utf16LengthBounds(s: string)
    ensures |s| <= Utf16Length(s) <= 2 * |s|
    ensures (forall i :: 0 <= i < |s| ==> s[i] as int <= 0xFFFF) ==> Utf16Length(s) == |s|
    decreases |s|
  {
    if s != [] {
      Utf16LengthBounds(s[1..]);
      assert forall i :: 1 <= i < |s| ==> s[1..][i - 1] == s[i];
    }
  }
}
