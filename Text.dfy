/**
 * String primitives of JavaScript that the application relies on:
 * the white-space class of regular expressions (`\s`), which `trim` also
 * strips, `trim` itself, and lower-casing (ASCII letters only here).
 */
module Text {
  import Lists

  /**
   * The characters that `\s` matches and `trim` removes: ECMAScript's
   * WhiteSpace (tab, vertical tab, form feed, space, no-break space,
   * zero-width no-break space and the space separators of category Zs)
   * together with its LineTerminators (line feed, carriage return, line
   * separator, paragraph separator).
   */
  predicate IsSpace(c: char) {
    || c == '\t' || c == '\n' || c == '\U{000B}' || c == '\U{000C}' || c == '\r'
    || c == ' ' || c == '\U{00A0}' || c == '\U{1680}'
    || ('\U{2000}' <= c <= '\U{200A}')
    || c == '\U{2028}' || c == '\U{2029}' || c == '\U{202F}' || c == '\U{205F}'
    || c == '\U{3000}' || c == '\U{FEFF}'
  }

  /** Every character of `s` is white space (the empty string included). */
  predicate IsBlank(s: string) {
    forall i :: 0 <= i < |s| ==> IsSpace(s[i])
  }

  /** No character of `s` is white space. */
  predicate NoSpace(s: string) {
    forall i :: 0 <= i < |s| ==> !IsSpace(s[i])
  }

  /** `s` with its leading white space removed. */
  function TrimStart(s: string): (r: string)
    ensures |r| <= |s| && r == s[|s| - |r|..]
    ensures IsBlank(s[..|s| - |r|])
    ensures r == [] || !IsSpace(r[0])
  {
    if s != [] && IsSpace(s[0]) then TrimStart(s[1..]) else s
  }

  /** `s` with its trailing white space removed. */
  function TrimEnd(s: string): (r: string)
    ensures |r| <= |s| && r == s[..|r|]
    ensures IsBlank(s[|r|..])
    ensures r == [] || !IsSpace(r[|r| - 1])
  {
    if s != [] && IsSpace(s[|s| - 1]) then TrimEnd(s[..|s| - 1]) else s
  }

  /** JavaScript's `s.trim()`. */
  function Trim(s: string): (r: string)
    ensures |r| <= |s|
    ensures r == [] || (!IsSpace(r[0]) && !IsSpace(r[|r| - 1]))
  {
    TrimEnd(TrimStart(s))
  }

  /** Trimming empties a string exactly when it is all white space. */
  lemma TrimEmptyIffBlank(s: string)
    ensures Trim(s) == [] <==> IsBlank(s)
  {
    var t := TrimStart(s);
    var k := |s| - |t|;
    if Trim(s) == [] {
      assert t[0..] == t;
      BlankConcat(s[..k], t);
      assert s[..k] + t == s;
    }
    assert t != [] ==> t[0] == s[k];
  }

  /** Two stretches of white space make one. */
  lemma BlankConcat(a: string, b: string)
    requires IsBlank(a) && IsBlank(b)
    ensures IsBlank(a + b)
  {
    forall i | 0 <= i < |a + b| ensures IsSpace((a + b)[i]) {
      if i >= |a| {
        assert (a + b)[i] == b[i - |a|];
      }
    }
  }

  /** `r` occurs in `s` at position `i`, with nothing but white space before and after it. */
  predicate InfixAt(s: string, r: string, i: nat) {
    && i + |r| <= |s| && r == s[i..i + |r|]
    && IsBlank(s[..i]) && IsBlank(s[i + |r|..])
  }

  /** `trim` keeps a contiguous middle part of `s` and removes only white space around it. */
  lemma TrimIsInfix(s: string)
    ensures InfixAt(s, Trim(s), |s| - |TrimStart(s)|)
  {
    InfixOfParts(s, TrimStart(s), TrimEnd(TrimStart(s)));
  }

  /** A suffix after white space, then a prefix of it before white space, is a middle part with white space around it. */
  lemma InfixOfParts(s: string, t: string, r: string)
    requires |t| <= |s| && t == s[|s| - |t|..]
    requires IsBlank(s[..|s| - |t|])
    requires |r| <= |t| && r == t[..|r|]
    requires IsBlank(t[|r|..])
    ensures InfixAt(s, r, |s| - |t|)
  {
    var i := |s| - |t|;
    assert t[|r|..] == s[i + |r|..];
  }

  /** A string without white space at either end is left alone by `trim`. */
  lemma TrimOfTrimmed(s: string)
    requires s == [] || (!IsSpace(s[0]) && !IsSpace(s[|s| - 1]))
    ensures Trim(s) == s
  {
  }

  /** Trimming twice trims no more than trimming once. */
  lemma TrimIdempotent(s: string)
    ensures Trim(Trim(s)) == Trim(s)
  {
    TrimOfTrimmed(Trim(s));
  }

  /** Leading white space followed by a non-space character is exactly what `TrimStart` removes. */
  lemma {:induction false} TrimStartBlankPrefix(w: string, b: string)
    requires IsBlank(w)
    requires b == [] || !IsSpace(b[0])
    ensures TrimStart(w + b) == b
  {
    if w != [] {
      assert (w + b)[1..] == w[1..] + b;
      TrimStartBlankPrefix(w[1..], b);
    }
  }

  /** ASCII upper-case letters. */
  predicate IsUpper(c: char) {
    'A' <= c <= 'Z'
  }

  /** One character of `toLowerCase`, restricted to the ASCII letters. */
  function LowerChar(c: char): (d: char)
    ensures !IsUpper(d)
    ensures IsUpper(c) ==> d as int == c as int + 32
    ensures !IsUpper(c) ==> d == c
  {
    if IsUpper(c) then (c as int + 32) as char else c
  }

  /** `s.toLowerCase()`, restricted to the ASCII letters. */
  function Lower(s: string): (r: string)
    ensures |r| == |s|
    ensures forall i :: 0 <= i < |s| ==> r[i] == LowerChar(s[i])
  {
    Lists.Map(s, LowerChar)
  }

  /** Lower-casing leaves no upper-case letter and keeps white space where it was. */
  lemma LowerShape(s: string)
    ensures forall i :: 0 <= i < |s| ==> !IsUpper(Lower(s)[i])
    ensures forall i :: 0 <= i < |s| ==> (IsSpace(Lower(s)[i]) <==> IsSpace(s[i]))
  {
  }

  /** Lower-casing twice is lower-casing once. */
  lemma LowerIdempotent(s: string)
    ensures Lower(Lower(s)) == Lower(s)
  {
  }
}
