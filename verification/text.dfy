/**
 Character classes and the three string primitives the scorer relies on:
 ASCII lower-casing (`toLowerCase`), whitespace trimming (`trim`) and the
 regular-expression word-character class `\w` that `\b` is defined by.
 */
module Text {

  /** `\w` in a JavaScript regular expression without the `u` flag: [A-Za-z0-9_]. */
  predicate IsWordChar(c: char) {
    ('a' <= c <= 'z') || ('A' <= c <= 'Z') || ('0' <= c <= '9') || c == '_'
  }

  /** ECMAScript WhiteSpace and LineTerminator code points, the set `String.prototype.trim` removes. */
  predicate IsSpace(c: char) {
    || ('\t' <= c <= '\r')          // TAB, LF, VT, FF, CR
    || c == ' '
    || c == '\U{00A0}'
    || c == '\U{1680}'
    || ('\U{2000}' <= c <= '\U{200A}')
    || c == '\U{2028}' || c == '\U{2029}'
    || c == '\U{202F}'
    || c == '\U{205F}'
    || c == '\U{3000}'
    || c == '\U{FEFF}'
  }

  /** Lower-cases one ASCII letter; every other character is left alone. */
  function LowerChar(c: char): (r: char)
    ensures IsWordChar(r) <==> IsWordChar(c)
    ensures IsSpace(r) <==> IsSpace(c)
    ensures r == '!' <==> c == '!'
    ensures !('A' <= r <= 'Z')
    ensures !('A' <= c <= 'Z') ==> r == c
  {
    if 'A' <= c <= 'Z' then (c as int - 'A' as int + 'a' as int) as char else c
  }

  /** Two characters that are equal up to ASCII case. */
  predicate SameLetter(c: char, d: char) {
    LowerChar(c) == LowerChar(d)
  }

  /** `toLowerCase`, restricted to ASCII letters. */
  function Lower(s: string): (r: string)
    ensures |r| == |s|
    ensures forall i :: 0 <= i < |s| ==> r[i] == LowerChar(s[i])
  {
    if s == [] then [] else [LowerChar(s[0])] + Lower(s[1..])
  }

  /** A string with no upper-case ASCII letter. */
  predicate IsLowerCase(s: string) {
    forall i :: 0 <= i < |s| ==> !('A' <= s[i] <= 'Z')
  }

  /** Lower-casing yields lower-case text, and doing it twice changes nothing. */
  lemma LowerIsLowerCase(s: string)
    ensures IsLowerCase(Lower(s))
    ensures Lower(Lower(s)) == Lower(s)
  {
  }

  /** Lower-casing works character by character, so it distributes over concatenation. */
  lemma LowerAppend(x: string, y: string)
    ensures Lower(x + y) == Lower(x) + Lower(y)
  {
  }

  /** Whitespace has no case. */
  lemma LowerOfSpace(ws: string)
    requires AllSpace(ws)
    ensures Lower(ws) == ws
  {
  }

  /** Two strings that differ only in the case of their ASCII letters. */
  predicate CaseVariants(a: string, b: string) {
    |a| == |b| && forall i :: 0 <= i < |a| ==> SameLetter(a[i], b[i])
  }

  /** Case variants, and only they, have the same lower-cased form. */
  lemma CaseVariantsLowerEqual(a: string, b: string)
    ensures CaseVariants(a, b) <==> Lower(a) == Lower(b)
  {
    if Lower(a) == Lower(b) {
      forall i | 0 <= i < |a|
        ensures SameLetter(a[i], b[i])
      {
        assert Lower(a)[i] == Lower(b)[i];
      }
    }
  }

  /** Every character of `s` is trimmable whitespace. */
  predicate AllSpace(s: string) {
    forall i :: 0 <= i < |s| ==> IsSpace(s[i])
  }

  /** `s` with its leading whitespace removed: the longest suffix whose dropped prefix is all whitespace. */
  function TrimStart(s: string): (r: string)
    ensures |r| <= |s| && r == s[|s| - |r|..]
    ensures AllSpace(s[..|s| - |r|])
    ensures r == [] || !IsSpace(r[0])
    decreases |s|
  {
    if s != [] && IsSpace(s[0]) then
      var r := TrimStart(s[1..]);
      assert s[..|s| - |r|] == [s[0]] + s[1..][..|s| - 1 - |r|];
      r
    else s
  }

  /** `s` with its trailing whitespace removed: the longest prefix whose dropped suffix is all whitespace. */
  function TrimEnd(s: string): (r: string)
    ensures |r| <= |s| && r == s[..|r|]
    ensures AllSpace(s[|r|..])
    ensures r == [] || !IsSpace(r[|r| - 1])
    decreases |s|
  {
    if s != [] && IsSpace(s[|s| - 1]) then
      var r := TrimEnd(s[..|s| - 1]);
      assert s[|r|..] == s[..|s| - 1][|r|..] + [s[|s| - 1]];
      r
    else s
  }

  /** `String.prototype.trim`: the text between the first and the last non-whitespace character. */
  function Trim(s: string): (r: string)
    ensures |r| <= |s|
    ensures r == [] || (!IsSpace(r[0]) && !IsSpace(r[|r| - 1]))
    ensures exists a, b :: 0 <= a <= b <= |s| && r == s[a..b] && AllSpace(s[..a]) && AllSpace(s[b..])
  {
    var t := TrimStart(s);
    var r := TrimEnd(t);
    TrimLeavesInfix(s, t, r);
    SpaceBoundedInfix(s, r, |s| - |t|, |s| - |t| + |r|);
    r
  }

  /** Trimming both ends keeps a contiguous part of the text with whitespace on either side. */
  lemma TrimLeavesInfix(s: string, t: string, r: string)
    requires |t| <= |s| && t == s[|s| - |t|..] && AllSpace(s[..|s| - |t|])
    requires |r| <= |t| && r == t[..|r|] && AllSpace(t[|r|..])
    ensures |s| - |t| + |r| <= |s|
    ensures r == s[|s| - |t|..|s| - |t| + |r|]
    ensures AllSpace(s[..|s| - |t|]) && AllSpace(s[|s| - |t| + |r|..])
  {
    var a := |s| - |t|;
    var b := a + |r|;
    assert r == s[a..b] by {
      forall i | 0 <= i < |r| ensures r[i] == s[a..b][i] {
        assert r[i] == t[i] && t[i] == s[a + i];
      }
    }
    forall i | 0 <= i < |s| - b ensures IsSpace(s[b..][i]) {
      assert s[b..][i] == t[|r|..][i];
    }
  }

  lemma SpaceBoundedInfix(s: string, r: string, a: nat, b: nat)
    requires a <= b <= |s| && r == s[a..b]
    requires AllSpace(s[..a]) && AllSpace(s[b..])
    ensures exists a, b :: 0 <= a <= b <= |s| && r == s[a..b] && AllSpace(s[..a]) && AllSpace(s[b..])
  {
  }

  /** A text that neither starts nor ends with whitespace is its own trim. */
  lemma TrimOfUnpadded(s: string)
    requires s == [] || (!IsSpace(s[0]) && !IsSpace(s[|s| - 1]))
    ensures Trim(s) == s
  {
  }

  /** Trimming never cuts into a head that neither starts nor ends with whitespace:
      the trimmed text still starts with it, whatever follows. */
  lemma TrimKeepsUnpaddedHead(head: string, rest: string)
    requires |head| > 0 && !IsSpace(head[0]) && !IsSpace(head[|head| - 1])
    ensures head <= Trim(head + rest)
  {
    var s := head + rest;
    var t := TrimStart(s);
    var r := TrimEnd(t);
    TrimLeavesInfix(s, t, r);
    var a := |s| - |t|;
    var b := a + |r|;
    assert s[0] == head[0] && s[|head| - 1] == head[|head| - 1];
    NonSpaceAfterSpacePrefix(s, a, 0);
    NonSpaceBeforeSpaceSuffix(s, b, |head| - 1);
    assert head == s[a..b][..|head|];
  }

  /** A character that is not whitespace lies at or after the end of an all-whitespace prefix. */
  lemma NonSpaceAfterSpacePrefix(s: string, c: nat, i: nat)
    requires c <= |s| && AllSpace(s[..c])
    requires i < |s| && !IsSpace(s[i])
    ensures c <= i
  {
  }

  /** A character that is not whitespace lies before the start of an all-whitespace suffix. */
  lemma NonSpaceBeforeSpaceSuffix(s: string, c: nat, i: nat)
    requires c <= |s| && AllSpace(s[c..])
    requires i < |s| && !IsSpace(s[i])
    ensures i < c
  {
  }

  /** Trimming empties a text exactly when the text is nothing but whitespace. */
  lemma TrimEmptyIffAllSpace(s: string)
    ensures Trim(s) == [] <==> AllSpace(s)
  {
    var t := TrimStart(s);
    if Trim(s) == [] {
      assert t[0..] == t;
      assert t == [];
      assert s[..|s|] == s;
    }
  }

  /** Whitespace in front of a text never changes what `trim` returns. */
  lemma {:induction false} TrimSkipsLeadingSpace(ws: string, s: string)
    requires AllSpace(ws)
    ensures Trim(ws + s) == Trim(s)
  {
    TrimStartSkipsLeadingSpace(ws, s);
  }

  lemma {:induction false} TrimStartSkipsLeadingSpace(ws: string, s: string)
    requires AllSpace(ws)
    ensures TrimStart(ws + s) == TrimStart(s)
    decreases |ws|
  {
    if ws != [] {
      assert (ws + s)[1..] == ws[1..] + s;
      TrimStartSkipsLeadingSpace(ws[1..], s);
    } else {
      assert ws + s == s;
    }
  }
}
