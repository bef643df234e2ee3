/**
 The phrase counter: `text.match(new RegExp("\\b" + p + "\\b", "gi"))` for each
 literal phrase `p`, with the number of matches added up over a list of phrases.

 A global match runs a scan with a `lastIndex` cursor: at the first position at
 or after the cursor where the pattern matches, it records the match and moves
 the cursor to the end of it (one further on when the match is empty). For a
 phrase without regular-expression metacharacters the pattern matches at a
 position in at most one way, so the scan is fully determined by `MatchAt`.
 */
module Matcher {
  import opened Text

  /** Position `k` of `t` holds a `\w` character; positions outside `t` do not. */
  predicate WordAt(t: string, k: int) {
    0 <= k < |t| && IsWordChar(t[k])
  }

  /** The assertion `\b` holds at position `k`: word-ness changes between `k - 1` and `k`. */
  predicate Boundary(t: string, k: int) {
    WordAt(t, k - 1) != WordAt(t, k)
  }

  /** The pattern `\b<p>\b` with the `i` flag matches `t` starting at position `i`. */
  predicate MatchAt(t: string, p: string, i: int) {
    && 0 <= i && i + |p| <= |t|
    && Boundary(t, i)
    && CaseVariants(t[i..i + |p|], p)
    && Boundary(t, i + |p|)
  }

  /** The cursor position after a match of `p` at `i`. */
  function Advance(p: string, i: nat): (j: nat)
    ensures i < j
  {
    if |p| == 0 then i + 1 else i + |p|
  }

  /** Number of matches the global scan collects when its cursor starts at `i`.
      Matches never overlap, so they fit in the text behind the cursor. */
  function CountFrom(t: string, p: string, i: nat): (r: nat)
    ensures |p| > 0 && i <= |t| ==> r * |p| <= |t| - i
    ensures i > |t| ==> r == 0
    decreases |t| + 1 - i
  {
    if i > |t| then 0
    else if MatchAt(t, p, i) then
      var rest := CountFrom(t, p, Advance(p, i));
      OneMoreFits(rest, |p|, |t| - i);
      1 + rest
    else CountFrom(t, p, i + 1)
  }

  /** One more match of length `n` fits in `room` when `n` fits and `rest` matches
      fit in what is left after it. */
  lemma OneMoreFits(rest: nat, n: nat, room: int)
    requires n <= room && rest * n <= room - n
    ensures (1 + rest) * n <= room
  {
  }

  /** `(text.match(/\bp\b/gi) || []).length`. For a phrase that cannot overlap
      itself this is the number of its whole-word occurrences. */
  function CountPhrase(t: string, p: string): (r: nat)
    ensures |p| > 0 ==> r * |p| <= |t|
    ensures SelfOverlapFree(p) ==> r == Occurrences(t, p, 0)
  {
    ScanIsOccurrencesWhenOverlapFree(t, p);
    CountFrom(t, p, 0)
  }

  lemma ScanIsOccurrencesWhenOverlapFree(t: string, p: string)
    ensures SelfOverlapFree(p) ==> CountFrom(t, p, 0) == Occurrences(t, p, 0)
  {
    if SelfOverlapFree(p) {
      CountFromIsOccurrences(t, p, 0);
    }
  }

  /** `countMatches(text, phrases)`: the per-phrase counts added up in list order.
      Over phrases that cannot overlap themselves it counts every whole-word
      occurrence of every phrase, and nothing else. */
  function CountMatches(t: string, ps: seq<string>): (r: nat)
    ensures (forall k :: 0 <= k < |ps| ==> SelfOverlapFree(ps[k])) ==> r == TotalOccurrences(t, ps)
  {
    if ps == [] then 0 else CountPhrase(t, ps[0]) + CountMatches(t, ps[1..])
  }

  // ---------------------------------------------------------------------------
  // Reference definition: every position where a whole-word occurrence starts.

  /** Number of positions at or after `i` where `p` occurs as a whole word. */
  function Occurrences(t: string, p: string, i: nat): nat
    decreases |t| + 1 - i
  {
    if i > |t| then 0
    else (if MatchAt(t, p, i) then 1 else 0) + Occurrences(t, p, i + 1)
  }

  /** `p` cannot match at two overlapping positions of any text: no proper suffix
      of `p` that starts at a word/non-word change equals (up to case) a prefix of `p`. */
  predicate SelfOverlapFree(p: string) {
    && |p| > 0
    && forall k :: 0 < k < |p| && IsWordChar(p[k - 1]) != IsWordChar(p[k])
         ==> !CaseVariants(p[k..], p[..|p| - k])
  }

  lemma SameLetterSameWordness(c: char, d: char)
    requires SameLetter(c, d)
    ensures IsWordChar(c) == IsWordChar(d)
  {
  }

  /** A second match that starts inside a first one lines a suffix of the phrase,
      starting at a word/non-word change, up with a prefix of it. */
  lemma OverlapIsSelfOverlap(t: string, p: string, i: nat, j: nat)
    requires MatchAt(t, p, i)
    requires i < j < i + |p|
    ensures MatchAt(t, p, j) ==>
      var k := j - i;
      && IsWordChar(p[k - 1]) != IsWordChar(p[k])
      && CaseVariants(p[k..], p[..|p| - k])
  {
    if MatchAt(t, p, j) {
      var k := j - i;
      forall m | 0 <= m < |p| - k
        ensures SameLetter(p[k..][m], p[..|p| - k][m])
      {
        assert SameLetter(t[i..i + |p|][k + m], p[k + m]);
        assert SameLetter(t[j..j + |p|][m], p[m]);
      }
      assert SameLetter(t[i..i + |p|][k - 1], p[k - 1]);
      assert SameLetter(t[i..i + |p|][k], p[k]);
      SameLetterSameWordness(t[j - 1], p[k - 1]);
      SameLetterSameWordness(t[j], p[k]);
    }
  }

  /** The `i` flag compares case-folded characters: a match is a whole-word
      position where the lower-cased text and the lower-cased phrase agree. */
  lemma MatchAtIsFoldedEquality(t: string, p: string, i: int)
    ensures MatchAt(t, p, i) <==>
      && 0 <= i && i + |p| <= |t|
      && Boundary(t, i) && Boundary(t, i + |p|)
      && Lower(t[i..i + |p|]) == Lower(p)
  {
    if 0 <= i && i + |p| <= |t| {
      CaseVariantsLowerEqual(t[i..i + |p|], p);
    }
  }

  /** Two matches of a self-overlap-free phrase never overlap. */
  lemma NoMatchInside(t: string, p: string, i: nat, j: nat)
    requires SelfOverlapFree(p)
    requires MatchAt(t, p, i)
    requires i < j < i + |p|
    ensures !MatchAt(t, p, j)
  {
    OverlapIsSelfOverlap(t, p, i, j);
  }

  /** Positions without a match contribute nothing to the reference count. */
  lemma {:induction false} OccurrencesSkip(t: string, p: string, i: nat, j: nat)
    requires i <= j
    requires forall m :: i <= m < j ==> !MatchAt(t, p, m)
    ensures Occurrences(t, p, i) == Occurrences(t, p, j)
    decreases j - i
  {
    if i < j {
      OccurrencesSkip(t, p, i + 1, j);
    }
  }

  /** For a self-overlap-free phrase the scan, started anywhere, counts exactly the
      whole-word occurrences behind its cursor: none is skipped and none is invented. */
  lemma {:induction false} CountFromIsOccurrences(t: string, p: string, i: nat)
    requires SelfOverlapFree(p)
    ensures CountFrom(t, p, i) == Occurrences(t, p, i)
    decreases |t| + 1 - i
  {
    if i <= |t| {
      if MatchAt(t, p, i) {
        forall m | i + 1 <= m < i + |p|
          ensures !MatchAt(t, p, m)
        {
          NoMatchInside(t, p, i, m);
        }
        OccurrencesSkip(t, p, i + 1, i + |p|);
        CountFromIsOccurrences(t, p, i + |p|);
      } else {
        CountFromIsOccurrences(t, p, i + 1);
      }
    }
  }

  /** Whole-word occurrences of every phrase of the list, added up. */
  function TotalOccurrences(t: string, ps: seq<string>): nat {
    if ps == [] then 0 else Occurrences(t, ps[0], 0) + TotalOccurrences(t, ps[1..])
  }

  // ---------------------------------------------------------------------------
  // Properties of the counter.

  /** The empty text holds no match of any phrase (not even of the empty one:
      `\b` never holds in the empty text). */
  lemma {:induction false} CountMatchesEmptyText(ps: seq<string>)
    ensures CountMatches([], ps) == 0
  {
    if ps != [] {
      assert !MatchAt([], ps[0], 0);
      CountMatchesEmptyText(ps[1..]);
    }
  }

  /** The count over a concatenated phrase list is the sum of the two counts. */
  lemma {:induction false} CountMatchesAppend(t: string, ps: seq<string>, qs: seq<string>)
    ensures CountMatches(t, ps + qs) == CountMatches(t, ps) + CountMatches(t, qs)
  {
    if ps == [] {
      assert ps + qs == qs;
    } else {
      assert (ps + qs)[1..] == ps[1..] + qs;
      CountMatchesAppend(t, ps[1..], qs);
    }
  }

  /** Matching with the `i` flag does not see the case of the text. */
  lemma {:induction false} CountFromIgnoresCase(a: string, b: string, p: string, i: nat)
    requires CaseVariants(a, b)
    ensures CountFrom(a, p, i) == CountFrom(b, p, i)
    decreases |a| + 1 - i
  {
    if i <= |a| {
      if 0 <= i && i + |p| <= |a| {
        assert CaseVariants(a[i..i + |p|], b[i..i + |p|]);
        if CaseVariants(a[i..i + |p|], p) {
          CaseVariantsLowerEqual(a[i..i + |p|], b[i..i + |p|]);
          CaseVariantsLowerEqual(a[i..i + |p|], p);
          CaseVariantsLowerEqual(b[i..i + |p|], p);
        }
        if CaseVariants(b[i..i + |p|], p) {
          CaseVariantsLowerEqual(a[i..i + |p|], b[i..i + |p|]);
          CaseVariantsLowerEqual(a[i..i + |p|], p);
          CaseVariantsLowerEqual(b[i..i + |p|], p);
        }
      }
      assert MatchAt(a, p, i) == MatchAt(b, p, i);
      CountFromIgnoresCase(a, b, p, Advance(p, i));
      CountFromIgnoresCase(a, b, p, i + 1);
    }
  }

  /** Counting over a list of phrases does not see the case of the text. */
  lemma {:induction false} CountMatchesIgnoresCase(a: string, b: string, ps: seq<string>)
    requires CaseVariants(a, b)
    ensures CountMatches(a, ps) == CountMatches(b, ps)
  {
    if ps != [] {
      CountFromIgnoresCase(a, b, ps[0], 0);
      CountMatchesIgnoresCase(a, b, ps[1..]);
    }
  }

  /** Every character of `x` is outside `\w`. */
  predicate NoWordChars(x: string) {
    forall k :: 0 <= k < |x| ==> !IsWordChar(x[k])
  }

  /** Every phrase of the list starts with a `\w` character. */
  predicate StartWithWordChars(ps: seq<string>) {
    forall k :: 0 <= k < |ps| ==> |ps[k]| > 0 && IsWordChar(ps[k][0])
  }

  /** Behind a prefix that ends in a non-word character, `\b` and the phrase
      comparison see the same characters as at the start of the remaining text. */
  lemma MatchAtShift(x: string, y: string, p: string, i: nat)
    requires x == [] || !IsWordChar(x[|x| - 1])
    ensures MatchAt(x + y, p, |x| + i) == MatchAt(y, p, i)
  {
    var t := x + y;
    forall k | -1 <= k <= |y|
      ensures WordAt(t, |x| + k) == WordAt(y, k)
    {
      if 0 <= k < |y| {
        assert t[|x| + k] == y[k];
      }
    }
    assert Boundary(t, |x| + i) == Boundary(y, i);
    if i + |p| <= |y| {
      assert t[|x| + i..|x| + i + |p|] == y[i..i + |p|];
      assert Boundary(t, |x| + i + |p|) == Boundary(y, i + |p|);
    }
  }

  /** Behind a prefix that ends in a non-word character the scan counts exactly what
      it would count at the start of the remaining text. */
  lemma {:induction false} CountFromShift(x: string, y: string, p: string, i: nat)
    requires x == [] || !IsWordChar(x[|x| - 1])
    ensures CountFrom(x + y, p, |x| + i) == CountFrom(y, p, i)
    decreases |y| + 1 - i
  {
    if i <= |y| {
      MatchAtShift(x, y, p, i);
      assert Advance(p, |x| + i) == |x| + Advance(p, i);
      CountFromShift(x, y, p, Advance(p, i));
      CountFromShift(x, y, p, i + 1);
    }
  }

  /** A phrase that starts with a word character cannot match inside a run of
      non-word characters, so the scan walks over such a run without counting. */
  lemma {:induction false} CountFromOverNonWords(x: string, y: string, p: string, j: nat)
    requires NoWordChars(x)
    requires |p| > 0 && IsWordChar(p[0])
    requires j <= |x|
    ensures CountFrom(x + y, p, j) == CountFrom(x + y, p, |x|)
    decreases |x| - j
  {
    if j < |x| {
      CountFromOverNonWords(x, y, p, j + 1);
    }
  }

  /** Non-word characters in front of a text never change the count of a phrase
      that starts with a word character. */
  lemma CountPhraseSkipsNonWordPrefix(x: string, y: string, p: string)
    requires NoWordChars(x)
    requires |p| > 0 && IsWordChar(p[0])
    ensures CountPhrase(x + y, p) == CountPhrase(y, p)
  {
    CountFromOverNonWords(x, y, p, 0);
    CountFromShift(x, y, p, 0);
  }

  /** Non-word characters in front of a text never change `countMatches` over
      phrases that all start with a word character. */
  lemma {:induction false} CountMatchesSkipsNonWordPrefix(x: string, y: string, ps: seq<string>)
    requires NoWordChars(x)
    requires StartWithWordChars(ps)
    ensures CountMatches(x + y, ps) == CountMatches(y, ps)
  {
    if ps != [] {
      CountPhraseSkipsNonWordPrefix(x, y, ps[0]);
      CountMatchesSkipsNonWordPrefix(x, y, ps[1..]);
    }
  }
}
