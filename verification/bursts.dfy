/**
 Excitement bursts: `(text.match(/!{2,}/g) || []).length`.

 The global scan looks for the leftmost position at or after its cursor where
 two `!` follow each other, lets the greedy `{2,}` take the whole run of `!`,
 and resumes after the run. So every maximal run of two or more `!` counts
 once, and a lone `!` never counts.
 */
module Bursts {

  /** A run of `n` exclamation marks. */
  function Bangs(n: nat): (r: string)
    ensures |r| == n
    ensures forall k :: 0 <= k < n ==> r[k] == '!'
  {
    seq(n, _ => '!')
  }

  /** The end of the run of `!` that starts at `i`: the first position at or after
      `i` that does not hold `!`. */
  function RunEnd(t: string, i: nat): (j: nat)
    requires i <= |t|
    ensures i <= j <= |t|
    ensures forall k :: i <= k < j ==> t[k] == '!'
    ensures j == |t| || t[j] != '!'
    decreases |t| - i
  {
    if i < |t| && t[i] == '!' then RunEnd(t, i + 1) else i
  }

  /** Number of bursts the global scan finds when its cursor starts at `i`.
      Two bursts are at least one character apart, so `n` characters hold at
      most `(n + 1) / 3` of them. */
  function BurstsFrom(t: string, i: nat): (r: nat)
    ensures i <= |t| ==> 3 * r <= |t| - i + 1
    ensures i < |t| && t[i] != '!' ==> 3 * r <= |t| - i
    decreases |t| - i
  {
    if i + 1 >= |t| then 0
    else if t[i] == '!' && t[i + 1] == '!' then 1 + BurstsFrom(t, RunEnd(t, i))
    else BurstsFrom(t, i + 1)
  }

  /** `(text.match(/!{2,}/g) || []).length`: the number of maximal runs of two or
      more `!`, at most `(n + 1) / 3` in a text of `n` characters. */
  function CountBursts(t: string): (r: nat)
    ensures r == RunStarts(t, 0)
    ensures 3 * r <= |t| + 1
  {
    BurstsFromIsRunStarts(t, 0);
    BurstsFrom(t, 0)
  }

  // ---------------------------------------------------------------------------
  // Reference definition: the positions where a run of two or more `!` begins.

  predicate IsRunStart(t: string, i: int) {
    && 0 <= i && i + 1 < |t|
    && t[i] == '!' && t[i + 1] == '!'
    && (i == 0 || t[i - 1] != '!')
  }

  /** Number of runs of two or more `!` that begin at or after `i`. */
  function RunStarts(t: string, i: nat): nat
    decreases |t| - i
  {
    if i >= |t| then 0
    else (if IsRunStart(t, i) then 1 else 0) + RunStarts(t, i + 1)
  }

  lemma {:induction false} RunStartsSkip(t: string, i: nat, j: nat)
    requires i <= j <= |t|
    requires forall k :: i <= k < j ==> !IsRunStart(t, k)
    ensures RunStarts(t, i) == RunStarts(t, j)
    decreases j - i
  {
    if i < j {
      RunStartsSkip(t, i + 1, j);
    }
  }

  /** From a cursor that does not sit inside a run, the scan counts exactly the
      runs of two or more `!` ahead of it. */
  lemma {:induction false} BurstsFromIsRunStarts(t: string, i: nat)
    requires i == 0 || i >= |t| || t[i - 1] != '!' || t[i] != '!'
    ensures BurstsFrom(t, i) == RunStarts(t, i)
    decreases |t| - i
  {
    if i + 1 >= |t| {
      if i < |t| {
        assert RunStarts(t, i + 1) == 0;
      }
    } else if t[i] == '!' && t[i + 1] == '!' {
      var j := RunEnd(t, i);
      RunStartsSkip(t, i + 1, j);
      BurstsFromIsRunStarts(t, j);
    } else {
      BurstsFromIsRunStarts(t, i + 1);
    }
  }

  // ---------------------------------------------------------------------------
  // How the count decomposes along the text.

  /** The scan only ever looks forward, so a prefix does not affect it. */
  lemma {:induction false} BurstsFromShift(x: string, y: string, i: nat)
    ensures BurstsFrom(x + y, |x| + i) == BurstsFrom(y, i)
    decreases |y| - i
  {
    var t := x + y;
    if i + 1 < |y| {
      assert t[|x| + i] == y[i] && t[|x| + i + 1] == y[i + 1];
      if y[i] == '!' && y[i + 1] == '!' {
        RunEndShift(x, y, i);
        BurstsFromShift(x, y, RunEnd(y, i));
      } else {
        BurstsFromShift(x, y, i + 1);
      }
    }
  }

  lemma {:induction false} RunEndShift(x: string, y: string, i: nat)
    requires i <= |y|
    ensures RunEnd(x + y, |x| + i) == |x| + RunEnd(y, i)
    decreases |y| - i
  {
    if i < |y| {
      assert (x + y)[|x| + i] == y[i];
      RunEndShift(x, y, i + 1);
    }
  }

  /** A run that ends inside `a`, before a final character other than `!`, ends
      at the same place in any extension of `a`. */
  lemma {:induction false} RunEndPrefix(a: string, b: string, i: nat)
    requires i < |a| && a[|a| - 1] != '!'
    ensures RunEnd(a + b, i) == RunEnd(a, i)
    decreases |a| - i
  {
    if a[i] == '!' {
      assert (a + b)[i] == a[i];
      RunEndPrefix(a, b, i + 1);
    }
  }

  lemma {:induction false} BurstsFromSplit(a: string, b: string, i: nat)
    requires i <= |a|
    requires a == [] || a[|a| - 1] != '!'
    ensures BurstsFrom(a + b, i) == BurstsFrom(a, i) + BurstsFrom(a + b, |a|)
    decreases |a| - i
  {
    var t := a + b;
    if i < |a| && i + 1 < |t| {
      if i + 1 < |a| {
        assert t[i] == a[i] && t[i + 1] == a[i + 1];
        if a[i] == '!' && a[i + 1] == '!' {
          RunEndPrefix(a, b, i);
          BurstsFromSplit(a, b, RunEnd(a, i));
        } else {
          BurstsFromSplit(a, b, i + 1);
        }
      } else {
        assert t[i] == a[i];
      }
    }
  }

  /** Texts glued at a character other than `!` hold the bursts of both parts. */
  lemma BurstsAppend(a: string, b: string)
    requires a == [] || a[|a| - 1] != '!'
    ensures CountBursts(a + b) == CountBursts(a) + CountBursts(b)
  {
    BurstsFromSplit(a, b, 0);
    BurstsFromShift(a, b, 0);
  }

  /** A maximal run of `n` exclamation marks at the start of a text counts once
      when `n >= 2` and not at all when `n < 2`. */
  lemma LeadingRun(n: nat, b: string)
    requires b == [] || b[0] != '!'
    ensures CountBursts(Bangs(n) + b) == (if n >= 2 then 1 else 0) + CountBursts(b)
  {
    BurstsFromShift(Bangs(n), b, 0);
  }

  /** Each maximal run contributes exactly one burst when it has two or more `!`
      and nothing when it is a single `!`, whatever surrounds it. */
  lemma MaximalRun(a: string, n: nat, b: string)
    requires a == [] || a[|a| - 1] != '!'
    requires b == [] || b[0] != '!'
    ensures CountBursts(a + Bangs(n) + b) == CountBursts(a) + (if n >= 2 then 1 else 0) + CountBursts(b)
  {
    assert a + Bangs(n) + b == a + (Bangs(n) + b);
    BurstsAppend(a, Bangs(n) + b);
    LeadingRun(n, b);
  }

  /** A text without `!` has no bursts. */
  lemma {:induction false} NoBangNoBursts(t: string, i: nat)
    requires forall k :: 0 <= k < |t| ==> t[k] != '!'
    ensures BurstsFrom(t, i) == 0
    decreases |t| - i
  {
    if i + 1 < |t| {
      NoBangNoBursts(t, i + 1);
    }
  }
}
