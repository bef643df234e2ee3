/**
 Worked instances of the whole-word and burst rules.
 */
module Examples {
  import opened Matcher
  import opened Bursts
  import opened Scoring

  /** A phrase followed by a word character is not a hit: "i agreed" does not
      contain the whole word "i agree". */
  lemma PartialWordIsNotAHit()
    ensures CountPhrase("i agreed", "i agree") == 0
  {
  }

  /** A phrase inside a longer word is not a hit: "disagreement" does not
      contain the word "agree". */
  lemma EmbeddedWordIsNotAHit()
    ensures CountPhrase("disagreement", "agree") == 0
  {
  }

  /** Matching ignores case and stops at punctuation. */
  lemma WholeWordIsAHit()
    ensures CountPhrase("I agree.", "i agree") == 1
  {
    assert MatchAt("I agree.", "i agree", 0);
  }

  /** A lone `!` is not a burst; a run of two or three is one burst. */
  lemma BurstInstances()
    ensures CountBursts("a!b") == 0
    ensures CountBursts("ok!!") == 1
    ensures CountBursts("!!!") == 1
  {
  }

  /** The opener test is a plain prefix test on the trimmed reply, so trailing
      whitespace does not hide the opener. */
  lemma OpenerBeforeTrailingSpace()
    ensures OpensWithHardAgreement("exactly \n")
  {
    OpenerIsPlainPrefix([], 3, " \n");
    assert [] + ("exactly" + " \n") == "exactly \n";
  }
}
