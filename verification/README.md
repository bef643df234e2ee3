# Sycophancy Shield risk scorer, in Dafny

The browser extension scores the latest assistant reply of a chat for
sycophancy. Its local scorer, `computeSycophancyScore(userText, assistantText)`,
counts whole-word hits of four fixed term lists and runs of `!` in the
lower-cased assistant reply, turns them into three sub-scores (concessive
agreement, emotional anchoring, PII), and combines those into one sycophancy
score from 0 to 100. The panel border turns red from 70 and yellow from 40.

This project models that scorer as pure functions over `string` (`seq<char>`)
and proves its properties:

- `text.dfy` (module `Text`): ASCII lower-casing, the ECMAScript whitespace set
  and `trim`, and the regular-expression word class `\w`.
- `matcher.dfy` (module `Matcher`): `countMatches`, i.e. `text.match(/\bp\b/gi)`
  for each literal phrase. It is modelled as the global-match scan with its
  `lastIndex` cursor. `\b` has its exact meaning: word-ness changes between the two
  neighbouring positions, and positions outside the text count as non-word. A
  reference definition counts every position where a whole-word occurrence
  starts.
- `terms.dfy` (module `Terms`): the four term lists, and the proof that every
  term is lower case, free of regular-expression syntax, starts and ends with a
  word character, and cannot overlap itself.
- `bursts.dfy` (module `Bursts`): `text.match(/!{2,}/g)`. A reference definition
  counts the starts of the maximal runs of two or more `!`.
- `scoring.dfy` (module `Scoring`): the sub-scores, the combo bonus, the
  aggregate and `computeSycophancyScore`.
- `panel.dfy` (module `Panel`): the score-to-colour thresholds.
- `examples.dfy` (module `Examples`): small worked instances.

The final score is exact. It is kept in hundredths of a point, so
`0.55*c + 0.35*e + 0.10*p + combo` capped at 100 becomes
`55*c + 35*e + 10*p + 100*combo` capped at 10000.

## Model

| member | source | states |
|---|---|---|
| Text.Lower | extension/content.js:52-53 | lower-casing keeps the length and maps every character to its lower-case form |
| Text.LowerIsLowerCase | extension/content.js:52-53 | the lower-cased text has no upper-case letter, and lower-casing it again changes nothing |
| Text.CaseVariantsLowerEqual | extension/content.js:52-53 | two texts have the same lower-cased form exactly when they differ only in letter case |
| Text.LowerAppend | extension/content.js:52-53 | lower-casing a concatenation is the concatenation of the lower-cased parts |
| Text.LowerOfSpace | extension/content.js:52-53 | lower-casing leaves whitespace unchanged |
| Text.TrimStart | extension/content.js:58 | the result is the longest suffix whose removed prefix is all whitespace, and it does not start with whitespace |
| Text.TrimEnd | extension/content.js:58 | the result is the longest prefix whose removed suffix is all whitespace, and it does not end with whitespace |
| Text.Trim | extension/content.js:58 | the trimmed text is a contiguous part of the input with only whitespace before and after it, and it neither starts nor ends with whitespace |
| Text.TrimEmptyIffAllSpace | extension/content.js:58 | trimming yields the empty text exactly when the text is all whitespace |
| Text.TrimKeepsUnpaddedHead | extension/content.js:58 | a text that begins with a part that neither starts nor ends with whitespace still begins with that part after trimming |
| Text.TrimOfUnpadded | extension/content.js:58 | a text that neither starts nor ends with whitespace is its own trim |
| Text.TrimSkipsLeadingSpace | extension/content.js:58 | whitespace in front of a text never changes the trimmed text |
| Matcher.CountFrom | extension/content.js:43-45 | matches of a non-empty phrase never overlap, so n matches need at least n times the phrase length of text behind the cursor |
| Matcher.MatchAtIsFoldedEquality | extension/content.js:43 | `\bp\b` with the `i` flag matches at a position exactly when word-ness changes on both sides and the lower-cased text there equals the lower-cased phrase |
| Matcher.OverlapIsSelfOverlap | extension/content.js:43-44 | a second match starting inside a first one forces a suffix of the phrase, starting at a word/non-word change, to equal a prefix of it up to case |
| Matcher.NoMatchInside | extension/content.js:43-44 | a self-overlap-free phrase cannot match again inside one of its own matches |
| Matcher.CountFromIsOccurrences | extension/content.js:43-45 | for a phrase that cannot overlap itself, from any cursor, the scan counts exactly the whole-word occurrences ahead of it: none is skipped and none is invented |
| Matcher.CountPhrase | extension/content.js:43-45 | the match count of one phrase fits the text (n matches need n times the phrase length) and, for a phrase that cannot overlap itself, equals the number of its whole-word occurrences |
| Matcher.CountMatches | extension/content.js:40-48 | over phrases that cannot overlap themselves, `countMatches` equals the total number of whole-word occurrences of all the phrases |
| Matcher.CountMatchesEmptyText | extension/content.js:40-48 | the empty text yields 0 for every phrase list |
| Matcher.CountMatchesAppend | extension/content.js:42-46 | the count over two concatenated phrase lists is the sum of their counts |
| Matcher.CountFromIgnoresCase | extension/content.js:43 | with the `i` flag the scan gives the same count on any case variant of the text |
| Matcher.CountMatchesIgnoresCase | extension/content.js:43 | `countMatches` gives the same total on any case variant of the text |
| Matcher.MatchAtShift | extension/content.js:43 | behind a prefix that ends in a non-word character, a match at a position is the same as a match at the start of the rest |
| Matcher.CountFromShift | extension/content.js:43-45 | behind a prefix that ends in a non-word character, the scan counts what it counts on the rest of the text |
| Matcher.CountFromOverNonWords | extension/content.js:43-45 | a phrase starting with a word character never matches inside a run of non-word characters |
| Matcher.CountMatchesSkipsNonWordPrefix | extension/content.js:40-48 | non-word characters in front of the text never change the count of phrases that start with a word character |
| Terms.TermShapeUsable | extension/content.js:2-37 | lower-case words joined by spaces or apostrophes, with no later word starting with the first letter, make a term that is literal, lower case, word-edged and self-overlap-free |
| Terms.CreditCardOverlapFree | extension/content.js:35 | "credit card" cannot overlap itself, although its second word starts with its first letter |
| Terms.TermListsUsable | extension/content.js:2-37 | every term of the four lists is lower case, free of regular-expression syntax, starts and ends with a word character, and cannot overlap itself |
| Bursts.RunEnd | extension/content.js:68 | the greedy `!{2,}` stops at the first character after the cursor that is not `!` |
| Bursts.BurstsFrom | extension/content.js:68 | bursts are separated by at least one character, so a text of n characters holds at most (n+1)/3 of them |
| Bursts.BurstsFromIsRunStarts | extension/content.js:68 | from a cursor outside a run, the scan counts exactly the starts of runs of two or more `!` ahead of it |
| Bursts.CountBursts | extension/content.js:68 | the burst count is the number of maximal runs of two or more `!`, at most (n+1)/3 in a text of n characters |
| Bursts.BurstsAppend | extension/content.js:68 | texts joined after a character other than `!` have the bursts of both parts added |
| Bursts.LeadingRun | extension/content.js:68 | a leading run of n `!` contributes 1 when n is at least 2 and 0 otherwise |
| Bursts.MaximalRun | extension/content.js:68 | any maximal run contributes exactly 1 burst when it has two or more `!` and 0 when it is a single `!` |
| Bursts.NoBangNoBursts | extension/content.js:68 | a text without `!` has no bursts |
| Scoring.ConcessiveScore | extension/content.js:60-63 | the concessive score lies in [0,100], is 0 exactly when there is no hit and no opener, is 20 exactly for an opener without hits, and reaches 100 exactly at 7 hits or 6 hits with an opener |
| Scoring.OpenerBonus | extension/content.js:57-63 | a hard-agreement opener adds exactly 20 points below the cap of 100 |
| Scoring.EmotionalScore | extension/content.js:69-72 | the emotional score lies in [0,100], is 0 exactly when no anchor, enthusiasm term or burst occurs, and saturates at 10 anchors, 9 enthusiasm hits or 7 bursts |
| Scoring.PiiScore | extension/content.js:76 | the PII score is one of 0, 30, 60, 90, 100; it is 0 exactly without hits and 100 exactly from 4 hits |
| Scoring.Combo | extension/content.js:79 | the bonus is 15 exactly when there is a concessive hit and the emotional score is at least 50, and 0 otherwise |
| Scoring.Final | extension/content.js:80-83 | the final score lies in [0,10000] hundredths, never exceeds the weighted sum plus bonus, and equals it below the cap |
| Scoring.Score | extension/content.js:51-91 | every sub-score lies in [0,100]; the final score lies in [0,100.00] and is the capped weighted sum of the reported sub-scores plus 15 points exactly when the emotional score is at least 50 and there is a concessive hit, which the concessive score shows as a positive value other than 20 |
| Scoring.ScoreIgnoresUserText | extension/content.js:51-91 | the user text never changes any field of the result |
| Scoring.ScoreIgnoresCase | extension/content.js:52-53 | any case variant of the assistant text yields the same result |
| Scoring.CountsIgnoreLowerCasing | extension/content.js:53-56 | the term counts on the lower-cased text equal those on the raw text, because the patterns carry the `i` flag |
| Scoring.FinalMonotone | extension/content.js:79-83 | the final score never decreases when a sub-score grows, including through the combo bonus a higher emotional score switches on |
| Scoring.ReadSignals | extension/content.js:56-75 | each hit count equals the number of whole-word occurrences of its list's terms, and the burst count equals the number of maximal runs of two or more `!` |
| Scoring.TermListsStartWithWordChars | extension/content.js:2-37 | every term of the four lists starts with a word character |
| Scoring.OpenerIsPlainPrefix | extension/content.js:57-59 | any text that starts, after leading whitespace, with an agreement term has the opener, whatever follows the term: a longer word, trailing whitespace or nothing |
| Scoring.OpenerIgnoresLeadingSpace | extension/content.js:57-59 | leading whitespace does not defeat the hard-agreement opener test |
| Scoring.BurstsIgnoreLeadingSpace | extension/content.js:68 | leading whitespace does not change the burst count |
| Scoring.SignalsIgnoreLeadingSpace | extension/content.js:56-75 | leading whitespace changes none of the counts or the opener flag |
| Scoring.ScoreIgnoresLeadingSpace | extension/content.js:51-91 | whitespace in front of the assistant text changes no field of the result |
| Scoring.EmptyTextHasNoSignals | extension/content.js:56-75 | the empty text has no hit, no opener and no burst |
| Scoring.EmptyTextHasNoOpener | extension/content.js:57-59 | no agreement term is a prefix of the empty text |
| Scoring.EmptyReplyScoresZero | extension/content.js:51-91 | an empty assistant reply scores 0 on every field |
| Panel.BorderColour | extension/content.js:129-131 | red exactly from 70 points, yellow exactly from 40 to below 70, green exactly below 40 |
| Panel.BorderColourMonotone | extension/content.js:129-131 | a higher score never gets a calmer colour |
| Examples.PartialWordIsNotAHit | extension/content.js:43 | "i agreed" holds no hit of "i agree" |
| Examples.EmbeddedWordIsNotAHit | extension/content.js:43 | "disagreement" holds no hit of "agree" |
| Examples.WholeWordIsAHit | extension/content.js:43 | "I agree." holds exactly one hit of "i agree" |
| Examples.BurstInstances | extension/content.js:68 | "a!b" has no burst; "ok!!" and "!!!" have one each |
| Examples.OpenerBeforeTrailingSpace | extension/content.js:57-59 | "exactly \n" has the hard-agreement opener: trailing whitespace does not hide it |

## Left out

- `getMessages` (extension/content.js:94-102) reads the two last messages from the page. That is document querying; the model takes the two texts as arguments.
- Panel construction and styling in `injectPanel` (extension/content.js:105-142), except the colour thresholds. That is presentation.
- The `MutationObserver` wiring and the initial panel call (extension/content.js:145-158). That is event-loop plumbing; `Scoring.EmptyReplyScoresZero` shows that the initial all-zero state matches the score of an empty reply.
- `extension/background.js` forwards a message to a local HTTP backend. That is network I/O.
- `extension/inject_ui.js` shows and removes an alert element on a timer. That is user interface only.
- `backend/main.py` returns constant placeholder payloads and holds no algorithm.
- Scoring.Score: the source returns `sycophancy` as the string `finalScore.toFixed(1)`, computed in floating point. The model returns the exact value in hundredths; float rounding and the one-decimal formatting are not modelled.
- Panel.BorderColour: the source compares the one-decimal string, so an exact score of 69.95 or 39.95 may be shown, and coloured, as 70.0 or 40.0. The model compares the exact hundredths value.
- Text.Lower: `toLowerCase` maps every Unicode letter. The model lower-cases only ASCII letters. Every term is ASCII, so only texts whose non-ASCII letters lower-case to ASCII could differ.
- Matcher.CountFrom: the model matches the phrase literally, while `new RegExp` would read regular-expression syntax in it. `Terms.TermListsUsable` proves that no term contains such syntax.
- JavaScript strings are sequences of UTF-16 code units, while Dafny characters are Unicode scalar values. Characters outside the Basic Multilingual Plane are neither word characters, `!` nor whitespace in either view, so the counts do not change.
