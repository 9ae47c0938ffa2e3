# text_statistics: syllable estimator and text counters

This project models the counting core of `text_statistics.py`. That module computes readability scores (Flesch, Gunning fog and others) from a handful of counts. The counts are modelled here; the formulas built on them are not.

- **Syllable estimator** (`syllable_count`). The word is handled in these steps:
  1. It is lower-cased and reduced to `[a-z0-9]`.
  2. It is looked up in a table of three exception words.
  3. Otherwise, seven single-syllable affixes are stripped in a fixed order and counted.
  4. The letters that remain are split into vowel runs.
  5. The score is: vowel runs, plus the affixes stripped, minus one per subtractive pattern found (15 patterns), plus one per additive pattern found (17 patterns).
  6. Only a score of exactly 0 becomes 1.
- **Counters.**
  - Sentences: 0 for the empty text; otherwise the terminators left after deleting `[A-Z]\.[A-Z]\.` (two capitals, each followed by a full stop) and then `Mr\.`, with a floor of one.
  - Words: 0 for the empty text; otherwise one more than the number of spaces.
  - Letters: characters in `[a-zA-Z0-9]`.
  - Syllables of a text: the sum over the fields of `split(' ')`.
  - Complex words: the share of fields with three or more syllables.

The model has six modules:

- `TextChars`: character classes, ASCII lower-casing, and the class filters used as `re.sub`.
- `SyllablePatterns`: every regular expression of the three pattern tables, written out as a predicate on the word.
- `SyllableEstimator`: two versions of the estimator:
  - `Syllables`, a specification function;
  - `SyllableCount`, a method that follows the code step by step, with its loops as methods proved against fold functions.
- `SyllableExamples`: worked words — the exception table, `unforeseen`, and `rved`, which scores −1.
- `TextCounters`: the five counters. `CountSentences` is the source's loop over the removers. The other counters are functions.
- `CountExamples`: worked texts for the counters.

Three facts about the code are worth stating outright:

- The additive list has 17 patterns (text_statistics.py:221-239).
- A non-empty word can score below 1, because only an exact 0 is raised to 1 (text_statistics.py:300-301). For example, `rved` scores −1: two subtractive patterns fire on its single vowel run.
- A word made only of punctuation scores 1. The empty check (text_statistics.py:259) runs before cleaning, so the cleaned word is empty, scores 0, and is raised to 1.

## Model

| member | source | states |
|---|---|---|
| TextChars.Lower | text_statistics.py:262 | lower-casing keeps the length and maps each character on its own: ASCII capitals to small letters, everything else unchanged |
| TextChars.Keep | text_statistics.py:190-193 | `re.sub` with a complemented class keeps exactly the characters of the class, in order; its length is the count of such characters; nothing is lost iff every character is in the class |
| TextChars.AlnumLower | text_statistics.py:262-265 | lower-casing and stripping to `[a-zA-Z0-9]` commute |
| TextChars.Alnum | text_statistics.py:264-265 | `re.sub(r'[^a-zA-Z0-9]', '', s)`, the filter `Keep` with the class `[a-zA-Z0-9]`; its properties are Keep's contract, AlnumLower and KeepAppend |
| TextChars.Letters | text_statistics.py:281-282 | `re.sub(r'[^a-z]', '', s)`, the filter `Keep` with the class `[a-z]`; its properties are Keep's contract |
| TextChars.KeepAppend | text_statistics.py:265 | filtering a concatenation filters each part |
| SyllablePatterns.Matches | text_statistics.py:202-239 | `re.search` of each of the 32 correction patterns, written out as a predicate on a word of `[a-z]`; stated by NothingMatchesEmpty, AbsentFromWord, AbsentCharacter and the SyllableExamples lemmas |
| SyllablePatterns.Hits | text_statistics.py:292-298 | the number of patterns of a list found in the word; stated by HitsBounds, HitsAppend and NoHits |
| SyllablePatterns.HitsBounds | text_statistics.py:292-298 | each correction pattern moves the count by at most one: the hits lie between 0 and the list's length, are 0 iff no pattern matches, and equal the length iff all match |
| SyllablePatterns.HitsAppend | text_statistics.py:292-298 | the hits of a list split into two parts are the sum of each part's hits |
| SyllablePatterns.NothingMatchesEmpty | text_statistics.py:202-239 | no correction pattern is found in the empty word |
| SyllablePatterns.AbsentFromWord | text_statistics.py:202-239 | a literal pattern is not found in a word that lacks one of its characters |
| SyllablePatterns.AbsentCharacter | text_statistics.py:202-239 | a windowed pattern whose every window needs a character is not found in a word that lacks it |
| SyllablePatterns.NoHits | text_statistics.py:292-298 | a list none of whose patterns match contributes nothing |
| SyllablePatterns.AffixMatch | text_statistics.py:242-250 | the text an affix pattern matches is empty or one of the affix's own spellings (`un`, `fore`, `ly`, `less`, `ful`, `ers`/`er`, `ings`/`ing`), at least two letters long; it sits at the start for `^un`/`^fore` and at the end for the suffixes, and is empty iff no spelling of the affix occurs there |
| SyllablePatterns.StripOne | text_statistics.py:277-279 | one affix rule counts at most one match; it counts 0 iff the word is unchanged; otherwise the word loses at least two letters; the word is the matched affix plus what is left |
| SyllablePatterns.StripAffixes | text_statistics.py:276-279 | the seven affix rules applied in order, each to what the previous one left, counting the stripped affixes; stated by StripAffixesCount, StripAffixesInfix and UntouchedByAffixes |
| SyllablePatterns.StripAffixesCount | text_statistics.py:276-279 | the affix loop counts at most one per rule (0..7 in all), removes at least two letters per count, and counts 0 iff it leaves the word unchanged |
| SyllablePatterns.StripAffixesInfix | text_statistics.py:276-279 | what the affix loop leaves is a contiguous piece of the word |
| SyllablePatterns.AffixNeedsEnds | text_statistics.py:242-250 | no affix rule matches a word that starts with neither `u` nor `f` and ends in none of `y s l r g` |
| SyllablePatterns.UntouchedByAffixes | text_statistics.py:276-279 | such a word passes the whole affix loop unchanged with a count of 0 |
| SyllableEstimator.VowelRunsBounds | text_statistics.py:283-288 | there are at most as many vowel runs as letters, and none iff the word has no vowel |
| SyllableEstimator.WordParts | text_statistics.py:283 | splitting on runs of non-vowels gives at least one piece, and every piece holds vowels only |
| SyllableEstimator.WordPartsCountRuns | text_statistics.py:283-288 | counting the non-empty pieces of the split counts the maximal vowel runs |
| SyllableEstimator.Residue | text_statistics.py:276-282 | the word left after the affix loop, reduced to `[a-z]` |
| SyllableEstimator.Base | text_statistics.py:283-291 | the vowel runs of the residue plus the affixes stripped; stated by BaseAtMostLength and WordPartsCountRuns |
| SyllableEstimator.Score | text_statistics.py:291-298 | the base, minus the subtractive hits, plus the additive hits; stated by ScoreNearBase and EmptyScore |
| SyllableEstimator.Syllables | text_statistics.py:254-303 | the count is 0 iff the raw word is empty: a clamp at exactly 0 cannot give 0 for a non-empty word |
| SyllableEstimator.StripEach | text_statistics.py:276-279 | the affix loop leaves the residue and the count of the fold over the rules in order |
| SyllableEstimator.CountNonEmpty | text_statistics.py:285-288 | the loop counts the non-empty pieces |
| SyllableEstimator.CountHits | text_statistics.py:292-298 | a correction loop counts the patterns of its list found in the word |
| SyllableEstimator.SyllableCount | text_statistics.py:254-303 | `syllable_count` step by step: the result is the specification count (empty → 0; table word → its entry; otherwise vowel runs of the residue plus affixes, minus subtractive hits, plus additive hits, 0 → 1) |
| SyllableEstimator.BaseAtMostLength | text_statistics.py:276-291 | the base count (vowel runs of the residue plus affixes) lies between 0 and the cleaned word's length |
| SyllableEstimator.ScoreNearBase | text_statistics.py:291-298 | the corrections move the base by at most 15 down and 17 up |
| SyllableEstimator.SyllablesRange | text_statistics.py:254-303 | every word scores between −15 and its length plus 17 |
| SyllableEstimator.PunctuationOnly | text_statistics.py:259-265 | a non-empty word without letters or digits scores 1 |
| SyllableEstimator.EmptyScore | text_statistics.py:276-298 | the empty cleaned word scores 0 before the clamp |
| SyllableEstimator.SameCleanSameCount | text_statistics.py:259-272 | two non-empty words with the same cleaned form get the same count |
| SyllableEstimator.CleaningInvariant | text_statistics.py:262-265 | lower-casing a word, or stripping it to letters and digits, does not change its count when it has a letter or digit |
| SyllableExamples.SubtractiveNeedI | text_statistics.py:203-206 | `cial`, `tia`, `cius`, `cious` are not found in a word without `i` |
| SyllableExamples.SubtractiveNeedIMore | text_statistics.py:207-209 | `giu`, `ion`, `iou` are not found in a word without `i` |
| SyllableExamples.AdditiveNeedI | text_statistics.py:222-224 | `ia`, `riet`, `dien` are not found in a word without `i` |
| SyllableExamples.AdditiveNeedIMore | text_statistics.py:225-227 | `iu`, `io`, `ii` are not found in a word without `i` |
| SyllableExamples.AdditiveNeedLU | text_statistics.py:233-235 | `[^l]lien` and `[^gq]ua[^auieo]` are not found in a word without `l` and `u` |
| SyllableExamples.AdditiveEndings | text_statistics.py:228-232 | `[aeiouym]bl$`, `ism$` and `([^aeiouy])\1l$` miss a word ending in none of `l m t y r` |
| SyllableExamples.AdditiveEndingsMore | text_statistics.py:236-238 | `dnt$`, `uity$` and `ie(r\|st)$` miss such a word |
| SyllableExamples.AdditiveStarts | text_statistics.py:230-234 | `^mc` and `^coa[dglx].` miss a word starting with neither `m` nor `c` |
| SyllableExamples.SubtractiveEndings | text_statistics.py:210-212 | `sia$`, `[^aeiuoyt]{2,}ed$` and `.ely$` miss a word ending in none of `a d e y r s` |
| SyllableExamples.SubtractiveEndingsMore | text_statistics.py:213-214 | `[cg]h?e[rsd]?$` and `rved?$` miss such a word |
| SyllableExamples.SubtractiveEndingsLast | text_statistics.py:215-217 | the last three subtractive endings miss such a word |
| SyllableExamples.ScoredWord | text_statistics.py:271-303 | a word outside the table whose score is not 0 counts its score |
| SyllableExamples.TableWord | text_statistics.py:271-272 | a word whose cleaned form is in the table counts the table's entry |
| SyllableExamples.LowerOfLowercase | text_statistics.py:262 | lower-casing leaves a word without capitals unchanged |
| SyllableExamples.SimileLower | text_statistics.py:262 | "Simile!" lower-cases to "simile!" |
| SyllableExamples.SimileClean | text_statistics.py:262-265 | "Simile!" cleans to "simile" |
| SyllableExamples.Simile | text_statistics.py:195-199 | "Simile!" counts 3, from the table |
| SyllableExamples.UnchangedByCleaning | text_statistics.py:262-265 | "forever" and "shoreline" are already clean |
| SyllableExamples.Forever | text_statistics.py:195-199 | "forever" counts 3, from the table |
| SyllableExamples.Shoreline | text_statistics.py:195-199 | "shoreline" counts 2, from the table |
| SyllableExamples.UnStripped | text_statistics.py:243 | `^un` takes "un" off "unforeseen" |
| SyllableExamples.ForeStripped | text_statistics.py:244 | `^fore` then takes "fore" off "foreseen" |
| SyllableExamples.SeenUntouched | text_statistics.py:245-249 | the five suffix rules leave "seen" alone |
| SyllableExamples.UnforeseenStripped | text_statistics.py:276-279 | the affix loop turns "unforeseen" into "seen" with a count of 2 |
| SyllableExamples.ForeNotFirst | text_statistics.py:244 | `^fore` does not match "unforeseen" |
| SyllableExamples.PrefixOrderMatters | text_statistics.py:242-250 | with the two prefix rules swapped, only one affix is stripped from "unforeseen": the order of the table matters |
| SyllableExamples.SeenNoThreeVowels | text_statistics.py:229 | `[aeiou]{3}` is not found in "seen" |
| SyllableExamples.SeenSubtractive | text_statistics.py:202-218 | no subtractive pattern is found in "seen" |
| SyllableExamples.SeenAdditive | text_statistics.py:221-239 | no additive pattern is found in "seen" |
| SyllableExamples.SeenRuns | text_statistics.py:282-288 | "seen" has one vowel run |
| SyllableExamples.UnforeseenClean | text_statistics.py:262-272 | "unforeseen" is clean and not in the table |
| SyllableExamples.UnforeseenScore | text_statistics.py:276-298 | "unforeseen" scores 1 vowel run + 2 affixes = 3 |
| SyllableExamples.Unforeseen | text_statistics.py:254-303 | "unforeseen" counts 3 |
| SyllableExamples.RvedSubtractiveEndings | text_statistics.py:211-214 | `[^aeiuoyt]{2,}ed$` and `rved?$` both match "rved" |
| SyllableExamples.RvedOtherEndings | text_statistics.py:210-213 | `sia$`, `.ely$` and `[cg]h?e[rsd]?$` do not match "rved" |
| SyllableExamples.RvedLastEndings | text_statistics.py:215-217 | the last three subtractive endings do not match "rved" |
| SyllableExamples.RvedAnchoredSubtractive | text_statistics.py:210-217 | of the end-anchored subtractive patterns, exactly two match "rved" |
| SyllableExamples.RvedSubtractive | text_statistics.py:202-218 | exactly two subtractive patterns match "rved" |
| SyllableExamples.RvedNoThreeVowels | text_statistics.py:229 | `[aeiou]{3}` is not found in "rved" |
| SyllableExamples.RvedAdditive | text_statistics.py:221-239 | no additive pattern matches "rved" |
| SyllableExamples.RvedRuns | text_statistics.py:282-288 | "rved" has one vowel run |
| SyllableExamples.RvedClean | text_statistics.py:262-272 | "rved" is clean and not in the table |
| SyllableExamples.RvedNoAffixes | text_statistics.py:276-279 | no affix is stripped from "rved" |
| SyllableExamples.RvedScore | text_statistics.py:291-298 | "rved" scores 1 − 2 = −1 |
| SyllableExamples.RvedIsNegative | text_statistics.py:300-303 | "rved" counts −1: only an exact 0 is clamped |
| TextCounters.Fields | text_statistics.py:175 | `split(' ')` gives one more field than there are spaces, and no field holds a space |
| TextCounters.JoinFields | text_statistics.py:175 | joining the fields with single spaces gives the text back |
| TextCounters.FieldsJoin | text_statistics.py:175 | splitting what was joined gives back fields that hold no space |
| TextCounters.FieldsAfterWord | text_statistics.py:175 | a word, a space and more text split into the word and the fields of the rest |
| TextCounters.FieldsOfWord | text_statistics.py:175 | a text without spaces is a single field |
| TextCounters.WordCount | text_statistics.py:162-169 | the empty text has 0 words; any other text has as many words as `split(' ')` has fields |
| TextCounters.LetterCount | text_statistics.py:190-193 | the letter count is the number of `[a-zA-Z0-9]` characters, at most the length |
| TextCounters.LetterCountAppend | text_statistics.py:190-193 | the letter count of two texts put together is the sum of their counts |
| TextCounters.LetterCountLower | text_statistics.py:190-193 | lower-casing does not change the letter count |
| TextCounters.TextSyllables | text_statistics.py:174-176 | `_count_syllables`: `syllable_count` summed over the fields of `split(' ')`; stated by SpacelessText, WordThenText, LeadingSpace and EmptyTextSyllables |
| TextCounters.SpacelessText | text_statistics.py:174-176 | a text without spaces counts the syllables of that one word |
| TextCounters.WordThenText | text_statistics.py:174-176 | a word, a space and more text count the word's syllables plus the rest's |
| TextCounters.LeadingSpace | text_statistics.py:174-176 | an extra space makes an empty field that adds nothing |
| TextCounters.EmptyTextSyllables | text_statistics.py:174-176 | the empty text counts 0 syllables |
| TextCounters.CountPolysyllables | text_statistics.py:183-186 | at most all the words are polysyllabic |
| TextCounters.ComplexFieldsArePolysyllables | text_statistics.py:183-186 | on fields, which hold no space, testing `_count_syllables(w) >= 3` is testing the word's syllable count |
| TextCounters.ComplexWords | text_statistics.py:178-188 | the denominator is the number of fields, at least 1; the numerator is the number of fields with 3 or more syllables, at most the denominator |
| TextCounters.ComplexShareBounds | text_statistics.py:188 | the share lies in [0, 1], and the division is never by zero |
| TextCounters.EmptyComplexShare | text_statistics.py:178-188 | the empty text has share 0/1 |
| TextCounters.RemoveAll | text_statistics.py:157-158 | deleting occurrences never lengthens the text |
| TextCounters.FakeDots | text_statistics.py:148-151 | initials hold two terminators and `Mr.` holds one |
| TextCounters.RemoveAllLength | text_statistics.py:157-158 | the text shrinks by exactly the width of each deleted occurrence |
| TextCounters.RemoveAllTerminators | text_statistics.py:157-158 | each deleted occurrence takes its own terminators and no others |
| TextCounters.RemoveAllWithoutCapitals | text_statistics.py:148-151 | a text without capitals loses nothing |
| TextCounters.FakeHasNoSpace | text_statistics.py:148-151 | no occurrence holds a space |
| TextCounters.NoFakeAcrossSpace | text_statistics.py:148-151 | an occurrence cannot reach across a space |
| TextCounters.RemoveAllAtFake | text_statistics.py:158 | an occurrence at the front is deleted |
| TextCounters.RemoveAllAtOther | text_statistics.py:158 | otherwise the first character is kept |
| TextCounters.RemoveAllSplit | text_statistics.py:158 | deletion works piece by piece across a space |
| TextCounters.SplitAfterFake | text_statistics.py:158 | the same, when the text starts with an occurrence |
| TextCounters.SplitAfterOther | text_statistics.py:158 | the same, when it does not |
| TextCounters.RemoveAllKeepsSpace | text_statistics.py:158 | a leading space survives deletion |
| TextCounters.RemoveFakes | text_statistics.py:157-158 | the removers applied in order, each to what the previous one left; stated by FakeSentencesInOrder |
| TextCounters.SentenceCount | text_statistics.py:152-160 | the count is 0 iff the text is empty |
| TextCounters.CountSentences | text_statistics.py:152-160 | the loop over the two removers, then counting terminators with a floor of 1, gives the specification count |
| TextCounters.FakeSentencesInOrder | text_statistics.py:148-158 | the initials are deleted first, then `Mr.` from what is left |
| TextCounters.TerminatorsLeftSplit | text_statistics.py:157-160 | terminators left after the removers add up across a space |
| TextCounters.TerminatorsAccounting | text_statistics.py:157-160 | the terminators left are the text's terminators minus 2 per initials deleted and 1 per `Mr.` deleted |
| TextCounters.SentenceAccounting | text_statistics.py:152-160 | a non-empty text counts that number of sentences, but at least 1 |
| TextCounters.SentenceBound | text_statistics.py:152-160 | a non-empty text counts at least 1 sentence and never more than max(1, its terminators) |
| TextCounters.SentencesWithoutCapitals | text_statistics.py:152-160 | without capitals nothing is removed, and every terminator counts |
| CountExamples.DoubleSpace | text_statistics.py:162-169 | "a  b" splits into "a", "", "b" and counts as 3 words |
| CountExamples.NoTerminators | text_statistics.py:157-160 | a text without terminators has none left |
| CountExamples.NothingToRemove | text_statistics.py:157-158 | a text without capitals keeps all its terminators |
| CountExamples.TooShort | text_statistics.py:158 | a text shorter than a pattern holds none of it |
| CountExamples.MisterRemoved | text_statistics.py:150-158 | "Mr." loses its one terminator |
| CountExamples.InitialsRemoved | text_statistics.py:149-158 | " U.K." loses both its terminators |
| CountExamples.LastWord | text_statistics.py:157-160 | " today." keeps its full stop |
| CountExamples.Pieces | text_statistics.py:157-160 | terminators, before and after removal, add up across a space |
| CountExamples.AbbreviationsRemoved | text_statistics.py:152-160 | "Mr. Smith went to U.K. today." holds 4 terminators but counts as 1 sentence |
| CountExamples.Exclamations | text_statistics.py:259-265 | "!!" counts 1 syllable |

## Left out

- The readability formulas (text_statistics.py:14-112) are not modelled. They work on floating point and `Decimal`, round, and take square roots. The model stops at the integer counts they are built from.
- `clean_text` (text_statistics.py:115-116) returns its argument unchanged. Only the formulas call it, and it has nothing to model.
- `average_words_per_sentence` (text_statistics.py:171-172) only raises an exception.
- The command-line entry point (text_statistics.py:305-307) reads its argument from the command line and prints.
- The `Decimal` wrappers on the counts are not modelled: counts are integers.
- TextCounters.ComplexWords: returns the exact fraction (complex fields, fields). It does not model the rounding of `Decimal` division, which uses 28 significant digits.
- TextChars.Lower: lower-cases ASCII capitals only. Python's `str.lower` also maps other Unicode capitals, some of them (the Kelvin sign, `İ`) to ASCII letters or to two characters. So for non-ASCII words the model can disagree with the code.
- SyllablePatterns.Matches: each regular expression is written out as a predicate for words of `[a-z]`, which is all the code ever searches. General regular-expression semantics are not modelled. Neither is `$` matching before a trailing newline, which cannot occur after cleaning.
- TextCounters.Fields: splits on the space character only, as `split(' ')` does. Other whitespace stays inside a field.
