/** The syllable estimator of text_statistics.py (`syllable_count`): a word is
    lower-cased and stripped to letters and digits, looked up in a table of
    exceptions, and otherwise scored as its number of vowel runs, plus one per
    stripped affix, minus one per subtractive pattern found, plus one per
    additive pattern found; a score of exactly zero becomes one. */
module SyllableEstimator {
  import opened TextChars
  import opened SyllablePatterns

  /** Words whose count is fixed, consulted after cleaning (text_statistics.py:195-199). */
  const ProblemWords: map<string, int> := map["simile" := 3, "forever" := 3, "shoreline" := 2]

  // ---- vowel runs ----

  /** Number of vowels of `s` that do not follow a vowel, counting the
      character before `s` as a vowel when `inRun` holds. */
  function RunsAfter(s: string, inRun: bool): nat
  {
    if s == [] then 0
    else (if IsVowel(s[0]) && !inRun then 1 else 0) + RunsAfter(s[1..], IsVowel(s[0]))
  }

  /** Number of maximal runs of `[aeiouy]` in `s`. */
  function VowelRuns(s: string): nat
  {
    RunsAfter(s, false)
  }

  lemma {:induction false} RunsAfterBound(s: string, inRun: bool)
    ensures RunsAfter(s, inRun) <= |s|
  {
    if s != [] {
      RunsAfterBound(s[1..], IsVowel(s[0]));
    }
  }

  /** There are at most as many vowel runs as characters, and none exactly
      when the word has no vowel. */
  lemma {:induction false} VowelRunsBounds(s: string)
    ensures VowelRuns(s) <= |s|
    ensures VowelRuns(s) == 0 <==> forall k :: 0 <= k < |s| ==> !IsVowel(s[k])
  {
    RunsAfterBound(s, false);
    if s != [] && !IsVowel(s[0]) {
      VowelRunsBounds(s[1..]);
      assert forall k :: 1 <= k < |s| ==> s[k] == s[1..][k - 1];
    }
  }

  /** The first index at or after `i` whose character is not (`vowel`) or is
      (`!vowel`) a vowel, or `|s|`. */
  function SkipWhile(s: string, i: nat, vowel: bool): (j: nat)
    requires i <= |s|
    ensures i <= j <= |s|
    ensures forall k :: i <= k < j ==> IsVowel(s[k]) == vowel
    ensures j < |s| ==> IsVowel(s[j]) != vowel
    decreases |s| - i
  {
    if i == |s| || IsVowel(s[i]) != vowel then i else SkipWhile(s, i + 1, vowel)
  }

  /** `re.split(r'[^aeiouy]+', s)`: the pieces between maximal runs of
      non-vowels (text_statistics.py:253, 283). */
  function WordParts(s: string): (parts: seq<string>)
    ensures |parts| >= 1
    ensures forall k, c :: 0 <= k < |parts| && c in parts[k] ==> IsVowel(c)
    decreases |s|
  {
    var i := SkipWhile(s, 0, true);
    if i == |s| then [s]
    else
      var j := SkipWhile(s, i, false);
      [s[..i]] + WordParts(s[j..])
  }

  /** Number of non-empty strings in `parts`. */
  function NonEmptyParts(parts: seq<string>): nat
  {
    if parts == [] then 0 else (if parts[0] != "" then 1 else 0) + NonEmptyParts(parts[1..])
  }

  lemma {:induction false} RunsOverVowels(s: string, i: nat, inRun: bool)
    requires i <= |s|
    requires forall k :: 0 <= k < i ==> IsVowel(s[k])
    ensures RunsAfter(s, inRun) == (if i > 0 && !inRun then 1 else 0) + RunsAfter(s[i..], i > 0 || inRun)
  {
    if i > 0 {
      RunsOverVowels(s[1..], i - 1, true);
      assert s[1..][i - 1..] == s[i..];
    }
  }

  lemma {:induction false} RunsOverConsonants(s: string, i: nat, inRun: bool)
    requires 0 < i <= |s|
    requires forall k :: 0 <= k < i ==> !IsVowel(s[k])
    ensures RunsAfter(s, inRun) == RunsAfter(s[i..], false)
  {
    if i > 1 {
      RunsOverConsonants(s[1..], i - 1, false);
      assert s[1..][i - 1..] == s[i..];
    }
  }

  /** Counting the non-empty pieces of the split counts the vowel runs. */
  lemma {:induction false} WordPartsCountRuns(s: string)
    ensures NonEmptyParts(WordParts(s)) == VowelRuns(s)
    decreases |s|
  {
    var i := SkipWhile(s, 0, true);
    RunsOverVowels(s, i, false);
    if i == |s| {
      assert WordParts(s) == [s];
      assert NonEmptyParts([s]) == (if s != "" then 1 else 0) + NonEmptyParts([]);
    } else {
      var j := SkipWhile(s, i, false);
      RunsOverConsonants(s[i..], j - i, true);
      assert s[i..][j - i..] == s[j..];
      WordPartsCountRuns(s[j..]);
      var parts := WordParts(s);
      assert parts == [s[..i]] + WordParts(s[j..]);
      assert parts[1..] == WordParts(s[j..]);
    }
  }

  // ---- the score ----

  /** The word left after affix stripping, reduced to a-z (text_statistics.py:276-282). */
  function Residue(clean: string): string
  {
    Letters(StripAffixes(Affixes, clean).residue)
  }

  /** Number of affixes stripped from the word. */
  function AffixCount(clean: string): nat
  {
    StripAffixes(Affixes, clean).count
  }

  /** Vowel runs of the residue plus stripped affixes (text_statistics.py:291). */
  function Base(clean: string): int
  {
    VowelRuns(Residue(clean)) + AffixCount(clean)
  }

  /** The corrected score before the zero clamp (text_statistics.py:292-298). */
  function Score(clean: string): int
  {
    Base(clean) - Hits(Subtractive, Residue(clean)) + Hits(Additive, Residue(clean))
  }

  /** `syllable_count(word)`, as a specification. */
  function Syllables(word: string): (n: int)
    ensures n == 0 <==> word == []
  {
    if word == [] then 0
    else
      var clean := Alnum(Lower(word));
      if clean in ProblemWords then ProblemWords[clean]
      else if Score(clean) == 0 then 1
      else Score(clean)
  }

  /** The affix loop of `syllable_count`: each rule in turn is counted and
      removed from what the previous rules left (text_statistics.py:276-279). */
  method StripEach(affixes: seq<Affix>, word: string) returns (residue: string, count: nat)
    ensures Stripped(residue, count) == StripAffixes(affixes, word)
  {
    residue, count := word, 0;
    for k := 0 to |affixes|
      invariant StripAffixes(affixes[k..], residue).residue == StripAffixes(affixes, word).residue
      invariant count + StripAffixes(affixes[k..], residue).count == StripAffixes(affixes, word).count
    {
      assert affixes[k..][1..] == affixes[k + 1..];
      var stripped := StripOne(affixes[k], residue);
      count := count + stripped.count;
      residue := stripped.residue;
    }
  }

  /** The loop counting the non-empty pieces of the split (text_statistics.py:285-288). */
  method CountNonEmpty(parts: seq<string>) returns (n: nat)
    ensures n == NonEmptyParts(parts)
  {
    n := 0;
    for k := 0 to |parts|
      invariant n + NonEmptyParts(parts[k..]) == NonEmptyParts(parts)
    {
      assert parts[k..][1..] == parts[k + 1..];
      if parts[k] != "" {
        n := n + 1;
      }
    }
  }

  /** A correction loop: the number of patterns of `pats` that are found in
      `w` (text_statistics.py:292-294 and 296-298). */
  method CountHits(pats: seq<Pattern>, w: string) returns (n: nat)
    ensures n == Hits(pats, w)
  {
    n := 0;
    for k := 0 to |pats|
      invariant n + Hits(pats[k..], w) == Hits(pats, w)
    {
      assert pats[k..][1..] == pats[k + 1..];
      if Matches(pats[k], w) {
        n := n + 1;
      }
    }
  }

  /** `syllable_count(word)` (text_statistics.py:254-303), step by step. */
  method SyllableCount(word: string) returns (n: int)
    ensures n == Syllables(word)
  {
    if |word| == 0 {
      return 0;
    }
    var text := Lower(word);
    text := Alnum(text);
    if text in ProblemWords {
      return ProblemWords[text];
    }
    ghost var clean := text;

    var affixCount;
    text, affixCount := StripEach(Affixes, text);
    text := Letters(text);
    var parts := WordParts(text);
    var partCount := CountNonEmpty(parts);
    WordPartsCountRuns(text);

    n := partCount + affixCount;
    var fewer := CountHits(Subtractive, text);
    n := n - fewer;
    var more := CountHits(Additive, text);
    n := n + more;
    if n == 0 {
      n := 1;
    }
  }

  // ---- properties ----

  /** The base count never exceeds the length of the cleaned word. */
  lemma BaseAtMostLength(clean: string)
    ensures 0 <= Base(clean) <= |clean|
  {
    var stripped := StripAffixes(Affixes, clean);
    StripAffixesCount(Affixes, clean);
    VowelRunsBounds(Residue(clean));
  }

  /** Each correction list moves the score by at most its own length. */
  lemma ScoreNearBase(clean: string)
    ensures Base(clean) - |Subtractive| <= Score(clean) <= Base(clean) + |Additive|
  {
    HitsBounds(Subtractive, Residue(clean));
    HitsBounds(Additive, Residue(clean));
  }

  /** Any word scores at least minus the number of subtractive patterns and at
      most its length plus the number of additive patterns. */
  lemma SyllablesRange(word: string)
    ensures -|Subtractive| <= Syllables(word) <= |word| + |Additive|
  {
    if word != [] {
      var clean := Alnum(Lower(word));
      if clean !in ProblemWords {
        BaseAtMostLength(clean);
        ScoreNearBase(clean);
      }
    }
  }

  /** A non-empty word without letters or digits scores 1, not 0: the empty
      check looks at the word before it is cleaned. */
  lemma PunctuationOnly(word: string)
    requires word != [] && Alnum(word) == []
    ensures Syllables(word) == 1
  {
    AlnumLower(word);
    assert Alnum(Lower(word)) == [];
    EmptyScore(Alnum(Lower(word)));
  }

  /** The empty cleaned word scores 0. */
  lemma EmptyScore(clean: string)
    requires clean == ""
    ensures Score(clean) == 0
  {
    StripAffixesCount(Affixes, "");
    NoHitsOnEmpty(Subtractive);
    NoHitsOnEmpty(Additive);
  }

  lemma {:induction false} NoHitsOnEmpty(pats: seq<Pattern>)
    ensures Hits(pats, "") == 0
  {
    if pats != [] {
      NothingMatchesEmpty(pats[0]);
      NoHitsOnEmpty(pats[1..]);
    }
  }

  /** The count depends on a non-empty word only through its cleaned form. */
  lemma SameCleanSameCount(a: string, b: string)
    requires a != [] && b != [] && Alnum(Lower(a)) == Alnum(Lower(b))
    ensures Syllables(a) == Syllables(b)
  {
  }

  /** Case and characters other than letters and digits do not change the
      count of a word that has at least one letter or digit. */
  lemma CleaningInvariant(word: string)
    requires Alnum(word) != []
    ensures Syllables(Lower(word)) == Syllables(word)
    ensures Syllables(Alnum(word)) == Syllables(word)
  {
    var clean := Alnum(Lower(word));
    AlnumLower(word);
    LowerIdempotent(word);
    assert Alnum(Lower(Lower(word))) == clean;
    AlnumLower(Alnum(word));
    assert Alnum(Alnum(word)) == Alnum(word);
    assert Alnum(Lower(Alnum(word))) == clean;
    SameCleanSameCount(Lower(word), word);
    SameCleanSameCount(Alnum(word), word);
  }
}
