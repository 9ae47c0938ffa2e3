/** Worked words for the syllable estimator of text_statistics.py: the
    exception table short-circuits, affix stripping works on the word the
    previous affix left, and the clamp maps only an exact zero to one, so a
    word can score below zero. */
module SyllableExamples {
  import opened TextChars
  import opened SyllablePatterns
  import opened SyllableEstimator

  // ---- which patterns a word can rule out at a glance ----

  /** Four subtractive patterns spell an `i`, so a word without one finds none of them. */
  lemma SubtractiveNeedI(w: string)
    requires 'i' !in w
    ensures !Matches(Cial, w) && !Matches(Tia, w) && !Matches(Cius, w) && !Matches(Cious, w)
  {
    AbsentFromWord(w, "cial", 'i');
    AbsentFromWord(w, "tia", 'i');
    AbsentFromWord(w, "cius", 'i');
    AbsentFromWord(w, "cious", 'i');
  }

  /** Three more subtractive patterns spell an `i`. */
  lemma SubtractiveNeedIMore(w: string)
    requires 'i' !in w
    ensures !Matches(Giu, w) && !Matches(Ion, w) && !Matches(Iou, w)
  {
    AbsentFromWord(w, "giu", 'i');
    AbsentFromWord(w, "ion", 'i');
    AbsentFromWord(w, "iou", 'i');
  }

  /** Three additive patterns spell an `i`. */
  lemma AdditiveNeedI(w: string)
    requires 'i' !in w
    ensures !Matches(Ia, w) && !Matches(Riet, w) && !Matches(Dien, w)
  {
    AbsentFromWord(w, "ia", 'i');
    AbsentFromWord(w, "riet", 'i');
    AbsentFromWord(w, "dien", 'i');
  }

  /** Three more additive patterns spell an `i`. */
  lemma AdditiveNeedIMore(w: string)
    requires 'i' !in w
    ensures !Matches(Iu, w) && !Matches(Io, w) && !Matches(Ii, w)
  {
    AbsentFromWord(w, "iu", 'i');
    AbsentFromWord(w, "io", 'i');
    AbsentFromWord(w, "ii", 'i');
  }

  /** `[^l]lien` needs an `l` and `[^gq]ua[^auieo]` a `u`. */
  lemma AdditiveNeedLU(w: string)
    requires 'l' !in w && 'u' !in w
    ensures !Matches(Lien, w) && !Matches(Ua, w)
  {
    AbsentCharacter(w, 5, LienAfterNonL, 'l');
    AbsentCharacter(w, 4, UaBetween, 'u');
  }

  /** The anchored additive patterns end with `l`, `m`, `t`, `y` or `r`. */
  lemma AdditiveEndings(w: string)
    requires w != [] && w[|w| - 1] !in "lmtyr"
    ensures !Matches(BlEnd, w) && !Matches(IsmEnd, w) && !Matches(DoubledConsonantL, w)
  {
    EndsWithLast(w, "bl");
    EndsWithLast(w, "ism");
  }

  lemma AdditiveEndingsMore(w: string)
    requires w != [] && w[|w| - 1] !in "lmtyr"
    ensures !Matches(DntEnd, w) && !Matches(UityEnd, w) && !Matches(IerIestEnd, w)
  {
    EndsWithLast(w, "dnt");
    EndsWithLast(w, "uity");
    EndsWithLast(w, "ier");
    EndsWithLast(w, "iest");
  }

  /** The start-anchored patterns need a word beginning with `m` or `c`. */
  lemma AdditiveStarts(w: string)
    requires w != [] && w[0] != 'm' && w[0] != 'c'
    ensures !Matches(McStart, w) && !Matches(CoaStart, w)
  {
    assert |w| < 3 || w[..3][0] == w[0];
    assert |w| < 2 || w[..2][0] == w[0];
  }

  /** The anchored subtractive patterns end with `a`, `d`, `e`, `y`, `r` or `s`. */
  lemma SubtractiveEndings(w: string)
    requires w != [] && w[|w| - 1] !in "adeyrs"
    ensures !Matches(SiaEnd, w) && !Matches(ConsonantsEdEnd, w) && !Matches(ElyEnd, w)
  {
    EndsWithLast(w, "sia");
    EndsWithLast(w, "ed");
    EndsWithLast(w, "ely");
  }

  lemma SubtractiveEndingsMore(w: string)
    requires w != [] && w[|w| - 1] !in "adeyrs"
    ensures !Matches(SoftEEnd, w) && !Matches(RvedEnd, w)
  {
    EndsWithLast(w, "e");
    EndsWithLast(w, "rve");
    EndsWithLast(w, "rved");
  }

  lemma SubtractiveEndingsLast(w: string)
    requires w != [] && w[|w| - 1] !in "adeyrs"
    ensures !Matches(VowelDentalEsEnd, w) && !Matches(VowelConsonantEEnd, w) && !Matches(VowelRseEnd, w)
  {
    EndsWithLast(w, "rse");
  }

  /** A word outside the table whose score is not zero counts its score. */
  lemma ScoredWord(word: string, clean: string)
    requires word != [] && Alnum(Lower(word)) == clean
    requires clean !in ProblemWords && Score(clean) != 0
    ensures Syllables(word) == Score(clean)
  {
  }

  /** Lower-casing leaves a word without capitals as it is. */
  lemma LowerOfLowercase(w: string)
    requires forall i :: 0 <= i < |w| ==> !IsUpper(w[i])
    ensures Lower(w) == w
  {
  }

  // ---- the exception table ----

  /** A word that cleans to a table word counts as the table says. */
  lemma TableWord(word: string, clean: string)
    requires word != [] && Alnum(Lower(word)) == clean && clean in ProblemWords
    ensures Syllables(word) == ProblemWords[clean]
  {
  }

  lemma SimileLower(w: string)
    requires w == "Simile!"
    ensures Lower(w) == "simile" + "!"
  {
    var l := Lower(w);
    LowerOfLowercase(w[1..]);
    assert l[1..] == Lower(w[1..]);
    assert l == [LowerChar('S')] + w[1..];
  }

  lemma SimileClean(w: string)
    requires w == "Simile!"
    ensures Alnum(Lower(w)) == "simile"
  {
    SimileLower(w);
    KeepAppend("simile", "!", IsAlnum);
  }

  /** "Simile!" is lower-cased and cleaned to a table word. */
  lemma Simile()
    ensures Syllables("Simile!") == 3
  {
    SimileClean("Simile!");
    TableWord("Simile!", "simile");
  }

  lemma UnchangedByCleaning(w: string)
    requires w == "forever" || w == "shoreline"
    ensures Alnum(Lower(w)) == w
  {
    LowerOfLowercase(w);
  }

  lemma Forever()
    ensures Syllables("forever") == 3
  {
    UnchangedByCleaning("forever");
    TableWord("forever", "forever");
  }

  lemma Shoreline()
    ensures Syllables("shoreline") == 2
  {
    UnchangedByCleaning("shoreline");
    TableWord("shoreline", "shoreline");
  }

  // ---- un-fore-seen ----

  lemma UnStripped(w: string)
    requires w == "unforeseen"
    ensures StripOne(UnPrefix, w) == Stripped("foreseen", 1)
  {
    assert w[..2] == "un";
  }

  lemma ForeStripped(w: string)
    requires w == "foreseen"
    ensures StripOne(ForePrefix, w) == Stripped("seen", 1)
  {
    assert w[..4] == "fore";
  }

  lemma SeenUntouched(w: string)
    requires w == "seen"
    ensures StripAffixes(Affixes[2..], w) == Stripped(w, 0)
  {
    UntouchedByAffixes(Affixes[2..], w);
  }

  /** `un` goes first, which exposes `fore`: two affixes, leaving "seen". */
  lemma UnforeseenStripped(w: string)
    requires w == "unforeseen"
    ensures StripAffixes(Affixes, w) == Stripped("seen", 2)
  {
    UnStripped(w);
    ForeStripped("foreseen");
    SeenUntouched("seen");
    assert Affixes[1..][1..] == Affixes[2..];
  }

  lemma ForeNotFirst(w: string)
    requires w == "unforeseen"
    ensures StripOne(ForePrefix, w) == Stripped(w, 0)
  {
    assert w[..4][0] == 'u';
  }

  /** With the two prefixes the other way round, `fore` is not at the start
      when it is tried, so only `un` is stripped: the order matters. */
  lemma PrefixOrderMatters(w: string)
    requires w == "unforeseen"
    ensures StripAffixes([ForePrefix, UnPrefix], w) == Stripped("foreseen", 1)
  {
    ForeNotFirst(w);
    UnStripped(w);
    var order := [ForePrefix, UnPrefix];
    assert order[1..] == [UnPrefix] && order[1..][1..] == [];
    assert StripAffixes(order[1..][1..], "foreseen") == Stripped("foreseen", 0);
  }

  lemma SeenNoThreeVowels(w: string)
    requires w == "seen"
    ensures !Matches(ThreeVowelRun, w)
  {
    var rest := w[1..];
    assert w[..3][0] == 's';
    assert !ThreeVowels(w[..3]);
    assert |rest| == 3 && rest[..3][2] == 'n';
    assert !ThreeVowels(rest[..3]);
    assert !Somewhere(rest, 3, ThreeVowels);
  }

  lemma SeenSubtractive(w: string)
    requires w == "seen"
    ensures Hits(Subtractive, w) == 0
  {
    SubtractiveNeedI(w);
    SubtractiveNeedIMore(w);
    SubtractiveEndings(w);
    SubtractiveEndingsMore(w);
    SubtractiveEndingsLast(w);
    NoHits(Subtractive, w);
  }

  lemma SeenAdditive(w: string)
    requires w == "seen"
    ensures Hits(Additive, w) == 0
  {
    AdditiveNeedI(w);
    AdditiveNeedIMore(w);
    AdditiveNeedLU(w);
    AdditiveEndings(w);
    AdditiveEndingsMore(w);
    AdditiveStarts(w);
    SeenNoThreeVowels(w);
    NoHits(Additive, w);
  }

  lemma SeenRuns(w: string)
    requires w == "seen"
    ensures Letters(w) == w && VowelRuns(w) == 1
  {
    RunsOverConsonants(w, 1, false);
    RunsOverVowels(w[1..], 2, false);
    RunsOverConsonants(w[3..], 1, true);
    assert w[1..][2..] == w[3..] && w[3..][1..] == [];
  }

  lemma UnforeseenClean(w: string)
    requires w == "unforeseen"
    ensures Alnum(Lower(w)) == w && w !in ProblemWords
  {
    LowerOfLowercase(w);
  }

  lemma UnforeseenScore(w: string)
    requires w == "unforeseen"
    ensures Score(w) == 3
  {
    UnforeseenStripped(w);
    SeenRuns("seen");
    SeenSubtractive("seen");
    SeenAdditive("seen");
  }

  /** un-fore-seen: one vowel run and two affixes, no correction. */
  lemma Unforeseen()
    ensures Syllables("unforeseen") == 3
  {
    UnforeseenClean("unforeseen");
    UnforeseenScore("unforeseen");
    ScoredWord("unforeseen", "unforeseen");
  }

  // ---- rved ----

  /** `[^aeiuoyt]{2,}ed$` and `rved?$` occur in "rved". */
  lemma RvedSubtractiveEndings(w: string)
    requires w == "rved"
    ensures Matches(ConsonantsEdEnd, w) && Matches(RvedEnd, w)
  {
  }

  lemma RvedOtherEndings(w: string)
    requires w == "rved"
    ensures !Matches(SiaEnd, w) && !Matches(ElyEnd, w) && !Matches(SoftEEnd, w)
  {
    assert w[..3][1] == 'v';
  }

  lemma RvedLastEndings(w: string)
    requires w == "rved"
    ensures !Matches(VowelDentalEsEnd, w) && !Matches(VowelConsonantEEnd, w) && !Matches(VowelRseEnd, w)
  {
    assert w[..3][0] == 'r';
  }

  /** The anchored half of the subtractive list finds two patterns. */
  lemma RvedAnchoredSubtractive(w: string)
    requires w == "rved"
    ensures Hits([ConsonantsEdEnd, ElyEnd, SoftEEnd, RvedEnd, VowelDentalEsEnd, VowelConsonantEEnd, VowelRseEnd], w) == 2
  {
    RvedSubtractiveEndings(w);
    RvedOtherEndings(w);
    RvedLastEndings(w);
  }

  lemma RvedSubtractive(w: string)
    requires w == "rved"
    ensures Hits(Subtractive, w) == 2
  {
    SubtractiveNeedI(w);
    SubtractiveNeedIMore(w);
    RvedOtherEndings(w);
    var a := [Cial, Tia, Cius, Cious, Giu, Ion, Iou, SiaEnd];
    var d := [ConsonantsEdEnd, ElyEnd, SoftEEnd, RvedEnd, VowelDentalEsEnd, VowelConsonantEEnd, VowelRseEnd];
    NoHits(a, w);
    RvedAnchoredSubtractive(w);
    assert Subtractive == a + d;
    HitsAppend(a, d, w);
  }

  lemma RvedNoThreeVowels(w: string)
    requires w == "rved"
    ensures !Matches(ThreeVowelRun, w)
  {
    var rest := w[1..];
    assert w[..3][0] == 'r';
    assert !ThreeVowels(w[..3]);
    assert |rest| == 3 && rest[..3][0] == 'v';
    assert !ThreeVowels(rest[..3]);
    assert !Somewhere(rest, 3, ThreeVowels);
  }

  lemma RvedAdditive(w: string)
    requires w == "rved"
    ensures Hits(Additive, w) == 0
  {
    AdditiveNeedI(w);
    AdditiveNeedIMore(w);
    AdditiveNeedLU(w);
    AdditiveEndings(w);
    AdditiveEndingsMore(w);
    AdditiveStarts(w);
    RvedNoThreeVowels(w);
    NoHits(Additive, w);
  }

  lemma RvedRuns(w: string)
    requires w == "rved"
    ensures Letters(w) == w && VowelRuns(w) == 1
  {
    RunsOverConsonants(w, 2, false);
    RunsOverVowels(w[2..], 1, false);
    RunsOverConsonants(w[3..], 1, true);
    assert w[2..][1..] == w[3..] && w[3..][1..] == [];
  }

  lemma RvedClean(w: string)
    requires w == "rved"
    ensures Alnum(Lower(w)) == w && w !in ProblemWords
  {
    LowerOfLowercase(w);
  }

  lemma RvedNoAffixes(w: string)
    requires w == "rved"
    ensures StripAffixes(Affixes, w) == Stripped(w, 0)
  {
    UntouchedByAffixes(Affixes, w);
  }

  lemma RvedScore(w: string)
    requires w == "rved"
    ensures Score(w) == -1
  {
    RvedNoAffixes(w);
    RvedRuns(w);
    RvedSubtractive(w);
    RvedAdditive(w);
  }

  /** One vowel run minus two subtractive patterns: a non-empty word scoring
      below zero, which the clamp leaves alone. */
  lemma RvedIsNegative()
    ensures Syllables("rved") == -1
  {
    RvedClean("rved");
    RvedScore("rved");
    ScoredWord("rved", "rved");
  }
}
