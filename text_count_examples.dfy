/** Worked examples of the text counters of text_statistics.py: a double
    space makes an empty word, and abbreviations do not end sentences. */
module CountExamples {
  import opened TextChars
  import opened SyllableEstimator
  import opened TextCounters

  // ---- words ----

  /** "a  b" splits into "a", "" and "b", so it counts as three words. */
  lemma DoubleSpace(text: string)
    requires text == "a  b"
    ensures Fields(text) == ["a", "", "b"]
    ensures WordCount(text) == 3
  {
    assert text == "a" + " " + " b";
    FieldsAfterWord("a", " b");
    assert " b" == "" + " " + "b";
    FieldsAfterWord("", "b");
    FieldsOfWord("b");
  }

  // ---- sentences ----

  /** A text without terminators has none left after the removers. */
  lemma {:induction false} NoTerminators(s: string)
    requires forall k :: 0 <= k < |s| ==> !IsTerminator(s[k])
    ensures Terminators(s) == 0
    ensures TerminatorsLeft(s) == 0
  {
    if s != [] {
      NoTerminators(s[1..]);
    }
    TerminatorsAccounting(s);
  }

  /** A text without capitals keeps all its terminators. */
  lemma NothingToRemove(s: string)
    requires forall k :: 0 <= k < |s| ==> !IsUpper(s[k])
    ensures TerminatorsLeft(s) == Terminators(s)
  {
    RemoveAllWithoutCapitals(Initials, s);
    RemoveAllWithoutCapitals(Mister, s);
    FakeSentencesInOrder(s);
  }

  /** A text shorter than a pattern holds no occurrence of it. */
  lemma {:induction false} TooShort(r: Remover, s: string)
    requires |s| < Width(r)
    ensures RemoveAll(r, s) == s
  {
    if s != [] {
      TooShort(r, s[1..]);
    }
  }

  /** "Mr." is removed whole, with its full stop. */
  lemma MisterRemoved(s: string)
    requires s == "Mr."
    ensures Terminators(s) == 1
    ensures TerminatorsLeft(s) == 0
  {
    FakeDots(Mister, s);
    FakeSentencesInOrder(s);
    TooShort(Initials, s);
    RemoveAllAtFake(Mister, s);
  }

  /** " U.K." loses the initials and keeps only its space. */
  lemma InitialsRemoved(s: string)
    requires s == " U.K."
    ensures Terminators(s) == 2
    ensures TerminatorsLeft(s) == 0
  {
    var initials := s[1..];
    FakeDots(Initials, initials);
    FakeSentencesInOrder(s);
    RemoveAllKeepsSpace(Initials, s);
    RemoveAllAtFake(Initials, initials);
    TooShort(Mister, " ");
  }

  /** " today." keeps its full stop. */
  lemma LastWord(s: string)
    requires s == " today."
    ensures Terminators(s) == 1
    ensures TerminatorsLeft(s) == 1
  {
    NothingToRemove(s);
    assert s == " today" + ".";
    NoTerminators(" today");
    CountWhereAppend(" today", ".", IsTerminator);
  }

  /** The terminators and what is left of them add up piece by piece. */
  lemma Pieces(a: string, b: string)
    requires b != [] && b[0] == ' '
    ensures Terminators(a + b) == Terminators(a) + Terminators(b)
    ensures TerminatorsLeft(a + b) == TerminatorsLeft(a) + TerminatorsLeft(b)
  {
    CountWhereAppend(a, b, IsTerminator);
    TerminatorsLeftSplit(a, b);
  }

  // "Mr. Smith went to U.K. today.", one word at a time.

  lemma UpToSmith(s: string)
    requires s == "Mr." + " Smith"
    ensures Terminators(s) == 1 && TerminatorsLeft(s) == 0
  {
    MisterRemoved("Mr.");
    Pieces("Mr.", " Smith");
    NoTerminators(" Smith");
  }

  lemma UpToWent(s: string)
    requires s == "Mr." + " Smith" + " went"
    ensures Terminators(s) == 1 && TerminatorsLeft(s) == 0
  {
    UpToSmith("Mr." + " Smith");
    Pieces("Mr." + " Smith", " went");
    NoTerminators(" went");
  }

  lemma UpToTo(s: string)
    requires s == "Mr." + " Smith" + " went" + " to"
    ensures Terminators(s) == 1 && TerminatorsLeft(s) == 0
  {
    UpToWent("Mr." + " Smith" + " went");
    Pieces("Mr." + " Smith" + " went", " to");
    NoTerminators(" to");
  }

  lemma UpToInitials(s: string)
    requires s == "Mr." + " Smith" + " went" + " to" + " U.K."
    ensures Terminators(s) == 3 && TerminatorsLeft(s) == 0
  {
    UpToTo("Mr." + " Smith" + " went" + " to");
    Pieces("Mr." + " Smith" + " went" + " to", " U.K.");
    InitialsRemoved(" U.K.");
  }

  /** "Mr. Smith went to U.K. today." holds four terminators but counts as
      one sentence. */
  lemma AbbreviationsRemoved(text: string)
    requires text == "Mr." + " Smith" + " went" + " to" + " U.K." + " today."
    ensures Terminators(text) == 4
    ensures SentenceCount(text) == 1
  {
    UpToInitials("Mr." + " Smith" + " went" + " to" + " U.K.");
    Pieces("Mr." + " Smith" + " went" + " to" + " U.K.", " today.");
    LastWord(" today.");
  }

  // ---- syllables ----

  /** A word of punctuation alone counts as one syllable. */
  lemma Exclamations(word: string)
    requires word == "!!"
    ensures Syllables(word) == 1
  {
    assert word == "!" + "!";
    KeepAppend("!", "!", IsAlnum);
    PunctuationOnly(word);
  }
}
