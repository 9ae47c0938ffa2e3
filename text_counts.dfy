/** The counters of text_statistics.py that the readability formulas are
    built from: sentences, words, letters, syllables and the share of
    complex words. Results that the source wraps in `Decimal` are integers
    here, and the complex-word share is kept as an exact fraction. */
module TextCounters {
  import opened TextChars
  import opened SyllableEstimator

  // ---- fields: str.split(' ') ----

  /** `s.split(' ')`: the pieces between single spaces, empty pieces
      included, so there is always at least one. */
  function Fields(s: string): (fs: seq<string>)
    ensures |fs| == 1 + CountWhere(s, IsSpace)
    ensures forall k :: 0 <= k < |fs| ==> ' ' !in fs[k]
  {
    if s == [] then [""]
    else
      var rest := Fields(s[1..]);
      if s[0] == ' ' then [""] + rest
      else [[s[0]] + rest[0]] + rest[1..]
  }

  /** `' '.join(fs)`. */
  function Join(fs: seq<string>): string
    requires fs != []
  {
    if |fs| == 1 then fs[0] else fs[0] + " " + Join(fs[1..])
  }

  /** Joining the fields with single spaces gives the text back. */
  lemma {:induction false} JoinFields(s: string)
    ensures Join(Fields(s)) == s
  {
    if s != [] {
      JoinFields(s[1..]);
      var rest := Fields(s[1..]);
      if s[0] == ' ' {
        assert Fields(s)[1..] == rest;
      } else {
        var fs := Fields(s);
        assert fs[0] == [s[0]] + rest[0];
        if |rest| == 1 {
          assert Join(fs) == [s[0]] + rest[0];
        } else {
          assert fs[1..] == rest[1..];
          assert Join(fs) == [s[0]] + (rest[0] + " " + Join(rest[1..]));
        }
      }
    }
  }

  /** A word without spaces followed by a space and more text: its fields
      are the word and the fields of the rest. */
  lemma {:induction false} FieldsAfterWord(a: string, b: string)
    requires ' ' !in a
    ensures Fields(a + " " + b) == [a] + Fields(b)
  {
    if a == [] {
      assert a + " " + b == [' '] + b;
      assert ([' '] + b)[1..] == b;
    } else {
      assert (a + " " + b)[1..] == a[1..] + " " + b;
      FieldsAfterWord(a[1..], b);
      assert [a[0]] + a[1..] == a;
    }
  }

  /** A word without spaces is a single field. */
  lemma {:induction false} FieldsOfWord(a: string)
    requires ' ' !in a
    ensures Fields(a) == [a]
  {
    if a != [] {
      FieldsOfWord(a[1..]);
      assert [a[0]] + a[1..] == a;
    }
  }

  /** Splitting what was joined gives the fields back, when no field holds a
      space: the other half of the round trip. */
  lemma {:induction false} FieldsJoin(fs: seq<string>)
    requires fs != []
    requires forall k :: 0 <= k < |fs| ==> ' ' !in fs[k]
    ensures Fields(Join(fs)) == fs
  {
    if |fs| == 1 {
      FieldsOfWord(fs[0]);
    } else {
      FieldsJoin(fs[1..]);
      FieldsAfterWord(fs[0], Join(fs[1..]));
      assert fs == [fs[0]] + fs[1..];
    }
  }

  // ---- words ----

  /** `_count_words(text)`: zero for the empty text, otherwise one more than
      the number of spaces (text_statistics.py:162-169). */
  function WordCount(text: string): (n: nat)
    ensures text == [] ==> n == 0
    ensures text != [] ==> n == |Fields(text)|
  {
    if text == [] then 0 else 1 + |Keep(text, IsSpace)|
  }

  // ---- letters ----

  /** `_count_letters(text)`: the length of the text reduced to
      `[a-zA-Z0-9]` (text_statistics.py:190-193). */
  function LetterCount(text: string): (n: nat)
    ensures n == CountWhere(text, IsAlnum)
    ensures n <= |text|
  {
    |Alnum(text)|
  }

  /** The letter count of two texts put together is the sum of their counts. */
  lemma LetterCountAppend(a: string, b: string)
    ensures LetterCount(a + b) == LetterCount(a) + LetterCount(b)
  {
    CountWhereAppend(a, b, IsAlnum);
  }

  /** Lower-casing does not change the letter count. */
  lemma LetterCountLower(text: string)
    ensures LetterCount(Lower(text)) == LetterCount(text)
  {
    AlnumLower(text);
  }

  // ---- syllables ----

  /** The sum of the syllable counts of `ws`. */
  function SumSyllables(ws: seq<string>): int
  {
    if ws == [] then 0 else Syllables(ws[0]) + SumSyllables(ws[1..])
  }

  /** `_count_syllables(text)`: `syllable_count` summed over the fields of
      `text.split(' ')` (text_statistics.py:174-176). */
  function TextSyllables(text: string): int
  {
    SumSyllables(Fields(text))
  }

  /** A text without spaces is one field, counted as one word. */
  lemma SpacelessText(w: string)
    requires ' ' !in w
    ensures TextSyllables(w) == Syllables(w)
  {
    FieldsOfWord(w);
    var fs := Fields(w);
    assert fs == [w];
    assert fs[1..] == [];
    assert SumSyllables(fs) == Syllables(fs[0]) + SumSyllables(fs[1..]);
  }

  /** A word, a space and more text: the word's count plus the rest's. */
  lemma WordThenText(a: string, b: string)
    requires ' ' !in a
    ensures TextSyllables(a + " " + b) == Syllables(a) + TextSyllables(b)
  {
    FieldsAfterWord(a, b);
    assert ([a] + Fields(b))[1..] == Fields(b);
  }

  /** An extra space makes an empty field, which adds nothing. */
  lemma LeadingSpace(b: string)
    ensures TextSyllables(" " + b) == TextSyllables(b)
  {
    WordThenText("", b);
    assert "" + " " + b == " " + b;
  }

  /** The empty text has one empty field and no syllables. */
  lemma EmptyTextSyllables()
    ensures TextSyllables("") == 0
  {
    assert Fields("") == [""];
  }

  // ---- complex words ----

  /** A fraction kept exactly: `Decimal(num) / Decimal(den)`. */
  datatype Ratio = Ratio(num: nat, den: nat)

  /** Number of fields whose `_count_syllables` is at least 3. */
  function CountComplex(ws: seq<string>): nat
  {
    if ws == [] then 0
    else (if TextSyllables(ws[0]) >= 3 then 1 else 0) + CountComplex(ws[1..])
  }

  /** Number of words of `ws` whose syllable count is at least 3. */
  function CountPolysyllables(ws: seq<string>): (n: nat)
    ensures n <= |ws|
  {
    if ws == [] then 0
    else (if Syllables(ws[0]) >= 3 then 1 else 0) + CountPolysyllables(ws[1..])
  }

  /** For fields, which hold no space, the two counts agree. */
  lemma {:induction false} ComplexFieldsArePolysyllables(ws: seq<string>)
    requires forall k :: 0 <= k < |ws| ==> ' ' !in ws[k]
    ensures CountComplex(ws) == CountPolysyllables(ws)
  {
    if ws != [] {
      SpacelessText(ws[0]);
      ComplexFieldsArePolysyllables(ws[1..]);
    }
  }

  /** `_count_complex_words(text)`: the share of the fields with three or
      more syllables (text_statistics.py:178-188). */
  function ComplexWords(text: string): (r: Ratio)
    ensures r.den == |Fields(text)| >= 1
    ensures r.num == CountPolysyllables(Fields(text)) <= r.den
  {
    var fields := Fields(text);
    ComplexFieldsArePolysyllables(fields);
    Ratio(CountComplex(fields), |fields|)
  }

  /** The share lies between 0 and 1; the division is never by zero. */
  lemma ComplexShareBounds(text: string)
    ensures 0.0 <= ComplexWords(text).num as real / ComplexWords(text).den as real <= 1.0
  {
    var r := ComplexWords(text);
    FractionInUnit(r.num as real, r.den as real);
  }

  lemma FractionInUnit(n: real, d: real)
    requires 0.0 <= n <= d && d > 0.0
    ensures 0.0 <= n / d <= 1.0
  {
    var q := n / d;
    assert q * d == n;
    assert (1.0 - q) * d == d - n;
  }

  /** The empty text is one empty field, and none of it is complex. */
  lemma EmptyComplexShare()
    ensures ComplexWords("") == Ratio(0, 1)
  {
    assert Fields("") == [""];
  }

  // ---- sentences ----

  /** The patterns removed before terminators are counted, so that
      abbreviations do not end sentences (text_statistics.py:148-151). */
  datatype Remover =
    | Initials  // [A-Z]\.[A-Z]\.
    | Mister    // Mr\.

  const FakeSentences: seq<Remover> := [Initials, Mister]

  function Width(r: Remover): nat
  {
    match r
    case Initials => 4
    case Mister => 3
  }

  /** `v` is an occurrence of the remover's pattern. */
  predicate FakeAt(r: Remover, v: string)
  {
    match r
    case Initials => |v| == 4 && IsUpper(v[0]) && v[1] == '.' && IsUpper(v[2]) && v[3] == '.'
    case Mister => |v| == 3 && v[0] == 'M' && v[1] == 'r' && v[2] == '.'
  }

  /** Number of terminators in an occurrence of the remover's pattern. */
  function Dots(r: Remover): nat
  {
    match r
    case Initials => 2
    case Mister => 1
  }

  function Terminators(s: string): nat
  {
    CountWhere(s, IsTerminator)
  }

  /** `remover.sub('', s)`: scanning left to right, each occurrence is
      deleted and the scan resumes after it. */
  function RemoveAll(r: Remover, s: string): (t: string)
    ensures |t| <= |s|
    decreases |s|
  {
    if |s| >= Width(r) && FakeAt(r, s[..Width(r)]) then RemoveAll(r, s[Width(r)..])
    else if s == [] then []
    else [s[0]] + RemoveAll(r, s[1..])
  }

  /** Number of occurrences `RemoveAll` deletes. */
  function Removed(r: Remover, s: string): nat
    decreases |s|
  {
    if |s| >= Width(r) && FakeAt(r, s[..Width(r)]) then 1 + Removed(r, s[Width(r)..])
    else if s == [] then 0
    else Removed(r, s[1..])
  }

  lemma FakeDots(r: Remover, v: string)
    requires FakeAt(r, v)
    ensures Terminators(v) == Dots(r)
  {
    var v1 := v[1..];
    var v2 := v1[1..];
    var v3 := v2[1..];
    assert Terminators(v) == (if IsTerminator(v[0]) then 1 else 0) + Terminators(v1);
    assert Terminators(v1) == (if IsTerminator(v1[0]) then 1 else 0) + Terminators(v2);
    assert Terminators(v2) == (if IsTerminator(v2[0]) then 1 else 0) + Terminators(v3);
    match r
    case Initials =>
      assert v3[1..] == [] && v3[0] == '.';
      assert Terminators(v3) == (if IsTerminator(v3[0]) then 1 else 0) + Terminators(v3[1..]);
    case Mister =>
      assert v3 == [];
      assert v[0] == 'M' && v1[0] == 'r' && v2[0] == '.';
  }

  /** Each deleted occurrence shortens the text by its width, and nothing
      else is lost. */
  lemma {:induction false} RemoveAllLength(r: Remover, s: string)
    ensures |RemoveAll(r, s)| + Width(r) * Removed(r, s) == |s|
    decreases |s|
  {
    var w := Width(r);
    if |s| >= w && FakeAt(r, s[..w]) {
      RemoveAllAtFake(r, s);
      RemoveAllLength(r, s[w..]);
    } else if s != [] {
      RemoveAllAtOther(r, s);
      RemoveAllLength(r, s[1..]);
    }
  }

  /** Each deleted occurrence takes its terminators with it, and no other
      terminator is lost. */
  lemma {:induction false} RemoveAllTerminators(r: Remover, s: string)
    ensures Terminators(RemoveAll(r, s)) + Dots(r) * Removed(r, s) == Terminators(s)
    decreases |s|
  {
    var w := Width(r);
    if |s| >= w && FakeAt(r, s[..w]) {
      RemoveAllAtFake(r, s);
      RemoveAllTerminators(r, s[w..]);
      FakeDots(r, s[..w]);
      assert s == s[..w] + s[w..];
      CountWhereAppend(s[..w], s[w..], IsTerminator);
    } else if s != [] {
      RemoveAllAtOther(r, s);
      RemoveAllTerminators(r, s[1..]);
    }
  }

  /** A text without capitals holds none of the patterns. */
  lemma {:induction false} RemoveAllWithoutCapitals(r: Remover, s: string)
    requires forall k :: 0 <= k < |s| ==> !IsUpper(s[k])
    ensures RemoveAll(r, s) == s
    decreases |s|
  {
    if s != [] {
      if |s| >= Width(r) {
        assert s[..Width(r)][0] == s[0];
      }
      RemoveAllWithoutCapitals(r, s[1..]);
    }
  }

  /** No pattern holds a space. */
  lemma FakeHasNoSpace(r: Remover, v: string)
    requires FakeAt(r, v)
    ensures forall i :: 0 <= i < |v| ==> v[i] != ' '
  {
  }

  /** An occurrence cannot reach over a space into the text that follows. */
  lemma NoFakeAcrossSpace(r: Remover, a: string, b: string)
    requires b != [] && b[0] == ' '
    ensures |a + b| >= Width(r) && FakeAt(r, (a + b)[..Width(r)])
            ==> Width(r) <= |a| && (a + b)[..Width(r)] == a[..Width(r)]
  {
    var w := Width(r);
    if w <= |a| {
      assert (a + b)[..w] == a[..w];
    } else if |a + b| >= w {
      var v := (a + b)[..w];
      assert v[|a|] == ' ';
      if FakeAt(r, v) {
        FakeHasNoSpace(r, v);
      }
    }
  }

  /** An occurrence at the front is deleted. */
  lemma RemoveAllAtFake(r: Remover, s: string)
    requires |s| >= Width(r) && FakeAt(r, s[..Width(r)])
    ensures RemoveAll(r, s) == RemoveAll(r, s[Width(r)..])
  {
  }

  /** Otherwise the first character is kept. */
  lemma RemoveAllAtOther(r: Remover, s: string)
    requires s != [] && !(|s| >= Width(r) && FakeAt(r, s[..Width(r)]))
    ensures RemoveAll(r, s) == [s[0]] + RemoveAll(r, s[1..])
  {
  }

  /** Removal works field by field: text before a space is scanned on its
      own. */
  lemma {:induction false} RemoveAllSplit(r: Remover, a: string, b: string)
    requires b != [] && b[0] == ' '
    ensures RemoveAll(r, a + b) == RemoveAll(r, a) + RemoveAll(r, b)
    decreases |a|, 1
  {
    if a == [] {
      assert a + b == b;
    } else if |a| >= Width(r) && FakeAt(r, a[..Width(r)]) {
      SplitAfterFake(r, a, b);
    } else {
      NoFakeAcrossSpace(r, a, b);
      SplitAfterOther(r, a, b);
    }
  }

  lemma {:induction false} SplitAfterFake(r: Remover, a: string, b: string)
    requires b != [] && b[0] == ' '
    requires |a| >= Width(r) && FakeAt(r, a[..Width(r)])
    ensures RemoveAll(r, a + b) == RemoveAll(r, a) + RemoveAll(r, b)
    decreases |a|, 0
  {
    var w := Width(r);
    var ab := a + b;
    assert ab[..w] == a[..w];
    assert ab[w..] == a[w..] + b;
    RemoveAllSplit(r, a[w..], b);
    RemoveAllAtFake(r, ab);
    RemoveAllAtFake(r, a);
  }

  lemma {:induction false} SplitAfterOther(r: Remover, a: string, b: string)
    requires b != [] && b[0] == ' '
    requires a != [] && !(|a| >= Width(r) && FakeAt(r, a[..Width(r)]))
    requires !(|a + b| >= Width(r) && FakeAt(r, (a + b)[..Width(r)]))
    ensures RemoveAll(r, a + b) == RemoveAll(r, a) + RemoveAll(r, b)
    decreases |a|, 0
  {
    var ab := a + b;
    assert ab[0] == a[0] && ab[1..] == a[1..] + b;
    RemoveAllSplit(r, a[1..], b);
    RemoveAllAtOther(r, ab);
    RemoveAllAtOther(r, a);
  }

  /** A space is never part of an occurrence, so it survives removal. */
  lemma RemoveAllKeepsSpace(r: Remover, b: string)
    requires b != [] && b[0] == ' '
    ensures RemoveAll(r, b) == " " + RemoveAll(r, b[1..])
  {
    if |b| >= Width(r) && FakeAt(r, b[..Width(r)]) {
      FakeHasNoSpace(r, b[..Width(r)]);
    }
  }

  /** The removers applied in order, each to what the previous one left. */
  function RemoveFakes(rs: seq<Remover>, s: string): string
  {
    if rs == [] then s else RemoveFakes(rs[1..], RemoveAll(rs[0], s))
  }

  /** `_count_sentences(text)`, as a specification: zero for the empty text,
      otherwise the terminators left after the removers, but at least one. */
  function SentenceCount(text: string): (n: nat)
    ensures n == 0 <==> text == []
  {
    if text == [] then 0
    else
      var c := Terminators(RemoveFakes(FakeSentences, text));
      if c > 1 then c else 1
  }

  /** `_count_sentences(text)` (text_statistics.py:152-160), step by step. */
  method CountSentences(text: string) returns (n: nat)
    ensures n == SentenceCount(text)
  {
    if |text| == 0 {
      return 0;
    }
    var t := text;
    for k := 0 to |FakeSentences|
      invariant RemoveFakes(FakeSentences[k..], t) == RemoveFakes(FakeSentences, text)
    {
      assert FakeSentences[k..][1..] == FakeSentences[k + 1..];
      t := RemoveAll(FakeSentences[k], t);
    }
    assert FakeSentences[|FakeSentences|..] == [];
    var c := |Keep(t, IsTerminator)|;
    n := if c > 1 then c else 1;
  }

  /** The two removers, in the order they are applied. */
  lemma FakeSentencesInOrder(text: string)
    ensures RemoveFakes(FakeSentences, text) == RemoveAll(Mister, RemoveAll(Initials, text))
  {
    var afterInitials := RemoveAll(Initials, text);
    assert FakeSentences[1..] == [Mister] && [Mister][1..] == [];
    assert RemoveFakes(FakeSentences, text) == RemoveFakes([Mister], afterInitials);
    assert RemoveFakes([Mister], afterInitials) == RemoveFakes([], RemoveAll(Mister, afterInitials));
  }

  /** The terminators left after both removers. */
  function TerminatorsLeft(s: string): nat
  {
    Terminators(RemoveFakes(FakeSentences, s))
  }

  /** Those can be counted piece by piece, splitting before a space. */
  lemma TerminatorsLeftSplit(a: string, b: string)
    requires b != [] && b[0] == ' '
    ensures TerminatorsLeft(a + b) == TerminatorsLeft(a) + TerminatorsLeft(b)
  {
    FakeSentencesInOrder(a + b);
    FakeSentencesInOrder(a);
    FakeSentencesInOrder(b);
    RemoveAllSplit(Initials, a, b);
    RemoveAllKeepsSpace(Initials, b);
    RemoveAllSplit(Mister, RemoveAll(Initials, a), RemoveAll(Initials, b));
    CountWhereAppend(RemoveAll(Mister, RemoveAll(Initials, a)), RemoveAll(Mister, RemoveAll(Initials, b)), IsTerminator);
  }

  /** The terminators left after the removers: two fewer per initials
      removed and one fewer per `Mr.` removed. */
  lemma TerminatorsAccounting(text: string)
    ensures Terminators(RemoveFakes(FakeSentences, text))
         == Terminators(text) - 2 * Removed(Initials, text) - Removed(Mister, RemoveAll(Initials, text))
  {
    RemoveAllTerminators(Initials, text);
    RemoveAllTerminators(Mister, RemoveAll(Initials, text));
    FakeSentencesInOrder(text);
  }

  /** So the count is that number, but at least one. */
  lemma SentenceAccounting(text: string)
    requires text != []
    ensures var c := Terminators(text) - 2 * Removed(Initials, text) - Removed(Mister, RemoveAll(Initials, text));
            SentenceCount(text) == if c > 1 then c else 1
  {
    TerminatorsAccounting(text);
  }

  /** Removing abbreviations can only lower the count: it never exceeds the
      terminators of the text, nor one. */
  lemma SentenceBound(text: string)
    requires text != []
    ensures 1 <= SentenceCount(text)
    ensures SentenceCount(text) <= if Terminators(text) > 1 then Terminators(text) else 1
  {
    SentenceAccounting(text);
  }

  /** Without capitals nothing is removed, and every terminator counts. */
  lemma SentencesWithoutCapitals(text: string)
    requires text != []
    requires forall k :: 0 <= k < |text| ==> !IsUpper(text[k])
    ensures SentenceCount(text) == if Terminators(text) > 1 then Terminators(text) else 1
  {
    RemoveAllWithoutCapitals(Initials, text);
    RemoveAllWithoutCapitals(Mister, text);
    FakeSentencesInOrder(text);
  }
}
