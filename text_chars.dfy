/** Character classes and the character-level rewrites shared by the syllable
    estimator and the text counters of text_statistics.py: lower-casing,
    `re.sub(r'[^a-zA-Z0-9]', '', ...)`, `re.sub(r'[^a-z]', '', ...)` and
    counting the characters of a class. Strings are sequences of code points;
    case mapping is modelled for ASCII letters only. */
module TextChars {

  predicate IsUpper(c: char) { 'A' <= c <= 'Z' }
  predicate IsLower(c: char) { 'a' <= c <= 'z' }
  predicate IsDigit(c: char) { '0' <= c <= '9' }

  /** The class `[a-zA-Z0-9]`. */
  predicate IsAlnum(c: char) { IsUpper(c) || IsLower(c) || IsDigit(c) }

  /** The vowels of the syllable estimator, `[aeiouy]`. */
  predicate IsVowel(c: char) { c in "aeiouy" }

  predicate IsSpace(c: char) { c == ' ' }

  /** The sentence terminators `.`, `!` and `?`. */
  predicate IsTerminator(c: char) { c == '.' || c == '!' || c == '?' }

  /** `str.lower()` on one character, for the ASCII range. */
  function LowerChar(c: char): (d: char)
    ensures !IsUpper(d)
    ensures IsUpper(c) ==> IsLower(d) && d as int == c as int + 32
    ensures !IsUpper(c) ==> d == c
  {
    if IsUpper(c) then (c as int + 32) as char else c
  }

  /** `str.lower()`. */
  function Lower(s: string): (r: string)
    ensures |r| == |s|
    ensures forall i :: 0 <= i < |s| ==> r[i] == LowerChar(s[i])
  {
    seq(|s|, i requires 0 <= i < |s| => LowerChar(s[i]))
  }

  /** Number of characters of `s` in the class `p`. */
  function CountWhere(s: string, p: char -> bool): nat
  {
    if s == [] then 0 else (if p(s[0]) then 1 else 0) + CountWhere(s[1..], p)
  }

  /** The characters of `s` in the class `p`, in order: `re.sub` with the
      complement class and an empty replacement. */
  function Keep(s: string, p: char -> bool): (r: string)
    ensures |r| == CountWhere(s, p) <= |s|
    ensures forall i :: 0 <= i < |r| ==> p(r[i])
    ensures (forall i :: 0 <= i < |s| ==> p(s[i])) <==> r == s
  {
    if s == [] then []
    else if p(s[0]) then [s[0]] + Keep(s[1..], p)
    else Keep(s[1..], p)
  }

  /** `re.sub(r'[^a-zA-Z0-9]', '', s)`. */
  function Alnum(s: string): string { Keep(s, IsAlnum) }

  /** `re.sub(r'[^a-z]', '', s)`. */
  function Letters(s: string): string { Keep(s, IsLower) }

  lemma {:induction false} CountWhereAppend(a: string, b: string, p: char -> bool)
    ensures CountWhere(a + b, p) == CountWhere(a, p) + CountWhere(b, p)
  {
    if a != [] {
      assert (a + b)[1..] == a[1..] + b;
      CountWhereAppend(a[1..], b, p);
    } else {
      assert a + b == b;
    }
  }

  lemma {:induction false} KeepAppend(a: string, b: string, p: char -> bool)
    ensures Keep(a + b, p) == Keep(a, p) + Keep(b, p)
  {
    if a != [] {
      assert (a + b)[1..] == a[1..] + b;
      KeepAppend(a[1..], b, p);
    } else {
      assert a + b == b;
    }
  }

  /** Lower-casing does not change which characters are letters or digits,
      so stripping and lower-casing commute. */
  lemma {:induction false} AlnumLower(s: string)
    ensures Alnum(Lower(s)) == Lower(Alnum(s))
  {
    if s != [] {
      assert Lower(s)[1..] == Lower(s[1..]);
      AlnumLower(s[1..]);
      if IsAlnum(s[0]) {
        assert Lower([s[0]] + Alnum(s[1..])) == [LowerChar(s[0])] + Lower(Alnum(s[1..]));
      }
    }
  }

  lemma LowerIdempotent(s: string)
    ensures Lower(Lower(s)) == Lower(s)
  {
  }
}
