/** The fixed pattern tables of the syllable estimator in text_statistics.py,
    each regular expression written out as a predicate on the word.

    The correction patterns are only ever searched for in a word of a-z
    letters, where `$` can only match at the very end; the predicates below
    agree with Python's `re.search` on such words. The affix patterns are
    applied to a word of lower-case letters and digits. */
module SyllablePatterns {
  import opened TextChars

  predicate StartsWith(w: string, prefix: string)
  {
    |prefix| <= |w| && w[..|prefix|] == prefix
  }

  predicate EndsWith(w: string, suffix: string)
  {
    |suffix| <= |w| && w[|w| - |suffix|..] == suffix
  }

  /** Some window of `width` consecutive characters of `w` satisfies `p`:
      an unanchored search for a fixed-width pattern. */
  predicate Somewhere(w: string, width: nat, p: string -> bool)
  {
    width <= |w| && (p(w[..width]) || (width < |w| && Somewhere(w[1..], width, p)))
  }

  /** A word starting with `t` starts with the first character of `t`. */
  lemma StartsWithFirst(w: string, t: string)
    requires t != []
    ensures StartsWith(w, t) ==> w != [] && w[0] == t[0]
  {
    if StartsWith(w, t) {
      assert w[..|t|][0] == w[0];
    }
  }

  /** A word ending with `t` ends with the last character of `t`. */
  lemma EndsWithLast(w: string, t: string)
    requires t != []
    ensures EndsWith(w, t) ==> w != [] && w[|w| - 1] == t[|t| - 1]
  {
    if EndsWith(w, t) {
      assert w[|w| - |t|..][|t| - 1] == w[|w| - 1];
    }
  }

  /** An unanchored search for the literal `t`. */
  predicate Contains(w: string, t: string)
  {
    StartsWith(w, t) || (|t| < |w| && Contains(w[1..], t))
  }

  /** `[aeiou]{3}` on a window of three characters. */
  predicate ThreeVowels(v: string)
  {
    |v| == 3 && v[0] in "aeiou" && v[1] in "aeiou" && v[2] in "aeiou"
  }

  /** `[^l]lien` on a window of five characters. */
  predicate LienAfterNonL(v: string)
  {
    |v| == 5 && v[0] != 'l' && v[1] == 'l' && v[2] == 'i' && v[3] == 'e' && v[4] == 'n'
  }

  /** `[^gq]ua[^auieo]` on a window of four characters. */
  predicate UaBetween(v: string)
  {
    |v| == 4 && v[0] !in "gq" && v[1] == 'u' && v[2] == 'a' && v[3] !in "auieo"
  }

  /** The word ends with `[cg]h?e`. */
  predicate EndsSoftE(w: string)
  {
    EndsWith(w, "e") && |w| >= 2
    && (w[|w| - 2] in "cg" || (|w| >= 3 && w[|w| - 2] == 'h' && w[|w| - 3] in "cg"))
  }

  /** The word ends with `[aeiouy][dt]e`. */
  predicate EndsVowelDentalE(w: string)
  {
    |w| >= 3 && w[|w| - 1] == 'e' && w[|w| - 2] in "dt" && IsVowel(w[|w| - 3])
  }

  /** The word ends with `[aeiouy][^aeiouydt]e`. */
  predicate EndsVowelConsonantE(w: string)
  {
    |w| >= 3 && w[|w| - 1] == 'e' && w[|w| - 2] !in "aeiouydt" && IsVowel(w[|w| - 3])
  }

  /** The word ends with a character of `cs` preceded by what satisfies `p`,
      or itself satisfies `p`: the shape `X[...]?$`. */
  predicate WithOptionalLast(w: string, cs: string, p: string -> bool)
  {
    p(w) || (|w| >= 1 && w[|w| - 1] in cs && p(w[..|w| - 1]))
  }

  /** One correction pattern of text_statistics.py:202-239. */
  datatype Pattern =
    // the subtractive list, text_statistics.py:202-218
    | Cial | Tia | Cius | Cious | Giu | Ion | Iou | SiaEnd
    | ConsonantsEdEnd    // [^aeiuoyt]{2,}ed$
    | ElyEnd             // .ely$
    | SoftEEnd           // [cg]h?e[rsd]?$
    | RvedEnd            // rved?$
    | VowelDentalEsEnd   // [aeiouy][dt]es?$
    | VowelConsonantEEnd // [aeiouy][^aeiouydt]e[rsd]?$
    | VowelRseEnd        // [aeiouy]rse$
    // the additive list, text_statistics.py:221-239
    | Ia | Riet | Dien | Iu | Io | Ii
    | BlEnd              // [aeiouym]bl$
    | ThreeVowelRun      // [aeiou]{3}
    | McStart            // ^mc
    | IsmEnd             // ism$
    | DoubledConsonantL  // ([^aeiouy])\1l$
    | Lien               // [^l]lien
    | CoaStart           // ^coa[dglx].
    | Ua                 // [^gq]ua[^auieo]
    | DntEnd             // dnt$
    | UityEnd            // uity$
    | IerIestEnd         // ie(r|st)$

  /** `re.search(pattern, w)` succeeds. */
  predicate Matches(pat: Pattern, w: string)
  {
    match pat
    case Cial => Contains(w, "cial")
    case Tia => Contains(w, "tia")
    case Cius => Contains(w, "cius")
    case Cious => Contains(w, "cious")
    case Giu => Contains(w, "giu")
    case Ion => Contains(w, "ion")
    case Iou => Contains(w, "iou")
    case SiaEnd => EndsWith(w, "sia")
    case ConsonantsEdEnd =>
      |w| >= 4 && EndsWith(w, "ed") && w[|w| - 3] !in "aeiuoyt" && w[|w| - 4] !in "aeiuoyt"
    case ElyEnd => |w| >= 4 && EndsWith(w, "ely") && w[|w| - 4] != '\n'
    case SoftEEnd => WithOptionalLast(w, "rsd", EndsSoftE)
    case RvedEnd => EndsWith(w, "rve") || EndsWith(w, "rved")
    case VowelDentalEsEnd => WithOptionalLast(w, "s", EndsVowelDentalE)
    case VowelConsonantEEnd => WithOptionalLast(w, "rsd", EndsVowelConsonantE)
    case VowelRseEnd => |w| >= 4 && EndsWith(w, "rse") && IsVowel(w[|w| - 4])
    case Ia => Contains(w, "ia")
    case Riet => Contains(w, "riet")
    case Dien => Contains(w, "dien")
    case Iu => Contains(w, "iu")
    case Io => Contains(w, "io")
    case Ii => Contains(w, "ii")
    case BlEnd => |w| >= 3 && EndsWith(w, "bl") && w[|w| - 3] in "aeiouym"
    case ThreeVowelRun => Somewhere(w, 3, ThreeVowels)
    case McStart => StartsWith(w, "mc")
    case IsmEnd => EndsWith(w, "ism")
    case DoubledConsonantL =>
      |w| >= 3 && w[|w| - 1] == 'l' && w[|w| - 2] == w[|w| - 3] && !IsVowel(w[|w| - 2])
    case Lien => Somewhere(w, 5, LienAfterNonL)
    case CoaStart => |w| >= 5 && StartsWith(w, "coa") && w[3] in "dglx" && w[4] != '\n'
    case Ua => Somewhere(w, 4, UaBetween)
    case DntEnd => EndsWith(w, "dnt")
    case UityEnd => EndsWith(w, "uity")
    case IerIestEnd => EndsWith(w, "ier") || EndsWith(w, "iest")
  }

  /** The syllables counted as two that should be one (text_statistics.py:202-218). */
  const Subtractive: seq<Pattern> :=
    [Cial, Tia, Cius, Cious, Giu, Ion, Iou, SiaEnd, ConsonantsEdEnd, ElyEnd,
     SoftEEnd, RvedEnd, VowelDentalEsEnd, VowelConsonantEEnd, VowelRseEnd]

  /** The syllables counted as one that should be two (text_statistics.py:221-239). */
  const Additive: seq<Pattern> :=
    [Ia, Riet, Dien, Iu, Io, Ii, BlEnd, ThreeVowelRun, McStart, IsmEnd,
     DoubledConsonantL, Lien, CoaStart, Ua, DntEnd, UityEnd, IerIestEnd]

  /** Number of patterns of `pats` that are found in `w`: each contributes at
      most one, however often it occurs. */
  function Hits(pats: seq<Pattern>, w: string): nat
  {
    if pats == [] then 0
    else (if Matches(pats[0], w) then 1 else 0) + Hits(pats[1..], w)
  }

  lemma {:induction false} HitsBounds(pats: seq<Pattern>, w: string)
    ensures Hits(pats, w) <= |pats|
    ensures Hits(pats, w) == 0 <==> forall i :: 0 <= i < |pats| ==> !Matches(pats[i], w)
    ensures Hits(pats, w) == |pats| <==> forall i :: 0 <= i < |pats| ==> Matches(pats[i], w)
  {
    if pats != [] {
      HitsBounds(pats[1..], w);
      assert forall i :: 1 <= i < |pats| ==> pats[i] == pats[1..][i - 1];
    }
  }

  lemma {:induction false} HitsAppend(a: seq<Pattern>, b: seq<Pattern>, w: string)
    ensures Hits(a + b, w) == Hits(a, w) + Hits(b, w)
  {
    if a != [] {
      assert (a + b)[1..] == a[1..] + b;
      HitsAppend(a[1..], b, w);
    } else {
      assert a + b == b;
    }
  }

  /** A literal is not found in a word that lacks one of its characters. */
  lemma {:induction false} AbsentFromWord(w: string, t: string, c: char)
    requires c in t && c !in w
    ensures !Contains(w, t)
  {
    if |t| <= |w| {
      assert c !in w[..|t|];
    }
    if |t| < |w| {
      assert c !in w[1..];
      AbsentFromWord(w[1..], t, c);
    }
  }

  /** A search finds nothing when every window it could accept holds a
      character the word lacks. */
  lemma {:induction false} AbsentCharacter(w: string, width: nat, p: string -> bool, c: char)
    requires forall v :: p(v) ==> c in v
    requires c !in w
    ensures !Somewhere(w, width, p)
  {
    if width <= |w| {
      assert c !in w[..width];
      if width < |w| {
        assert c !in w[1..];
        AbsentCharacter(w[1..], width, p, c);
      }
    }
  }

  /** No pattern of the list is found, so the list contributes nothing. */
  lemma {:induction false} NoHits(pats: seq<Pattern>, w: string)
    requires forall p :: p in pats ==> !Matches(p, w)
    ensures Hits(pats, w) == 0
  {
    if pats != [] {
      NoHits(pats[1..], w);
    }
  }

  /** No correction pattern is found in the empty word. */
  lemma NothingMatchesEmpty(pat: Pattern)
    ensures !Matches(pat, "")
  {
  }

  // ---- affixes (text_statistics.py:242-250) ----

  /** One single-syllable affix pattern. Each is anchored, so it occurs at most
      once in a word and `findall` yields zero or one match. */
  datatype Affix =
    | UnPrefix    // ^un
    | ForePrefix  // ^fore
    | LySuffix    // ly$
    | LessSuffix  // less$
    | FulSuffix   // ful$
    | ErsSuffix   // ers?$
    | IngsSuffix  // ings?$

  const Affixes: seq<Affix> :=
    [UnPrefix, ForePrefix, LySuffix, LessSuffix, FulSuffix, ErsSuffix, IngsSuffix]

  predicate IsPrefix(a: Affix) { a.UnPrefix? || a.ForePrefix? }

  /** The texts an affix pattern can match, longest first: `ers?$` tries
      "ers" before "er", as the greedy `?` does. */
  function Spellings(a: Affix): (ts: seq<string>)
    ensures ts != []
    ensures forall k :: 0 <= k < |ts| ==> |ts[k]| >= 2
  {
    match a
    case UnPrefix => ["un"]
    case ForePrefix => ["fore"]
    case LySuffix => ["ly"]
    case LessSuffix => ["less"]
    case FulSuffix => ["ful"]
    case ErsSuffix => ["ers", "er"]
    case IngsSuffix => ["ings", "ing"]
  }

  /** `w` starts (`atStart`) or ends (`!atStart`) with `t`. */
  predicate FoundAt(w: string, t: string, atStart: bool)
  {
    if atStart then StartsWith(w, t) else EndsWith(w, t)
  }

  /** The first of `ts` found at the chosen end of `w`, or "" when none is. */
  function FirstFound(ts: seq<string>, w: string, atStart: bool): (m: string)
    ensures m == [] ==> forall k :: 0 <= k < |ts| && ts[k] != [] ==> !FoundAt(w, ts[k], atStart)
    ensures m != [] ==> m in ts && FoundAt(w, m, atStart)
  {
    if ts == [] then []
    else if ts[0] != [] && FoundAt(w, ts[0], atStart) then ts[0]
    else FirstFound(ts[1..], w, atStart)
  }

  /** The text the affix pattern matches in `w`, or "" when it does not occur. */
  function AffixMatch(a: Affix, w: string): (m: string)
    ensures m == [] || |m| >= 2
    ensures m != [] ==> m in Spellings(a)
    ensures IsPrefix(a) ==> StartsWith(w, m)
    ensures !IsPrefix(a) ==> EndsWith(w, m)
    ensures m == [] <==> forall k :: 0 <= k < |Spellings(a)| ==> !FoundAt(w, Spellings(a)[k], IsPrefix(a))
  {
    FirstFound(Spellings(a), w, IsPrefix(a))
  }

  /** A word after stripping affixes, and how many were stripped. */
  datatype Stripped = Stripped(residue: string, count: nat)

  /** `count += len(pf.findall(w)); w = pf.sub('', w)` for one affix pattern. */
  function StripOne(a: Affix, w: string): (s: Stripped)
    ensures s.count <= 1
    ensures s.count == 0 <==> s.residue == w
    ensures s.count == 1 ==> |s.residue| + 2 <= |w|
    ensures IsPrefix(a) ==> w == AffixMatch(a, w) + s.residue
    ensures !IsPrefix(a) ==> w == s.residue + AffixMatch(a, w)
  {
    var m := AffixMatch(a, w);
    if m == [] then Stripped(w, 0)
    else if IsPrefix(a) then Stripped(w[|m|..], 1)
    else Stripped(w[..|w| - |m|], 1)
  }

  /** The affix patterns applied in order, each to the word the previous one
      left (text_statistics.py:276-279). */
  function StripAffixes(affixes: seq<Affix>, w: string): Stripped
  {
    if affixes == [] then Stripped(w, 0)
    else
      var first := StripOne(affixes[0], w);
      var rest := StripAffixes(affixes[1..], first.residue);
      Stripped(rest.residue, first.count + rest.count)
  }

  /** Stripping counts at most one per pattern, removes at least two
      characters per count, and leaves the word alone exactly when nothing
      was counted. */
  lemma {:induction false} StripAffixesCount(affixes: seq<Affix>, w: string)
    ensures StripAffixes(affixes, w).count <= |affixes|
    ensures |StripAffixes(affixes, w).residue| + 2 * StripAffixes(affixes, w).count <= |w|
    ensures StripAffixes(affixes, w).count == 0 <==> StripAffixes(affixes, w).residue == w
  {
    if affixes != [] {
      StripAffixesCount(affixes[1..], StripOne(affixes[0], w).residue);
    }
  }

  /** `r` is a contiguous piece of `w`. */
  ghost predicate Infix(r: string, w: string)
  {
    exists i, j :: 0 <= i <= j <= |w| && r == w[i..j]
  }

  lemma InfixTransitive(r: string, v: string, w: string)
    requires Infix(r, v) && Infix(v, w)
    ensures Infix(r, w)
  {
    var i, j :| 0 <= i <= j <= |v| && r == v[i..j];
    var k, l :| 0 <= k <= l <= |w| && v == w[k..l];
    assert forall t :: 0 <= t < |r| ==> r[t] == v[i + t] == w[k + i + t];
    assert r == w[k + i..k + j];
  }

  lemma StripOneInfix(a: Affix, w: string)
    ensures Infix(StripOne(a, w).residue, w)
  {
    var s := StripOne(a, w);
    var m := AffixMatch(a, w);
    if IsPrefix(a) {
      assert s.residue == w[|m|..|w|];
    } else {
      assert s.residue == w[0..|w| - |m|];
    }
  }

  /** What is left after stripping is a contiguous piece of the word. */
  lemma {:induction false} StripAffixesInfix(affixes: seq<Affix>, w: string)
    ensures Infix(StripAffixes(affixes, w).residue, w)
  {
    if affixes == [] {
      assert w == w[0..|w|];
    } else {
      var first := StripOne(affixes[0], w).residue;
      StripOneInfix(affixes[0], w);
      StripAffixesInfix(affixes[1..], first);
      InfixTransitive(StripAffixes(affixes[1..], first).residue, first, w);
    }
  }

  /** Every prefix rule needs a word starting with `u` or `f`, and every
      suffix rule a word ending in `y`, `s`, `l`, `r` or `g`. */
  lemma AffixNeedsEnds(a: Affix, w: string)
    requires w != [] && w[0] != 'u' && w[0] != 'f'
    requires w[|w| - 1] !in "yslrg"
    ensures AffixMatch(a, w) == []
  {
    var ts := Spellings(a);
    forall k | 0 <= k < |ts|
      ensures !FoundAt(w, ts[k], IsPrefix(a))
    {
      StartsWithFirst(w, ts[k]);
      EndsWithLast(w, ts[k]);
    }
  }

  /** So a word with neither kind of end keeps all its characters. */
  lemma {:induction false} UntouchedByAffixes(affixes: seq<Affix>, w: string)
    requires w != [] && w[0] != 'u' && w[0] != 'f'
    requires w[|w| - 1] !in "yslrg"
    ensures StripAffixes(affixes, w) == Stripped(w, 0)
  {
    if affixes != [] {
      AffixNeedsEnds(affixes[0], w);
      UntouchedByAffixes(affixes[1..], w);
    }
  }
}
