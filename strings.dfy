/** The text operations the engine relies on: the 26-letter contact string,
    Python's substring search (`str.index`, `in`), and the `upper().strip()`
    normalisation applied to user-supplied strings. */
module Strings {
  import opened Outcomes

  /** The contact string `ABC...Z` (the `ENTRY` wiring and the reflector's `CONTACTS`). */
  const Alphabet: string := "ABCDEFGHIJKLMNOPQRSTUVWXYZ"

  predicate IsLetter(c: char) {
    'A' <= c <= 'Z'
  }

  /** A string made of one letter, as windows and characters usually are. */
  predicate IsLetterString(s: string) {
    |s| == 1 && IsLetter(s[0])
  }

  /** A number below 26 is one of 0, 1, ..., 25: lets the solver split a
      statement about every letter into 26 concrete ones. */
  lemma Below26(k: int)
    requires 0 <= k < 26
    ensures k == 0 || k == 1 || k == 2 || k == 3 || k == 4 || k == 5 || k == 6
         || k == 7 || k == 8 || k == 9 || k == 10 || k == 11 || k == 12 || k == 13
         || k == 14 || k == 15 || k == 16 || k == 17 || k == 18 || k == 19
         || k == 20 || k == 21 || k == 22 || k == 23 || k == 24 || k == 25
  {
  }

  lemma AlphabetSpelled()
    ensures |Alphabet| == 26
    ensures forall i :: 0 <= i < 26 ==> Alphabet[i] == ('A' as int + i) as char
  {
    forall i | 0 <= i < 26 ensures Alphabet[i] == ('A' as int + i) as char {
      Below26(i);
    }
  }

  /** The letter `i` places after `A`, counting modulo 26. */
  function Letter(i: int): (c: char)
    ensures IsLetter(c)
  {
    ('A' as int + i % 26) as char
  }

  /** The position of a letter in the alphabet; `Letter` undoes it. */
  function Ord(c: char): (i: nat)
    requires IsLetter(c)
    ensures i < 26 && Letter(i) == c
  {
    c as int - 'A' as int
  }

  /** `Letter` undoes `Ord` up to multiples of 26. */
  lemma OrdLetter(i: int)
    ensures Ord(Letter(i)) == i % 26
  {
  }

  /** The contact string spells the letters in order. */
  lemma AlphabetAt(i: int)
    requires 0 <= i < 26
    ensures Alphabet[i] == Letter(i)
  {
    AlphabetSpelled();
  }

  /** `needle` occurs in `hay` starting at position `j`. */
  predicate OccursAt(hay: string, needle: string, j: int) {
    0 <= j && j + |needle| <= |hay| && hay[j..j + |needle|] == needle
  }

  /** Python's `hay.index(needle)` searching from position `start`: the first
      position at which `needle` occurs as a substring, or None where Python
      raises ValueError. */
  function FindFrom(hay: string, needle: string, start: nat): (r: Option<nat>)
    ensures r.Some? ==> start <= r.value && OccursAt(hay, needle, r.value)
    ensures OccursAt(hay, needle, start) ==> r == Some(start)
    decreases |hay| - start
  {
    if start + |needle| > |hay| then None
    else if hay[start..start + |needle|] == needle then Some(start)
    else FindFrom(hay, needle, start + 1)
  }

  /** The search from `start` finds the first occurrence at or after `start`,
      and finds nothing only where there is none. */
  lemma {:induction false} FindFromSpec(hay: string, needle: string, start: nat)
    ensures var r := FindFrom(hay, needle, start);
            && (r.Some? ==>
                  && start <= r.value && OccursAt(hay, needle, r.value)
                  && forall j :: start <= j < r.value ==> !OccursAt(hay, needle, j))
            && (r.None? ==> forall j :: start <= j ==> !OccursAt(hay, needle, j))
    decreases |hay| - start
  {
    if start + |needle| <= |hay| && hay[start..start + |needle|] != needle {
      FindFromSpec(hay, needle, start + 1);
    }
  }

  /** `hay.index(needle)`; `needle in hay` is `Find(hay, needle).Some?`. */
  function Find(hay: string, needle: string): (r: Option<nat>)
    ensures r.Some? ==> OccursAt(hay, needle, r.value)
    ensures OccursAt(hay, needle, 0) ==> r == Some(0)
  {
    FindFrom(hay, needle, 0)
  }

  /** `Find` returns the first position where `needle` occurs, and None
      exactly when it occurs nowhere. */
  lemma FindSpec(hay: string, needle: string)
    ensures Find(hay, needle).Some? ==>
              && OccursAt(hay, needle, Find(hay, needle).value)
              && forall j :: 0 <= j < Find(hay, needle).value ==> !OccursAt(hay, needle, j)
    ensures Find(hay, needle).None? ==> forall j :: 0 <= j ==> !OccursAt(hay, needle, j)
  {
    FindFromSpec(hay, needle, 0);
  }

  /** `s` spells consecutive letters of the contact string from position `k`. */
  predicate SpellsFrom(s: string, k: nat)
    decreases |s|
  {
    |s| == 0 || (k < 26 && s[0] == Letter(k) && SpellsFrom(s[1..], k + 1))
  }

  /** Spelling from `k` is occurring at `k` in the contact string. */
  lemma {:induction false} SpellsFromOccurs(s: string, k: nat)
    requires k <= 26
    ensures SpellsFrom(s, k) <==> OccursAt(Alphabet, s, k)
    decreases |s|
  {
    if |s| > 0 && k < 26 {
      SpellsFromOccurs(s[1..], k + 1);
      AlphabetAt(k);
      if k + |s| <= 26 {
        assert Alphabet[k..k + |s|] == [Alphabet[k]] + Alphabet[k + 1..k + 1 + |s[1..]|];
        assert s == [s[0]] + s[1..];
      }
    }
  }

  /** `Alphabet.index(s)` without the search: a non-empty needle can only
      start at the position of its first letter, so it is found there or
      nowhere; the empty needle is found at 0.  `AlphabetIndexIsFind` shows
      that this is exactly what the search returns. */
  function AlphabetIndex(s: string): (r: Option<nat>)
    ensures r.Some? ==> r.value < 26
    ensures |s| == 1 ==> (r.Some? <==> IsLetter(s[0]))
    ensures IsLetterString(s) ==> r == Some(Ord(s[0]))
  {
    if |s| == 0 then Some(0)
    else if !IsLetter(s[0]) then None
    else
      assert |s| == 1 ==> SpellsFrom(s[1..], Ord(s[0]) + 1);
      if SpellsFrom(s, Ord(s[0])) then Some(Ord(s[0]))
    else None
  }

  /** A non-empty needle occurs in the contact string only where its first
      letter stands. */
  lemma OccursOnlyAtFirst(s: string, j: int)
    requires |s| > 0 && OccursAt(Alphabet, s, j)
    ensures IsLetter(s[0]) && j == Ord(s[0])
  {
    assert Alphabet[j..j + |s|][0] == s[0];
    AlphabetAt(j);
    OrdLetter(j);
  }

  /** The search of the contact string agrees with `AlphabetIndex` on every
      needle, found or not. */
  lemma AlphabetIndexIsFind(s: string)
    ensures AlphabetIndex(s) == Find(Alphabet, s)
  {
    FindSpec(Alphabet, s);
    var r := Find(Alphabet, s);
    if |s| == 0 {
      assert OccursAt(Alphabet, s, 0);
    } else if r.Some? {
      OccursOnlyAtFirst(s, r.value);
      SpellsFromOccurs(s, r.value);
    } else if AlphabetIndex(s).Some? {
      SpellsFromOccurs(s, Ord(s[0]));
    }
  }

  /** ASCII upper-casing of one character. */
  function UpperChar(c: char): char {
    if 'a' <= c <= 'z' then (c as int - 32) as char else c
  }

  /** `s.upper()` on ASCII letters. */
  function Upper(s: string): string {
    seq(|s|, i requires 0 <= i < |s| => UpperChar(s[i]))
  }

  /** The characters for which Python's `str.isspace()` holds. */
  const Whitespace: set<char> := {
    '\t', '\n', '\U{B}', '\U{C}', '\r', '\U{1C}', '\U{1D}', '\U{1E}', '\U{1F}', ' ',
    '\U{85}', '\U{A0}', '\U{1680}', '\U{2000}', '\U{2001}', '\U{2002}', '\U{2003}',
    '\U{2004}', '\U{2005}', '\U{2006}', '\U{2007}', '\U{2008}', '\U{2009}', '\U{200A}',
    '\U{2028}', '\U{2029}', '\U{202F}', '\U{205F}', '\U{3000}'
  }

  function StripLeading(s: string): string
    decreases |s|
  {
    if |s| > 0 && s[0] in Whitespace then StripLeading(s[1..]) else s
  }

  function StripTrailing(s: string): string
    decreases |s|
  {
    if |s| > 0 && s[|s| - 1] in Whitespace then StripTrailing(s[..|s| - 1]) else s
  }

  /** `s.strip()`: removes leading and trailing whitespace. */
  function Strip(s: string): string {
    StripTrailing(StripLeading(s))
  }

  /** A character that `upper()` and `strip()` leave alone wherever it stands. */
  predicate IsCanonical(c: char) {
    UpperChar(c) == c && c !in Whitespace
  }

  /** `s.upper().strip()`, the normalisation applied to model names, windows and
      plugboard input. */
  function Normalize(s: string): (r: string)
    ensures |r| <= |s|
    ensures forall i :: 0 <= i < |r| ==> !('a' <= r[i] <= 'z')
    ensures |r| > 0 ==> IsCanonical(r[0]) && IsCanonical(r[|r| - 1])
  {
    var u := Upper(s);
    StripBounds(u);
    Strip(u)
  }

  /** `s.upper().strip()` is the upper-cased string with whitespace cut from
      both ends and nothing else: what lies before and after the kept piece is
      whitespace, and the kept piece neither starts nor ends with it. */
  lemma NormalizeIsStrippedUpper(s: string)
    ensures var r := Normalize(s);
            exists a, b :: 0 <= a <= b <= |s| && r == Upper(s)[a..b] &&
              (forall i :: 0 <= i < a ==> Upper(s)[i] in Whitespace) &&
              (forall i :: b <= i < |s| ==> Upper(s)[i] in Whitespace) &&
              (a < b ==> Upper(s)[a] !in Whitespace && Upper(s)[b - 1] !in Whitespace)
  {
    StripBounds(Upper(s));
  }

  /** Stripping keeps a contiguous piece of the string whose ends are not
      whitespace, cutting only whitespace on either side. */
  lemma {:induction false} StripBounds(s: string)
    ensures exists a, b :: 0 <= a <= b <= |s| && Strip(s) == s[a..b] &&
              (forall i :: 0 <= i < a ==> s[i] in Whitespace) &&
              (forall i :: b <= i < |s| ==> s[i] in Whitespace)
    ensures |Strip(s)| > 0 ==> Strip(s)[0] !in Whitespace && Strip(s)[|Strip(s)| - 1] !in Whitespace
  {
    var a := LeadingCut(s);
    var t := s[a..];
    var b := TrailingCut(t);
    assert Strip(s) == s[a..a + b];
    if b > 0 {
      assert Strip(s)[0] == s[a];
    }
  }

  lemma {:induction false} LeadingCut(s: string) returns (a: nat)
    ensures a <= |s| && StripLeading(s) == s[a..]
    ensures a < |s| ==> s[a] !in Whitespace
    ensures forall i :: 0 <= i < a ==> s[i] in Whitespace
    decreases |s|
  {
    if |s| > 0 && s[0] in Whitespace {
      var a' := LeadingCut(s[1..]);
      a := a' + 1;
      assert s[1..][a'..] == s[a..];
    } else {
      a := 0;
    }
  }

  lemma {:induction false} TrailingCut(s: string) returns (b: nat)
    ensures b <= |s| && StripTrailing(s) == s[..b]
    ensures b > 0 ==> s[b - 1] !in Whitespace
    ensures forall i :: b <= i < |s| ==> s[i] in Whitespace
    decreases |s|
  {
    if |s| > 0 && s[|s| - 1] in Whitespace {
      b := TrailingCut(s[..|s| - 1]);
      assert s[..|s| - 1][..b] == s[..b];
    } else {
      b := |s|;
    }
  }

  /** A one-letter string is already normalised. */
  lemma NormalizeLetter(c: char)
    requires IsLetter(c)
    ensures Normalize([c]) == [c]
  {
    assert IsCanonical(c);
    NormalizeCanonical([c]);
  }

  /** Normalising a string of canonical characters changes nothing. */
  lemma NormalizeCanonical(s: string)
    requires forall i :: 0 <= i < |s| ==> IsCanonical(s[i])
    ensures Normalize(s) == s
  {
    assert Upper(s) == s;
    assert StripLeading(s) == s;
    assert StripTrailing(s) == s;
  }
}
