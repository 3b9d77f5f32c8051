/** `replace_danish_letters`: spell the Danish letters æ, ø, å (and their
    upper-case forms) with two ASCII letters each. */
module DanishLetters {

  const LowerAe: char := '\U{E6}'   // æ
  const LowerOe: char := '\U{F8}'   // ø
  const LowerAa: char := '\U{E5}'   // å
  const UpperAe: char := '\U{C6}'   // Æ
  const UpperOe: char := '\U{D8}'   // Ø
  const UpperAa: char := '\U{C5}'   // Å

  predicate IsDanishLetter(c: char) {
    c == LowerAe || c == LowerOe || c == LowerAa || c == UpperAe || c == UpperOe || c == UpperAa
  }

  predicate NoDanishLetters(s: string) {
    forall k :: 0 <= k < |s| ==> !IsDanishLetter(s[k])
  }

  /** The translation table: the lower-case map, and its upper-cased keys
      and values, merged. */
  function Replacement(c: char): (r: string)
    ensures IsDanishLetter(c) ==> |r| == 2 && NoDanishLetters(r)
    ensures !IsDanishLetter(c) ==> r == [c]
  {
    if c == LowerAe then "ae"
    else if c == LowerOe then "oe"
    else if c == LowerAa then "aa"
    else if c == UpperAe then "AE"
    else if c == UpperOe then "OE"
    else if c == UpperAa then "AA"
    else [c]
  }

  /** `word.translate(...)`: every character replaced by its table entry. */
  function ReplaceDanishLetters(word: string): (r: string)
    ensures NoDanishLetters(r)
    ensures |r| == |word| + CountDanishLetters(word)
  {
    if word == [] then []
    else Replacement(word[0]) + ReplaceDanishLetters(word[1..])
  }

  function CountDanishLetters(s: string): nat {
    if s == [] then 0
    else (if IsDanishLetter(s[0]) then 1 else 0) + CountDanishLetters(s[1..])
  }

  /** The translation works character by character: it distributes over
      concatenation. */
  lemma {:induction false} ReplaceConcat(a: string, b: string)
    ensures ReplaceDanishLetters(a + b) == ReplaceDanishLetters(a) + ReplaceDanishLetters(b)
  {
    if a == [] {
      assert a + b == b;
    } else {
      assert (a + b)[1..] == a[1..] + b;
      ReplaceConcat(a[1..], b);
    }
  }

  /** A word without Danish letters is returned unchanged. */
  lemma {:induction false} ReplaceIdentity(word: string)
    requires NoDanishLetters(word)
    ensures ReplaceDanishLetters(word) == word
  {
    if word != [] {
      ReplaceIdentity(word[1..]);
    }
  }

  /** Applying the translation twice is the same as applying it once. */
  lemma ReplaceIdempotent(word: string)
    ensures ReplaceDanishLetters(ReplaceDanishLetters(word)) == ReplaceDanishLetters(word)
  {
    ReplaceIdentity(ReplaceDanishLetters(word));
  }

  /** A three-letter word is translated letter by letter. */
  lemma ReplaceThree(a: char, b: char, c: char)
    ensures ReplaceDanishLetters([a, b, c]) == Replacement(a) + Replacement(b) + Replacement(c)
  {
    assert [a, b, c] == [a] + [b, c] && [b, c] == [b] + [c] && [c] == [c] + [];
    ReplaceCons(c, []);
    ReplaceCons(b, [c]);
    ReplaceCons(a, [b, c]);
  }

  lemma ReplaceCons(c: char, t: string)
    ensures ReplaceDanishLetters([c] + t) == Replacement(c) + ReplaceDanishLetters(t)
  {
    assert ([c] + t)[1..] == t;
  }

  /** The lower-case letters map to their two-letter spellings. */
  lemma ReplacementLower(w: string)
    requires w == "\U{E6}\U{F8}\U{E5}"
    ensures ReplaceDanishLetters(w) == "aeoeaa"
  {
    ReplaceThree(w[0], w[1], w[2]);
    assert w == [w[0], w[1], w[2]];
  }

  /** So do the upper-case ones, in upper case. */
  lemma ReplacementUpper(w: string)
    requires w == "\U{C6}\U{D8}\U{C5}"
    ensures ReplaceDanishLetters(w) == "AEOEAA"
  {
    ReplaceThree(w[0], w[1], w[2]);
    assert w == [w[0], w[1], w[2]];
  }

  /** Other letters are kept around a replaced one. */
  lemma ReplacementInWord(w: string)
    requires w == "Tr\U{E6}"
    ensures ReplaceDanishLetters(w) == "Trae"
  {
    ReplaceThree(w[0], w[1], w[2]);
    assert w == [w[0], w[1], w[2]];
  }
}
