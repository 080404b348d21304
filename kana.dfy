/**
 * Katakana-to-hiragana normalisation, standing for the library call
 * `jaconv.kata2hira`. The library is not part of this model; it is ASSUMED to
 * map each katakana letter U+30A1 (small a) .. U+30F6 (small ke) to the
 * hiragana letter 0x60 code points below it, and to leave every other
 * character (including the long-vowel mark U+30FC) as it is.
 */
module Kana {
  import opened Strings

  predicate IsKatakana(c: char) {
    '\U{30A1}' <= c <= '\U{30F6}'
  }

  predicate IsHiragana(c: char) {
    '\U{3041}' <= c <= '\U{3096}'
  }

  /** One character of `kata2hira`. */
  function KataToHira(c: char): (h: char)
    ensures !IsKatakana(h)
    ensures IsKatakana(c) ==> IsHiragana(h)
  {
    if IsKatakana(c) then (c as int - 0x60) as char else c
  }

  /** `kata2hira` on a whole text, character by character. */
  function Normalize(s: string): (r: string)
    ensures |r| == |s|
    ensures forall i :: 0 <= i < |s| ==> r[i] == KataToHira(s[i])
  {
    seq(|s|, i requires 0 <= i < |s| => KataToHira(s[i]))
  }

  /** A normalised text holds no katakana. */
  lemma NormalizeNoKatakana(s: string)
    ensures forall i :: 0 <= i < |s| ==> !IsKatakana(Normalize(s)[i])
  {
  }

  /** Normalising twice is normalising once. */
  lemma {:induction false} NormalizeIdempotent(s: string)
    ensures Normalize(Normalize(s)) == Normalize(s)
  {
    var n := Normalize(s);
    forall i | 0 <= i < |s| ensures Normalize(n)[i] == n[i] {
      assert !IsKatakana(n[i]);
    }
  }

  /** Normalisation commutes with slicing. */
  lemma NormalizeSlice(s: string, i: int, j: int)
    requires 0 <= i <= j <= |s|
    ensures Normalize(s)[i..j] == Normalize(s[i..j])
  {
  }

  /** A substring stays a substring after both sides are normalised. */
  lemma {:induction false} NormalizeKeepsOccurrence(needle: string, hay: string)
    requires Occurs(needle, hay)
    ensures Occurs(Normalize(needle), Normalize(hay))
  {
    var i :| OccursAt(needle, hay, i);
    NormalizeSlice(hay, i, i + |needle|);
    assert OccursAt(Normalize(needle), Normalize(hay), i);
  }
}
