/**
 Substring search with the meaning of the string method `includes`: a word
 is included in a text when it occurs at some position of it. The empty word
 is included in every text.
 */
module Substrings {

  /** The word occupies positions `i .. i + |w| - 1` of the text. */
  predicate OccursAt(text: string, w: string, i: int)
  {
    0 <= i && i + |w| <= |text| && text[i..i + |w|] == w
  }

  /** `text.includes(w)`: try every start position from the left. */
  function Includes(text: string, w: string): (r: bool)
    ensures r <==> exists i :: OccursAt(text, w, i)
    decreases |text|
  {
    if |text| < |w| then
      assert forall i :: !OccursAt(text, w, i);
      false
    else if text[..|w|] == w then
      assert OccursAt(text, w, 0);
      true
    else
      var rest := Includes(text[1..], w);
      IncludesShift(text, w);
      rest
  }

  /** When the word is not at the front of the text, it occurs in the text
      exactly when it occurs in the text without its first character. */
  lemma IncludesShift(text: string, w: string)
    requires |text| > 0 && !OccursAt(text, w, 0)
    ensures (exists i :: OccursAt(text, w, i)) <==> (exists i :: OccursAt(text[1..], w, i))
  {
    if exists i :: OccursAt(text, w, i) {
      var i :| OccursAt(text, w, i);
      assert text[1..][i - 1..i - 1 + |w|] == text[i..i + |w|];
      assert OccursAt(text[1..], w, i - 1);
    }
    if exists i :: OccursAt(text[1..], w, i) {
      var i :| OccursAt(text[1..], w, i);
      assert text[1..][i..i + |w|] == text[i + 1..i + 1 + |w|];
      assert OccursAt(text, w, i + 1);
    }
  }

  /** A word is included in any text that surrounds it. */
  lemma IncludedWhenSurrounded(p: string, w: string, q: string)
    ensures Includes(p + w + q, w)
  {
    assert (p + w + q)[|p|..|p| + |w|] == w;
    assert OccursAt(p + w + q, w, |p|);
  }

  /** Inclusion is transitive: a text that includes `u` includes every word
      that `u` includes. */
  lemma IncludesTransitive(text: string, u: string, w: string)
    requires Includes(text, u) && Includes(u, w)
    ensures Includes(text, w)
  {
  }

  /** A word with a character the text lacks is not included in it. */
  lemma MissingCharNotIncluded(text: string, w: string, k: int)
    requires 0 <= k < |w| && forall i :: 0 <= i < |text| ==> text[i] != w[k]
    ensures !Includes(text, w)
  {
  }

  /** An occurrence starts with the word's first character. */
  lemma OccursAtFirstChar(text: string, w: string, i: int)
    requires OccursAt(text, w, i) && |w| > 0
    ensures text[i] == w[0]
  {
  }
}
