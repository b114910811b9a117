/** Substring search on text, as Python's `word in text` does it: exact,
    case-sensitive, and the empty word occurs in every text. */
module Strings {

  /** `word` occurs in `text` starting at index `i`. */
  predicate OccursAt(text: string, word: string, i: int) {
    0 <= i && i + |word| <= |text| && text[i..i + |word|] == word
  }

  /** `text` begins with `word`. */
  predicate StartsWith(text: string, word: string) {
    |word| <= |text| && text[..|word|] == word
  }

  /** Python's `word in text`, by scanning the start positions left to right. */
  function Contains(text: string, word: string): (r: bool)
    ensures r <==> exists i :: OccursAt(text, word, i)
    decreases |text|
  {
    if StartsWith(text, word) then
      assert OccursAt(text, word, 0);
      true
    else if |text| <= |word| then
      assert forall i :: !OccursAt(text, word, i);
      false
    else
      var r := Contains(text[1..], word);
      assert r ==> exists i :: OccursAt(text, word, i) by {
        if r {
          var j :| OccursAt(text[1..], word, j);
          assert text[1..][j..j + |word|] == text[j + 1..j + 1 + |word|];
          assert OccursAt(text, word, j + 1);
        }
      }
      assert (exists i :: OccursAt(text, word, i)) ==> r by {
        if i :| OccursAt(text, word, i) {
          assert i != 0;
          assert text[1..][i - 1..i - 1 + |word|] == text[i..i + |word|];
          assert OccursAt(text[1..], word, i - 1);
        }
      }
      r
  }

  /** The empty word occurs in every text, so an empty ignore word matches every title. */
  lemma {:induction false} EmptyWordOccurs(text: string)
    ensures Contains(text, "")
  {
    assert OccursAt(text, "", 0);
  }
}
