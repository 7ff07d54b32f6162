/**
  The `icontains` lookup of the list view's search.  Its exact meaning depends
  on the database collation; here it is modelled as ASCII lower-casing of both
  sides followed by a plain substring test.
 */
module Text {

  function LowerChar(c: char): char {
    if 'A' <= c <= 'Z' then (c as int - 'A' as int + 'a' as int) as char else c
  }

  function Lower(s: string): string {
    seq(|s|, i requires 0 <= i < |s| => LowerChar(s[i]))
  }

  /** `needle` occurs in `hay` starting at position `k`. */
  predicate OccursAt(needle: string, hay: string, k: int) {
    0 <= k <= |hay| - |needle| && hay[k..k + |needle|] == needle
  }

  /** `needle` occurs as a contiguous block of `hay`. */
  predicate IsSubstring(needle: string, hay: string) {
    exists k | 0 <= k <= |hay| - |needle| :: OccursAt(needle, hay, k)
  }

  /** `hay__icontains=needle`. */
  predicate ContainsIgnoreCase(hay: string, needle: string) {
    IsSubstring(Lower(needle), Lower(hay))
  }

  /** An empty search term matches every text. */
  lemma EmptyTermMatches(hay: string)
    ensures ContainsIgnoreCase(hay, "")
  {
    assert OccursAt(Lower(""), Lower(hay), 0);
  }

  /** Every text contains itself, whatever its case. */
  lemma TextMatchesItself(hay: string)
    ensures ContainsIgnoreCase(hay, hay)
  {
    assert OccursAt(Lower(hay), Lower(hay), 0);
  }

  /** Lower-casing twice is lower-casing once. */
  lemma LowerIdempotent(s: string)
    ensures Lower(Lower(s)) == Lower(s)
  {
  }

  /** The case of the search term does not change the outcome. */
  lemma TermCaseIrrelevant(hay: string, needle: string)
    ensures ContainsIgnoreCase(hay, needle) <==> ContainsIgnoreCase(hay, Lower(needle))
  {
    LowerIdempotent(needle);
  }

  /** The case of the searched text does not change the outcome either. */
  lemma TextCaseIrrelevant(hay: string, needle: string)
    ensures ContainsIgnoreCase(hay, needle) <==> ContainsIgnoreCase(Lower(hay), needle)
  {
    LowerIdempotent(hay);
  }
}
