/**
 * Substring search on strings, the `needle in hay` test that the curry
 * wrapper applies to the message of a caught TypeError.
 */
module Substring {

  /** `needle` occurs in `hay` starting at index `i`. */
  predicate OccursAt(hay: string, needle: string, i: int) {
    0 <= i && i + |needle| <= |hay| && hay[i..i + |needle|] == needle
  }

  /** An occurrence in `hay` is either at index 0 or one in `hay[1..]` shifted by one. */
  lemma {:induction false} OccursShift(hay: string, needle: string)
    requires |hay| > 0
    ensures (exists i :: OccursAt(hay, needle, i))
        <==> OccursAt(hay, needle, 0) || exists j :: OccursAt(hay[1..], needle, j)
  {
    var tail := hay[1..];
    if i :| OccursAt(hay, needle, i) {
      if i != 0 {
        assert tail[i - 1..i - 1 + |needle|] == hay[i..i + |needle|];
        assert OccursAt(tail, needle, i - 1);
      }
    }
    if j :| OccursAt(tail, needle, j) {
      assert hay[j + 1..j + 1 + |needle|] == tail[j..j + |needle|];
      assert OccursAt(hay, needle, j + 1);
    }
  }

  /** Python's `needle in hay` on strings: true iff `needle` occurs somewhere in `hay`. */
  function Contains(hay: string, needle: string): (b: bool)
    ensures b <==> exists i :: OccursAt(hay, needle, i)
    decreases |hay|
  {
    if |hay| < |needle| then
      false
    else if hay[..|needle|] == needle then
      assert OccursAt(hay, needle, 0);
      true
    else
      OccursShift(hay, needle);
      Contains(hay[1..], needle)
  }

  /** A string always contains what was placed in its middle. */
  lemma {:induction false} ContainsInMiddle(before: string, needle: string, after: string)
    ensures Contains(before + needle + after, needle)
  {
    var hay := before + needle + after;
    assert hay[|before|..|before| + |needle|] == needle;
    assert OccursAt(hay, needle, |before|);
  }

  /** A string lacking one of the needle's characters cannot contain the needle. */
  lemma {:induction false} MissingCharNotContained(hay: string, needle: string, c: char)
    requires c in needle && c !in hay
    ensures !Contains(hay, needle)
  {
  }

  /** Whatever a piece of a string contains, the whole string contains too. */
  lemma {:induction false} ContainsWithin(before: string, mid: string, after: string, needle: string)
    requires Contains(mid, needle)
    ensures Contains(before + mid + after, needle)
  {
    var i :| OccursAt(mid, needle, i);
    var hay := before + mid + after;
    assert hay[|before| + i..|before| + i + |needle|] == mid[i..i + |needle|];
    assert OccursAt(hay, needle, |before| + i);
  }
}
