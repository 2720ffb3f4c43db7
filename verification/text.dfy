/** Python string operations the search relies on: `str.lower()` and the `in` operator on strings. */
module Text {

  /** Lower-cases one character; only the ASCII letters A-Z are mapped. */
  function LowerChar(c: char): (r: char)
    ensures 'A' <= c <= 'Z' ==> r as int == c as int + 32
    ensures !('A' <= c <= 'Z') ==> r == c
  {
    if 'A' <= c <= 'Z' then (c as int + 32) as char else c
  }

  /** `s.lower()`, restricted to ASCII case mapping. */
  function Lower(s: string): (r: string)
    ensures |r| == |s|
    ensures forall i :: 0 <= i < |s| ==> r[i] == LowerChar(s[i])
    ensures forall i :: 0 <= i < |r| ==> !('A' <= r[i] <= 'Z')
    ensures forall i :: 0 <= i < |s| && !('A' <= s[i] <= 'Z') ==> r[i] == s[i]
  {
    seq(|s|, i requires 0 <= i < |s| => LowerChar(s[i]))
  }

  /** Lower-casing an already lower-cased string changes nothing. */
  lemma LowerIdempotent(s: string)
    ensures Lower(Lower(s)) == Lower(s)
  {
    var once := Lower(s);
    forall i | 0 <= i < |s| ensures Lower(once)[i] == once[i] {
      assert once[i] == LowerChar(s[i]);
    }
  }

  /** `needle` occurs in `hay` starting at position `i`. */
  ghost predicate OccursAt(hay: string, needle: string, i: int) {
    0 <= i && i + |needle| <= |hay| && hay[i..i + |needle|] == needle
  }

  /** Reference meaning of Python's `needle in hay` for strings. */
  ghost predicate HasSubstring(hay: string, needle: string) {
    exists i :: OccursAt(hay, needle, i)
  }

  /** `needle in hay`, computed by trying every start position from the left. */
  function Contains(hay: string, needle: string): (r: bool)
    ensures r <==> HasSubstring(hay, needle)
    decreases |hay|
  {
    if |needle| > |hay| then
      assert forall i :: !OccursAt(hay, needle, i);
      false
    else if needle <= hay then
      assert OccursAt(hay, needle, 0);
      true
    else
      SubstringStep(hay, needle);
      Contains(hay[1..], needle)
  }

  /** When `needle` is not a prefix of a non-empty `hay`, it occurs in `hay` exactly when
      it occurs in `hay` without its first character. */
  lemma SubstringStep(hay: string, needle: string)
    requires |needle| <= |hay| && !(needle <= hay)
    ensures HasSubstring(hay, needle) <==> HasSubstring(hay[1..], needle)
  {
    assert !OccursAt(hay, needle, 0);
    forall i | 0 <= i && i + |needle| <= |hay[1..]|
      ensures OccursAt(hay[1..], needle, i) <==> OccursAt(hay, needle, i + 1)
    {
      assert hay[1..][i..i + |needle|] == hay[i + 1..i + 1 + |needle|];
    }
    if HasSubstring(hay, needle) {
      var i :| OccursAt(hay, needle, i);
      assert OccursAt(hay[1..], needle, i - 1);
    }
    if HasSubstring(hay[1..], needle) {
      var i :| OccursAt(hay[1..], needle, i);
      assert OccursAt(hay, needle, i + 1);
    }
  }
}
