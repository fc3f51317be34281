/** String primitives that app.py takes from Python: `str.lower()`, the
    substring test `a in b`, and the regular-expression class `\w`.
    All three are modelled on ASCII. */
module Text {

  datatype Option<+T> = None | Some(value: T)

  /** `str.lower()` on one character, ASCII letters only. */
  function LowerChar(c: char): (l: char)
    ensures 'A' <= c <= 'Z' ==> l as int == c as int + 32
    ensures !('A' <= c <= 'Z') ==> l == c
    ensures !('A' <= l <= 'Z')
  {
    if 'A' <= c <= 'Z' then (c as int + 32) as char else c
  }

  /** `str.lower()`. */
  function Lower(s: string): (r: string)
    ensures |r| == |s|
    ensures forall i :: 0 <= i < |s| ==> r[i] == LowerChar(s[i])
  {
    seq(|s|, i requires 0 <= i < |s| => LowerChar(s[i]))
  }

  /** Two strings that are equal up to letter case. */
  predicate SameCase(a: string, b: string) {
    Lower(a) == Lower(b)
  }

  /** `needle` occurs in `hay` starting at index `i`. */
  ghost predicate OccursAt(needle: string, hay: string, i: nat) {
    i + |needle| <= |hay| && hay[i..i + |needle|] == needle
  }

  /** Python's `needle in hay` for strings; the empty string occurs in every
      string. */
  function IsSubstring(needle: string, hay: string): (r: bool)
    ensures r <==> exists i: nat :: OccursAt(needle, hay, i)
    decreases |hay|
  {
    if |needle| > |hay| then
      assert forall i: nat :: !OccursAt(needle, hay, i);
      false
    else if hay[..|needle|] == needle then
      assert OccursAt(needle, hay, 0);
      true
    else
      var r := IsSubstring(needle, hay[1..]);
      if r then
        assert exists j: nat :: OccursAt(needle, hay, j) by {
          var i: nat :| OccursAt(needle, hay[1..], i);
          assert hay[1..][i..i + |needle|] == hay[i + 1..i + 1 + |needle|];
          assert OccursAt(needle, hay, i + 1);
        }
        true
      else
        assert forall i: nat :: !OccursAt(needle, hay, i) by {
          forall i: nat ensures !OccursAt(needle, hay, i) {
            if i > 0 && i + |needle| <= |hay| {
              assert hay[1..][i - 1..i - 1 + |needle|] == hay[i..i + |needle|];
              assert !OccursAt(needle, hay[1..], i - 1);
            }
          }
        }
        false
  }

  /** A character of the regular-expression class `\w`, ASCII only. */
  predicate IsWordChar(c: char) {
    ('a' <= c <= 'z') || ('A' <= c <= 'Z') || ('0' <= c <= '9') || c == '_'
  }

  /** A non-empty run of word characters: what `\w+` matches. */
  predicate IsWord(s: string) {
    |s| >= 1 && forall i :: 0 <= i < |s| ==> IsWordChar(s[i])
  }
}
