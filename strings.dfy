/** The two Python string operations the handler relies on: the first field of
    `s.split(sep)` and `s.find(pat)`. */
module Strings {

  /** The part of `s` before the first occurrence of `sep`, or all of `s` when
      `sep` does not occur: Python's `s.split(sep)[0]` for a one-character
      separator. */
  function FieldBefore(s: string, sep: char): (r: string)
    ensures r <= s
    ensures sep !in r
    ensures |r| == |s| || s[|r|] == sep
    decreases |s|
  {
    if s == [] || s[0] == sep then [] else [s[0]] + FieldBefore(s[1..], sep)
  }

  /** The first space-delimited token of a message: `text.split(" ")[0]`. */
  function FirstToken(text: string): (r: string)
    ensures r <= text && ' ' !in r
    ensures |r| == |text| || text[|r|] == ' '
  {
    FieldBefore(text, ' ')
  }

  /** `pat` occurs in `s` starting at index `i`. */
  predicate OccursAt(s: string, pat: string, i: int)
  {
    0 <= i && i + |pat| <= |s| && s[i..i + |pat|] == pat
  }

  /** Python's `s.find(pat)`: the lowest index at which `pat` occurs, or -1. */
  function Find(s: string, pat: string): (r: int)
    ensures -1 <= r <= |s|
    ensures r >= 0 ==> OccursAt(s, pat, r)
    ensures r >= 0 ==> forall j :: 0 <= j < r ==> !OccursAt(s, pat, j)
    ensures r == -1 <==> forall j :: !OccursAt(s, pat, j)
    decreases |s|
  {
    if |pat| > |s| then -1
    else if s[..|pat|] == pat then assert OccursAt(s, pat, 0); 0
    else
      var k := Find(s[1..], pat);
      ShiftOccurrence(s, pat);
      if k < 0 then -1 else k + 1
  }

  /** An occurrence in `s` past index 0 is an occurrence in `s[1..]` one place
      earlier, and conversely. */
  lemma ShiftOccurrence(s: string, pat: string)
    requires |s| > 0
    ensures forall j :: 1 <= j ==> (OccursAt(s, pat, j) <==> OccursAt(s[1..], pat, j - 1))
  {
  }
}
