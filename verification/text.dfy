/** String primitives the recipe filter relies on: JavaScript's
    `toLowerCase` (restricted to the Latin-1 range) and `includes`. */
module Text {

  /** Upper-case letters that `toLowerCase` maps one-to-one onto a letter 32
      code points higher: ASCII `A`..`Z` and Latin-1 `À`..`Þ` except `×`. */
  predicate IsUpper(c: char) {
    ('A' <= c <= 'Z') || ('\U{00C0}' <= c <= '\U{00DE}' && c != '\U{00D7}')
  }

  /** Lower-case counterpart of one character; characters outside the
      modelled range are returned unchanged. */
  function LowerChar(c: char): (d: char)
    ensures IsUpper(c) ==> d as int == c as int + 32
    ensures !IsUpper(c) ==> d == c
    ensures !IsUpper(d)
  {
    if IsUpper(c) then (c as int + 32) as char else c
  }

  /** A string with no upper-case letter left in it. */
  predicate IsLower(s: string) {
    forall i :: 0 <= i < |s| ==> !IsUpper(s[i])
  }

  /** `s.toLowerCase()`, character by character: the result is lower-case,
      and a string that is lower-case already is returned as it is. */
  function Lower(s: string): (r: string)
    ensures |r| == |s|
    ensures forall i :: 0 <= i < |s| ==> r[i] == LowerChar(s[i])
    ensures IsLower(r)
    ensures IsLower(s) ==> r == s
  {
    seq(|s|, i requires 0 <= i < |s| => LowerChar(s[i]))
  }

  /** Lower-casing twice is the same as lower-casing once. */
  lemma LowerIdempotent(s: string)
    ensures Lower(Lower(s)) == Lower(s)
  {
  }

  /** Lower-casing keeps the empty string, and only it, empty. */
  lemma LowerEmpty(s: string)
    ensures Lower(s) == "" <==> s == ""
  {
    assert |Lower(s)| == |s|;
  }

  /** `t` is a prefix of `s`. */
  predicate StartsWith(s: string, t: string) {
    |t| <= |s| && s[..|t|] == t
  }

  /** `t` occurs in `s` at position `i`. */
  predicate OccursAt(s: string, t: string, i: int) {
    0 <= i <= |s| && StartsWith(s[i..], t)
  }

  /** `s.includes(t)`: scans `s` left to right for an occurrence of `t`.
      The empty string is contained in every string. */
  function Contains(s: string, t: string): (b: bool)
    ensures b <==> exists i :: OccursAt(s, t, i)
    decreases |s|
  {
    if StartsWith(s, t) then
      assert OccursAt(s, t, 0);
      true
    else if |s| == 0 then
      false
    else
      var b := Contains(s[1..], t);
      if b then
        var j :| OccursAt(s[1..], t, j);
        assert s[1..][j..] == s[j + 1..];
        assert OccursAt(s, t, j + 1);
        true
      else
        var rest := s[1..];
        forall i | 0 <= i <= |s|
          ensures !OccursAt(s, t, i)
        {
          if i > 0 {
            assert rest[i - 1..] == s[i..];
            assert !OccursAt(rest, t, i - 1);
          }
        }
        false
  }

  lemma ContainsEmpty(s: string)
    ensures Contains(s, "")
  {
    assert OccursAt(s, "", 0);
  }

  /** Whoever contains `t + u` contains `t`: a keyword that extends another
      keyword adds nothing to a list that already holds the shorter one. */
  lemma ContainsPrefixOfNeedle(s: string, t: string, u: string)
    requires Contains(s, t + u)
    ensures Contains(s, t)
  {
    var i :| OccursAt(s, t + u, i);
    assert s[i..][..|t|] == (t + u)[..|t|] == t;
    assert OccursAt(s, t, i);
  }

  /** A string cannot contain a needle with a character it lacks. */
  lemma MissingCharNotContained(s: string, t: string, c: char)
    requires c in t && c !in s
    ensures !Contains(s, t)
  {
  }
}
