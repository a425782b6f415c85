/** The text form of an ingredient list in the edit form: the list is shown
    as `ingredients.join(", ")` and read back as
    `value.split(",").map(i => i.trim())`. */
module IngredientText {

  /** The characters `String.prototype.trim` strips: the ECMAScript
      WhiteSpace (tab, vertical tab, form feed, space, no-break space, byte
      order mark and the Unicode space separators) and LineTerminator
      (line feed, carriage return, line and paragraph separators) sets. */
  predicate IsWhitespace(c: char) {
    || c == '\t' || c == '\n' || c == '\U{000B}' || c == '\U{000C}' || c == '\r'
    || c == ' ' || c == '\U{00A0}' || c == '\U{1680}'
    || ('\U{2000}' <= c <= '\U{200A}')
    || c == '\U{2028}' || c == '\U{2029}' || c == '\U{202F}' || c == '\U{205F}'
    || c == '\U{3000}' || c == '\U{FEFF}'
  }

  /** Neither starts nor ends with whitespace. */
  predicate IsTrimmed(s: string) {
    |s| == 0 || (!IsWhitespace(s[0]) && !IsWhitespace(s[|s| - 1]))
  }

  /** The first index at or after `i` that does not hold whitespace, or
      `|s|`; everything skipped is whitespace. */
  function SkipLeading(s: string, i: nat): (j: nat)
    requires i <= |s|
    ensures i <= j <= |s|
    ensures forall k :: i <= k < j ==> IsWhitespace(s[k])
    ensures j == |s| || !IsWhitespace(s[j])
    decreases |s| - i
  {
    if i < |s| && IsWhitespace(s[i]) then SkipLeading(s, i + 1) else i
  }

  /** The end of `s[lo..j]` once its trailing whitespace is dropped; it does
      not go below `lo`, and everything dropped is whitespace. */
  function SkipTrailing(s: string, lo: nat, j: nat): (e: nat)
    requires lo <= j <= |s|
    ensures lo <= e <= j
    ensures forall k :: e <= k < j ==> IsWhitespace(s[k])
    ensures e == lo || !IsWhitespace(s[e - 1])
    decreases j
  {
    if j > lo && IsWhitespace(s[j - 1]) then SkipTrailing(s, lo, j - 1) else j
  }

  /** The number of whitespace characters at the start of `s`. */
  function Leading(s: string): (n: nat)
    ensures n <= |s|
  {
    SkipLeading(s, 0)
  }

  /** `s.trim()`: the slice of `s` between its leading and its trailing
      whitespace. It neither starts nor ends with whitespace, and everything
      it cuts off, on either side, is whitespace. */
  function Trim(s: string): (r: string)
    ensures IsTrimmed(r)
    ensures Leading(s) + |r| <= |s| && r == s[Leading(s)..Leading(s) + |r|]
    ensures forall k :: 0 <= k < Leading(s) ==> IsWhitespace(s[k])
    ensures forall k :: Leading(s) + |r| <= k < |s| ==> IsWhitespace(s[k])
  {
    var i := SkipLeading(s, 0);
    var e := SkipTrailing(s, i, |s|);
    s[i..e]
  }

  /** Trimming only removes characters. */
  lemma TrimKeepsAbsent(s: string, c: char)
    requires c !in s
    ensures c !in Trim(s)
  {
    var r := Trim(s);
    var i := Leading(s);
    forall k | 0 <= k < |r| ensures r[k] != c {
      assert r[k] == s[i + k];
    }
  }

  /** Trimming changes exactly the strings that are not trimmed already. */
  lemma TrimFixesExactlyTrimmed(s: string)
    ensures Trim(s) == s <==> IsTrimmed(s)
  {
    if IsTrimmed(s) {
      assert SkipLeading(s, 0) == 0;
      assert SkipTrailing(s, 0, |s|) == |s|;
      assert s[0..|s|] == s;
    }
  }

  /** A leading space is trimmed off a trimmed string. */
  lemma TrimSpaceBefore(s: string)
    requires IsTrimmed(s)
    ensures Trim(" " + s) == s
  {
    var t := " " + s;
    assert SkipLeading(t, 1) == 1;
    assert SkipLeading(t, 0) == 1;
    assert SkipTrailing(t, 1, |t|) == |t|;
    assert t[1..|t|] == s;
  }

  /** Number of occurrences of `c` in `s`. */
  function Count(s: string, c: char): nat
    decreases |s|
  {
    if |s| == 0 then 0 else (if s[0] == c then 1 else 0) + Count(s[1..], c)
  }

  /** `xs.join(sep)`: the elements with `sep` between neighbours. */
  function Join(xs: seq<string>, sep: string): string
    decreases |xs|
  {
    if |xs| == 0 then ""
    else if |xs| == 1 then xs[0]
    else xs[0] + sep + Join(xs[1..], sep)
  }

  /** `s.split(sep)` for a one-character separator: the maximal
      separator-free pieces of `s`, which joined back with the separator give
      `s`. There is always one piece more than there are separators, so the
      empty string splits into one empty piece. */
  function Split(s: string, sep: char): (parts: seq<string>)
    ensures |parts| == Count(s, sep) + 1
    ensures forall i :: 0 <= i < |parts| ==> sep !in parts[i]
    ensures Join(parts, [sep]) == s
    decreases |s|
  {
    if |s| == 0 then [""]
    else
      var rest := Split(s[1..], sep);
      if s[0] == sep then
        assert s == [sep] + s[1..];
        [""] + rest
      else
        var parts := [[s[0]] + rest[0]] + rest[1..];
        assert parts[1..] == rest[1..];
        if |rest| == 1 then
          assert s == [s[0]] + rest[0];
          parts
        else
          assert rest == [rest[0]] + rest[1..];
          assert Join(rest, [sep]) == rest[0] + [sep] + Join(rest[1..], [sep]);
          assert s == [s[0]] + rest[0] + [sep] + Join(rest[1..], [sep]);
          parts
  }

  /** A separator-free string is one piece. */
  lemma {:induction false} SplitNoSep(a: string, sep: char)
    requires sep !in a
    ensures Split(a, sep) == [a]
    decreases |a|
  {
    if |a| > 0 {
      SplitNoSep(a[1..], sep);
      assert [a[0]] + a[1..] == a;
    }
  }

  /** Splitting a string whose first separator follows `a` yields `a` and
      then the pieces of the remainder. */
  lemma {:induction false} SplitAfterFirst(a: string, b: string, sep: char)
    requires sep !in a
    ensures Split(a + [sep] + b, sep) == [a] + Split(b, sep)
    decreases |a|
  {
    var s := a + [sep] + b;
    if |a| == 0 {
      assert s[1..] == b;
    } else {
      assert s[1..] == a[1..] + [sep] + b;
      SplitAfterFirst(a[1..], b, sep);
      assert [a[0]] + a[1..] == a;
    }
  }

  /** Splitting undoes joining, for a non-empty list of separator-free
      pieces. */
  lemma {:induction false} SplitJoin(xs: seq<string>, sep: char)
    requires |xs| >= 1
    requires forall i :: 0 <= i < |xs| ==> sep !in xs[i]
    ensures Split(Join(xs, [sep]), sep) == xs
    decreases |xs|
  {
    if |xs| == 1 {
      SplitNoSep(xs[0], sep);
    } else {
      SplitAfterFirst(xs[0], Join(xs[1..], [sep]), sep);
      SplitJoin(xs[1..], sep);
      assert xs == [xs[0]] + xs[1..];
    }
  }

  /** Each string with a space in front. */
  function Spaced(xs: seq<string>): seq<string> {
    seq(|xs|, i requires 0 <= i < |xs| => " " + xs[i])
  }

  /** Joining with ", " is joining with "," after putting a space in front of
      every element but the first. */
  lemma {:induction false} JoinCommaSpace(p: string, xs: seq<string>)
    requires |xs| >= 1
    ensures Join([p + xs[0]] + Spaced(xs[1..]), ",") == p + Join(xs, ", ")
    decreases |xs|
  {
    var lhs := [p + xs[0]] + Spaced(xs[1..]);
    if |xs| > 1 {
      assert Spaced(xs[1..]) == [" " + xs[1]] + Spaced(xs[2..]);
      assert xs[1..][1..] == xs[2..];
      JoinCommaSpace(" ", xs[1..]);
      assert lhs[1..] == [" " + xs[1..][0]] + Spaced(xs[1..][1..]);
    }
  }

  /** `ingredients.join(", ")`, the text the edit form shows for an
      ingredient list. For a non-empty list of comma-free ingredients,
      splitting it at the commas gives the ingredients back, every one but
      the first with the space of its ", " in front. */
  function RenderIngredients(xs: seq<string>): (text: string)
    ensures |xs| >= 1 && (forall i :: 0 <= i < |xs| ==> ',' !in xs[i]) ==>
              Split(text, ',') == [xs[0]] + Spaced(xs[1..])
  {
    var text := Join(xs, ", ");
    if |xs| >= 1 && (forall i :: 0 <= i < |xs| ==> ',' !in xs[i]) then
      var parts := [xs[0]] + Spaced(xs[1..]);
      JoinCommaSpace("", xs);
      assert "" + xs[0] == xs[0];
      assert "" + text == text;
      assert forall i :: 0 <= i < |parts| ==> ',' !in parts[i] by {
        forall i | 0 <= i < |parts| ensures ',' !in parts[i] {
          if i > 0 {
            assert parts[i] == " " + xs[i];
          }
        }
      }
      SplitJoin(parts, ',');
      text
    else
      text
  }

  /** The ingredient list the form submits for a text: one entry per
      comma-separated piece, trimmed. */
  function ParseIngredients(text: string): (r: seq<string>)
    ensures |r| == Count(text, ',') + 1
    ensures forall i :: 0 <= i < |r| ==> r[i] == Trim(Split(text, ',')[i])
    ensures forall i :: 0 <= i < |r| ==> IsTrimmed(r[i]) && ',' !in r[i]
  {
    var parts := Split(text, ',');
    seq(|parts|, i requires 0 <= i < |parts| =>
      var t := Trim(parts[i]);
      assert ',' !in t by {
        TrimKeepsAbsent(parts[i], ',');
      }
      t)
  }

  /** Trimming the rendered pieces, the first as is and every later one with
      its leading space, gives back the trimmed ingredients. */
  lemma TrimRenderedPieces(xs: seq<string>)
    requires |xs| >= 1
    requires forall i :: 0 <= i < |xs| ==> IsTrimmed(xs[i])
    ensures var parts := [xs[0]] + Spaced(xs[1..]);
            forall i :: 0 <= i < |xs| ==> Trim(parts[i]) == xs[i]
  {
    var parts := [xs[0]] + Spaced(xs[1..]);
    forall i | 0 <= i < |xs| ensures Trim(parts[i]) == xs[i] {
      if i == 0 {
        TrimFixesExactlyTrimmed(xs[0]);
      } else {
        assert parts[i] == " " + xs[i];
        TrimSpaceBefore(xs[i]);
      }
    }
  }

  /** Showing a non-empty list of trimmed, comma-free ingredients and
      submitting the form unchanged gives back the same list. */
  lemma RenderParseRoundTrip(xs: seq<string>)
    requires |xs| >= 1
    requires forall i :: 0 <= i < |xs| ==> IsTrimmed(xs[i]) && ',' !in xs[i]
    ensures ParseIngredients(RenderIngredients(xs)) == xs
  {
    var parts := [xs[0]] + Spaced(xs[1..]);
    TrimRenderedPieces(xs);
    var r := ParseIngredients(RenderIngredients(xs));
    assert forall i :: 0 <= i < |r| ==> r[i] == Trim(parts[i]);
  }

  /** An empty list comes back as one empty ingredient. */
  lemma EmptyListComesBackAsOneEmpty()
    ensures ParseIngredients(RenderIngredients([])) == [""]
  {
    assert Split("", ',') == [""];
    assert Trim("") == "";
  }

  /** An ingredient that itself holds ", " comes back as two ingredients. */
  lemma CommaSplitsIngredient(a: string, b: string)
    requires IsTrimmed(a) && ',' !in a
    requires IsTrimmed(b) && ',' !in b
    ensures ParseIngredients(RenderIngredients([a + ", " + b])) == [a, b]
  {
    assert [a, b][1..] == [b];
    assert Join([a, b], ", ") == a + ", " + Join([b], ", ");
    RenderParseRoundTrip([a, b]);
  }

  /** Whatever was typed, submitting the resulting list once more through the
      form gives the same list: parsing is stable under a render round. */
  lemma ParseRenderParse(text: string)
    ensures ParseIngredients(RenderIngredients(ParseIngredients(text))) == ParseIngredients(text)
  {
    RenderParseRoundTrip(ParseIngredients(text));
  }
}
