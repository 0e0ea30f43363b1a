/**
 * The few built-in string operations the two services rely on: `lower`,
 * `strip`, `title` and `sep.join(parts)`, defined over ASCII characters.
 * Characters outside ASCII are treated as uncased and as non-whitespace.
 */
module Strings {

  /** Whitespace as the runtime's `isspace` sees it within ASCII. */
  predicate IsSpace(c: char) {
    c == ' ' || c == '\t' || c == '\n' || c == '\r' || c == '\U{B}' || c == '\U{C}'
    || ('\U{1C}' <= c <= '\U{1F}')
  }

  predicate IsUpper(c: char) { 'A' <= c <= 'Z' }

  predicate IsLower(c: char) { 'a' <= c <= 'z' }

  /** A cased character is a letter that has an upper- and a lower-case form. */
  predicate IsCased(c: char) { IsUpper(c) || IsLower(c) }

  function LowerChar(c: char): (d: char)
    ensures !IsUpper(d)
    ensures IsCased(d) <==> IsCased(c)
    ensures !IsUpper(c) ==> d == c
  {
    if IsUpper(c) then (c as int + 32) as char else c
  }

  function UpperChar(c: char): (d: char)
    ensures !IsLower(d)
    ensures IsCased(d) <==> IsCased(c)
    ensures !IsLower(c) ==> d == c
    ensures LowerChar(d) == LowerChar(c)
  {
    if IsLower(c) then (c as int - 32) as char else c
  }

  /** Two cased characters that agree up to case and in being upper-case are the same character. */
  lemma SameLetter(c: char, d: char)
    requires IsCased(c) && IsCased(d)
    requires LowerChar(c) == LowerChar(d)
    requires IsUpper(c) <==> IsUpper(d)
    ensures c == d
  {
  }

  // ---------------------------------------------------------------- lower

  /** `s.lower()`: every upper-case letter becomes lower-case, nothing else changes. */
  function Lower(s: string): (r: string)
    ensures |r| == |s|
    ensures forall i :: 0 <= i < |r| ==> !IsUpper(r[i])
    ensures forall i :: 0 <= i < |s| && !IsUpper(s[i]) ==> r[i] == s[i]
    ensures forall i :: 0 <= i < |s| ==> UpperChar(r[i]) == UpperChar(s[i])
  {
    seq(|s|, i requires 0 <= i < |s| => LowerChar(s[i]))
  }

  /** `a` and `b` differ at most in the case of their letters. */
  predicate SameUpToCase(a: string, b: string) {
    |a| == |b| && forall i :: 0 <= i < |a| ==> UpperChar(a[i]) == UpperChar(b[i])
  }

  /** Strings that differ only in the case of their letters lower-case to the same string. */
  lemma LowerIgnoresCase(a: string, b: string)
    requires SameUpToCase(a, b)
    ensures Lower(a) == Lower(b)
  {
    forall i | 0 <= i < |a|
      ensures Lower(a)[i] == Lower(b)[i]
    {
      assert LowerChar(UpperChar(a[i])) == LowerChar(UpperChar(b[i]));
    }
  }

  lemma LowerIdempotent(s: string)
    ensures Lower(Lower(s)) == Lower(s)
  {
  }

  /** Lower-casing works character by character, so it distributes over concatenation. */
  lemma LowerConcat(a: string, b: string)
    ensures Lower(a + b) == Lower(a) + Lower(b)
  {
    assert forall i :: 0 <= i < |a + b| ==> Lower(a + b)[i] == (Lower(a) + Lower(b))[i];
  }

  /** `[p.lower() for p in parts]` */
  function LowerAll(parts: seq<string>): (r: seq<string>)
    ensures |r| == |parts|
    ensures forall i :: 0 <= i < |parts| ==> r[i] == Lower(parts[i])
  {
    seq(|parts|, i requires 0 <= i < |parts| => Lower(parts[i]))
  }

  // ---------------------------------------------------------------- join

  /** `sep.join(parts)`: the parts in order, with `sep` between neighbours. */
  function Join(sep: string, parts: seq<string>): string
    decreases |parts|
  {
    if |parts| == 0 then ""
    else if |parts| == 1 then parts[0]
    else Join(sep, parts[..|parts| - 1]) + sep + parts[|parts| - 1]
  }

  /**
   * Joining a longer list extends the joined shorter one: the parts keep
   * their order, and the new part comes last, after one separator.
   */
  lemma JoinAppend(sep: string, parts: seq<string>, p: string)
    requires parts != []
    ensures Join(sep, parts + [p]) == Join(sep, parts) + sep + p
  {
    assert (parts + [p])[..|parts|] == parts;
  }

  /** Lower-casing a joined string is joining the lower-cased parts with the lower-cased separator. */
  lemma {:induction false} LowerJoin(sep: string, parts: seq<string>)
    ensures Lower(Join(sep, parts)) == Join(Lower(sep), LowerAll(parts))
    decreases |parts|
  {
    if |parts| == 1 {
      assert LowerAll(parts) == [Lower(parts[0])];
    } else if |parts| > 1 {
      var init := parts[..|parts| - 1];
      var last := parts[|parts| - 1];
      LowerJoin(sep, init);
      LowerConcat(Join(sep, init) + sep, last);
      LowerConcat(Join(sep, init), sep);
      assert LowerAll(parts)[..|parts| - 1] == LowerAll(init);
    }
  }

  // ---------------------------------------------------------------- strip

  /** The number of whitespace characters `s` starts with (their meaning is `LeadingSpacesSpec`). */
  function LeadingSpaces(s: string): (n: nat)
    ensures n <= |s|
    decreases |s|
  {
    if s == [] || !IsSpace(s[0]) then 0 else 1 + LeadingSpaces(s[1..])
  }

  /** The number of whitespace characters `s` ends with (their meaning is `TrailingSpacesSpec`). */
  function TrailingSpaces(s: string): (n: nat)
    ensures n <= |s|
    decreases |s|
  {
    if s == [] || !IsSpace(s[|s| - 1]) then 0 else 1 + TrailingSpaces(s[..|s| - 1])
  }

  /** `LeadingSpaces(s)` counts the whole whitespace run at the front of `s`, and no more. */
  lemma {:induction false} LeadingSpacesSpec(s: string)
    ensures forall i :: 0 <= i < LeadingSpaces(s) ==> IsSpace(s[i])
    ensures LeadingSpaces(s) < |s| ==> !IsSpace(s[LeadingSpaces(s)])
    decreases |s|
  {
    if s != [] && IsSpace(s[0]) {
      LeadingSpacesSpec(s[1..]);
    }
  }

  /** `TrailingSpaces(s)` counts the whole whitespace run at the back of `s`, and no more. */
  lemma {:induction false} TrailingSpacesSpec(s: string)
    ensures forall i :: |s| - TrailingSpaces(s) <= i < |s| ==> IsSpace(s[i])
    ensures TrailingSpaces(s) < |s| ==> !IsSpace(s[|s| - 1 - TrailingSpaces(s)])
    decreases |s|
  {
    if s != [] && IsSpace(s[|s| - 1]) {
      TrailingSpacesSpec(s[..|s| - 1]);
    }
  }

  /** `s.strip()` (its meaning is `StripSpec`). */
  function Strip(s: string): string {
    var rest := s[LeadingSpaces(s)..];
    rest[..|rest| - TrailingSpaces(rest)]
  }

  /** The stripped string is the slice of `s` between its leading and its trailing whitespace. */
  lemma StripSlice(s: string)
    ensures LeadingSpaces(s) + |Strip(s)| <= |s|
    ensures Strip(s) == s[LeadingSpaces(s)..LeadingSpaces(s) + |Strip(s)|]
    ensures forall i :: LeadingSpaces(s) + |Strip(s)| <= i < |s| ==> IsSpace(s[i])
    ensures Strip(s) != [] ==> !IsSpace(Strip(s)[|Strip(s)| - 1])
  {
    var lead := LeadingSpaces(s);
    var rest := s[lead..];
    var trail := TrailingSpaces(rest);
    var r := rest[..|rest| - trail];
    assert Strip(s) == r;
    TrailingSpacesSpec(rest);
    forall i | lead + |r| <= i < |s|
      ensures IsSpace(s[i])
    {
      assert s[i] == rest[i - lead];
    }
  }

  /**
   * The stripped string is the slice of `s` left after removing its leading
   * and trailing whitespace: it neither starts nor ends with whitespace, all
   * that was removed is whitespace, and it is empty exactly when `s` is all
   * whitespace.
   */
  lemma StripSpec(s: string)
    ensures var r := Strip(s);
            && LeadingSpaces(s) + |r| <= |s|
            && r == s[LeadingSpaces(s)..LeadingSpaces(s) + |r|]
            && (forall i :: 0 <= i < LeadingSpaces(s) ==> IsSpace(s[i]))
            && (forall i :: LeadingSpaces(s) + |r| <= i < |s| ==> IsSpace(s[i]))
            && (r != [] ==> !IsSpace(r[0]) && !IsSpace(r[|r| - 1]))
            && (r == [] <==> forall i :: 0 <= i < |s| ==> IsSpace(s[i]))
  {
    var lead := LeadingSpaces(s);
    var r := Strip(s);
    LeadingSpacesSpec(s);
    StripSlice(s);
    if r != [] {
      assert r[0] == s[lead];
    }
  }

  /** A string without whitespace at either end is its own stripped form. */
  lemma StripTrimmed(s: string)
    requires s != [] ==> !IsSpace(s[0]) && !IsSpace(s[|s| - 1])
    ensures Strip(s) == s
  {
  }

  // ---------------------------------------------------------------- title

  /**
   * `s.title()` continued after a character that was (`afterCased`) or was not
   * a cased letter. The character-by-character meaning is `TitleFromSpec`.
   */
  function TitleFrom(s: string, afterCased: bool): string
    decreases |s|
  {
    if s == [] then []
    else
      var c := s[0];
      var d := if !IsCased(c) then c else if afterCased then LowerChar(c) else UpperChar(c);
      [d] + TitleFrom(s[1..], IsCased(c))
  }

  /** `s.title()` */
  function Title(s: string): string {
    TitleFrom(s, false)
  }

  /**
   * Title-casing keeps every character up to case and every non-letter
   * exactly; a letter ends up upper-case exactly when it opens a run of
   * letters (and is lower-case otherwise).
   */
  lemma {:induction false} TitleFromSpec(s: string, afterCased: bool)
    ensures var r := TitleFrom(s, afterCased);
            && |r| == |s|
            && (forall i :: 0 <= i < |s| ==> LowerChar(r[i]) == LowerChar(s[i]))
            && (forall i :: 0 <= i < |s| ==> (IsCased(r[i]) <==> IsCased(s[i])))
            && (forall i :: 0 <= i < |s| && !IsCased(s[i]) ==> r[i] == s[i])
            && (forall i :: 0 <= i < |s| && IsCased(s[i]) ==>
                  (IsUpper(r[i]) <==> (if i == 0 then !afterCased else !IsCased(s[i - 1]))))
    decreases |s|
  {
    if s != [] {
      TitleFromSpec(s[1..], IsCased(s[0]));
    }
  }

  /** Title-casing twice is title-casing once. */
  lemma TitleIdempotent(s: string)
    ensures Title(Title(s)) == Title(s)
  {
    var t := Title(s);
    var u := Title(t);
    TitleFromSpec(s, false);
    TitleFromSpec(t, false);
    forall i | 0 <= i < |s|
      ensures u[i] == t[i]
    {
      if IsCased(t[i]) {
        assert i > 0 ==> (IsCased(t[i - 1]) <==> IsCased(s[i - 1]));
        assert IsUpper(u[i]) <==> IsUpper(t[i]);
        SameLetter(u[i], t[i]);
      }
    }
  }

  /** Title-casing moves no whitespace: it keeps every non-letter where it was. */
  lemma TitleKeepsSpaces(s: string)
    ensures |Title(s)| == |s|
    ensures forall i :: 0 <= i < |s| ==> (IsSpace(Title(s)[i]) <==> IsSpace(s[i]))
  {
    TitleFromSpec(s, false);
  }
}
