/** The two pieces of Python string behaviour the dispatcher and the theme
    selector rely on: the substring test `needle in haystack` and
    `s.split(sep, 1)`, plus the concatenation a caller performs on a stream of
    fragments. Strings are sequences of Unicode scalar values; no case folding
    or normalisation takes place, as in Python. */
module Strings {
  import opened Wrappers

  /** `needle` sits in `haystack` starting at index `i`. */
  ghost predicate OccursAt(needle: string, haystack: string, i: int)
  {
    0 <= i && i + |needle| <= |haystack| && haystack[i..i + |needle|] == needle
  }

  /** Python's `needle in haystack` for two strings, as a specification. */
  ghost predicate Occurs(needle: string, haystack: string)
  {
    exists i :: OccursAt(needle, haystack, i)
  }

  /** Executable substring test. The empty needle occurs in every string,
      as it does in Python. */
  function Contains(needle: string, haystack: string): (r: bool)
    ensures r <==> Occurs(needle, haystack)
    decreases |haystack|
  {
    if |haystack| < |needle| then
      assert forall i :: !OccursAt(needle, haystack, i);
      false
    else if haystack[..|needle|] == needle then
      assert OccursAt(needle, haystack, 0);
      true
    else
      var rest := Contains(needle, haystack[1..]);
      ShiftOccurrence(needle, haystack);
      rest
  }

  /** An occurrence in the tail of a string is an occurrence one place later
      in the whole, and every occurrence in the whole other than at index 0
      arises that way. */
  lemma ShiftOccurrence(needle: string, haystack: string)
    requires |haystack| >= |needle| && haystack[..|needle|] != needle
    ensures Occurs(needle, haystack) <==> Occurs(needle, haystack[1..])
  {
    if Occurs(needle, haystack) {
      var i :| OccursAt(needle, haystack, i);
      assert i != 0;
      assert haystack[1..][i - 1..i - 1 + |needle|] == haystack[i..i + |needle|];
      assert OccursAt(needle, haystack[1..], i - 1);
    }
    if Occurs(needle, haystack[1..]) {
      var j :| OccursAt(needle, haystack[1..], j);
      assert haystack[1..][j..j + |needle|] == haystack[j + 1..j + 1 + |needle|];
      assert OccursAt(needle, haystack, j + 1);
    }
  }

  /** A string lacking one of the needle's characters cannot contain it. */
  lemma AbsentCharExcludes(needle: string, haystack: string, j: int)
    requires 0 <= j < |needle| && needle[j] !in haystack
    ensures !Occurs(needle, haystack)
  {
    forall i | 0 <= i && i + |needle| <= |haystack|
      ensures !OccursAt(needle, haystack, i)
    {
      assert haystack[i..i + |needle|][j] == haystack[i + j];
    }
  }

  /** Position of the first `c` in `s`, if any. */
  function IndexOf(s: string, c: char): (r: Option<nat>)
    ensures r.None? <==> c !in s
    ensures r.Some? ==> r.value < |s| && s[r.value] == c && c !in s[..r.value]
  {
    if |s| == 0 then None
    else if s[0] == c then Some(0)
    else match IndexOf(s[1..], c)
      case None => None
      case Some(i) =>
        assert s[..i + 1] == [s[0]] + s[1..][..i];
        Some(i + 1)
  }

  /** Python's `s.split(sep, 1)` for a one-character separator: the whole
      string when `sep` does not occur, otherwise the text before the first
      `sep` and the text after it. */
  function SplitOnce(s: string, sep: char): (parts: seq<string>)
    ensures |parts| == 1 || |parts| == 2
    ensures |parts| == 1 <==> sep !in s
    ensures |parts| == 1 ==> parts[0] == s
    ensures |parts| == 2 ==> parts[0] + [sep] + parts[1] == s && sep !in parts[0]
  {
    match IndexOf(s, sep)
    case None => [s]
    case Some(i) =>
      assert s[..i] + [sep] + s[i + 1..] == s;
      [s[..i], s[i + 1..]]
  }

  /** `"".join(parts)`: what a caller accumulating `full_reply += chunk`
      holds at the end. */
  function Concat(parts: seq<string>): string
  {
    if parts == [] then "" else parts[0] + Concat(parts[1..])
  }

  lemma {:induction false} ConcatAppend(a: seq<string>, b: seq<string>)
    ensures Concat(a + b) == Concat(a) + Concat(b)
    decreases |a|
  {
    if a == [] {
      assert a + b == b;
    } else {
      assert (a + b)[1..] == a[1..] + b;
      ConcatAppend(a[1..], b);
    }
  }
}
