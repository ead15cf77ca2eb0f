/**
 * The few operations of Python's `str` that the modelled code relies on:
 * `find`, slicing with clamped bounds, `replace(pat, '')`, `lower()` and
 * the ordering `<`.
 */
module Strings {

  /** `pat` occurs in `s` at offset `i`. */
  predicate OccursAt(s: string, pat: string, i: int) {
    0 <= i && i + |pat| <= |s| && s[i..i + |pat|] == pat
  }

  /** A one-character pattern occurs exactly where that character stands. */
  lemma OccursAtChar(s: string, c: char, i: int)
    ensures OccursAt(s, [c], i) <==> 0 <= i < |s| && s[i] == c
  {
    if 0 <= i < |s| {
      assert s[i..i + 1] == [s[i]];
    }
  }

  lemma CharOccurrences(s: string, c: char)
    ensures forall i :: OccursAt(s, [c], i) <==> 0 <= i < |s| && s[i] == c
  {
    forall i ensures OccursAt(s, [c], i) <==> 0 <= i < |s| && s[i] == c {
      OccursAtChar(s, c, i);
    }
  }

  /** `pat` occurs somewhere in `s`. */
  ghost predicate Contains(s: string, pat: string) {
    exists i :: OccursAt(s, pat, i)
  }

  /** `i` is the first offset at which `pat` occurs in `s`. */
  ghost predicate IsFirstOccurrence(s: string, pat: string, i: int) {
    OccursAt(s, pat, i) && forall j :: 0 <= j < i ==> !OccursAt(s, pat, j)
  }

  function FindFrom(s: string, pat: string, from: nat): (r: int)
    decreases |s| - from
    ensures r == -1 || (from <= r && OccursAt(s, pat, r))
    ensures r == -1 ==> forall j :: from <= j ==> !OccursAt(s, pat, j)
    ensures r != -1 ==> forall j :: from <= j < r ==> !OccursAt(s, pat, j)
  {
    if from + |pat| > |s| then -1
    else if s[from..from + |pat|] == pat then from
    else FindFrom(s, pat, from + 1)
  }

  /** `s.find(pat)`: the first offset of `pat` in `s`, or -1 when it is absent. */
  function Find(s: string, pat: string): (r: int)
    ensures r == -1 <==> !Contains(s, pat)
    ensures r != -1 ==> IsFirstOccurrence(s, pat, r)
  {
    FindFrom(s, pat, 0)
  }

  lemma FindIsFirst(s: string, pat: string, k: int)
    requires IsFirstOccurrence(s, pat, k)
    ensures Find(s, pat) == k
  {
  }

  /** A character's first occurrence is right after a prefix that lacks it. */
  lemma FindAfter(a: string, c: char, b: string)
    requires c !in a
    ensures Find(a + [c] + b, [c]) == |a|
  {
    var s := a + [c] + b;
    CharOccurrences(s, c);
    assert s[|a|] == c;
    forall j | 0 <= j < |a| ensures !OccursAt(s, [c], j) {
      assert s[j] == a[j];
    }
    FindIsFirst(s, [c], |a|);
  }

  /** `s[b:e]` for non-negative bounds: both clamped to `len(s)`, empty when `b >= e`. */
  function Slice(s: string, b: nat, e: nat): (r: string)
    ensures b <= e <= |s| ==> r == s[b..e]
    ensures e <= b ==> r == []
    ensures |r| <= |s|
  {
    var hi := if e <= |s| then e else |s|;
    if b < hi then s[b..hi] else []
  }

  /** `s.replace(pat, '')`: every occurrence of `pat`, scanned left to right without overlap, removed. */
  function RemoveAll(s: string, pat: string): (r: string)
    requires pat != []
    ensures |r| <= |s|
    decreases |s|
  {
    if |s| < |pat| then s
    else if s[..|pat|] == pat then RemoveAll(s[|pat|..], pat)
    else [s[0]] + RemoveAll(s[1..], pat)
  }

  /** Removing a pattern never introduces a character. */
  lemma {:induction false} RemoveAllChars(s: string, pat: string, c: char)
    requires pat != []
    ensures c in RemoveAll(s, pat) ==> c in s
    decreases |s|
  {
    if |s| < |pat| {
    } else if s[..|pat|] == pat {
      RemoveAllChars(s[|pat|..], pat, c);
      assert c in s[|pat|..] ==> c in s;
    } else {
      RemoveAllChars(s[1..], pat, c);
      assert c in s[1..] ==> c in s;
    }
  }

  /** A string without the first character of `pat` has nothing to remove. */
  lemma {:induction false} RemoveAllAbsent(s: string, pat: string)
    requires pat != [] && pat[0] !in s
    ensures RemoveAll(s, pat) == s
    decreases |s|
  {
    if |s| >= |pat| {
      assert s[..|pat|][0] == s[0];
      RemoveAllAbsent(s[1..], pat);
      assert [s[0]] + s[1..] == s;
    }
  }

  /**
   * Lower-case mapping of one character, as `str.lower()` does it for the
   * Latin and Cyrillic capital letters; every other character is unchanged.
   */
  function LowerChar(c: char): (r: char)
    ensures !('A' <= r <= 'Z' || 'А' <= r <= 'Я' || 'Ѐ' <= r <= 'Џ')
  {
    if 'A' <= c <= 'Z' || 'А' <= c <= 'Я' then (c as int + 32) as char
    else if 'Ѐ' <= c <= 'Џ' then (c as int + 80) as char
    else c
  }

  function Lower(s: string): (r: string)
    ensures |r| == |s|
  {
    seq(|s|, i requires 0 <= i < |s| => LowerChar(s[i]))
  }

  /** The two strings agree character by character once lower-cased. */
  predicate SameIgnoringCase(a: string, b: string)
    decreases |a|
  {
    |a| == |b| && (a == [] || (LowerChar(a[0]) == LowerChar(b[0]) && SameIgnoringCase(a[1..], b[1..])))
  }

  /** `SameIgnoringCase` is `a.lower() == b.lower()`. */
  lemma {:induction false} SameIgnoringCaseIsLowerEqual(a: string, b: string)
    ensures SameIgnoringCase(a, b) <==> Lower(a) == Lower(b)
    decreases |a|
  {
    if |a| == |b| && a != [] {
      SameIgnoringCaseIsLowerEqual(a[1..], b[1..]);
      if Lower(a) == Lower(b) {
        assert Lower(a)[0] == Lower(b)[0];
        assert Lower(a[1..]) == Lower(a)[1..] && Lower(b[1..]) == Lower(b)[1..];
      }
      if SameIgnoringCase(a, b) {
        assert Lower(a) == [LowerChar(a[0])] + Lower(a[1..]);
        assert Lower(b) == [LowerChar(b[0])] + Lower(b[1..]);
      }
    }
  }

  /** Python's `a < b` on strings: lexicographic by code point, a proper prefix first. */
  predicate LexLess(a: string, b: string)
    decreases |a|
  {
    if a == [] then b != []
    else if b == [] then false
    else if a[0] != b[0] then a[0] < b[0]
    else LexLess(a[1..], b[1..])
  }

  lemma {:induction false} LexLessIrreflexive(a: string)
    ensures !LexLess(a, a)
    decreases |a|
  {
    if a != [] {
      LexLessIrreflexive(a[1..]);
    }
  }

  lemma {:induction false} LexLessTrichotomy(a: string, b: string)
    ensures a == b || LexLess(a, b) || LexLess(b, a)
    ensures !(LexLess(a, b) && LexLess(b, a))
    decreases |a|
  {
    if a != [] && b != [] && a[0] == b[0] {
      LexLessTrichotomy(a[1..], b[1..]);
      if a[1..] == b[1..] {
        assert a == [a[0]] + a[1..] && b == [b[0]] + b[1..];
      }
    }
  }

  lemma {:induction false} LexLessTransitive(a: string, b: string, c: string)
    requires LexLess(a, b) && LexLess(b, c)
    ensures LexLess(a, c)
    decreases |a|
  {
    if a != [] && a[0] == b[0] && b[0] == c[0] {
      LexLessTransitive(a[1..], b[1..], c[1..]);
    }
  }
}
