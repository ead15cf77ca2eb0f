/** Generic facts about sequences used by the search and the log statistics. */
module Sequences {

  /** No element occurs twice. */
  predicate NoDuplicates<T(==)>(s: seq<T>) {
    forall i, j :: 0 <= i < j < |s| ==> s[i] != s[j]
  }

  /** Python's `s[::-1]`. */
  function Reverse<T>(s: seq<T>): (r: seq<T>)
    ensures |r| == |s|
    ensures forall i :: 0 <= i < |s| ==> r[i] == s[|s| - 1 - i]
  {
    if s == [] then [] else Reverse(s[1..]) + [s[0]]
  }

  /** `xs` can be obtained from `ys` by deleting elements (order kept). */
  predicate IsSubsequence<T(==)>(xs: seq<T>, ys: seq<T>)
    decreases |ys|
  {
    xs == [] || (ys != [] && if xs[0] == ys[0] then IsSubsequence(xs[1..], ys[1..]) else IsSubsequence(xs, ys[1..]))
  }

  /** Moving the head of `q` to the end of `a` keeps the concatenation. */
  lemma ShiftHead<T>(a: seq<T>, q: seq<T>)
    requires q != []
    ensures a + [q[0]] + q[1..] == a + q
  {
    assert q == [q[0]] + q[1..];
  }

  /** A prefix of a sequence without repeats has none either. */
  lemma NoDuplicatesPrefix<T>(a: seq<T>, b: seq<T>)
    requires NoDuplicates(a + b)
    ensures NoDuplicates(a)
  {
    forall i, j | 0 <= i < j < |a| ensures a[i] != a[j] {
      assert (a + b)[i] == a[i] && (a + b)[j] == a[j];
    }
  }

  /** A sequence has at least as many positions as distinct elements. */
  lemma {:induction false} ElementsBound<T>(s: seq<T>, elems: set<T>)
    requires forall x :: x in elems <==> x in s
    ensures |elems| <= |s|
    decreases |s|
  {
    if s != [] {
      var last, init := s[|s| - 1], s[..|s| - 1];
      assert s == init + [last];
      if last in init {
        ElementsBound(init, elems);
      } else {
        ElementsBound(init, elems - {last});
      }
    }
  }

  /** A sequence with as many positions as distinct elements has no repeats. */
  lemma {:induction false} DistinctByCount<T>(s: seq<T>, elems: set<T>)
    requires forall x :: x in elems <==> x in s
    requires |elems| == |s|
    ensures NoDuplicates(s)
    decreases |s|
  {
    if s != [] {
      var last, init := s[|s| - 1], s[..|s| - 1];
      assert s == init + [last];
      if last in init {
        ElementsBound(init, elems);
        assert false;
      }
      DistinctByCount(init, elems - {last});
      forall i, j | 0 <= i < j < |s| ensures s[i] != s[j] {
        if j < |s| - 1 {
          assert s[i] == init[i] && s[j] == init[j];
        } else {
          assert s[i] == init[i];
        }
      }
    }
  }

  /** A sequence without repeats drawn from a finite set is no longer than the set is large. */
  lemma {:induction false} DistinctBound<T>(s: seq<T>, elems: set<T>)
    requires NoDuplicates(s) && forall x :: x in s ==> x in elems
    ensures |s| <= |elems|
    decreases |s|
  {
    if s != [] {
      var last, init := s[|s| - 1], s[..|s| - 1];
      assert s == init + [last];
      forall x | x in init ensures x in elems - {last} {
        var i :| 0 <= i < |init| && init[i] == x;
        assert s[i] == x && s[|s| - 1] == last;
      }
      DistinctBound(init, elems - {last});
    }
  }
}
