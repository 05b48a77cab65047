/**
 What several modules need of sequences.
 */
module Sequences {

  ghost predicate Distinct<T>(s: seq<T>) {
    forall i, j :: 0 <= i < j < |s| ==> s[i] != s[j]
  }

  lemma {:induction false} DistinctCounts<T>(s: seq<T>, x: T)
    requires Distinct(s)
    ensures multiset(s)[x] <= 1
  {
    if s != [] {
      var init, last := s[..|s| - 1], s[|s| - 1];
      DistinctCounts(init, x);
      assert s == init + [last];
      if x == last {
        assert forall i :: 0 <= i < |init| ==> init[i] == s[i] != last;
        assert x !in init;
      }
    }
  }

  /** The first occurrence of `x` at `pos` or later, or the length of `s`. */
  function Find<T(==)>(s: seq<T>, x: T, pos: nat): (i: nat)
    requires pos <= |s|
    ensures pos <= i <= |s| && (forall k :: pos <= k < i ==> s[k] != x) && (i < |s| ==> s[i] == x)
    decreases |s| - pos
  {
    if pos == |s| || s[pos] == x then pos else Find(s, x, pos + 1)
  }
}
