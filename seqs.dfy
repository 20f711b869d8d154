/** Order-preserving filtering of sequences, and the facts about it the model uses. */
module Seqs {

  /** `[x for x in s if keep(x)]`. */
  function Filter<T>(s: seq<T>, keep: T -> bool): (r: seq<T>)
    ensures |r| <= |s|
    ensures forall i :: 0 <= i < |r| ==> r[i] in s && keep(r[i])
    ensures forall i :: 0 <= i < |s| && keep(s[i]) ==> s[i] in r
  {
    if s == [] then []
    else
      var init := s[..|s| - 1];
      assert s == init + [s[|s| - 1]];
      Filter(init, keep) + (if keep(s[|s| - 1]) then [s[|s| - 1]] else [])
  }

  /** `a` is `b` with some elements left out, the rest in their order. */
  predicate IsSubsequence<T(==)>(a: seq<T>, b: seq<T>)
    decreases |b|
  {
    a == [] ||
    (b != [] &&
      ((a[|a| - 1] == b[|b| - 1] && IsSubsequence(a[..|a| - 1], b[..|b| - 1]))
       || IsSubsequence(a, b[..|b| - 1])))
  }

  /** No element occurs twice. */
  predicate Distinct<T(==)>(s: seq<T>) {
    forall i, j :: 0 <= i < j < |s| ==> s[i] != s[j]
  }

  /** Filtering keeps the order of what it keeps. */
  lemma {:induction false} FilterIsSubsequence<T>(s: seq<T>, keep: T -> bool)
    ensures IsSubsequence(Filter(s, keep), s)
  {
    if s != [] {
      var init := s[..|s| - 1];
      FilterIsSubsequence(init, keep);
      if !keep(s[|s| - 1]) {
        assert Filter(s, keep) == Filter(init, keep);
      } else {
        assert Filter(s, keep)[..|Filter(s, keep)| - 1] == Filter(init, keep);
      }
    }
  }

  /** Filtering keeps everything exactly when every element passes. */
  lemma {:induction false} FilterKeepsAll<T>(s: seq<T>, keep: T -> bool)
    ensures Filter(s, keep) == s <==> forall i :: 0 <= i < |s| ==> keep(s[i])
  {
    if s != [] {
      var init := s[..|s| - 1];
      FilterKeepsAll(init, keep);
      if !keep(s[|s| - 1]) {
        assert |Filter(s, keep)| < |s|;
      } else if Filter(s, keep) == s {
        assert Filter(init, keep) == Filter(s, keep)[..|s| - 1];
      }
    }
  }

  /** Filtering keeps every occurrence of a kept element and none of the others. */
  lemma {:induction false} FilterMultiset<T>(s: seq<T>, keep: T -> bool, x: T)
    ensures multiset(Filter(s, keep))[x] == if keep(x) then multiset(s)[x] else 0
  {
    if s != [] {
      var init := s[..|s| - 1];
      FilterMultiset(init, keep, x);
      assert s == init + [s[|s| - 1]];
    }
  }

  /** Filtering a sequence without repetitions gives one without repetitions. */
  lemma {:induction false} FilterDistinct<T>(s: seq<T>, keep: T -> bool)
    requires Distinct(s)
    ensures Distinct(Filter(s, keep))
  {
    if s != [] {
      var init := s[..|s| - 1];
      FilterDistinct(init, keep);
      assert s[|s| - 1] !in init;
    }
  }
}
