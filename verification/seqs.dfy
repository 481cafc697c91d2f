/** Counting, selecting and sorting over sequences: the list-shaped meaning of the
    ORM's COUNT(CASE WHEN ...), WHERE and ORDER BY. */
module Seqs {

  /** The number of elements of `s` that satisfy `p`. */
  function Count<T>(s: seq<T>, p: T -> bool): (n: nat)
    ensures n <= |s|
    ensures n == 0 <== forall i :: 0 <= i < |s| ==> !p(s[i])
    ensures n == |s| <== forall i :: 0 <= i < |s| ==> p(s[i])
  {
    if |s| == 0 then 0
    else Count(s[..|s| - 1], p) + (if p(s[|s| - 1]) then 1 else 0)
  }

  /** A weaker predicate counts at least as many elements. */
  lemma {:induction false} CountMonotone<T>(s: seq<T>, p: T -> bool, q: T -> bool)
    requires forall i :: 0 <= i < |s| && p(s[i]) ==> q(s[i])
    ensures Count(s, p) <= Count(s, q)
    decreases |s|
  {
    if |s| > 0 {
      CountMonotone(s[..|s| - 1], p, q);
    }
  }

  /** The elements of `s` that satisfy `p`, in their original order. */
  function Select<T>(s: seq<T>, p: T -> bool): (r: seq<T>)
    ensures |r| == Count(s, p)
    ensures forall i :: 0 <= i < |r| ==> r[i] in s && p(r[i])
    ensures forall i :: 0 <= i < |s| && p(s[i]) ==> s[i] in r
    ensures multiset(r) <= multiset(s)
  {
    if |s| == 0 then []
    else
      var init := Select(s[..|s| - 1], p);
      assert s == s[..|s| - 1] + [s[|s| - 1]];
      if p(s[|s| - 1]) then init + [s[|s| - 1]] else init
  }

  /** Selecting with a predicate every element meets keeps the whole sequence. */
  lemma {:induction false} SelectAll<T>(s: seq<T>, p: T -> bool)
    requires forall i :: 0 <= i < |s| ==> p(s[i])
    ensures Select(s, p) == s
    decreases |s|
  {
    if |s| > 0 {
      var init := s[..|s| - 1];
      forall i | 0 <= i < |init|
        ensures p(init[i])
      {
        assert init[i] == s[i];
      }
      assert s == init + [s[|s| - 1]];
      SelectAll(init, p);
      assert p(s[|s| - 1]);
      assert Select(s, p) == Select(init, p) + [s[|s| - 1]];
    }
  }

  /** Selection distributes over concatenation. */
  lemma {:induction false} SelectAppend<T>(a: seq<T>, b: seq<T>, p: T -> bool)
    ensures Select(a + b, p) == Select(a, p) + Select(b, p)
    decreases |b|
  {
    if |b| == 0 {
      assert a + b == a;
    } else {
      assert (a + b)[..|a + b| - 1] == a + b[..|b| - 1];
      SelectAppend(a, b[..|b| - 1], p);
    }
  }

  /** Two selections in a row are one selection with the conjunction. */
  lemma {:induction false} SelectSelect<T>(s: seq<T>, p: T -> bool, q: T -> bool, both: T -> bool)
    requires forall i :: 0 <= i < |s| ==> both(s[i]) == (p(s[i]) && q(s[i]))
    ensures Select(Select(s, p), q) == Select(s, both)
    decreases |s|
  {
    if |s| > 0 {
      var init := s[..|s| - 1];
      var last := s[|s| - 1];
      forall i | 0 <= i < |init|
        ensures both(init[i]) == (p(init[i]) && q(init[i]))
      {
        assert init[i] == s[i];
      }
      SelectSelect(init, p, q, both);
      if p(last) {
        SelectAppend(Select(init, p), [last], q);
      }
    }
  }

  /** Selection depends only on what the predicate says about the sequence's elements. */
  lemma {:induction false} SelectSamePredicate<T>(s: seq<T>, p: T -> bool, q: T -> bool)
    requires forall i :: 0 <= i < |s| ==> p(s[i]) == q(s[i])
    ensures Select(s, p) == Select(s, q)
    decreases |s|
  {
    if |s| > 0 {
      var init := s[..|s| - 1];
      forall i | 0 <= i < |init|
        ensures p(init[i]) == q(init[i])
      {
        assert init[i] == s[i];
      }
      SelectSamePredicate(init, p, q);
    }
  }

  /** When no two elements satisfy `p`, at most one is counted. */
  lemma {:induction false} CountAtMostOne<T>(s: seq<T>, p: T -> bool)
    requires forall i, j :: 0 <= i < j < |s| ==> !(p(s[i]) && p(s[j]))
    ensures Count(s, p) <= 1
    decreases |s|
  {
    if |s| > 0 {
      var init := s[..|s| - 1];
      assert forall i :: 0 <= i < |init| ==> init[i] == s[i];
      CountAtMostOne(init, p);
      if p(s[|s| - 1]) {
        assert forall i :: 0 <= i < |init| ==> !p(init[i]);
      }
    }
  }

  /** An element that satisfies `p` is counted. */
  lemma CountPositive<T>(s: seq<T>, p: T -> bool, k: int)
    requires 0 <= k < |s| && p(s[k])
    ensures Count(s, p) > 0
  {
    assert s[k] in Select(s, p);
  }
}
