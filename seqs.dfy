/** Order-preserving filtering of sequences, element-wise projection and the
    sub-sequence relation. Every `Array.prototype.filter` of the application is
    modelled with `Filter`, and every field projection `xs.map(x => x.field)`
    with `Map`. */
module Seqs {

  /** `s.map(f)`: the images of the elements of `s`, in order. */
  function Map<T, U>(s: seq<T>, f: T -> U): (r: seq<U>)
    ensures |r| == |s|
    ensures forall k :: 0 <= k < |s| ==> r[k] == f(s[k])
  {
    seq(|s|, k requires 0 <= k < |s| => f(s[k]))
  }

  /** `r` can be obtained from `s` by deleting elements, keeping the order of the rest. */
  predicate IsSubsequence<T(==)>(r: seq<T>, s: seq<T>)
    decreases |s|
  {
    if r == [] then true
    else if s == [] then false
    else if r[|r| - 1] == s[|s| - 1] then
      IsSubsequence(r[..|r| - 1], s[..|s| - 1]) || IsSubsequence(r, s[..|s| - 1])
    else IsSubsequence(r, s[..|s| - 1])
  }

  /** The elements of `s` that satisfy `p`, in their original order. */
  function Filter<T(==)>(s: seq<T>, p: T -> bool): (r: seq<T>)
    ensures |r| <= |s|
    ensures forall i :: 0 <= i < |r| ==> r[i] in s && p(r[i])
    ensures forall i :: 0 <= i < |s| && p(s[i]) ==> s[i] in r
    ensures IsSubsequence(r, s)
    decreases |s|
  {
    if s == [] then []
    else
      var init, last := s[..|s| - 1], s[|s| - 1];
      var r0 := Filter(init, p);
      assert s == init + [last];
      if p(last) then
        assert (r0 + [last])[..|r0|] == r0;
        r0 + [last]
      else
        r0
  }

  /** Every element of `s` lies in `Filter(s, p)` or in `Filter(s, q)` where `q`
      negates `p`, and the two parts together have exactly the elements of `s`. */
  lemma {:induction false} FilterPartition<T>(s: seq<T>, p: T -> bool, q: T -> bool)
    requires forall x :: q(x) == !p(x)
    ensures multiset(Filter(s, p)) + multiset(Filter(s, q)) == multiset(s)
    decreases |s|
  {
    if s != [] {
      var init, last := s[..|s| - 1], s[|s| - 1];
      assert s == init + [last];
      FilterPartition(init, p, q);
    }
  }

  /** Filtering with a predicate that holds of every element changes nothing. */
  lemma {:induction false} FilterAll<T>(s: seq<T>, p: T -> bool)
    requires forall x :: x in s ==> p(x)
    ensures Filter(s, p) == s
    decreases |s|
  {
    if s != [] {
      var init, last := s[..|s| - 1], s[|s| - 1];
      assert s == init + [last];
      FilterAll(init, p);
    }
  }

  /** Filtering distributes over concatenation. */
  lemma {:induction false} FilterAppend<T>(a: seq<T>, b: seq<T>, p: T -> bool)
    ensures Filter(a + b, p) == Filter(a, p) + Filter(b, p)
    decreases |b|
  {
    if b != [] {
      var init, last := b[..|b| - 1], b[|b| - 1];
      assert b == init + [last];
      assert (a + b)[..|a + b| - 1] == a + init;
      FilterAppend(a, init, p);
    } else {
      assert a + b == a;
    }
  }

  /** Filtering depends only on the values of the predicate. */
  lemma {:induction false} FilterSame<T>(s: seq<T>, p: T -> bool, q: T -> bool)
    requires forall x :: p(x) == q(x)
    ensures Filter(s, p) == Filter(s, q)
    decreases |s|
  {
    if s != [] {
      FilterSame(s[..|s| - 1], p, q);
    }
  }

  /** A filter that can be switched off is a filter by "off, or the predicate". */
  lemma FilterWhen<T>(s: seq<T>, on: bool, p: T -> bool, q: T -> bool)
    requires forall x :: q(x) == (!on || p(x))
    ensures (if on then Filter(s, p) else s) == Filter(s, q)
  {
    if on {
      FilterSame(s, p, q);
    } else {
      FilterAll(s, q);
    }
  }

  /** Two filters in a row keep what their conjunction keeps. */
  lemma {:induction false} FilterFusion<T>(s: seq<T>, p: T -> bool, q: T -> bool, pq: T -> bool)
    requires forall x :: pq(x) == (p(x) && q(x))
    ensures Filter(Filter(s, p), q) == Filter(s, pq)
    decreases |s|
  {
    if s != [] {
      var init, last := s[..|s| - 1], s[|s| - 1];
      assert s == init + [last];
      FilterFusion(init, p, q, pq);
      if p(last) {
        FilterAppend(Filter(init, p), [last], q);
      }
    }
  }

  /** The elements of a sub-sequence are elements of the sequence. */
  lemma {:induction false} SubsequenceMembers<T>(r: seq<T>, h: seq<T>)
    requires IsSubsequence(r, h)
    ensures forall x :: x in r ==> x in h
    decreases |h|
  {
    if r != [] && h != [] {
      var hi := h[..|h| - 1];
      if r[|r| - 1] == h[|h| - 1] && IsSubsequence(r[..|r| - 1], hi) {
        SubsequenceMembers(r[..|r| - 1], hi);
        forall x | x in r ensures x in h {
          if x != r[|r| - 1] {
            assert x in r[..|r| - 1];
            assert x in hi;
          }
        }
      } else {
        SubsequenceMembers(r, hi);
        forall x | x in r ensures x in h {
          assert x in hi;
        }
      }
    }
  }

  /** The elements of a sequence with pairwise distinct entries. */
  predicate Distinct<T(==)>(s: seq<T>) {
    forall i, j :: 0 <= i < j < |s| ==> s[i] != s[j]
  }
}
