/** Sequence helpers that mirror the Python built-ins the loader relies on. */
module Seqs {

  /** The elements of `s` that satisfy `p`, in their original order (Python's
      `filter`). Defined on the last element, so that it follows a loop that
      walks `s` from the front. */
  function Filter<T>(s: seq<T>, p: T -> bool): (r: seq<T>)
    ensures |r| <= |s|
    ensures forall i :: 0 <= i < |r| ==> p(r[i])
  {
    if s == [] then []
    else Filter(s[..|s| - 1], p) + (if p(s[|s| - 1]) then [s[|s| - 1]] else [])
  }

  /** An element passes the filter exactly when it is in `s` and satisfies `p`. */
  lemma {:induction false} FilterMembers<T>(s: seq<T>, p: T -> bool)
    ensures forall x :: x in Filter(s, p) <==> x in s && p(x)
    decreases |s|
  {
    if s != [] {
      FilterMembers(s[..|s| - 1], p);
      assert s == s[..|s| - 1] + [s[|s| - 1]];
    }
  }

  /** Filtering a concatenation filters each part. */
  lemma {:induction false} FilterAppend<T>(a: seq<T>, b: seq<T>, p: T -> bool)
    ensures Filter(a + b, p) == Filter(a, p) + Filter(b, p)
    decreases |b|
  {
    if b == [] {
      assert a + b == a;
    } else {
      var b' := b[..|b| - 1];
      assert (a + b)[..|a + b| - 1] == a + b';
      FilterAppend(a, b', p);
    }
  }

  /** The filter result has an element exactly when some element passes. */
  lemma FilterEmpty<T>(s: seq<T>, p: T -> bool)
    ensures Filter(s, p) == [] <==> forall i :: 0 <= i < |s| ==> !p(s[i])
  {
    FilterMembers(s, p);
    if Filter(s, p) != [] {
      assert Filter(s, p)[0] in Filter(s, p);
    }
  }

  /** How many times `x` occurs in `xs` (Python's `list.count` and, on
      strings, `str.count` of a single character). */
  function Occurrences<T(==)>(xs: seq<T>, x: T): (r: nat)
    ensures r <= |xs|
    ensures r > 0 <==> x in xs
  {
    if xs == [] then 0
    else (if xs[0] == x then 1 else 0) + Occurrences(xs[1..], x)
  }

  /** The count is the multiplicity of `x` in `xs`. */
  lemma {:induction false} OccurrencesIsMultiplicity<T>(xs: seq<T>, x: T)
    ensures Occurrences(xs, x) == multiset(xs)[x]
    decreases |xs|
  {
    if xs != [] {
      OccurrencesIsMultiplicity(xs[1..], x);
      assert xs == [xs[0]] + xs[1..];
    }
  }

  /** When `x` sits at position `k` and nowhere else, it occurs once. */
  lemma {:induction false} OccurrencesOnlyAt<T>(xs: seq<T>, x: T, k: nat)
    requires k < |xs| && xs[k] == x
    requires forall i :: 0 <= i < |xs| && xs[i] == x ==> i == k
    ensures Occurrences(xs, x) == 1
    decreases k
  {
    if k == 0 {
      assert x !in xs[1..];
    } else {
      OccurrencesOnlyAt(xs[1..], x, k - 1);
    }
  }

  /** Every element equals `x` exactly when `x` occurs `|xs|` times. */
  lemma {:induction false} OccurrencesAll<T>(xs: seq<T>, x: T)
    ensures Occurrences(xs, x) == |xs| <==> forall i :: 0 <= i < |xs| ==> xs[i] == x
    decreases |xs|
  {
    if xs != [] {
      OccurrencesAll(xs[1..], x);
      if xs[0] == x {
        assert forall i :: 1 <= i < |xs| ==> xs[i] == xs[1..][i - 1];
      }
    }
  }
}
