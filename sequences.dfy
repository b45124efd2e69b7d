/**
 * The two array operations the reducer is built from, `Array.prototype.map`
 * and `Array.prototype.filter`, as functions on sequences, with what
 * "subsequence" means and the facts the store's lemmas draw on.
 */
module Sequences {

  /** `a` is `b` with some elements dropped and the rest in the same order. */
  predicate IsSubsequence<T(==)>(a: seq<T>, b: seq<T>)
    decreases |b|
  {
    if b == [] then a == []
    else if a != [] && a[0] == b[0] then IsSubsequence(a[1..], b[1..])
    else IsSubsequence(a, b[1..])
  }

  /** `xs.map(f)`: same length, each element transformed where it stands. */
  function Map<T, U>(f: T -> U, xs: seq<T>): (r: seq<U>)
    ensures |r| == |xs|
    ensures forall i :: 0 <= i < |xs| ==> r[i] == f(xs[i])
  {
    if xs == [] then [] else [f(xs[0])] + Map(f, xs[1..])
  }

  /**
   * `xs.filter(p)`: a subsequence of `xs` whose elements all pass `p`
   * (and which keeps every element that passes: `FilterCounts`).
   */
  function Filter<T(==)>(p: T -> bool, xs: seq<T>): (r: seq<T>)
    ensures |r| <= |xs|
    ensures IsSubsequence(r, xs)
    ensures forall i :: 0 <= i < |r| ==> p(r[i])
  {
    if xs == [] then []
    else if p(xs[0]) then [xs[0]] + Filter(p, xs[1..])
    else Filter(p, xs[1..])
  }

  /** `Filter` keeps every occurrence of every element that passes. */
  lemma {:induction false} FilterCounts<T(!new)>(p: T -> bool, xs: seq<T>)
    ensures forall x :: p(x) ==> multiset(Filter(p, xs))[x] == multiset(xs)[x]
  {
    if xs != [] {
      assert xs == [xs[0]] + xs[1..];
      FilterCounts(p, xs[1..]);
    }
  }

  /** A subsequence takes nothing that is not in the original, counted with multiplicity. */
  lemma {:induction false} SubsequenceMultiset<T>(a: seq<T>, b: seq<T>)
    requires IsSubsequence(a, b)
    ensures multiset(a) <= multiset(b)
    decreases |b|
  {
    if b != [] {
      assert b == [b[0]] + b[1..];
      if a != [] && a[0] == b[0] {
        SubsequenceMultiset(a[1..], b[1..]);
        assert a == [a[0]] + a[1..];
      } else {
        SubsequenceMultiset(a, b[1..]);
      }
    }
  }

  /**
   * The three properties in `Filter`'s contract pin its result down: any
   * sequence that has them is `Filter(p, xs)`.
   */
  lemma {:induction false} FilterUnique<T(!new)>(p: T -> bool, xs: seq<T>, r: seq<T>)
    requires IsSubsequence(r, xs)
    requires forall i :: 0 <= i < |r| ==> p(r[i])
    requires forall x :: p(x) ==> multiset(r)[x] == multiset(xs)[x]
    ensures r == Filter(p, xs)
    decreases |xs|
  {
    if xs != [] {
      var h, t := xs[0], xs[1..];
      assert xs == [h] + t;
      if r != [] && r[0] == h {
        var rt := r[1..];
        assert r == [h] + rt;
        assert p(h);
        forall x | p(x) ensures multiset(rt)[x] == multiset(t)[x] {
          assert multiset(r)[x] == multiset(rt)[x] + (if x == h then 1 else 0);
          assert multiset(xs)[x] == multiset(t)[x] + (if x == h then 1 else 0);
        }
        FilterUnique(p, t, rt);
      } else {
        assert IsSubsequence(r, t);
        SubsequenceMultiset(r, t);
        assert multiset(r)[h] <= multiset(t)[h] < multiset(xs)[h];
        assert !p(h);
        forall x | p(x) ensures multiset(r)[x] == multiset(t)[x] {
          assert x != h;
          assert multiset(xs)[x] == multiset(t)[x];
        }
        FilterUnique(p, t, r);
      }
    }
  }

  /** When every element passes, filtering changes nothing. */
  lemma {:induction false} FilterKeepsAll<T>(p: T -> bool, xs: seq<T>)
    requires forall i :: 0 <= i < |xs| ==> p(xs[i])
    ensures Filter(p, xs) == xs
  {
    if xs != [] {
      FilterKeepsAll(p, xs[1..]);
    }
  }

  /** Filtering distributes over concatenation. */
  lemma {:induction false} FilterConcat<T>(p: T -> bool, a: seq<T>, b: seq<T>)
    ensures Filter(p, a + b) == Filter(p, a) + Filter(p, b)
  {
    if a == [] {
      assert a + b == b;
    } else {
      assert (a + b)[1..] == a[1..] + b;
      FilterConcat(p, a[1..], b);
    }
  }

  /** Filtering out a single failing element from between passing ones leaves the rest. */
  lemma FilterDropsOne<T>(p: T -> bool, a: seq<T>, x: T, b: seq<T>)
    requires forall i :: 0 <= i < |a| ==> p(a[i])
    requires !p(x)
    requires forall i :: 0 <= i < |b| ==> p(b[i])
    ensures Filter(p, a + [x] + b) == a + b
  {
    assert [x][1..] == [];
    assert Filter(p, [x]) == [];
    FilterConcat(p, a, [x]);
    FilterKeepsAll(p, a);
    assert Filter(p, a + [x]) == a;
    FilterConcat(p, a + [x], b);
    FilterKeepsAll(p, b);
  }

  /** Filtering a list with a given first element. */
  lemma FilterCons<T>(p: T -> bool, x: T, xs: seq<T>)
    ensures Filter(p, [x] + xs) == (if p(x) then [x] else []) + Filter(p, xs)
  {
    assert ([x] + xs)[1..] == xs;
  }
}
