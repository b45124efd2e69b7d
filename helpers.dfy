/**
 * `sortLocations`: a sorted copy of a list of locations, newest first or by
 * name. The input is a value, so the caller's list cannot change.
 */
module Helpers {
  import opened Types
  import opened Sequences

  /** `'newest' | 'alphabetical'` */
  datatype SortMode = Newest | Alphabetical

  /**
   * The order names are compared in: lexicographic on characters, standing
   * in for the locale's collation that `localeCompare` applies.
   */
  predicate LexLe(a: string, b: string)
  {
    a == [] || (b != [] && (a[0] < b[0] || (a[0] == b[0] && LexLe(a[1..], b[1..]))))
  }

  lemma {:induction false} LexLeTotal(a: string, b: string)
    ensures LexLe(a, b) || LexLe(b, a)
  {
    if a != [] && b != [] && a[0] == b[0] {
      LexLeTotal(a[1..], b[1..]);
    }
  }

  lemma {:induction false} LexLeTransitive(a: string, b: string, c: string)
    requires LexLe(a, b) && LexLe(b, c)
    ensures LexLe(a, c)
  {
    if a != [] && b != [] && c != [] && a[0] == b[0] && b[0] == c[0] {
      LexLeTransitive(a[1..], b[1..], c[1..]);
    }
  }

  /**
   * `a` may stand before `b`: the comparator does not return a positive
   * number. Newest: `b.createdAt - a.createdAt <= 0`; alphabetical: `a`'s
   * name does not come after `b`'s.
   */
  predicate InOrder(mode: SortMode, a: Location, b: Location)
    ensures mode == Newest ==> (InOrder(mode, a, b) <==> b.createdAt - a.createdAt <= 0)
    ensures mode == Alphabetical ==> (InOrder(mode, a, b) <==> LexLe(a.name, b.name))
  {
    match mode
    case Newest => a.createdAt >= b.createdAt
    case Alphabetical => LexLe(a.name, b.name)
  }

  lemma InOrderTotal(mode: SortMode, a: Location, b: Location)
    ensures InOrder(mode, a, b) || InOrder(mode, b, a)
  {
    if mode == Alphabetical {
      LexLeTotal(a.name, b.name);
    }
  }

  lemma InOrderTransitive(mode: SortMode, a: Location, b: Location, c: Location)
    requires InOrder(mode, a, b) && InOrder(mode, b, c)
    ensures InOrder(mode, a, c)
  {
    if mode == Alphabetical {
      LexLeTransitive(a.name, b.name, c.name);
    }
  }

  /** Each entry may stand before the next one. */
  predicate Sorted(mode: SortMode, xs: seq<Location>)
  {
    forall i :: 0 <= i < |xs| - 1 ==> InOrder(mode, xs[i], xs[i + 1])
  }

  /** `x` placed before the first entry of the sorted `ys` that it may precede. */
  function Insert(mode: SortMode, x: Location, ys: seq<Location>): (r: seq<Location>)
    requires Sorted(mode, ys)
    ensures |r| == |ys| + 1
    ensures multiset(r) == multiset(ys) + multiset{x}
    ensures Sorted(mode, r)
    ensures r[0] == x || (ys != [] && r[0] == ys[0])
  {
    if ys == [] || InOrder(mode, x, ys[0]) then [x] + ys
    else
      InOrderTotal(mode, x, ys[0]);
      assert ys == [ys[0]] + ys[1..];
      [ys[0]] + Insert(mode, x, ys[1..])
  }

  /**
   * `sortLocations(locations, sortBy)`, `sortBy` defaulting to `newest`:
   * the same entries, as often as before, in order. Insertion from the
   * back keeps entries that compare equal in their input order, as the
   * stable `Array.prototype.sort` does.
   */
  function SortLocations(locations: seq<Location>, sortBy: SortMode := Newest): (r: seq<Location>)
    ensures |r| == |locations|
    ensures multiset(r) == multiset(locations)
    ensures Sorted(sortBy, r)
  {
    if locations == [] then []
    else
      assert locations == [locations[0]] + locations[1..];
      Insert(sortBy, locations[0], SortLocations(locations[1..], sortBy))
  }

  /** In a sorted list every entry may stand before every later one. */
  lemma {:induction false} SortedPairwise(mode: SortMode, xs: seq<Location>, i: nat, j: nat)
    requires Sorted(mode, xs)
    requires i < j < |xs|
    ensures InOrder(mode, xs[i], xs[j])
    decreases j - i
  {
    if i + 1 < j {
      SortedPairwise(mode, xs, i + 1, j);
      InOrderTransitive(mode, xs[i], xs[i + 1], xs[j]);
    }
  }

  /** Newest first: creation times never increase along the result. */
  lemma NewestNonIncreasing(locations: seq<Location>)
    ensures var r := SortLocations(locations, Newest);
      forall i, j :: 0 <= i < j < |r| ==> r[i].createdAt >= r[j].createdAt
  {
    var r := SortLocations(locations, Newest);
    forall i, j | 0 <= i < j < |r| ensures r[i].createdAt >= r[j].createdAt {
      SortedPairwise(Newest, r, i, j);
    }
  }

  /** Alphabetical: names never decrease along the result. */
  lemma AlphabeticalNonDecreasing(locations: seq<Location>)
    ensures var r := SortLocations(locations, Alphabetical);
      forall i, j :: 0 <= i < j < |r| ==> LexLe(r[i].name, r[j].name)
  {
    var r := SortLocations(locations, Alphabetical);
    forall i, j | 0 <= i < j < |r| ensures LexLe(r[i].name, r[j].name) {
      SortedPairwise(Alphabetical, r, i, j);
    }
  }

  /** Without a mode the list is sorted newest first. */
  lemma DefaultIsNewest(locations: seq<Location>)
    ensures SortLocations(locations) == SortLocations(locations, Newest)
  {
  }

  /** The entries of `xs` that compare equal to `y`, in their order in `xs`. */
  function TiedWith(mode: SortMode, y: Location, xs: seq<Location>): seq<Location>
  {
    Filter((l: Location) => InOrder(mode, l, y) && InOrder(mode, y, l), xs)
  }

  /** Inserting `x` keeps it ahead of every entry that compares equal to it. */
  lemma {:induction false} InsertKeepsTies(mode: SortMode, y: Location, x: Location, ys: seq<Location>)
    requires Sorted(mode, ys)
    ensures TiedWith(mode, y, Insert(mode, x, ys)) == TiedWith(mode, y, [x] + ys)
  {
    var q := (l: Location) => InOrder(mode, l, y) && InOrder(mode, y, l);
    if ys != [] && !InOrder(mode, x, ys[0]) {
      var h, t := ys[0], ys[1..];
      assert ys == [h] + t;
      InsertKeepsTies(mode, y, x, t);
      var rest := Insert(mode, x, t);
      assert Insert(mode, x, ys) == [h] + rest;
      FilterCons(q, h, rest);
      FilterCons(q, x, t);
      FilterCons(q, h, t);
      FilterCons(q, x, ys);
      if q(h) {
        assert !q(x) by {
          if q(x) {
            InOrderTransitive(mode, x, y, h);
          }
        }
        assert Filter(q, [h] + rest) == [h] + Filter(q, t);
      } else {
        assert Filter(q, [h] + rest) == (if q(x) then [x] else []) + Filter(q, t);
      }
    }
  }

  /**
   * The sort is stable: the entries that compare equal to any given entry
   * (the same creation time, or the same name) appear in the result in the
   * order they had in the input.
   */
  lemma {:induction false} SortIsStable(mode: SortMode, y: Location, locations: seq<Location>)
    ensures TiedWith(mode, y, SortLocations(locations, mode)) == TiedWith(mode, y, locations)
  {
    if locations != [] {
      var h, t := locations[0], locations[1..];
      var q := (l: Location) => InOrder(mode, l, y) && InOrder(mode, y, l);
      SortIsStable(mode, y, t);
      InsertKeepsTies(mode, y, h, SortLocations(t, mode));
      FilterConcat(q, [h], SortLocations(t, mode));
      FilterConcat(q, [h], t);
      assert locations == [h] + t;
    }
  }
}
