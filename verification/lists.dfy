/** Sequence helpers: distinctness, the set of elements, and the array difference
    used to compute tag diffs (lodash's `_.difference`). */
module Lists {

  /** No element occurs twice in `s`. */
  predicate Distinct<T(==)>(s: seq<T>) {
    forall i, j :: 0 <= i < j < |s| ==> s[i] != s[j]
  }

  /** The elements of `s`, forgetting order and multiplicity. */
  function Elems<T(==)>(s: seq<T>): set<T> {
    set x | x in s
  }

  /** The elements of `xs` that do not occur in `ys`, as `_.difference(xs, ys)`
      returns them; `DifferenceCounts` adds that each keeps its multiplicity. */
  function Difference<T(==,!new)>(xs: seq<T>, ys: seq<T>): (r: seq<T>)
    ensures forall x :: x in r <==> x in xs && x !in ys
    ensures |r| <= |xs|
    ensures Distinct(xs) ==> Distinct(r)
  {
    if xs == [] then []
    else if xs[0] in ys then Difference(xs[1..], ys)
    else
      var rest := Difference(xs[1..], ys);
      assert Distinct(xs) ==> xs[0] !in xs[1..];
      [xs[0]] + rest
  }

  /** A kept element occurs in the difference as often as in `xs`; a removed one not at all. */
  lemma {:induction false} DifferenceCounts<T(!new)>(xs: seq<T>, ys: seq<T>)
    ensures forall x :: x !in ys ==> multiset(Difference(xs, ys))[x] == multiset(xs)[x]
    ensures forall x :: x in ys ==> multiset(Difference(xs, ys))[x] == 0
  {
    if xs != [] {
      DifferenceCounts(xs[1..], ys);
      assert xs == [xs[0]] + xs[1..];
    }
  }

  /** Removing no element of `xs` leaves it as it was; removing everything leaves nothing. */
  lemma {:induction false} DifferenceExtremes<T(!new)>(xs: seq<T>, ys: seq<T>)
    ensures Elems(xs) !! Elems(ys) ==> Difference(xs, ys) == xs
    ensures Elems(xs) <= Elems(ys) ==> Difference(xs, ys) == []
  {
    if xs != [] {
      assert xs[0] in Elems(xs);
      assert Elems(xs[1..]) <= Elems(xs);
      DifferenceExtremes(xs[1..], ys);
      assert xs == [xs[0]] + xs[1..];
    }
  }

  /** A sequence without repetitions has as many elements as its set. */
  lemma {:induction false} DistinctCardinality<T>(s: seq<T>)
    requires Distinct(s)
    ensures |Elems(s)| == |s|
  {
    if s != [] {
      DistinctCardinality(s[1..]);
      assert Elems(s) == {s[0]} + Elems(s[1..]);
      assert s[0] !in Elems(s[1..]);
    }
  }

  /** Some element of a non-empty set, as a store enumerates rows in an order
      of its own choosing. */
  method Pick<T>(s: set<T>) returns (x: T)
    requires s != {}
    ensures x in s
  {
    x :| x in s;
  }
}
