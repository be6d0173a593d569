/** Small datatypes and sequence facts shared by the other modules. */
module Prelude {

  datatype Option<+T> = None | Some(value: T)

  datatype Result<+T, +E> = Ok(value: T) | Err(error: E)

  /** Addition that stops at the type's largest value. */
  function SaturatingAdd(a: nat, b: nat, max: nat): nat {
    if a + b > max then max else a + b
  }

  predicate NoDuplicates<T(==)>(xs: seq<T>) {
    forall i, j :: 0 <= i < j < |xs| ==> xs[i] != xs[j]
  }

  function ToSet<T>(xs: seq<T>): set<T> {
    set x | x in xs
  }

  function MapSeq<T, U>(xs: seq<T>, f: T -> U): seq<U> {
    seq(|xs|, i requires 0 <= i < |xs| => f(xs[i]))
  }

  lemma {:induction false} CardinalityOfDistinct<T>(xs: seq<T>)
    requires NoDuplicates(xs)
    ensures |ToSet(xs)| == |xs|
  {
    if xs != [] {
      CardinalityOfDistinct(xs[1..]);
      assert ToSet(xs) == {xs[0]} + ToSet(xs[1..]);
    }
  }

  lemma SubsetCardinality<T>(a: set<T>, b: set<T>)
    requires a <= b
    ensures |a| <= |b|
    decreases a
  {
    if a != {} {
      var x :| x in a;
      SubsetCardinality(a - {x}, b - {x});
    }
  }

  function FlatMap<T, U>(xs: seq<T>, f: T -> seq<U>): seq<U> {
    if xs == [] then [] else f(xs[0]) + FlatMap(xs[1..], f)
  }

  lemma {:induction false} FlatMapAppend<T, U>(a: seq<T>, b: seq<T>, f: T -> seq<U>)
    ensures FlatMap(a + b, f) == FlatMap(a, f) + FlatMap(b, f)
  {
    if a == [] {
      assert a + b == b;
    } else {
      assert (a + b)[1..] == a[1..] + b;
      FlatMapAppend(a[1..], b, f);
    }
  }

  lemma {:induction false} FlatMapPrefix<T, U>(xs: seq<T>, i: nat, f: T -> seq<U>)
    requires i < |xs|
    ensures FlatMap(xs[..i + 1], f) == FlatMap(xs[..i], f) + f(xs[i])
  {
    assert xs[..i + 1] == xs[..i] + [xs[i]];
    FlatMapAppend(xs[..i], [xs[i]], f);
    assert [xs[i]][1..] == [];
    assert FlatMap([xs[i]], f) == f(xs[i]) + FlatMap([], f);
  }

  lemma {:induction false} FlatMapMember<T, U>(xs: seq<T>, f: T -> seq<U>, x: T, y: U)
    requires x in xs && y in f(x)
    ensures y in FlatMap(xs, f)
  {
    if x != xs[0] {
      assert xs == [xs[0]] + xs[1..];
      FlatMapMember(xs[1..], f, x, y);
    }
  }

  /** Changes that `f` does not see. */
  lemma {:induction false} FlatMapOfMapped<T(!new), U>(xs: seq<T>, g: T -> T, f: T -> seq<U>)
    requires forall x :: f(g(x)) == f(x)
    ensures FlatMap(MapSeq(xs, g), f) == FlatMap(xs, f)
  {
    if xs != [] {
      FlatMapOfMapped(xs[1..], g, f);
      assert MapSeq(xs, g)[1..] == MapSeq(xs[1..], g);
    }
  }
}
