/** The standard library's stable sort, by insertion, with the three facts its callers rely on:
the result is sorted, is a permutation, and keeps tied elements in their input order. */
module StableSort {
  import opened Prelude

  ghost predicate TotalPreorder<T(!new)>(le: (T, T) -> bool) {
    && (forall a, b :: le(a, b) || le(b, a))
    && (forall a, b, c :: le(a, b) && le(b, c) ==> le(a, c))
  }

  ghost predicate Sorted<T>(xs: seq<T>, le: (T, T) -> bool) {
    forall i, j :: 0 <= i < j < |xs| ==> le(xs[i], xs[j])
  }

  ghost predicate StrictlySorted<T>(xs: seq<T>, le: (T, T) -> bool) {
    forall i, j :: 0 <= i < j < |xs| ==> le(xs[i], xs[j]) && !le(xs[j], xs[i])
  }

  function Insert<T>(x: T, xs: seq<T>, le: (T, T) -> bool): seq<T> {
    if xs == [] || le(x, xs[0]) then [x] + xs else [xs[0]] + Insert(x, xs[1..], le)
  }

  function Sort<T>(xs: seq<T>, le: (T, T) -> bool): seq<T> {
    if xs == [] then [] else Insert(xs[0], Sort(xs[1..], le), le)
  }

  /** The elements of `xs` that tie with `e`, in order. */
  function Ties<T>(xs: seq<T>, e: T, le: (T, T) -> bool): seq<T> {
    if xs == [] then []
    else (if le(xs[0], e) && le(e, xs[0]) then [xs[0]] else []) + Ties(xs[1..], e, le)
  }

  lemma {:induction false} InsertMembers<T>(x: T, xs: seq<T>, le: (T, T) -> bool)
    ensures |Insert(x, xs, le)| == |xs| + 1
    ensures multiset(Insert(x, xs, le)) == multiset{x} + multiset(xs)
    ensures forall y :: y in Insert(x, xs, le) <==> y == x || y in xs
  {
    if xs != [] && !le(x, xs[0]) {
      InsertMembers(x, xs[1..], le);
      assert xs == [xs[0]] + xs[1..];
    }
  }

  /** What sorting does to the images of the elements: nothing but move them. */
  lemma {:induction false} InsertMapped<T, U>(x: T, xs: seq<T>, f: T -> U, le: (T, T) -> bool)
    ensures multiset(MapSeq(Insert(x, xs, le), f)) == multiset{f(x)} + multiset(MapSeq(xs, f))
  {
    assert MapSeq([x] + xs, f) == [f(x)] + MapSeq(xs, f);
    if xs != [] && !le(x, xs[0]) {
      InsertMapped(x, xs[1..], f, le);
      var rest := Insert(x, xs[1..], le);
      assert MapSeq([xs[0]] + rest, f) == [f(xs[0])] + MapSeq(rest, f);
      assert MapSeq(xs, f) == [f(xs[0])] + MapSeq(xs[1..], f);
    }
  }

  lemma {:induction false} SortMapped<T, U>(xs: seq<T>, f: T -> U, le: (T, T) -> bool)
    ensures multiset(MapSeq(Sort(xs, le), f)) == multiset(MapSeq(xs, f))
  {
    if xs != [] {
      SortMapped(xs[1..], f, le);
      InsertMapped(xs[0], Sort(xs[1..], le), f, le);
      assert MapSeq(xs, f) == [f(xs[0])] + MapSeq(xs[1..], f);
    }
  }

  lemma {:induction false} FirstSorted<T(!new)>(x: T, xs: seq<T>, le: (T, T) -> bool)
    requires TotalPreorder(le) && Sorted(xs, le) && (xs != [] ==> le(x, xs[0]))
    ensures Sorted([x] + xs, le)
  {
    forall j | 0 <= j < |xs| ensures le(x, xs[j]) {
      assert j > 0 ==> le(xs[0], xs[j]);
    }
  }

  lemma {:induction false} InsertSorted<T(!new)>(x: T, xs: seq<T>, le: (T, T) -> bool)
    requires TotalPreorder(le) && Sorted(xs, le)
    ensures Sorted(Insert(x, xs, le), le)
  {
    if xs == [] || le(x, xs[0]) {
      FirstSorted(x, xs, le);
    } else {
      InsertSorted(x, xs[1..], le);
      FirstSorted(xs[0], Insert(x, xs[1..], le), le);
    }
  }

  lemma {:induction false} SortIsSorted<T(!new)>(xs: seq<T>, le: (T, T) -> bool)
    requires TotalPreorder(le)
    ensures Sorted(Sort(xs, le), le)
  {
    if xs != [] {
      SortIsSorted(xs[1..], le);
      InsertSorted(xs[0], Sort(xs[1..], le), le);
    }
  }

  lemma {:induction false} SortIsPermutation<T>(xs: seq<T>, le: (T, T) -> bool)
    ensures |Sort(xs, le)| == |xs|
    ensures multiset(Sort(xs, le)) == multiset(xs)
    ensures ToSet(Sort(xs, le)) == ToSet(xs)
  {
    if xs != [] {
      SortIsPermutation(xs[1..], le);
      InsertMembers(xs[0], Sort(xs[1..], le), le);
      assert xs == [xs[0]] + xs[1..];
    }
    assert multiset(Sort(xs, le)) == multiset(xs);
    SameMembers(Sort(xs, le), xs);
  }

  lemma SameMembers<T>(a: seq<T>, b: seq<T>)
    requires multiset(a) == multiset(b)
    ensures ToSet(a) == ToSet(b)
  {
    forall y ensures y in a <==> y in b {
      assert y in multiset(a) <==> y in multiset(b);
    }
  }

  lemma {:induction false} TiesOfCons<T>(x: T, xs: seq<T>, e: T, le: (T, T) -> bool)
    ensures Ties([x] + xs, e, le) == Ties([x], e, le) + Ties(xs, e, le)
  {
    assert ([x] + xs)[1..] == xs && [x][1..] == [];
  }

  /** Of two elements out of order, at most one ties with `e`. */
  lemma {:induction false} OneTies<T(!new)>(x: T, y: T, e: T, le: (T, T) -> bool)
    requires TotalPreorder(le) && !le(x, y)
    ensures Ties([x], e, le) == [] || Ties([y], e, le) == []
  {
    assert !(le(x, e) && le(e, y));
    assert [x][1..] == [] && [y][1..] == [];
  }

  lemma {:induction false} InsertIsStable<T(!new)>(x: T, xs: seq<T>, e: T, le: (T, T) -> bool)
    requires TotalPreorder(le)
    ensures Ties(Insert(x, xs, le), e, le) == Ties([x], e, le) + Ties(xs, e, le)
  {
    if xs == [] || le(x, xs[0]) {
      TiesOfCons(x, xs, e, le);
    } else {
      var y, tail := xs[0], xs[1..];
      assert xs == [y] + tail;
      InsertIsStable(x, tail, e, le);
      TiesOfCons(y, Insert(x, tail, le), e, le);
      TiesOfCons(y, tail, e, le);
      OneTies(x, y, e, le);
    }
  }

  lemma {:induction false} SortIsStable<T(!new)>(xs: seq<T>, e: T, le: (T, T) -> bool)
    requires TotalPreorder(le)
    ensures Ties(Sort(xs, le), e, le) == Ties(xs, e, le)
  {
    if xs != [] {
      var rest := Sort(xs[1..], le);
      SortIsStable(xs[1..], e, le);
      InsertIsStable(xs[0], rest, e, le);
      TiesOfCons(xs[0], xs[1..], e, le);
      assert xs == [xs[0]] + xs[1..];
    }
  }

  /** A sorted sequence sorts to itself. */
  lemma {:induction false} SortOfSorted<T(!new)>(xs: seq<T>, le: (T, T) -> bool)
    requires Sorted(xs, le)
    ensures Sort(xs, le) == xs
  {
    if xs != [] {
      SortOfSorted(xs[1..], le);
      if |xs| > 1 { assert le(xs[0], xs[1]); }
    }
  }

  lemma {:induction false} SortKeepsDistinct<T>(xs: seq<T>, le: (T, T) -> bool)
    requires NoDuplicates(xs)
    ensures NoDuplicates(Sort(xs, le))
  {
    if xs != [] {
      SortKeepsDistinct(xs[1..], le);
      SortIsPermutation(xs[1..], le);
      assert xs[0] !in ToSet(xs[1..]);
      InsertKeepsDistinct(xs[0], Sort(xs[1..], le), le);
    }
  }

  lemma {:induction false} InsertKeepsDistinct<T>(x: T, xs: seq<T>, le: (T, T) -> bool)
    requires NoDuplicates(xs) && x !in xs
    ensures NoDuplicates(Insert(x, xs, le))
  {
    if xs != [] && !le(x, xs[0]) {
      InsertKeepsDistinct(x, xs[1..], le);
      InsertMembers(x, xs[1..], le);
      assert xs[0] !in Insert(x, xs[1..], le);
    }
  }

  /** Strictly sorted sequences with the same elements are equal. */
  lemma {:induction false} StrictlySortedUnique<T>(a: seq<T>, b: seq<T>, le: (T, T) -> bool)
    requires StrictlySorted(a, le) && StrictlySorted(b, le)
    requires ToSet(a) == ToSet(b)
    ensures a == b
    decreases |a|
  {
    if a == [] {
      assert forall i :: 0 <= i < |b| ==> b[i] in ToSet(b);
    } else {
      assert a[0] in ToSet(b) && b != [];
      assert b[0] in ToSet(a);
      assert a[0] == b[0];
      assert ToSet(a[1..]) == ToSet(a) - {a[0]} by { TailSet(a, le); }
      assert ToSet(b[1..]) == ToSet(b) - {b[0]} by { TailSet(b, le); }
      StrictlySortedUnique(a[1..], b[1..], le);
    }
  }

  lemma TailSet<T>(a: seq<T>, le: (T, T) -> bool)
    requires a != [] && StrictlySorted(a, le)
    ensures ToSet(a[1..]) == ToSet(a) - {a[0]}
  {
    assert a == [a[0]] + a[1..];
    forall i | 1 <= i < |a| ensures a[i] != a[0] {
      assert le(a[0], a[i]) && !le(a[i], a[0]);
    }
  }
}
