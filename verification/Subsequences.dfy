/** Subsequences: what is left of a sequence after deleting some of its elements. */
module Subsequences {
  import opened Prelude

  ghost predicate Subseq<T>(a: seq<T>, b: seq<T>) {
    a == [] || (b != [] && ((a[0] == b[0] && Subseq(a[1..], b[1..])) || Subseq(a, b[1..])))
  }

  lemma {:induction false} Reflexive<T>(a: seq<T>)
    ensures Subseq(a, a)
  {
    if a != [] { Reflexive(a[1..]); }
  }

  lemma {:induction false} DropHead<T>(a: seq<T>, b: seq<T>)
    requires a != [] && Subseq(a, b)
    ensures b != [] && Subseq(a[1..], b[1..])
    decreases |b|
  {
    if !(a[0] == b[0] && Subseq(a[1..], b[1..])) {
      DropHead(a, b[1..]);
    }
  }

  lemma {:induction false} Transitive<T>(a: seq<T>, b: seq<T>, c: seq<T>)
    requires Subseq(a, b) && Subseq(b, c)
    ensures Subseq(a, c)
    decreases |c|
  {
    if a != [] {
      if b[0] == c[0] && Subseq(b[1..], c[1..]) {
        if a[0] == b[0] && Subseq(a[1..], b[1..]) {
          Transitive(a[1..], b[1..], c[1..]);
        } else {
          Transitive(a, b[1..], c[1..]);
        }
      } else {
        Transitive(a, b, c[1..]);
      }
    }
  }

  lemma {:induction false} Beside<T>(a: seq<T>, b: seq<T>, c: seq<T>, d: seq<T>)
    requires Subseq(a, b) && Subseq(c, d)
    ensures Subseq(a + c, b + d)
    decreases |b|
  {
    if b == [] {
      assert a + c == c && b + d == d;
    } else {
      assert (b + d)[1..] == b[1..] + d;
      if a == [] {
        assert a + c == c;
        Beside(a, b[1..], c, d);
        assert a + c == c;
      } else if a[0] == b[0] && Subseq(a[1..], b[1..]) {
        assert (a + c)[1..] == a[1..] + c;
        Beside(a[1..], b[1..], c, d);
      } else {
        Beside(a, b[1..], c, d);
      }
    }
  }

  lemma {:induction false} Members<T>(a: seq<T>, b: seq<T>, x: T)
    requires Subseq(a, b) && x in a
    ensures x in b
    decreases |b|
  {
    if a[0] == b[0] && Subseq(a[1..], b[1..]) {
      if x != a[0] { Members(a[1..], b[1..], x); }
    } else {
      Members(a, b[1..], x);
    }
  }

  /** Deleting inside every part deletes inside the whole. */
  lemma {:induction false} FlatMapBelow<T(!new), U>(xs: seq<T>, f: T -> seq<U>, g: T -> seq<U>)
    requires forall x :: Subseq(f(x), g(x))
    ensures Subseq(FlatMap(xs, f), FlatMap(xs, g))
  {
    if xs != [] {
      FlatMapBelow(xs[1..], f, g);
      Beside(f(xs[0]), g(xs[0]), FlatMap(xs[1..], f), FlatMap(xs[1..], g));
    }
  }

  /** Deleting elements deletes their parts. */
  lemma {:induction false} FlatMapOfBelow<T, U>(a: seq<T>, b: seq<T>, f: T -> seq<U>)
    requires Subseq(a, b)
    ensures Subseq(FlatMap(a, f), FlatMap(b, f))
    decreases |b|
  {
    if a != [] {
      if a[0] == b[0] && Subseq(a[1..], b[1..]) {
        FlatMapOfBelow(a[1..], b[1..], f);
        Reflexive(f(b[0]));
        Beside(f(a[0]), f(b[0]), FlatMap(a[1..], f), FlatMap(b[1..], f));
      } else {
        FlatMapOfBelow(a, b[1..], f);
        Beside([], f(b[0]), FlatMap(a, f), FlatMap(b[1..], f));
        assert [] + FlatMap(a, f) == FlatMap(a, f);
      }
    }
  }

  lemma {:induction false} PrefixBelow<T>(a: seq<T>, n: nat)
    requires n <= |a|
    ensures Subseq(a[..n], a)
  {
    Reflexive(a[..n]);
    Beside(a[..n], a[..n], [], a[n..]);
    assert a[..n] + [] == a[..n] && a[..n] + a[n..] == a;
  }
}
