/** Fingerprints: a database is identified by the hash of its tables' colon-joined DDL hashes.

SHA-256 appears as an ideal digest: an injective function whose results contain no colon, are not
empty and are never the invalidation marker, as holds of hex digests.
*/
module Fingerprints {
  import opened Prelude
  import opened SchemaModel

  // Stored as a table's DDL hash by `invalidate_table`.
  const INVALIDATED_DDL_HASH := "__invalidated__"

  predicate WellFormedHash(s: string) {
    s != "" && ':' !in s
  }

  ghost predicate IdealDigest(h: string -> string) {
    && (forall a, b :: h(a) == h(b) ==> a == b)
    && (forall a :: WellFormedHash(h(a)) && h(a) != INVALIDATED_DDL_HASH)
  }

  function JoinColon(parts: seq<string>): string {
    if parts == [] then ""
    else if |parts| == 1 then parts[0]
    else parts[0] + ":" + JoinColon(parts[1..])
  }

  /** The DDL hashes of the tables that have one. */
  function Hashes(tables: seq<Table>): seq<string> {
    if tables == [] then []
    else (if tables[0].ddlHash.Some? then [tables[0].ddlHash.value] else []) + Hashes(tables[1..])
  }

  function FingerprintOf(hashes: seq<string>, h: string -> string): Option<string> {
    var input := JoinColon(hashes);
    if input == "" then None else Some(h(input))
  }

  function Fingerprint(tables: seq<Table>, h: string -> string): Option<string> {
    FingerprintOf(Hashes(tables), h)
  }

  // ----- Injectivity ---------------------------------------------------------------------------

  /** A colon-free prefix of a colon-separated text is determined by the text. */
  lemma {:induction false} SplitAtColon(a: string, x: string, b: string, y: string)
    requires ':' !in a && ':' !in b
    requires a + ":" + x == b + ":" + y
    ensures a == b && x == y
  {
    var text := a + ":" + x;
    assert text[|a|] == ':' && text[|b|] == ':';
    assert forall i :: 0 <= i < |a| ==> text[i] == a[i];
    assert forall i :: 0 <= i < |b| ==> text[i] == b[i];
    assert |a| == |b|;
    assert a == text[..|a|] == b;
    assert x == text[|a| + 1..] == y;
  }

  lemma {:induction false} JoinColonInjective(a: seq<string>, b: seq<string>)
    requires forall s :: s in a ==> WellFormedHash(s)
    requires forall s :: s in b ==> WellFormedHash(s)
    requires JoinColon(a) == JoinColon(b)
    ensures a == b
  {
    if a == [] || b == [] {
      JoinColonEmpty(a);
      JoinColonEmpty(b);
    } else if |a| == 1 || |b| == 1 {
      assert a[0] in a && b[0] in b;
    } else {
      assert a[0] in a && b[0] in b;
      SplitAtColon(a[0], JoinColon(a[1..]), b[0], JoinColon(b[1..]));
      JoinColonInjective(a[1..], b[1..]);
      assert a == [a[0]] + a[1..] && b == [b[0]] + b[1..];
    }
  }

  lemma JoinColonEmpty(a: seq<string>)
    requires forall s :: s in a ==> WellFormedHash(s)
    ensures JoinColon(a) == "" <==> a == []
  {
    if a != [] { assert a[0] in a; }
  }

  /** Equal fingerprints come from equal sequences of table hashes. */
  lemma FingerprintInjective(a: seq<string>, b: seq<string>, h: string -> string)
    requires IdealDigest(h)
    requires forall s :: s in a ==> WellFormedHash(s)
    requires forall s :: s in b ==> WellFormedHash(s)
    requires FingerprintOf(a, h) == FingerprintOf(b, h)
    ensures a == b
  {
    JoinColonEmpty(a);
    JoinColonEmpty(b);
    JoinColonInjective(a, b);
  }

  // ----- The ideal digest is no contradiction ----------------------------------------------------

  /** Two characters for each, none of them a colon, and a closing mark. */
  function SampleDigest(s: string): string {
    if s == "" then "x" else (if s[0] == ':' then "be" else ['a', s[0]]) + SampleDigest(s[1..])
  }

  lemma {:induction false} SampleDigestShape(s: string)
    ensures WellFormedHash(SampleDigest(s)) && SampleDigest(s) != INVALIDATED_DDL_HASH
    ensures |SampleDigest(s)| == 2 * |s| + 1
  {
    if s != "" {
      SampleDigestShape(s[1..]);
    }
    assert SampleDigest(s)[0] != '_';
  }

  lemma {:induction false} SampleDigestInjective(a: string, b: string)
    requires SampleDigest(a) == SampleDigest(b)
    ensures a == b
  {
    SampleDigestShape(a);
    SampleDigestShape(b);
    if a != "" {
      var x, y := SampleDigest(a), SampleDigest(b);
      assert x[0] == y[0] && x[1] == y[1];
      assert x[2..] == SampleDigest(a[1..]) && y[2..] == SampleDigest(b[1..]);
      SampleDigestInjective(a[1..], b[1..]);
      assert a == [a[0]] + a[1..] && b == [b[0]] + b[1..];
    }
  }

  lemma {:induction false} IdealDigestExists()
    ensures IdealDigest(SampleDigest)
  {
    forall a, b | SampleDigest(a) == SampleDigest(b) ensures a == b {
      SampleDigestInjective(a, b);
    }
    forall a ensures WellFormedHash(SampleDigest(a)) && SampleDigest(a) != INVALIDATED_DDL_HASH {
      SampleDigestShape(a);
    }
  }
}
