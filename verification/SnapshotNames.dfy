/** File names of history snapshots: `<unix_ts>.json.zst`, or `<unix_ts>-<n>.json.zst` on a clash. */
module SnapshotNames {
  import opened Prelude
  import opened Text

  const U64_LIMIT := 0x1_0000_0000_0000_0000

  /** `str::parse::<u64>`: an optional plus sign, then digits whose value fits. */
  function ParseU64(s: string): Option<nat> {
    var digits := if s != "" && s[0] == '+' then s[1..] else s;
    if digits == "" || exists c :: c in digits && !IsDigit(c) then None
    else if ValueOf(digits) < U64_LIMIT then Some(ValueOf(digits)) else None
  }

  // ----- Names ---------------------------------------------------------------------------------

  /** The candidate names, in the order they are tried. */
  function FileName(ts: nat, nonce: nat): string {
    Decimal(ts) + (if nonce == 0 then "" else "-" + Decimal(nonce)) + ".json.zst"
  }

  function LastDot(s: string): (r: Option<nat>)
    ensures r.Some? ==> r.value < |s|
  {
    if s == "" then None
    else if s[|s| - 1] == '.' then Some(|s| - 1)
    else LastDot(s[..|s| - 1])
  }

  /** `Path::file_stem`: a leading dot starts no extension. */
  function FileStem(name: string): string {
    match LastDot(name)
    case None => name
    case Some(n) => if n == 0 then name else name[..n]
  }

  function TrimJson(s: string): string {
    if |s| >= 5 && s[|s| - 5..] == ".json" then TrimJson(s[..|s| - 5]) else s
  }

  function UpToDash(s: string): string {
    if s == "" || s[0] == '-' then "" else [s[0]] + UpToDash(s[1..])
  }

  /** The timestamp that history and rotation read off a file name. */
  function ParseTs(name: string): Option<nat> {
    ParseU64(UpToDash(TrimJson(FileStem(name))))
  }

  lemma StemOfZst(x: string)
    requires x != ""
    ensures FileStem(x + ".json.zst") == x + ".json"
  {
    var s := x + ".json.zst";
    var n := |s|;
    var s3, s2, s1 := s[..n - 1], s[..n - 2], s[..n - 3];
    assert s3[..n - 2] == s2 && s2[..n - 3] == s1;
    assert LastDot(s1) == LastDot(s2) == LastDot(s3) == LastDot(s);
    assert s[..n - 4] == x + ".json";
  }

  lemma TrimOneJson(x: string)
    requires x != "" && IsDigit(x[|x| - 1])
    ensures TrimJson(x + ".json") == x
  {
    var s := x + ".json";
    assert s[|s| - 5..] == ".json" && s[..|s| - 5] == x;
    if |x| >= 5 { assert x[|x| - 5..][4] == x[|x| - 1]; }
  }

  lemma {:induction false} DigitsUpToDash(d: string, rest: string)
    requires forall c :: c in d ==> IsDigit(c)
    requires rest == "" || rest[0] == '-'
    ensures UpToDash(d + rest) == d
  {
    if d == "" {
      assert d + rest == rest;
    } else {
      assert d[0] in d && (d + rest)[1..] == d[1..] + rest;
      DigitsUpToDash(d[1..], rest);
    }
  }

  /** A snapshot's name gives back its timestamp. */
  lemma TimestampRoundTrip(ts: nat, nonce: nat)
    requires ts < U64_LIMIT
    ensures ParseTs(FileName(ts, nonce)) == Some(ts)
  {
    DecimalRoundTrip(ts);
    DecimalRoundTrip(nonce);
    var rest := if nonce == 0 then "" else "-" + Decimal(nonce);
    var x := Decimal(ts) + rest;
    assert FileName(ts, nonce) == x + ".json.zst";
    StemOfZst(x);
    assert x[|x| - 1] in (if nonce == 0 then Decimal(ts) else Decimal(nonce));
    TrimOneJson(x);
    DigitsUpToDash(Decimal(ts), rest);
    assert Decimal(ts)[0] in Decimal(ts);
  }

  /** Candidates for one second are all different. */
  lemma FileNameInjective(ts: nat, a: nat, b: nat)
    requires FileName(ts, a) == FileName(ts, b)
    ensures a == b
  {
    var d := Decimal(ts);
    var ra := if a == 0 then "" else "-" + Decimal(a);
    var rb := if b == 0 then "" else "-" + Decimal(b);
    var na, nb := FileName(ts, a), FileName(ts, b);
    assert na == d + ra + ".json.zst" && nb == d + rb + ".json.zst";
    assert |ra| == |rb|;
    assert ra == na[|d|..|d| + |ra|] && rb == nb[|d|..|d| + |rb|];
    DecimalRoundTrip(a);
    DecimalRoundTrip(b);
    if a != 0 && b != 0 {
      assert Decimal(a) == ra[1..] == rb[1..] == Decimal(b);
    }
  }
}
