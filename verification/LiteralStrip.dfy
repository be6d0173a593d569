/** Blanking single-quoted literals before names are extracted from a statement.

The output is built from bytes taken as characters, so a character outside ASCII comes out as the
Latin-1 reading of its UTF-8 bytes.  Each literal becomes two spaces, whatever its length.
*/
module LiteralStrip {
  import opened Text

  /** The UTF-8 bytes of a character (RFC 3629, section 3), each read as a character. */
  function Utf8(c: char): string {
    var n := c as int;
    if n < 0x80 then [c]
    else if n < 0x800 then [(0xC0 + n / 64) as char, (0x80 + n % 64) as char]
    else if n < 0x10000 then [(0xE0 + n / 4096) as char, (0x80 + n / 64 % 64) as char, (0x80 + n % 64) as char]
    else [(0xF0 + n / 262144) as char, (0x80 + n / 4096 % 64) as char, (0x80 + n / 64 % 64) as char,
          (0x80 + n % 64) as char]
  }

  function Utf8All(s: string): string {
    if s == "" then "" else Utf8(s[0]) + Utf8All(s[1..])
  }

  /** The number of bytes a character takes. */
  function ByteCount(n: int): nat {
    if n <= 0x7F then 1 else if n <= 0x7FF then 2 else if n <= 0xFFFF then 3 else 4
  }

  /** The first byte says how many follow; each of those carries six bits. */
  function CodePoint(bytes: string): int
    requires 1 <= |bytes| <= 4
  {
    var b0 := bytes[0] as int;
    if |bytes| == 1 then b0
    else if |bytes| == 2 then (b0 - 0xC0) * 64 + (bytes[1] as int - 0x80)
    else if |bytes| == 3 then ((b0 - 0xE0) * 64 + (bytes[1] as int - 0x80)) * 64 + (bytes[2] as int - 0x80)
    else (((b0 - 0xF0) * 64 + (bytes[1] as int - 0x80)) * 64 + (bytes[2] as int - 0x80)) * 64 + (bytes[3] as int - 0x80)
  }

  /** The bytes are the shortest form and give the character back. */
  lemma Utf8ReadsBack(c: char)
    ensures |Utf8(c)| == ByteCount(c as int) && CodePoint(Utf8(c)) == c as int
    ensures forall i :: 0 < i < |Utf8(c)| ==> 0x80 <= Utf8(c)[i] as int <= 0xBF
    ensures |Utf8(c)| == 2 ==> 0xC2 <= Utf8(c)[0] as int <= 0xDF
    ensures |Utf8(c)| == 3 ==> 0xE0 <= Utf8(c)[0] as int <= 0xEF
    ensures |Utf8(c)| == 4 ==> 0xF0 <= Utf8(c)[0] as int <= 0xF4
  {
    var n := c as int;
    assert n / 4096 == n / 64 / 64 && n / 262144 == n / 64 / 64 / 64;
  }

  function Strip(s: string): string
    decreases |s|, 1
  {
    if s == "" then ""
    else if s[0] == '\'' then " " + StripLiteral(s[1..])
    else Utf8(s[0]) + Strip(s[1..])
  }

  /** Inside a literal: up to the first quote that is not doubled. */
  function StripLiteral(s: string): string
    decreases |s|, 0
  {
    if s == "" then ""
    else if s[0] != '\'' then StripLiteral(s[1..])
    else if |s| >= 2 && s[1] == '\'' then StripLiteral(s[2..])
    else " " + Strip(s[1..])
  }

  /** From inside a literal to behind its closing quote, or to the end. */
  method SkipLiteral(sql: string, start: nat) returns (i: nat, closed: bool)
    requires start <= |sql|
    ensures start <= i <= |sql|
    ensures StripLiteral(sql[start..]) == if closed then " " + Strip(sql[i..]) else ""
  {
    i := start;
    while i < |sql|
      invariant start <= i <= |sql|
      invariant StripLiteral(sql[start..]) == StripLiteral(sql[i..])
    {
      if sql[i] == '\'' {
        if i + 1 < |sql| && sql[i + 1] == '\'' {
          i := i + 2;
          continue;
        }
        return i + 1, true;
      }
      i := i + 1;
    }
    return i, false;
  }

  /** `out` is the blanked form of everything before position `i`. */
  ghost predicate Blanked(sql: string, out: string, i: nat) {
    i <= |sql| && Strip(sql) == out + Strip(sql[i..])
  }

  lemma BlankOn(sql: string, out: string, i: nat, text: string, j: nat)
    requires Blanked(sql, out, i) && i <= j <= |sql| && Strip(sql[i..]) == text + Strip(sql[j..])
    ensures Blanked(sql, out + text, j)
  {
    assert out + (text + Strip(sql[j..])) == out + text + Strip(sql[j..]);
  }

  lemma BlankLiteral(sql: string, out: string, i: nat, j: nat, closed: bool)
    requires Blanked(sql, out, i) && i < j <= |sql| && sql[i] == '\''
    requires StripLiteral(sql[i + 1..]) == if closed then " " + Strip(sql[j..]) else ""
    ensures if closed then Blanked(sql, out + "  ", j) else Blanked(sql, out + " ", |sql|)
  {
    if closed {
      assert " " + (" " + Strip(sql[j..])) == "  " + Strip(sql[j..]);
      BlankOn(sql, out, i, "  ", j);
    } else {
      assert sql[|sql|..] == "";
      BlankOn(sql, out, i, " ", |sql|);
    }
  }

  method StripStringLiterals(sql: string) returns (out: string)
    ensures out == Strip(sql)
  {
    out := "";
    var i := 0;
    assert sql[0..] == sql;
    while i < |sql|
      invariant Blanked(sql, out, i)
      decreases |sql| - i
    {
      if sql[i] == '\'' {
        var j, closed := SkipLiteral(sql, i + 1);
        BlankLiteral(sql, out, i, j, closed);
        out := out + if closed then "  " else " ";
        i := if closed then j else |sql|;
      } else {
        BlankOn(sql, out, i, Utf8(sql[i]), i + 1);
        out := out + Utf8(sql[i]);
        i := i + 1;
      }
    }
    assert sql[i..] == "";
  }

  // ----- Literals that were escaped --------------------------------------------------------------

  /** Quotes doubled, as a string literal needs them. */
  function Escape(value: string): string {
    Replace(value, '\'', "''")
  }

  /** Read a literal's body: its value and the text after the closing quote. */
  function ReadLiteral(s: string): (string, string) {
    if s == "" then ("", "")
    else if s[0] != '\'' then
      var (value, rest) := ReadLiteral(s[1..]);
      ([s[0]] + value, rest)
    else if |s| >= 2 && s[1] == '\'' then
      var (value, rest) := ReadLiteral(s[2..]);
      (['\''] + value, rest)
    else ("", s[1..])
  }

  lemma EscapeStep(value: string, tail: string)
    requires value != ""
    ensures var s := Escape(value) + tail;
      if value[0] == '\'' then |s| >= 2 && s[0] == s[1] == '\'' && s[2..] == Escape(value[1..]) + tail
      else s != "" && s[0] == value[0] && s[1..] == Escape(value[1..]) + tail
  {
  }

  /** Escaping loses nothing: the literal reads back as the value. */
  lemma {:induction false} LiteralRoundTrip(value: string, rest: string)
    requires rest == "" || rest[0] != '\''
    ensures ReadLiteral(Escape(value) + ("'" + rest)) == (value, rest)
  {
    var tail := "'" + rest;
    if value == "" {
      assert Escape(value) + tail == tail && tail[1..] == rest;
    } else {
      EscapeStep(value, tail);
      LiteralRoundTrip(value[1..], rest);
      assert value == [value[0]] + value[1..];
    }
  }

  /** The blanked text does not depend on the literal. */
  lemma {:induction false} LiteralBlanked(value: string, rest: string)
    requires rest == "" || rest[0] != '\''
    ensures StripLiteral(Escape(value) + ("'" + rest)) == " " + Strip(rest)
  {
    var tail := "'" + rest;
    if value == "" {
      assert Escape(value) + tail == tail && tail[1..] == rest;
    } else {
      EscapeStep(value, tail);
      LiteralBlanked(value[1..], rest);
    }
  }

  lemma {:induction false} StripUnquoted(s: string, rest: string)
    requires '\'' !in s
    ensures Strip(s + rest) == Utf8All(s) + Strip(rest)
  {
    if s == "" {
      assert s + rest == rest;
    } else {
      assert (s + rest)[0] == s[0] && (s + rest)[1..] == s[1..] + rest;
      StripUnquoted(s[1..], rest);
    }
  }

  // ----- Text outside literals ---------------------------------------------------------------------

  predicate IsAscii(s: string) {
    forall i :: 0 <= i < |s| ==> (s[i] as int) < 0x80
  }

  lemma {:induction false} Utf8Length(s: string)
    ensures |s| <= |Utf8All(s)|
    ensures |s| == |Utf8All(s)| <==> IsAscii(s)
    ensures IsAscii(s) ==> Utf8All(s) == s
  {
    if s != "" {
      Utf8Length(s[1..]);
      assert s == [s[0]] + s[1..];
      assert IsAscii(s) <==> (s[0] as int) < 0x80 && IsAscii(s[1..]);
    }
  }

  /** Text without literals is left as it is if and only if it is ASCII. */
  lemma {:induction false} UnquotedKeptExactly(s: string)
    requires '\'' !in s
    ensures Strip(s) == s <==> IsAscii(s)
  {
    var nothing := "";
    StripUnquoted(s, nothing);
    assert s + nothing == s && Strip(nothing) == nothing && Utf8All(s) + nothing == Utf8All(s);
    Utf8Length(s);
  }
}
