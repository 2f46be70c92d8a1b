/** `encodeURIComponent` and `decodeURIComponent`, over UTF-8. */
module UriComponent {
  import opened Wrappers
  import opened Bytes

  predicate Unreserved(c: char) {
    'A' <= c <= 'Z' || 'a' <= c <= 'z' || '0' <= c <= '9'
    || c in {'-', '_', '.', '!', '~', '*', '\'', '(', ')'}
  }

  predicate AllUnreserved(s: string) {
    forall i :: 0 <= i < |s| ==> Unreserved(s[i])
  }

  /* ---- UTF-8 ---- */

  function Utf8(c: char): (b: seq<byte>)
    ensures 1 <= |b| <= 4
  {
    var n := c as int;
    if n < 0x80 then [n as byte]
    else if n < 0x800 then [(0xC0 + n / 64) as byte, (0x80 + n % 64) as byte]
    else if n < 0x1_0000 then [(0xE0 + n / 4096) as byte, (0x80 + n / 64 % 64) as byte, (0x80 + n % 64) as byte]
    else
      [(0xF0 + n / 0x4_0000) as byte, (0x80 + n / 4096 % 64) as byte, (0x80 + n / 64 % 64) as byte, (0x80 + n % 64) as byte]
  }

  function Utf8All(s: string): seq<byte> {
    if s == "" then [] else Utf8(s[0]) + Utf8All(s[1..])
  }

  /** How many bytes a character has that starts with this byte; 0 for a byte that starts none. */
  function Utf8Length(lead: byte): nat {
    if lead < 0x80 then 1
    else if lead < 0xC0 then 0
    else if lead < 0xE0 then 2
    else if lead < 0xF0 then 3
    else if lead < 0xF8 then 4 else 0
  }

  predicate Continuation(b: byte) {
    0x80 <= b < 0xC0
  }

  /** The number a whole byte sequence of the length its lead byte demands stands for. */
  function Utf8Number(b: seq<byte>): int
    requires 1 <= |b| <= 4
  {
    if |b| == 1 then b[0] as int
    else if |b| == 2 then (b[0] as int - 0xC0) * 64 + (b[1] as int - 0x80)
    else if |b| == 3 then (b[0] as int - 0xE0) * 4096 + (b[1] as int - 0x80) * 64 + (b[2] as int - 0x80)
    else (b[0] as int - 0xF0) * 0x4_0000 + (b[1] as int - 0x80) * 4096 + (b[2] as int - 0x80) * 64 + (b[3] as int - 0x80)
  }

  /** Rejects wrong continuations, overlong forms, surrogates and numbers beyond Unicode. */
  function Utf8Char(b: seq<byte>): Option<char>
    requires 1 <= |b| <= 4
  {
    if Utf8Length(b[0]) != |b| || exists i :: 1 <= i < |b| && !Continuation(b[i]) then None
    else
      var n := Utf8Number(b);
      if |b| == 1 && 0 <= n < 0x80 then Some(n as char)
      else if |b| == 2 && 0x80 <= n < 0x800 then Some(n as char)
      else if |b| == 3 && 0x800 <= n < 0xD800 then Some(n as char)
      else if |b| == 3 && 0xE000 <= n < 0x1_0000 then Some(n as char)
      else if |b| == 4 && 0x1_0000 <= n < 0x11_0000 then Some(n as char)
      else None
  }

  lemma Utf8RoundTrip(c: char)
    ensures Utf8Length(Utf8(c)[0]) == |Utf8(c)|
    ensures Utf8Char(Utf8(c)) == Some(c)
  {
    var n, b := c as int, Utf8(c);
    Utf8Digits(n);
    assert Utf8Number(b) == n;
    assert forall i :: 1 <= i < |b| ==> Continuation(b[i]);
    hide Utf8, Utf8Number, Continuation;
  }

  lemma Utf8Digits(n: nat)
    ensures n == n / 64 * 64 + n % 64
    ensures n == n / 4096 * 4096 + n / 64 % 64 * 64 + n % 64
    ensures n == n / 0x4_0000 * 0x4_0000 + n / 4096 % 64 * 4096 + n / 64 % 64 * 64 + n % 64
  {
    var q1, q2, q3 := n / 64, n / 4096, n / 0x4_0000;
    DivTwice(n);
    assert n == 64 * q1 + n % 64;
    assert q1 == 64 * q2 + q1 % 64;
    assert q2 == 64 * q3 + q2 % 64;
  }

  lemma DivTwice(n: nat)
    ensures n / 64 / 64 == n / 4096 && n / 4096 / 64 == n / 0x4_0000
  {
  }

  /** Different texts have different bytes. */
  lemma {:induction false} Utf8AllInjective(s: string, t: string)
    requires Utf8All(s) == Utf8All(t)
    ensures s == t
  {
    if s != "" && t != "" {
      var a, b := Utf8(s[0]), Utf8(t[0]);
      Utf8RoundTrip(s[0]);
      Utf8RoundTrip(t[0]);
      assert Utf8All(s)[0] == a[0] && Utf8All(t)[0] == b[0];
      assert a == Utf8All(s)[..|a|] && b == Utf8All(t)[..|b|];
      assert Utf8All(s[1..]) == Utf8All(s)[|a|..] && Utf8All(t[1..]) == Utf8All(t)[|b|..];
      hide Utf8, Utf8Char, Utf8Length;
      Utf8AllInjective(s[1..], t[1..]);
      assert s == [s[0]] + s[1..] && t == [t[0]] + t[1..];
    }
  }

  /** One character of each length, spelled out. */
  lemma Utf8Spelled()
    ensures Utf8('~') == [0x7E]
    ensures Utf8('\U{E9}') == [0xC3, 0xA9]
    ensures Utf8('\U{20AC}') == [0xE2, 0x82, 0xAC]
    ensures Utf8('\U{1F600}') == [0xF0, 0x9F, 0x98, 0x80]
  {
  }

  /* ---- Percent escapes ---- */

  const HEX := "0123456789ABCDEF"

  function Percent(b: byte): (s: string)
    ensures |s| == 3 && s[0] == '%'
  {
    ['%', HEX[b as int / 16], HEX[b as int % 16]]
  }

  function HexValue(c: char): Option<nat> {
    if '0' <= c <= '9' then Some(c as int - '0' as int)
    else if 'A' <= c <= 'F' then Some(c as int - 'A' as int + 10)
    else if 'a' <= c <= 'f' then Some(c as int - 'a' as int + 10)
    else None
  }

  /** The byte of the escape at the start of `s`. */
  function Unpercent(s: string): (r: Option<byte>)
    ensures r.Some? ==> |s| >= 3
  {
    if |s| < 3 || s[0] != '%' then None
    else
      var h, l := HexValue(s[1]), HexValue(s[2]);
      if h.None? || l.None? || h.value >= 16 || l.value >= 16 then None
      else Some((h.value * 16 + l.value) as byte)
  }

  lemma UnpercentPercent(b: byte, rest: string)
    ensures Unpercent(Percent(b) + rest) == Some(b)
  {
    var s := Percent(b) + rest;
    HexDigit(b as int / 16);
    HexDigit(b as int % 16);
    assert s[1] == HEX[b as int / 16] && s[2] == HEX[b as int % 16];
  }

  lemma HexDigit(n: nat)
    requires n < 16
    ensures HexValue(HEX[n]) == Some(n)
  {
  }

  function PercentAll(b: seq<byte>): string {
    if b == [] then "" else Percent(b[0]) + PercentAll(b[1..])
  }

  /** The bytes of n escapes in a row at the start of `s`. */
  function UnpercentAll(s: string, n: nat): (r: Option<seq<byte>>)
    ensures r.Some? ==> |s| >= 3 * n && |r.value| == n
  {
    if n == 0 then Some([])
    else
      var b := Unpercent(s);
      if b.None? then None
      else
        var t := UnpercentAll(s[3..], n - 1);
        if t.None? then None else Some([b.value] + t.value)
  }

  lemma {:induction false} UnpercentPercentAll(b: seq<byte>, rest: string)
    ensures UnpercentAll(PercentAll(b) + rest, |b|) == Some(b)
    ensures |PercentAll(b)| == 3 * |b|
  {
    if b != [] {
      var t := PercentAll(b[1..]);
      assert PercentAll(b) + rest == Percent(b[0]) + (t + rest);
      UnpercentPercent(b[0], t + rest);
      UnpercentPercentAll(b[1..], rest);
      assert (Percent(b[0]) + (t + rest))[3..] == t + rest;
      assert [b[0]] + b[1..] == b;
    }
  }

  function EncodeChar(c: char): string {
    if Unreserved(c) then [c] else PercentAll(Utf8(c))
  }

  function Encode(s: string): string {
    if s == "" then "" else EncodeChar(s[0]) + Encode(s[1..])
  }

  /** None stands for the URIError of a malformed escape. */
  function Decode(s: string): Option<string>
    decreases |s|
  {
    if s == "" then Some("")
    else if s[0] != '%' then Cons(Some(s[0]), Decode(s[1..]))
    else
      var lead := Unpercent(s);
      if lead.None? then None
      else
        var n := Utf8Length(lead.value);
        var b := UnpercentAll(s, n);
        if n == 0 || b.None? then None
        else Cons(Utf8Char(b.value), Decode(s[3 * n..]))
  }

  function Cons(c: Option<char>, rest: Option<string>): Option<string> {
    if c.None? || rest.None? then None else Some([c.value] + rest.value)
  }

  lemma DecodeEscaped(c: char, rest: string)
    ensures Decode(PercentAll(Utf8(c)) + rest) == Cons(Some(c), Decode(rest))
  {
    var b := Utf8(c);
    var s := PercentAll(b) + rest;
    UnpercentPercentAll(b, rest);
    Utf8RoundTrip(c);
    assert s == Percent(b[0]) + (PercentAll(b[1..]) + rest);
    UnpercentPercent(b[0], PercentAll(b[1..]) + rest);
    assert s[3 * |b|..] == rest;
    assert s[0] == '%';
    hide Utf8, Utf8Char, Percent, PercentAll, Unpercent, UnpercentAll, Utf8Length, Cons;
  }

  /** Decoding undoes encoding for every string. */
  lemma {:induction false} RoundTrip(s: string)
    ensures Decode(Encode(s)) == Some(s)
  {
    if s != "" {
      RoundTrip(s[1..]);
      var c, t := s[0], Encode(s[1..]);
      if Unreserved(c) {
        assert ([c] + t)[1..] == t;
      } else {
        DecodeEscaped(c, t);
      }
      assert s == [c] + s[1..];
    }
  }

  /** Encoding leaves a string alone exactly when all its characters are unreserved. */
  lemma {:induction false} EncodeFixed(s: string)
    ensures |Encode(s)| >= |s|
    ensures Encode(s) == s <==> AllUnreserved(s)
  {
    if s != "" {
      var c, t := s[0], Encode(s[1..]);
      EncodeFixed(s[1..]);
      if Unreserved(c) {
        assert ([c] + t)[1..] == t;
        assert AllUnreserved(s) <==> AllUnreserved(s[1..]) by {
          assert forall i :: 0 < i < |s| ==> s[i] == s[1..][i - 1];
        }
      } else {
        UnpercentPercentAll(Utf8(c), "");
        assert !AllUnreserved(s);
      }
    }
  }

  /** A text without percent signs decodes to itself. */
  lemma {:induction false} DecodePlain(s: string)
    requires forall i :: 0 <= i < |s| ==> s[i] != '%'
    ensures Decode(s) == Some(s)
  {
    if s != "" {
      DecodePlain(s[1..]);
      assert [s[0]] + s[1..] == s;
    }
  }

  /** What is left alone, character by character. */
  lemma UnreservedSpelled(c: char)
    ensures Encode([c]) == [c] <==>
            || 'A' <= c <= 'Z' || 'a' <= c <= 'z' || '0' <= c <= '9'
            || c == '-' || c == '_' || c == '.' || c == '!' || c == '~' || c == '*' || c == '\'' || c == '(' || c == ')'
  {
    EncodeFixed([c]);
    assert AllUnreserved([c]) <==> Unreserved([c][0]);
  }

  /** And what a space, a slash and a letter beyond ASCII become. */
  lemma EncodeSpelled()
    ensures Encode(" ") == "%20" && Encode("/") == "%2F" && Encode("\U{E9}") == "%C3%A9"
  {
    Utf8Spelled();
    assert PercentAll([0x20]) == "%20" && PercentAll([0x2F]) == "%2F";
    assert [0xC3 as byte, 0xA9][1..] == [0xA9];
    assert PercentAll([0xA9]) == "%A9";
  }
}
