/** How JSON escapes the characters of a string, and how they are read back: section 7 of RFC 8259. */
module JsonText {
  import opened Wrappers
  import opened Sequences

  const HEX := "0123456789abcdef"

  function Hex4(n: nat): string
    requires n < 0x1_0000
  {
    [HEX[n / 4096], HEX[n / 256 % 16], HEX[n / 16 % 16], HEX[n % 16]]
  }

  predicate Plain(c: char) {
    ' ' <= c <= '~' && c != '"' && c != '\\'
  }

  function EscapeUnit(n: nat): string
    requires n < 0x1_0000
  {
    "\\u" + Hex4(n)
  }

  /** Printable ASCII stands for itself; a character beyond 16 bits becomes two units. */
  function EscapeChar(c: char): string {
    if Plain(c) then [c]
    else if c == '"' then "\\\""
    else if c == '\\' then "\\\\"
    else if c == '\n' then "\\n"
    else if c == '\r' then "\\r"
    else if c == '\t' then "\\t"
    else if c as int == 8 then "\\b"
    else if c as int == 12 then "\\f"
    else if c as int < 0x1_0000 then EscapeUnit(c as int)
    else
      var v := c as int - 0x1_0000;
      EscapeUnit(0xD800 + v / 1024) + EscapeUnit(0xDC00 + v % 1024)
  }

  /* ---- Reading ---- */

  function HexDigit(c: char): (r: Option<nat>)
    ensures r.Some? ==> r.value < 16
  {
    if '0' <= c <= '9' then Some(c as int - '0' as int)
    else if 'a' <= c <= 'f' then Some(c as int - 'a' as int + 10)
    else if 'A' <= c <= 'F' then Some(c as int - 'A' as int + 10)
    else None
  }

  function ReadHex4(t: string): (r: Option<nat>)
    ensures r.Some? ==> |t| >= 4 && r.value < 0x1_0000
  {
    if |t| < 4 then None
    else
      var (a, b, c, d) := (HexDigit(t[0]), HexDigit(t[1]), HexDigit(t[2]), HexDigit(t[3]));
      if a.None? || b.None? || c.None? || d.None? then None
      else Some(a.value * 4096 + b.value * 256 + c.value * 16 + d.value)
  }

  /** The four digits behind `\\u`; a high surrogate needs its low one. */
  function ReadUnicode(t: string): (r: Option<(char, string)>)
    ensures r.Some? ==> |r.value.1| < |t|
  {
    var h := ReadHex4(t);
    if h.None? then None
    else if h.value < 0xD800 || 0xE000 <= h.value then Some((h.value as char, t[4..]))
    else if h.value >= 0xDC00 || |t| < 10 || t[4] != '\\' || t[5] != 'u' then None
    else
      var l := ReadHex4(t[6..]);
      if l.None? || l.value < 0xDC00 || 0xE000 <= l.value then None
      else Some(((0x1_0000 + (h.value - 0xD800) * 0x400 + (l.value - 0xDC00)) as char, t[10..]))
  }

  /** One character of a string and what follows it. */
  function ReadChar(t: string): (r: Option<(char, string)>)
    ensures r.Some? ==> |r.value.1| < |t|
  {
    if t == "" || t[0] == '"' || t[0] < ' ' then None
    else if t[0] != '\\' then Some((t[0], t[1..]))
    else if |t| < 2 then None
    else
      match t[1]
      case '"' => Some(('"', t[2..]))
      case '\\' => Some(('\\', t[2..]))
      case '/' => Some(('/', t[2..]))
      case 'b' => Some((8 as char, t[2..]))
      case 'f' => Some((12 as char, t[2..]))
      case 'n' => Some((10 as char, t[2..]))
      case 'r' => Some((13 as char, t[2..]))
      case 't' => Some((9 as char, t[2..]))
      case 'u' => ReadUnicode(t[2..])
      case _ => None
  }

  /** The characters up to the closing quote, and what follows it. */
  function ReadText(t: string): (r: Option<(string, string)>)
    ensures r.Some? ==> |r.value.1| < |t|
    decreases |t|
  {
    if t == "" then None
    else if t[0] == '"' then Some(("", t[1..]))
    else
      var c := ReadChar(t);
      if c.None? then None
      else
        var s := ReadText(c.value.1);
        if s.None? then None else Some(([c.value.0] + s.value.0, s.value.1))
  }

  lemma HexReadBack(n: nat)
    requires n < 16
    ensures HexDigit(HEX[n]) == Some(n)
  {
  }

  lemma Hex4ReadBack(n: nat, tail: string)
    requires n < 0x1_0000
    ensures ReadHex4(Hex4(n) + tail) == Some(n)
  {
    HexReadBack(n / 4096);
    HexReadBack(n / 256 % 16);
    HexReadBack(n / 16 % 16);
    HexReadBack(n % 16);
    var t := Hex4(n) + tail;
    assert t[0] == HEX[n / 4096] && t[1] == HEX[n / 256 % 16] && t[2] == HEX[n / 16 % 16] && t[3] == HEX[n % 16];
    HexDigits(n);
    hide HexDigit, Hex4;
  }

  lemma HexDigits(n: nat)
    requires n < 0x1_0000
    ensures n / 4096 < 16
    ensures n == n / 4096 * 4096 + n / 256 % 16 * 256 + n / 16 % 16 * 16 + n % 16
  {
    var q1, q2, q3 := n / 16, n / 256, n / 4096;
    assert n == 16 * q1 + n % 16;
    assert n / 16 / 16 == n / 256 && n / 256 / 16 == n / 4096;
    assert q1 == 16 * q2 + q1 % 16;
    assert q2 == 16 * q3 + q2 % 16;
  }

  /** Behind `\\u` stand the digits. */
  lemma UnitIsUnicode(n: nat, tail: string)
    requires n < 0x1_0000
    ensures ReadChar(EscapeUnit(n) + tail) == ReadUnicode(Hex4(n) + tail)
  {
    var t := EscapeUnit(n) + tail;
    assert t[0] == '\\' && t[1] == 'u' && t[2..] == Hex4(n) + tail;
    hide Hex4, EscapeUnit, ReadUnicode;
  }

  lemma UnitReadBack(n: nat, tail: string)
    requires n < 0xD800 || 0xE000 <= n < 0x1_0000
    ensures ReadChar(EscapeUnit(n) + tail) == Some((n as char, tail))
  {
    hide ReadChar, EscapeUnit, ReadHex4, Hex4;
    UnitIsUnicode(n, tail);
    Hex4ReadBack(n, tail);
    Hex4Drop(n, tail);
  }

  lemma Hex4Drop(n: nat, tail: string)
    requires n < 0x1_0000
    ensures |Hex4(n) + tail| == 4 + |tail| && (Hex4(n) + tail)[4..] == tail
  {
  }

  /** A high surrogate's digits followed by the escape of a low one. */
  lemma PairReadBack(h: nat, l: nat, tail: string)
    requires 0xD800 <= h < 0xDC00 <= l < 0xE000
    ensures ReadChar(EscapeUnit(h) + EscapeUnit(l) + tail) ==
            Some(((0x1_0000 + (h - 0xD800) * 0x400 + (l - 0xDC00)) as char, tail))
  {
    hide *;
    var low := EscapeUnit(l) + tail;
    Regroup(EscapeUnit(h), EscapeUnit(l), tail);
    UnitIsUnicode(h, low);
    Hex4ReadBack(h, low);
    Hex4Drop(h, low);
    EscapeDrop(l, tail);
    Hex4ReadBack(l, tail);
    Hex4Drop(l, tail);
    SurrogatesRead(Hex4(h) + low, h, l);
    assert (Hex4(h) + low)[6..] == low[2..];
    assert (Hex4(h) + low)[10..] == low[2..][4..];
  }

  lemma EscapeDrop(n: nat, tail: string)
    requires n < 0x1_0000
    ensures var t := EscapeUnit(n) + tail;
            |t| == 6 + |tail| && t[0] == '\\' && t[1] == 'u' && t[2..] == Hex4(n) + tail
  {
    hide Hex4;
    Hex4Length(n);
  }

  lemma Hex4Length(n: nat)
    requires n < 0x1_0000
    ensures |Hex4(n)| == 4
  {
  }

  lemma EscapeUnitStart(n: nat)
    ensures n < 0x1_0000 ==> |EscapeUnit(n)| == 6 && EscapeUnit(n)[0] == '\\'
  {
  }

  lemma SurrogatesRead(t: string, h: nat, l: nat)
    requires 0xD800 <= h < 0xDC00 <= l < 0xE000
    requires |t| >= 10 && ReadHex4(t) == Some(h) && t[4] == '\\' && t[5] == 'u' && ReadHex4(t[6..]) == Some(l)
    ensures ReadUnicode(t) == Some(((0x1_0000 + (h - 0xD800) * 0x400 + (l - 0xDC00)) as char, t[10..]))
  {
    hide ReadHex4;
  }

  /** Every character is read back from its escape. */
  lemma CharReadBack(c: char, tail: string)
    ensures ReadChar(EscapeChar(c) + tail) == Some((c, tail))
  {
    var n := c as int;
    if Plain(c) {
      assert ([c] + tail)[1..] == tail;
    } else if c == '"' || c == '\\' || n == 10 || n == 13 || n == 9 || n == 8 || n == 12 {
      ShortReadBack(c, tail);
    } else if n < 0x1_0000 {
      hide ReadChar, EscapeUnit;
      UnitReadBack(n, tail);
    } else {
      hide ReadChar, EscapeUnit;
      AstralReadBack(c, tail);
    }
  }

  /** A character beyond 16 bits is read back from its two halves. */
  lemma AstralReadBack(c: char, tail: string)
    requires c as int >= 0x1_0000
    ensures ReadChar(EscapeChar(c) + tail) == Some((c, tail))
  {
    hide ReadChar, EscapeUnit;
    var v := c as int - 0x1_0000;
    var h, l := 0xD800 + v / 1024, 0xDC00 + v % 1024;
    assert EscapeChar(c) == EscapeUnit(h) + EscapeUnit(l);
    hide *;
    Halves(v);
    PairReadBack(h, l, tail);
  }

  lemma Halves(v: nat)
    ensures v == v / 1024 * 1024 + v % 1024
  {
  }

  lemma ShortReadBack(c: char, tail: string)
    requires c == '"' || c == '\\' || c as int in {8, 9, 10, 12, 13}
    ensures ReadChar(EscapeChar(c) + tail) == Some((c, tail))
  {
    hide EscapeUnit, ReadUnicode;
    var x := EscapeChar(c);
    assert |x| == 2 && x[0] == '\\';
    var t := x + tail;
    assert t[0] == x[0] && t[1] == x[1] && t[2..] == tail;
  }

  /** How `json.dumps` prints characters, spelled out: ASCII only, lower-case digits. */
  lemma EscapeSpelled(c: char)
    ensures ' ' <= c <= '~' && c != '"' && c != '\\' ==> EscapeChar(c) == [c]
    ensures EscapeChar('"') == "\\\"" && EscapeChar('\\') == "\\\\"
    ensures EscapeChar('\n') == "\\n" && EscapeChar('\r') == "\\r" && EscapeChar('\t') == "\\t"
    ensures EscapeChar('\U{8}') == "\\b" && EscapeChar('\U{C}') == "\\f"
    ensures EscapeChar('\U{7F}') == "\\u007f" && EscapeChar('\U{E9}') == "\\u00e9"
    ensures EscapeChar('\U{1F600}') == "\\ud83d\\ude00"
  {
    ShortSpelled(c);
    LongSpelled();
    hide *;
  }

  lemma ShortSpelled(c: char)
    ensures ' ' <= c <= '~' && c != '"' && c != '\\' ==> EscapeChar(c) == [c]
    ensures EscapeChar('"') == "\\\"" && EscapeChar('\\') == "\\\\"
    ensures EscapeChar('\n') == "\\n" && EscapeChar('\r') == "\\r" && EscapeChar('\t') == "\\t"
    ensures EscapeChar('\U{8}') == "\\b" && EscapeChar('\U{C}') == "\\f"
  {
    hide EscapeUnit;
  }

  lemma LongSpelled()
    ensures EscapeChar('\U{7F}') == "\\u007f" && EscapeChar('\U{E9}') == "\\u00e9"
    ensures EscapeChar('\U{1F600}') == "\\ud83d\\ude00"
  {
    UnitsSpelled();
    hide EscapeUnit;
    assert EscapeChar('\U{1F600}') == EscapeUnit(0xD83D) + EscapeUnit(0xDE00);
  }

  lemma UnitsSpelled()
    ensures EscapeUnit(0x7F) == "\\u007f" && EscapeUnit(0xE9) == "\\u00e9"
    ensures EscapeUnit(0xD83D) == "\\ud83d" && EscapeUnit(0xDE00) == "\\ude00"
  {
    assert Hex4(0x7F) == "007f" && Hex4(0xE9) == "00e9";
    assert Hex4(0xD83D) == "d83d" && Hex4(0xDE00) == "de00";
  }
}
