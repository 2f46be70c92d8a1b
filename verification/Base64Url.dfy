/** The `base64url` encoding of section 5 of RFC 4648, without padding. */
module Base64Url {
  import opened Bytes

  type sextet = x: int | 0 <= x < 64

  function Letter(n: sextet): char {
    if n < 26 then ('A' as int + n) as char
    else if n < 52 then ('a' as int + n - 26) as char
    else if n < 62 then ('0' as int + n - 52) as char
    else if n == 62 then '-' else '_'
  }

  /** The decoder takes the letters of both base64 alphabets. */
  predicate IsLetter(c: char) {
    'A' <= c <= 'Z' || 'a' <= c <= 'z' || '0' <= c <= '9' || c == '-' || c == '_' || c == '+' || c == '/'
  }

  function Number(c: char): sextet
    requires IsLetter(c)
  {
    if 'A' <= c <= 'Z' then c as int - 'A' as int
    else if 'a' <= c <= 'z' then c as int - 'a' as int + 26
    else if '0' <= c <= '9' then c as int - '0' as int + 52
    else if c == '-' || c == '+' then 62 else 63
  }

  function Split3(a: byte, b: byte, c: byte): (s: seq<sextet>)
    ensures |s| == 4
  {
    [a as int / 4, a as int % 4 * 16 + b as int / 16, b as int % 16 * 4 + c as int / 64, c as int % 64]
  }

  function ToSextets(b: seq<byte>): seq<sextet> {
    if b == [] then []
    else if |b| == 1 then Split3(b[0], 0, 0)[..2]
    else if |b| == 2 then Split3(b[0], b[1], 0)[..3]
    else Split3(b[0], b[1], b[2]) + ToSextets(b[3..])
  }

  function Join4(w: sextet, x: sextet, y: sextet, z: sextet): (b: seq<byte>)
    ensures |b| == 3
  {
    [(w * 4 + x / 16) as byte, (x % 16 * 16 + y / 4) as byte, (y % 4 * 64 + z) as byte]
  }

  function FromSextets(s: seq<sextet>): seq<byte> {
    if |s| < 2 then []
    else if |s| == 2 then Join4(s[0], s[1], 0, 0)[..1]
    else if |s| == 3 then Join4(s[0], s[1], s[2], 0)[..2]
    else Join4(s[0], s[1], s[2], s[3]) + FromSextets(s[4..])
  }

  function Letters(s: seq<sextet>): string {
    if s == [] then "" else [Letter(s[0])] + Letters(s[1..])
  }

  /** The decoder skips every character that is no letter. */
  function Numbers(t: string): seq<sextet> {
    if t == "" then []
    else (if IsLetter(t[0]) then [Number(t[0])] else []) + Numbers(t[1..])
  }

  function Encode(b: seq<byte>): string {
    Letters(ToSextets(b))
  }

  function Decode(t: string): seq<byte> {
    FromSextets(Numbers(t))
  }

  lemma JoinSplit(a: byte, b: byte, c: byte)
    ensures var s := Split3(a, b, c); Join4(s[0], s[1], s[2], s[3]) == [a, b, c]
  {
  }

  lemma {:induction false} SextetsRoundTrip(b: seq<byte>)
    ensures FromSextets(ToSextets(b)) == b
  {
    if b == [] {
    } else if |b| == 1 {
      JoinSplit(b[0], 0, 0);
      assert Split3(b[0], 0, 0)[2] == 0 && Split3(b[0], 0, 0)[3] == 0;
    } else if |b| == 2 {
      JoinSplit(b[0], b[1], 0);
      assert Split3(b[0], b[1], 0)[3] == 0;
    } else {
      SextetsRoundTrip(b[3..]);
      JoinSplit(b[0], b[1], b[2]);
      var s := Split3(b[0], b[1], b[2]);
      assert (s + ToSextets(b[3..]))[4..] == ToSextets(b[3..]);
    }
  }

  lemma {:induction false} LettersRoundTrip(s: seq<sextet>)
    ensures Numbers(Letters(s)) == s
  {
    if s != [] {
      LettersRoundTrip(s[1..]);
      assert Letters(s)[1..] == Letters(s[1..]);
    }
  }

  /** Every byte sequence survives encoding and decoding. */
  lemma RoundTrip(b: seq<byte>)
    ensures Decode(Encode(b)) == b
  {
    SextetsRoundTrip(b);
    LettersRoundTrip(ToSextets(b));
  }

  /** The letters an encoding consists of. */
  predicate InAlphabet(c: char) {
    'A' <= c <= 'Z' || 'a' <= c <= 'z' || '0' <= c <= '9' || c == '-' || c == '_'
  }

  lemma {:induction false} LettersInAlphabet(s: seq<sextet>)
    ensures |Letters(s)| == |s|
    ensures forall i :: 0 <= i < |Letters(s)| ==> InAlphabet(Letters(s)[i])
  {
    if s != [] {
      LettersInAlphabet(s[1..]);
    }
  }

  lemma EncodeInAlphabet(b: seq<byte>)
    ensures forall i :: 0 <= i < |Encode(b)| ==> InAlphabet(Encode(b)[i])
    ensures b != [] ==> Encode(b) != ""
  {
    LettersInAlphabet(ToSextets(b));
  }

  const UPPER := "ABCDEFGHIJKLMNOPQRSTUVWXYZ"
  const LOWER := "abcdefghijklmnopqrstuvwxyz"
  const OTHER := "0123456789-_"
  const ALPHABET := UPPER + LOWER + OTHER

  lemma UpperSpelled(n: sextet)
    requires n < 26
    ensures |UPPER| == 26 && Letter(n) == UPPER[n]
  {
  }

  lemma LowerSpelled(n: sextet)
    requires 26 <= n < 52
    ensures |LOWER| == 26 && Letter(n) == LOWER[n - 26]
  {
  }

  lemma OtherSpelled(n: sextet)
    requires 52 <= n
    ensures |OTHER| == 12 && Letter(n) == OTHER[n - 52]
  {
  }

  lemma LetterSpelled(n: sextet)
    ensures |ALPHABET| == 64 && Letter(n) == ALPHABET[n]
  {
    if n < 26 {
      UpperSpelled(n);
    } else if n < 52 {
      LowerSpelled(n);
    } else {
      OtherSpelled(n);
    }
    hide Letter;
    assert |UPPER| == 26 && |LOWER| == 26 && |OTHER| == 12;
  }

  /** The letters of a 24-bit number: its digits to the base 64, highest first. */
  function GroupLetters(g: nat): string {
    [ALPHABET[g / 0x4_0000 % 64], ALPHABET[g / 0x1000 % 64], ALPHABET[g / 0x40 % 64], ALPHABET[g % 64]]
  }

  /** The byte at place i; missing bytes count as zero. */
  function ByteAt(b: seq<byte>, i: nat): byte {
    if i < |b| then b[i] else 0
  }

  /** The first three bytes as one number of 24 bits. */
  function Group24(b: seq<byte>): nat {
    ByteAt(b, 0) as nat * 0x1_0000 + ByteAt(b, 1) as nat * 0x100 + ByteAt(b, 2) as nat
  }

  /** Encoding prints groups of three bytes; the letters of missing bytes are left out. */
  lemma EncodeSpelled(b: seq<byte>)
    requires b != []
    ensures Encode(b) == if |b| < 3 then GroupLetters(Group24(b))[..|b| + 1]
                         else GroupLetters(Group24(b)) + Encode(b[3..])
  {
    hide *;
    var s := FirstSextets(b);
    if |b| < 3 {
      LettersFront(s, |b| + 1);
    } else {
      LettersConcat(s, ToSextets(b[3..]));
      EncodeIsLetters(b[3..]);
    }
    EncodeIsLetters(b);
  }

  lemma EncodeIsLetters(b: seq<byte>)
    ensures Encode(b) == Letters(ToSextets(b))
  {
  }

  lemma FirstSextets(b: seq<byte>) returns (s: seq<sextet>)
    requires b != []
    ensures |s| == 4 && Letters(s) == GroupLetters(Group24(b))
    ensures ToSextets(b) == if |b| < 3 then s[..|b| + 1] else s + ToSextets(b[3..])
  {
    s := Split3(ByteAt(b, 0), ByteAt(b, 1), ByteAt(b, 2));
    Group(ByteAt(b, 0), ByteAt(b, 1), ByteAt(b, 2));
    hide Split3, Letters, GroupLetters;
  }

  lemma Group(a: byte, b: byte, c: byte)
    ensures Letters(Split3(a, b, c)) == GroupLetters(a as nat * 0x1_0000 + b as nat * 0x100 + c as nat)
  {
    var g, s := a as nat * 0x1_0000 + b as nat * 0x100 + c as nat, Split3(a, b, c);
    GroupDigits(a, b, c);
    FourLetters(s);
    hide Split3, Letter, Letters;
    LetterSpelled(s[0]);
    LetterSpelled(s[1]);
    LetterSpelled(s[2]);
    LetterSpelled(s[3]);
  }

  /** The sextets of three bytes are the digits of their number. */
  lemma GroupDigits(a: byte, b: byte, c: byte)
    ensures var g, s := a as nat * 0x1_0000 + b as nat * 0x100 + c as nat, Split3(a, b, c);
            s[0] == g / 0x4_0000 % 64 && s[1] == g / 0x1000 % 64 && s[2] == g / 0x40 % 64 && s[3] == g % 64
  {
    var s := Split3(a, b, c);
    var w: int, x: int, y: int, z: int := s[0], s[1], s[2], s[3];
    assert a as int == w * 4 + x / 16 && b as int == x % 16 * 16 + y / 4 && c as int == y % 4 * 64 + z;
    hide Split3;
    Digits(w, x, y, z);
  }

  lemma Digits(w: sextet, x: sextet, y: sextet, z: sextet)
    ensures var g := w * 0x4_0000 + x * 0x1000 + y * 0x40 + z;
            w == g / 0x4_0000 % 64 && x == g / 0x1000 % 64 && y == g / 0x40 % 64 && z == g % 64
  {
    var g := w * 0x4_0000 + x * 0x1000 + y * 0x40 + z;
    assert g / 0x4_0000 == w;
    assert g / 0x1000 == w * 64 + x;
    assert g / 0x40 == (w * 64 + x) * 64 + y;
  }

  lemma {:induction false} LettersConcat(s: seq<sextet>, t: seq<sextet>)
    ensures Letters(s + t) == Letters(s) + Letters(t)
  {
    hide Letter;
    if s == [] {
      assert s + t == t;
    } else {
      LettersConcat(s[1..], t);
      assert (s + t)[1..] == s[1..] + t;
      assert [Letter(s[0])] + (Letters(s[1..]) + Letters(t)) == ([Letter(s[0])] + Letters(s[1..])) + Letters(t);
    }
  }

  lemma LettersFront(s: seq<sextet>, n: nat)
    requires n <= |s|
    ensures |Letters(s)| == |s| && Letters(s[..n]) == Letters(s)[..n]
  {
    LettersConcat(s[..n], s[n..]);
    LettersInAlphabet(s);
    LettersInAlphabet(s[..n]);
    hide *;
    assert s[..n] + s[n..] == s;
  }

  lemma FourLetters(s: seq<sextet>)
    requires |s| == 4
    ensures Letters(s) == [Letter(s[0]), Letter(s[1]), Letter(s[2]), Letter(s[3])]
  {
    hide Letter;
    assert s[1..][1..] == s[2..] && s[2..][1..] == s[3..] && s[3..][1..] == [];
    assert Letters(s[3..]) == [Letter(s[3])] + Letters([]);
    assert Letters(s[2..]) == [Letter(s[2])] + Letters(s[3..]);
    assert Letters(s[1..]) == [Letter(s[1])] + Letters(s[2..]);
  }
}
