/**
  The gRPC-Web message framing of `mlmd-validator.ts`: a type byte, a 32-bit big-endian
  length and that many bytes; type 0x00 carries data, type 0x80 the trailers.
 */
module GrpcWeb {
  import opened Wrappers
  import opened Bytes
  import opened Sequences
  import Decimal

  const TWO_TO_THE_32: nat := 0x1_0000_0000

  datatype Frame = Data(payload: seq<byte>) | Trailer(payload: seq<byte>)

  datatype Error =
    | Overrun(offset: nat, claimed: nat, remaining: nat)
    | GrpcStatus(status: int)
    | UnexpectedType(frameType: byte)
    | TrailingBytes(count: nat)
    | NoDataFrame

  /* ---- 32-bit lengths ---- */

  /** `setUint32` keeps the low 32 bits. */
  function Uint32(n: nat): (b: seq<byte>)
    ensures |b| == 4
  {
    [(n / 0x100_0000 % 256) as byte, (n / 0x1_0000 % 256) as byte, (n / 0x100 % 256) as byte, (n % 256) as byte]
  }

  function GetUint32(b: seq<byte>): (n: nat)
    requires |b| == 4
    ensures n < TWO_TO_THE_32
  {
    b[0] as nat * 0x100_0000 + b[1] as nat * 0x1_0000 + b[2] as nat * 0x100 + b[3] as nat
  }

  lemma GetSet(n: nat)
    ensures GetUint32(Uint32(n)) == n % TWO_TO_THE_32
  {
    var q1, q2, q3, q4 := n / 0x100, n / 0x1_0000, n / 0x100_0000, n / 0x1_0000_0000;
    var low := q3 % 256 * 0x100_0000 + q2 % 256 * 0x1_0000 + q1 % 256 * 0x100 + n % 256;
    assert GetUint32(Uint32(n)) == low;
    hide *;
    DivTwice(n);
    Remainder(q4, low);
    assert n == q4 * TWO_TO_THE_32 + low;
  }

  lemma DivTwice(n: nat)
    ensures n / 0x100 / 0x100 == n / 0x1_0000
    ensures n / 0x1_0000 / 0x100 == n / 0x100_0000
    ensures n / 0x100_0000 / 0x100 == n / 0x1_0000_0000
  {
  }

  lemma Remainder(q: nat, r: nat)
    ensures r < 0x100 ==> (q * 0x100 + r) / 0x100 == q && (q * 0x100 + r) % 0x100 == r
    ensures r < 0x1_0000 ==> (q * 0x1_0000 + r) / 0x1_0000 == q
    ensures r < 0x100_0000 ==> (q * 0x100_0000 + r) / 0x100_0000 == q
    ensures r < TWO_TO_THE_32 ==> (q * TWO_TO_THE_32 + r) % TWO_TO_THE_32 == r
  {
  }

  lemma SetGet(b: seq<byte>)
    requires |b| == 4
    ensures Uint32(GetUint32(b)) == b
  {
    var b0, b1, b2, b3 := b[0] as nat, b[1] as nat, b[2] as nat, b[3] as nat;
    var n := b0 * 0x100_0000 + b1 * 0x1_0000 + b2 * 0x100 + b3;
    assert n / 0x100_0000 % 256 == b0 && n / 0x1_0000 % 256 == b1 && n / 0x100 % 256 == b2 && n % 256 == b3 by {
      hide *;
      Remainder(b0, b1 * 0x1_0000 + b2 * 0x100 + b3);
      Remainder(b0 * 0x100 + b1, b2 * 0x100 + b3);
      Remainder(b0 * 0x1_0000 + b1 * 0x100 + b2, b3);
      Remainder(b0 * 0x100 + b1, b2);
      Remainder(b0, b1);
    }
  }

  /* ---- The format ---- */

  function TypeByte(f: Frame): byte {
    if f.Data? then 0x00 else 0x80
  }

  function WireFrame(f: Frame): seq<byte> {
    [TypeByte(f)] + Uint32(|f.payload|) + f.payload
  }

  function Wire(frames: seq<Frame>): seq<byte> {
    if frames == [] then [] else WireFrame(frames[0]) + Wire(frames[1..])
  }

  /** The length field can hold the length. */
  ghost predicate Fits(frames: seq<Frame>) {
    forall i :: 0 <= i < |frames| ==> |frames[i].payload| < TWO_TO_THE_32
  }

  function Chunks(frames: seq<Frame>): seq<seq<byte>> {
    if frames == [] then []
    else (if frames[0].Data? then [frames[0].payload] else []) + Chunks(frames[1..])
  }

  function Concat(chunks: seq<seq<byte>>): seq<byte> {
    if chunks == [] then [] else chunks[0] + Concat(chunks[1..])
  }

  /* ---- The status in a trailer ---- */

  const STATUS_KEY := "grpc-status:"

  /** The characters the pattern's `\s` stands for. */
  predicate IsSpace(c: char) {
    var n := c as int;
    9 <= n <= 13 || n == 32 || n == 0xA0 || n == 0x1680 || 0x2000 <= n <= 0x200A || n == 0x2028 || n == 0x2029
    || n == 0x202F || n == 0x205F || n == 0x3000 || n == 0xFEFF
  }

  function SkipSpaces(s: string): string {
    if s != "" && IsSpace(s[0]) then SkipSpaces(s[1..]) else s
  }

  function TakeDigits(s: string): (d: string)
    ensures Decimal.AllDigits(d) && d <= s
    ensures |d| < |s| ==> !Decimal.IsDigit(s[|d|])
  {
    if s != "" && Decimal.IsDigit(s[0]) then [s[0]] + TakeDigits(s[1..]) else ""
  }

  /** The first place where the key is followed by digits decides; without one the status is -1. */
  function StatusAfter(key: string, text: string): int {
    if text == "" then -1
    else if key <= text && TakeDigits(SkipSpaces(text[|key|..])) != "" then
      Decimal.Read(TakeDigits(SkipSpaces(text[|key|..])))
    else StatusAfter(key, text[1..])
  }

  function TrailerStatus(text: string): int {
    StatusAfter(STATUS_KEY, text)
  }

  lemma {:induction false} SpacesSkipped(pad: string, rest: string)
    requires forall i :: 0 <= i < |pad| ==> IsSpace(pad[i])
    requires rest == "" || !IsSpace(rest[0])
    ensures SkipSpaces(pad + rest) == rest
  {
    if pad == "" {
      assert pad + rest == rest;
    } else {
      SpacesSkipped(pad[1..], rest);
      assert (pad + rest)[1..] == pad[1..] + rest;
    }
  }

  lemma {:induction false} DigitsTaken(d: string, rest: string)
    requires Decimal.AllDigits(d) && (rest == "" || !Decimal.IsDigit(rest[0]))
    ensures TakeDigits(d + rest) == d
  {
    if d == "" {
      assert d + rest == rest;
    } else {
      DigitsTaken(d[1..], rest);
      assert (d + rest)[1..] == d[1..] + rest;
    }
  }

  /** The pattern matches at place i. */
  predicate StatusAt(key: string, text: string, i: nat) {
    && i < |text| && key <= text[i..]
    && TakeDigits(SkipSpaces(text[i + |key|..])) != ""
  }

  /** The number the match at place i stands for. */
  function NumberAt(key: string, text: string, i: nat): nat
    requires StatusAt(key, text, i)
  {
    Decimal.Read(TakeDigits(SkipSpaces(text[i + |key|..])))
  }

  /** The matches of a text behind its first character are those of the rest. */
  lemma StatusLater(key: string, text: string, i: nat)
    requires text != ""
    ensures StatusAt(key, text[1..], i) <==> StatusAt(key, text, i + 1)
    ensures StatusAt(key, text[1..], i) ==> NumberAt(key, text[1..], i) == NumberAt(key, text, i + 1)
  {
    hide SkipSpaces, TakeDigits, Decimal.Read;
    if i + 1 < |text| {
      assert text[1..][i..] == text[i + 1..];
      if |key| <= |text| - i - 1 {
        assert text[1..][i + |key|..] == text[i + 1 + |key|..];
      }
    }
  }

  lemma StatusHere(key: string, text: string)
    requires text != ""
    ensures StatusAfter(key, text) ==
            if StatusAt(key, text, 0) then NumberAt(key, text, 0) else StatusAfter(key, text[1..])
  {
    assert text[0..] == text;
    hide SkipSpaces, TakeDigits, Decimal.Read;
  }

  /** The status is that of the first match. */
  lemma {:induction false} StatusIsFirst(key: string, text: string, i: nat)
    requires StatusAt(key, text, i) && forall j :: 0 <= j < i ==> !StatusAt(key, text, j)
    ensures StatusAfter(key, text) == NumberAt(key, text, i)
    decreases i
  {
    StatusHere(key, text);
    if i > 0 {
      StatusLater(key, text, i - 1);
      forall j | 0 <= j < i - 1 ensures !StatusAt(key, text[1..], j) {
        StatusLater(key, text, j);
      }
      hide StatusAt, NumberAt, StatusAfter;
      StatusIsFirst(key, text[1..], i - 1);
    }
  }

  /** It is -1 exactly when nothing matches. */
  lemma {:induction false} StatusMissing(key: string, text: string)
    ensures StatusAfter(key, text) == -1 <==> forall i: nat :: !StatusAt(key, text, i)
  {
    if text != "" {
      StatusHere(key, text);
      StatusMissing(key, text[1..]);
      forall i: nat ensures StatusAt(key, text[1..], i) <==> StatusAt(key, text, i + 1) {
        StatusLater(key, text, i);
      }
      hide StatusAt, NumberAt, StatusAfter;
      if i: nat :| StatusAt(key, text, i) {
        assert i > 0 ==> StatusAt(key, text[1..], i - 1);
      }
    }
  }

  /** A printed status is read back, whatever the padding, whatever follows, and behind anything without a match. */
  lemma StatusReadBack(before: string, key: string, pad: string, n: nat, rest: string)
    requires key != "" && forall i :: 0 <= i < |pad| ==> IsSpace(pad[i])
    requires rest == "" || !Decimal.IsDigit(rest[0])
    requires forall i :: 0 <= i < |before| ==> !StatusAt(key, before + (key + (pad + (Decimal.Print(n) + rest))), i)
    ensures StatusAfter(key, before + (key + (pad + (Decimal.Print(n) + rest)))) == n
  {
    var d := Decimal.Print(n);
    NoSpaceFirst(d, rest);
    DigitsTaken(d, rest);
    Decimal.ReadPrint(n);
    SpacesSkipped(pad, d + rest);
    var tail := pad + (d + rest);
    var text := before + (key + tail);
    hide SkipSpaces, TakeDigits, Decimal.Read, Decimal.Print, StatusAfter;
    assert text[|before|..] == key + tail;
    assert text[|before| + |key|..] == tail;
    assert StatusAt(key, text, |before|) && NumberAt(key, text, |before|) == n;
    StatusIsFirst(key, text, |before|);
  }

  /** The header name as it is written in a trailer does not occur in the text. */
  ghost predicate NamesNoStatus(text: string) {
    forall i :: 0 <= i <= |text| ==> !("grpc-status:" <= text[i..])
  }

  lemma KeySpelled()
    ensures STATUS_KEY == "grpc-status:" && |STATUS_KEY| == 12 && STATUS_KEY[0] == 'g'
    ensures forall j :: 0 < j < 12 ==> STATUS_KEY[j] != 'g'
  {
  }

  lemma NoMatchIn(text: string, i: nat)
    requires i <= |text| ==> !("grpc-status:" <= text[i..])
    ensures !StatusAt(STATUS_KEY, text, i)
  {
    KeySpelled();
    hide SkipSpaces, TakeDigits;
  }

  /** A match cannot start before the header's name and reach into it. */
  lemma NoOverlap(before: string, after: string, i: nat)
    requires NamesNoStatus(before) && i < |before|
    ensures !StatusAt(STATUS_KEY, before + (STATUS_KEY + after), i)
  {
    KeySpelled();
    var text := before + (STATUS_KEY + after);
    var j := |before| - i;
    assert text[i..] == before[i..] + (STATUS_KEY + after);
    if j < 12 {
      assert text[i..][j] == STATUS_KEY[0];
    } else {
      assert text[i..][..12] == before[i..][..12];
    }
    NoMatchIn(text, i);
  }

  /** The header as it is written, with blanks and tabs behind the colon, is read back. */
  lemma StatusSpelled(before: string, pad: string, n: nat, rest: string)
    requires NamesNoStatus(before)
    requires forall i :: 0 <= i < |pad| ==> pad[i] == ' ' || pad[i] == '\t'
    requires rest != "" ==> !('0' <= rest[0] <= '9')
    ensures TrailerStatus(before + "grpc-status:" + pad + Decimal.Print(n) + rest) == n
  {
    var d := Decimal.Print(n);
    var text := before + (STATUS_KEY + (pad + (d + rest)));
    KeySpelled();
    hide StatusAt, Decimal.Print, StatusAfter;
    forall i | 0 <= i < |before| ensures !StatusAt(STATUS_KEY, text, i) {
      NoOverlap(before, pad + (d + rest), i);
    }
    StatusReadBack(before, STATUS_KEY, pad, n, rest);
    assert before + "grpc-status:" + pad + d + rest == text;
  }

  /** Without the header the status is -1. */
  lemma StatusAbsent(text: string)
    requires NamesNoStatus(text)
    ensures TrailerStatus(text) == -1
  {
    hide StatusAt, StatusAfter;
    forall i: nat ensures !StatusAt(STATUS_KEY, text, i) {
      NoMatchIn(text, i);
    }
    StatusMissing(STATUS_KEY, text);
  }

  lemma NoSpaceFirst(d: string, rest: string)
    requires d != "" && Decimal.AllDigits(d)
    ensures !IsSpace((d + rest)[0])
  {
    assert Decimal.IsDigit(d[0]);
  }

  /* ---- Reading ---- */

  type TextDecoder = seq<byte> -> string

  /** The frame that starts at `offset`, or what is wrong with it. */
  function ReadFrame(buffer: seq<byte>, offset: nat, decode: TextDecoder): (r: Result<Frame, Error>)
    requires offset + 5 <= |buffer|
    ensures r.Ok? ==> offset + 5 + |r.value.payload| <= |buffer|
  {
    var frameType := buffer[offset];
    var length := GetUint32(buffer[offset + 1..offset + 5]);
    var next := offset + 5 + length;
    if next > |buffer| then Err(Overrun(offset, length, |buffer| - offset - 5))
    else
      var payload := buffer[offset + 5..next];
      if frameType == 0x00 then Ok(Data(payload))
      else if frameType == 0x80 then
        var status := TrailerStatus(decode(payload));
        if status != 0 then Err(GrpcStatus(status)) else Ok(Trailer(payload))
      else Err(UnexpectedType(frameType))
  }

  /** The frames from `offset` on, or the first thing that is wrong with them. */
  function Parse(buffer: seq<byte>, offset: nat, decode: TextDecoder): Result<seq<Frame>, Error>
    requires offset <= |buffer|
    decreases |buffer| - offset
  {
    if offset + 5 > |buffer| then
      if offset == |buffer| then Ok([]) else Err(TrailingBytes(|buffer| - offset))
    else
      var r := ReadFrame(buffer, offset, decode);
      if r.Err? then Err(r.error)
      else Prepend([r.value], Parse(buffer, offset + 5 + |r.value.payload|, decode))
  }

  function Prepend(frames: seq<Frame>, r: Result<seq<Frame>, Error>): Result<seq<Frame>, Error> {
    if r.Ok? then Ok(frames + r.value) else r
  }

  function Decoded(buffer: seq<byte>, decode: TextDecoder): Result<seq<byte>, Error> {
    var r := Parse(buffer, 0, decode);
    if r.Err? then Err(r.error)
    else if Chunks(r.value) == [] then Err(NoDataFrame)
    else Ok(Concat(Chunks(r.value)))
  }

  ghost predicate StatusesZero(frames: seq<Frame>, decode: TextDecoder) {
    forall i :: 0 <= i < |frames| && frames[i].Trailer? ==> TrailerStatus(decode(frames[i].payload)) == 0
  }

  ghost predicate HasData(frames: seq<Frame>) {
    exists i :: 0 <= i < |frames| && frames[i].Data?
  }

  /* ---- Parse inverts Wire ---- */

  /** Reading what was written gives back the frames. */
  lemma {:induction false} ParseWire(buffer: seq<byte>, offset: nat, frames: seq<Frame>, decode: TextDecoder)
    requires offset <= |buffer| && buffer[offset..] == Wire(frames)
    requires Fits(frames) && StatusesZero(frames, decode)
    ensures Parse(buffer, offset, decode) == Ok(frames)
    decreases |frames|
  {
    hide WireFrame, ReadFrame;
    if frames != [] {
      var f := frames[0];
      FrameAt(buffer, offset, f, Wire(frames[1..]));
      assert f.Trailer? ==> TrailerStatus(decode(f.payload)) == 0;
      ReadsBack(buffer, offset, f, decode);
      ParseWire(buffer, offset + 5 + |f.payload|, frames[1..], decode);
      assert frames == [f] + frames[1..];
    }
  }

  /** A good frame is read back. */
  lemma ReadsBack(buffer: seq<byte>, offset: nat, f: Frame, decode: TextDecoder)
    requires offset + 5 + |f.payload| <= |buffer| && |f.payload| < TWO_TO_THE_32
    requires buffer[offset] == TypeByte(f)
    requires buffer[offset + 1..offset + 5] == Uint32(|f.payload|)
    requires buffer[offset + 5..offset + 5 + |f.payload|] == f.payload
    requires f.Trailer? ==> TrailerStatus(decode(f.payload)) == 0
    ensures ReadFrame(buffer, offset, decode) == Ok(f)
  {
    var n := |f.payload|;
    assert GetUint32(Uint32(n)) == n by {
      GetSet(n);
    }
    hide *;
    ReadsFrame(buffer, offset, f, decode);
  }

  /** What is read where the three parts of a frame stand. */
  lemma ReadsFrame(buffer: seq<byte>, offset: nat, f: Frame, decode: TextDecoder)
    requires offset + 5 + |f.payload| <= |buffer|
    requires buffer[offset] == TypeByte(f)
    requires GetUint32(buffer[offset + 1..offset + 5]) == |f.payload|
    requires buffer[offset + 5..offset + 5 + |f.payload|] == f.payload
    requires f.Trailer? ==> TrailerStatus(decode(f.payload)) == 0
    ensures ReadFrame(buffer, offset, decode) == Ok(f)
  {
    hide GetUint32, TrailerStatus;
  }

  /** The parts of a frame that starts at `offset`. */
  lemma FrameAt(buffer: seq<byte>, offset: nat, f: Frame, rest: seq<byte>)
    requires offset <= |buffer| && buffer[offset..] == WireFrame(f) + rest
    ensures offset + 5 + |f.payload| <= |buffer|
    ensures buffer[offset] == TypeByte(f)
    ensures buffer[offset + 1..offset + 5] == Uint32(|f.payload|)
    ensures buffer[offset + 5..offset + 5 + |f.payload|] == f.payload
    ensures buffer[offset + 5 + |f.payload|..] == rest
  {
    hide Uint32;
    var tail, n := buffer[offset..], |f.payload|;
    assert tail == [TypeByte(f)] + Uint32(n) + f.payload + rest;
    assert buffer[offset] == tail[0];
    assert buffer[offset + 1..offset + 5] == tail[1..5] == Uint32(n);
    assert buffer[offset + 5..offset + 5 + n] == tail[5..5 + n] == f.payload;
    assert buffer[offset + 5 + n..] == tail[5 + n..] == rest;
  }

  /** What a frame that is read successfully looks like. */
  lemma FrameRead(buffer: seq<byte>, offset: nat, decode: TextDecoder)
    requires offset + 5 <= |buffer| && ReadFrame(buffer, offset, decode).Ok?
    ensures var f := ReadFrame(buffer, offset, decode).value;
            && buffer[offset..] == WireFrame(f) + buffer[offset + 5 + |f.payload|..]
            && |f.payload| < TWO_TO_THE_32
            && (f.Trailer? ==> TrailerStatus(decode(f.payload)) == 0)
  {
    hide Uint32, GetUint32, TrailerStatus;
    var f, b := ReadFrame(buffer, offset, decode).value, buffer[offset + 1..offset + 5];
    SetGet(b);
    var next := offset + 5 + |f.payload|;
    assert buffer[offset..] == [buffer[offset]] + b + buffer[offset + 5..next] + buffer[next..];
  }

  /** Whatever is read successfully is exactly the writing of the frames found. */
  lemma {:induction false} WireParse(buffer: seq<byte>, offset: nat, decode: TextDecoder)
    requires offset <= |buffer| && Parse(buffer, offset, decode).Ok?
    ensures var frames := Parse(buffer, offset, decode).value;
            Wire(frames) == buffer[offset..] && Fits(frames) && StatusesZero(frames, decode)
    decreases |buffer| - offset
  {
    if offset < |buffer| {
      hide ReadFrame, WireFrame, TrailerStatus;
      var f := ReadFrame(buffer, offset, decode).value;
      var next := offset + 5 + |f.payload|;
      FrameRead(buffer, offset, decode);
      WireParse(buffer, next, decode);
      var rest := Parse(buffer, next, decode).value;
      assert Parse(buffer, offset, decode) == Ok([f] + rest);
      hide Parse;
      OneMoreFrame(f, rest, decode);
    }
  }

  lemma OneMoreFrame(f: Frame, rest: seq<Frame>, decode: TextDecoder)
    requires Fits(rest) && StatusesZero(rest, decode)
    requires |f.payload| < TWO_TO_THE_32 && (f.Trailer? ==> TrailerStatus(decode(f.payload)) == 0)
    ensures Wire([f] + rest) == WireFrame(f) + Wire(rest)
    ensures Fits([f] + rest) && StatusesZero([f] + rest, decode)
  {
    hide WireFrame, TrailerStatus;
    assert ([f] + rest)[1..] == rest;
  }

  lemma {:induction false} ChunksOfData(frames: seq<Frame>)
    ensures Chunks(frames) != [] <==> HasData(frames)
  {
    if frames != [] {
      ChunksOfData(frames[1..]);
      if HasData(frames[1..]) {
        var i :| 0 <= i < |frames[1..]| && frames[1..][i].Data?;
        assert frames[i + 1].Data?;
      }
      if HasData(frames) && !frames[0].Data? {
        var i :| 0 <= i < |frames| && frames[i].Data?;
        assert frames[1..][i - 1].Data?;
      }
    }
  }

  /** These frames are a complete, error-free response carrying `message`. */
  ghost predicate IsResponse(frames: seq<Frame>, buffer: seq<byte>, message: seq<byte>, decode: TextDecoder) {
    && Wire(frames) == buffer && Fits(frames)
    && StatusesZero(frames, decode) && HasData(frames)
    && Concat(Chunks(frames)) == message
  }

  lemma SuccessfulFrames(frames: seq<Frame>, buffer: seq<byte>, message: seq<byte>, decode: TextDecoder)
    requires Wire(frames) == buffer && Concat(Chunks(frames)) == message
    requires Fits(frames) && StatusesZero(frames, decode) && HasData(frames)
    ensures exists fs :: IsResponse(fs, buffer, message, decode)
  {
    assert IsResponse(frames, buffer, message, decode);
  }

  /** Decoding succeeds exactly on concatenations of complete, error-free frames with data among them. */
  lemma DecodesExactly(buffer: seq<byte>, message: seq<byte>, decode: TextDecoder)
    ensures Decoded(buffer, decode) == Ok(message) <==> exists frames :: IsResponse(frames, buffer, message, decode)
  {
    if Decoded(buffer, decode) == Ok(message) {
      WireParse(buffer, 0, decode);
      var frames := Parse(buffer, 0, decode).value;
      ChunksOfData(frames);
      assert buffer[0..] == buffer;
      assert IsResponse(frames, buffer, message, decode);
    }
    if frames :| IsResponse(frames, buffer, message, decode) {
      assert buffer[0..] == buffer;
      ParseWire(buffer, 0, frames, decode);
      ChunksOfData(frames);
    }
  }

  /** The frames of a buffer are determined by it. */
  lemma WireUnique(fs: seq<Frame>, gs: seq<Frame>)
    requires Fits(fs) && Fits(gs) && Wire(fs) == Wire(gs)
    ensures fs == gs
  {
    var zero: TextDecoder := _ => "" + (STATUS_KEY + ("" + (Decimal.Print(0) + "")));
    StatusReadBack("", STATUS_KEY, "", 0, "");
    var buffer := Wire(fs);
    assert buffer[0..] == buffer;
    ParseWire(buffer, 0, fs, zero);
    ParseWire(buffer, 0, gs, zero);
  }

  /* ---- Bytes and texts spelled out ---- */

  /** The five bytes in front of a payload: the kind of frame and the length, its highest byte first. */
  lemma HeaderSpelled(f: Frame)
    requires |f.payload| < TWO_TO_THE_32
    ensures var b := WireFrame(f);
            && |b| == 5 + |f.payload| && b[5..] == f.payload
            && b[0] == (if f.Data? then 0x00 else 0x80)
            && |f.payload| == b[1] as nat * 0x100_0000 + b[2] as nat * 0x1_0000 + b[3] as nat * 0x100 + b[4] as nat
  {
    var length := Uint32(|f.payload|);
    assert GetUint32(length) == |f.payload| by {
      GetSet(|f.payload|);
    }
    hide Uint32;
    var b := WireFrame(f);
    assert b[1] == length[0] && b[2] == length[1] && b[3] == length[2] && b[4] == length[3];
  }

  function DataFrames(chunks: seq<seq<byte>>): seq<Frame> {
    if chunks == [] then [] else [Data(chunks[0])] + DataFrames(chunks[1..])
  }

  lemma {:induction false} DataFramesAre(chunks: seq<seq<byte>>)
    ensures |DataFrames(chunks)| == |chunks|
    ensures forall i :: 0 <= i < |chunks| ==> DataFrames(chunks)[i] == Data(chunks[i])
    ensures Chunks(DataFrames(chunks)) == chunks
  {
    if chunks != [] {
      DataFramesAre(chunks[1..]);
      var frames := DataFrames(chunks);
      assert frames[1..] == DataFrames(chunks[1..]);
      assert [chunks[0]] + chunks[1..] == chunks;
    }
  }

  /** The usual response: some data frames and a trailer that reports success. */
  lemma ResponseDecodes(chunks: seq<seq<byte>>, trailer: seq<byte>, decode: TextDecoder)
    requires chunks != [] && |trailer| < TWO_TO_THE_32 && decode(trailer) == "grpc-status: 0\r\n"
    requires forall i :: 0 <= i < |chunks| ==> |chunks[i]| < TWO_TO_THE_32
    ensures Decoded(Wire(DataFrames(chunks) + [Trailer(trailer)]), decode) == Ok(Concat(chunks))
  {
    var data := DataFrames(chunks);
    var frames := data + [Trailer(trailer)];
    var buffer := Wire(frames);
    DataFramesAre(chunks);
    ZeroStatus();
    ChunksAppend(data, Trailer(trailer));
    assert chunks + [] == chunks;
    hide *;
    SuccessfulFrames(frames, buffer, Concat(chunks), decode);
    DecodesExactly(buffer, Concat(chunks), decode);
  }

  lemma ZeroStatus()
    ensures TrailerStatus("grpc-status: 0\r\n") == 0
  {
    var text := "grpc-status: 0\r\n";
    assert Decimal.Print(0) == "0";
    hide TrailerStatus, Decimal.Print;
    StatusSpelled("", " ", 0, "\r\n");
    assert "" + "grpc-status:" + " " + "0" + "\r\n" == text;
  }

  /* ---- What is wrong with a response ---- */

  /** Good frames are read first, whatever follows them. */
  lemma {:induction false} ParseBehind(buffer: seq<byte>, offset: nat, frames: seq<Frame>, decode: TextDecoder)
    requires offset + |Wire(frames)| <= |buffer|
    requires buffer[offset..offset + |Wire(frames)|] == Wire(frames)
    requires Fits(frames) && StatusesZero(frames, decode)
    ensures Parse(buffer, offset, decode) == Prepend(frames, Parse(buffer, offset + |Wire(frames)|, decode))
    decreases |frames|
  {
    hide WireFrame, ReadFrame;
    if frames == [] {
      PrependNothing(Parse(buffer, offset, decode));
    } else {
      var f := frames[0];
      var end := offset + |Wire(frames)|;
      assert buffer[offset..] == Wire(frames) + buffer[end..];
      Regroup(WireFrame(f), Wire(frames[1..]), buffer[end..]);
      FrameAt(buffer, offset, f, Wire(frames[1..]) + buffer[end..]);
      assert f.Trailer? ==> TrailerStatus(decode(f.payload)) == 0;
      ReadsBack(buffer, offset, f, decode);
      var next := offset + 5 + |f.payload|;
      WireFrameLength(f);
      assert buffer[next..][..|Wire(frames[1..])|] == Wire(frames[1..]);
      ParseBehind(buffer, next, frames[1..], decode);
      PrependTwice([f], frames[1..], Parse(buffer, end, decode));
      assert [f] + frames[1..] == frames;
    }
  }

  lemma WireFrameLength(f: Frame)
    ensures |WireFrame(f)| == 5 + |f.payload|
  {
  }

  /** The error is what is wrong with `tail`, which starts at `at` and is no good frame. */
  ghost predicate FaultIs(tail: seq<byte>, at: nat, decode: TextDecoder, e: Error) {
    if tail == [] then false
    else if |tail| < 5 then e == TrailingBytes(|tail|)
    else
      var n := tail[1] as nat * 0x100_0000 + tail[2] as nat * 0x1_0000 + tail[3] as nat * 0x100 + tail[4] as nat;
      if 5 + n > |tail| then e == Overrun(at, n, |tail| - 5)
      else if tail[0] == 0x00 then false
      else if tail[0] != 0x80 then e == UnexpectedType(tail[0])
      else
        var status := TrailerStatus(decode(tail[5..5 + n]));
        status != 0 && e == GrpcStatus(status)
  }

  /** Good frames, and behind them the first thing that is wrong, or nothing but no data either. */
  ghost predicate FailsWith(frames: seq<Frame>, tail: seq<byte>, buffer: seq<byte>, decode: TextDecoder, e: Error) {
    && Fits(frames) && StatusesZero(frames, decode) && buffer == Wire(frames) + tail
    && (FaultIs(tail, |Wire(frames)|, decode, e) || (tail == [] && !HasData(frames) && e == NoDataFrame))
  }

  lemma FrameFault(buffer: seq<byte>, at: nat, tail: seq<byte>, decode: TextDecoder, e: Error)
    requires at + 5 <= |buffer| && buffer[at..] == tail
    ensures FaultIs(tail, at, decode, e) <==> ReadFrame(buffer, at, decode) == Err(e)
  {
    assert buffer[at] == tail[0];
    SliceBehind(buffer, at, 1, 5);
    var n := GetUint32(tail[1..5]);
    if 5 + n <= |tail| {
      SliceBehind(buffer, at, 5, 5 + n);
    }
    hide TrailerStatus;
  }

  lemma FaultParsed(buffer: seq<byte>, at: nat, tail: seq<byte>, decode: TextDecoder, e: Error)
    requires at <= |buffer| && buffer[at..] == tail && FaultIs(tail, at, decode, e)
    ensures Parse(buffer, at, decode) == Err(e)
  {
    if |tail| >= 5 {
      FrameFault(buffer, at, tail, decode, e);
    }
    hide ReadFrame, TrailerStatus;
  }

  /** The frames in front of the first fault. */
  lemma {:induction false} FaultFound(buffer: seq<byte>, at: nat, decode: TextDecoder)
    returns (frames: seq<Frame>, tail: seq<byte>)
    requires at <= |buffer| && Parse(buffer, at, decode).Err?
    ensures Fits(frames) && StatusesZero(frames, decode) && buffer[at..] == Wire(frames) + tail
    ensures FaultIs(tail, at + |Wire(frames)|, decode, Parse(buffer, at, decode).error)
    decreases |buffer| - at
  {
    hide ReadFrame, WireFrame, TrailerStatus, FaultIs, Parse;
    if at + 5 > |buffer| || ReadFrame(buffer, at, decode).Err? {
      FaultHere(buffer, at, decode);
      hide *;
      frames, tail := [], buffer[at..];
      assert Wire([]) == [] && [] + tail == tail;
    } else {
      var f := ReadFrame(buffer, at, decode).value;
      var next := at + 5 + |f.payload|;
      FrameRead(buffer, at, decode);
      ErrorLater(buffer, at, decode);
      hide *;
      frames, tail := FaultFound(buffer, next, decode);
      FaultBehind(f, frames, tail, buffer[next..], at, decode);
      frames := [f] + frames;
    }
  }

  lemma FaultHere(buffer: seq<byte>, at: nat, decode: TextDecoder)
    requires at <= |buffer| && Parse(buffer, at, decode).Err?
    requires at + 5 > |buffer| || ReadFrame(buffer, at, decode).Err?
    ensures FaultIs(buffer[at..], at, decode, Parse(buffer, at, decode).error)
  {
    hide ReadFrame, TrailerStatus, FaultIs;
    if at + 5 > |buffer| {
      ShortFault(buffer[at..], at, decode);
    } else {
      FrameFault(buffer, at, buffer[at..], decode, ReadFrame(buffer, at, decode).error);
    }
  }

  lemma ErrorLater(buffer: seq<byte>, at: nat, decode: TextDecoder)
    requires at + 5 <= |buffer| && ReadFrame(buffer, at, decode).Ok?
    ensures var later := Parse(buffer, at + 5 + |ReadFrame(buffer, at, decode).value.payload|, decode);
            Parse(buffer, at, decode).Err? ==> later.Err? && later.error == Parse(buffer, at, decode).error
  {
    hide ReadFrame;
  }

  lemma FaultBehind(f: Frame, rest: seq<Frame>, tail: seq<byte>, later: seq<byte>, at: nat, decode: TextDecoder)
    requires Fits(rest) && StatusesZero(rest, decode) && later == Wire(rest) + tail
    requires |f.payload| < TWO_TO_THE_32 && (f.Trailer? ==> TrailerStatus(decode(f.payload)) == 0)
    ensures Fits([f] + rest) && StatusesZero([f] + rest, decode)
    ensures WireFrame(f) + later == Wire([f] + rest) + tail
    ensures at + |Wire([f] + rest)| == at + 5 + |f.payload| + |Wire(rest)|
  {
    OneMoreFrame(f, rest, decode);
    WireFrameLength(f);
    hide *;
    Regroup(WireFrame(f), Wire(rest), tail);
  }

  lemma ShortFault(tail: seq<byte>, at: nat, decode: TextDecoder)
    requires 0 < |tail| < 5
    ensures FaultIs(tail, at, decode, TrailingBytes(|tail|))
  {
  }

  /** Decoding fails with an error exactly when that is the first thing wrong behind good frames. */
  lemma FailsExactly(buffer: seq<byte>, decode: TextDecoder, e: Error)
    ensures Decoded(buffer, decode) == Err(e) <==>
            exists frames, tail :: FailsWith(frames, tail, buffer, decode, e)
  {
    hide FaultIs;
    if Decoded(buffer, decode) == Err(e) {
      assert buffer[0..] == buffer;
      if Parse(buffer, 0, decode).Err? {
        var frames, tail := FaultFound(buffer, 0, decode);
        assert FailsWith(frames, tail, buffer, decode, e);
      } else {
        WireParse(buffer, 0, decode);
        var frames := Parse(buffer, 0, decode).value;
        ChunksOfData(frames);
        assert Wire(frames) + [] == buffer;
        assert FailsWith(frames, [], buffer, decode, e);
      }
    }
    if frames, tail :| FailsWith(frames, tail, buffer, decode, e) {
      FailureReported(frames, tail, buffer, decode, e);
    }
  }

  lemma FailureReported(frames: seq<Frame>, tail: seq<byte>, buffer: seq<byte>, decode: TextDecoder, e: Error)
    requires FailsWith(frames, tail, buffer, decode, e)
    ensures Decoded(buffer, decode) == Err(e)
  {
    var at := |Wire(frames)|;
    assert buffer[..at] == Wire(frames) && buffer[at..] == tail;
    ParseBehind(buffer, 0, frames, decode);
    if FaultIs(tail, at, decode, e) {
      FaultParsed(buffer, at, tail, decode, e);
    } else {
      ChunksOfData(frames);
      assert frames + [] == frames;
    }
    hide FaultIs, Wire, Chunks;
  }

  /* ---- Requests ---- */

  function Request(message: seq<byte>): seq<byte> {
    [0x00] + Uint32(|message|) + message
  }

  /** The header of a request: a data frame of the message's length, its highest byte first. */
  lemma RequestSpelled(message: seq<byte>)
    requires |message| < TWO_TO_THE_32
    ensures var b := Request(message);
            && |b| == 5 + |message| && b[0] == 0x00 && b[5..] == message
            && |message| == b[1] as nat * 0x100_0000 + b[2] as nat * 0x1_0000 + b[3] as nat * 0x100 + b[4] as nat
  {
    HeaderSpelled(Data(message));
    assert Request(message) == WireFrame(Data(message));
  }

  lemma {:induction false} WireLength(frames: seq<Frame>)
    ensures |Wire(frames)| == 5 * |frames| + PayloadLength(frames)
    ensures |Concat(Chunks(frames))| <= PayloadLength(frames)
  {
    if frames != [] {
      WireLength(frames[1..]);
      assert frames[0].Data? ==> Chunks(frames)[1..] == Chunks(frames[1..]);
      assert frames[0].Trailer? ==> Chunks(frames) == Chunks(frames[1..]);
    }
  }

  function PayloadLength(frames: seq<Frame>): nat {
    if frames == [] then 0 else |frames[0].payload| + PayloadLength(frames[1..])
  }

  /** An encoded request decodes to its message exactly when the length field can hold the length. */
  lemma RequestRoundTrip(message: seq<byte>, decode: TextDecoder)
    ensures Decoded(Request(message), decode) == Ok(message) <==> |message| < TWO_TO_THE_32
  {
    var buffer := Request(message);
    DecodesExactly(buffer, message, decode);
    if |message| < TWO_TO_THE_32 {
      var frames := [Data(message)];
      assert frames[1..] == [];
      assert Wire(frames) == buffer;
      assert Chunks(frames) == [message] && [message][1..] == [];
      assert IsResponse(frames, buffer, message, decode);
    } else {
      forall frames ensures !IsResponse(frames, buffer, message, decode) {
        WireLength(frames);
        if |frames| == 1 {
          assert frames[1..] == [];
        }
      }
    }
  }

  /* ---- The code ---- */

  method EncodeGrpcWebRequest(message: seq<byte>) returns (frame: array<byte>)
    ensures fresh(frame) && frame[..] == Request(message)
  {
    frame := new byte[5 + |message|];
    frame[0] := 0x00;
    var length := Uint32(|message|);
    forall i | 0 <= i < 4 { frame[1 + i] := length[i]; }
    forall i | 0 <= i < |message| { frame[5 + i] := message[i]; }
    assert frame[..] == [0x00] + length + message;
  }

  /** Copies the chunks one behind the other into an array of just the right size. */
  method Merge(chunks: seq<seq<byte>>) returns (merged: array<byte>)
    ensures fresh(merged) && merged[..] == Concat(chunks)
  {
    var total := 0;
    for i := 0 to |chunks|
      invariant total + |Concat(chunks[i..])| == |Concat(chunks)|
    {
      assert chunks[i..][1..] == chunks[i + 1..];
      total := total + |chunks[i]|;
    }
    merged := new byte[total];
    var pos := 0;
    for i := 0 to |chunks|
      invariant pos + |Concat(chunks[i..])| == merged.Length
      invariant merged[..pos] + Concat(chunks[i..]) == Concat(chunks)
    {
      assert chunks[i..][1..] == chunks[i + 1..];
      ghost var before := merged[..pos];
      var chunk := chunks[i];
      forall j | 0 <= j < |chunk| { merged[pos + j] := chunk[j]; }
      pos := pos + |chunk|;
      assert merged[..pos] == before + chunk;
    }
  }

  method DecodeGrpcWebResponse(buffer: seq<byte>, decode: TextDecoder) returns (r: Result<seq<byte>, Error>)
    ensures r == Decoded(buffer, decode)
  {
    hide Uint32, GetUint32, TrailerStatus, Concat;
    var dataChunks: seq<seq<byte>> := [];
    ghost var seen: seq<Frame> := [];
    var offset := 0;
    PrependNothing(Parse(buffer, 0, decode));
    while offset + 5 <= |buffer|
      invariant 0 <= offset <= |buffer|
      invariant dataChunks == Chunks(seen)
      invariant Parse(buffer, 0, decode) == Prepend(seen, Parse(buffer, offset, decode))
      decreases |buffer| - offset
    {
      var frameType := buffer[offset];
      var length := GetUint32(buffer[offset + 1..offset + 5]);
      if offset + 5 + length > |buffer| {
        return Err(Overrun(offset, length, |buffer| - offset - 5));
      }
      var payload := buffer[offset + 5..offset + 5 + length];
      ghost var f: Frame;
      if frameType == 0x00 {
        dataChunks := dataChunks + [payload];
        f := Data(payload);
      } else if frameType == 0x80 {
        var status := TrailerStatus(decode(payload));
        if status != 0 {
          return Err(GrpcStatus(status));
        }
        f := Trailer(payload);
      } else {
        return Err(UnexpectedType(frameType));
      }
      ChunksAppend(seen, f);
      PrependTwice(seen, [f], Parse(buffer, offset + 5 + length, decode));
      seen := seen + [f];
      offset := offset + 5 + length;
    }
    if offset != |buffer| {
      return Err(TrailingBytes(|buffer| - offset));
    }
    assert seen + [] == seen;
    if |dataChunks| == 0 {
      return Err(NoDataFrame);
    }
    if |dataChunks| == 1 {
      ConcatOne(dataChunks);
      return Ok(dataChunks[0]);
    }
    var merged := Merge(dataChunks);
    return Ok(merged[..]);
  }

  lemma {:induction false} ChunksAppend(frames: seq<Frame>, f: Frame)
    ensures Chunks(frames + [f]) == Chunks(frames) + if f.Data? then [f.payload] else []
  {
    if frames == [] {
      assert frames + [f] == [f] && [f][1..] == [];
    } else {
      ChunksAppend(frames[1..], f);
      assert (frames + [f])[1..] == frames[1..] + [f];
    }
  }

  lemma ConcatOne(chunks: seq<seq<byte>>)
    requires |chunks| == 1
    ensures Concat(chunks) == chunks[0]
  {
    assert chunks[1..] == [] && Concat([]) == [];
  }

  lemma PrependNothing(r: Result<seq<Frame>, Error>)
    ensures Prepend([], r) == r
  {
    if r.Ok? {
      assert [] + r.value == r.value;
    }
  }

  lemma PrependTwice(a: seq<Frame>, b: seq<Frame>, r: Result<seq<Frame>, Error>)
    ensures Prepend(a, Prepend(b, r)) == Prepend(a + b, r)
  {
    if r.Ok? {
      assert a + (b + r.value) == (a + b) + r.value;
    }
  }
}
