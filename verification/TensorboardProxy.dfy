/**
  The signed proxy paths of the TensorBoard viewers: a token carries namespace and viewer
  name together with a keyed digest of them, and a request path is split back into the
  token and the path to forward.
 */
module TensorboardProxy {
  import opened Wrappers
  import opened Sequences
  import opened Bytes
  import Base64Url
  import JsonText
  import opened Strings
  import Uri = UriComponent

  /** A keyed digest of 32 bytes, otherwise arbitrary. */
  type Digest = d: seq<byte> | |d| == 32 witness seq(32, _ => 0)

  type Mac = seq<byte> -> Digest

  datatype Payload = Payload(namespace: string, viewerName: string)

  datatype Request = Request(token: string, proxyPath: string)

  const PROXY_PREFIX := "/apps/tensorboard/proxy/"

  /* ---- Strings ---- */

  predicate OccursAt(s: string, p: string, i: nat) {
    i + |p| <= |s| && s[i..i + |p|] == p
  }

  /** `indexOf`: the first occurrence, if there is one. */
  function IndexOf(s: string, p: string): (r: Option<nat>)
    ensures r.Some? ==> OccursAt(s, p, r.value) && forall i :: 0 <= i < r.value ==> !OccursAt(s, p, i)
    ensures r.None? ==> forall i :: 0 <= i ==> !OccursAt(s, p, i)
  {
    if p <= s then
      assert s[0..|p|] == p;
      Some(0)
    else if s == "" then None
    else
      OccursLater(s, p);
      var r := IndexOf(s[1..], p);
      if r.None? then None else Some(r.value + 1)
  }

  lemma OccursLater(s: string, p: string)
    requires s != ""
    ensures forall i :: 0 < i ==> (OccursAt(s, p, i) <==> OccursAt(s[1..], p, i - 1))
  {
    forall i | 0 < i && i + |p| <= |s| ensures OccursAt(s, p, i) <==> OccursAt(s[1..], p, i - 1) {
      assert s[1..][i - 1..i - 1 + |p|] == s[i..i + |p|];
    }
  }

  /* ---- The payload ---- */

  predicate NameChar(c: char) {
    'a' <= c <= 'z' || '0' <= c <= '9'
  }

  /** `isAllowedResourceName`. */
  predicate Allowed(name: string) {
    && 0 < |name| <= 63
    && NameChar(name[0]) && NameChar(name[|name| - 1])
    && forall i :: 0 <= i < |name| ==> NameChar(name[i]) || name[i] == '-'
  }

  /**
    A Kubernetes name (RFC 1123 label) of a namespace or a viewer: 1 to 63 letters a to z, digits
    and dashes, without a dash at either end.
   */
  ghost predicate DnsLabel(name: string) {
    && 1 <= |name| <= 63 && name[0] != '-' && name[|name| - 1] != '-'
    && forall i :: 0 <= i < |name| ==> 'a' <= name[i] <= 'z' || '0' <= name[i] <= '9' || name[i] == '-'
  }

  lemma AllowedIsLabel(name: string)
    ensures Allowed(name) <==> DnsLabel(name)
  {
    if DnsLabel(name) {
      assert name[0] != '-' && name[|name| - 1] != '-';
      assert NameChar(name[0]) && NameChar(name[|name| - 1]);
    }
    if Allowed(name) {
      assert NameChar(name[0]) && NameChar(name[|name| - 1]);
      assert forall i :: 0 <= i < |name| ==> NameChar(name[i]) || name[i] == '-';
    }
  }

  /** One character inside a string as `JSON.stringify` prints it: beyond ASCII nothing is escaped. */
  function JsonChar(c: char): string {
    if c == '"' || c == '\\' || c as int < 32 then JsonText.EscapeChar(c) else [c]
  }

  function JsonChars(s: string): string {
    if s == "" then "" else JsonChar(s[0]) + JsonChars(s[1..])
  }

  const HEAD := "{\"namespace\":\""
  const MIDDLE := "\",\"viewerName\":\""
  const END := "\"}"

  function Serialize(p: Payload): string {
    HEAD + JsonChars(p.namespace) + MIDDLE + JsonChars(p.viewerName) + END
  }

  function AsciiText(b: seq<byte>): string {
    if b == [] then "" else [b[0] as int as char] + AsciiText(b[1..])
  }

  ghost predicate IsAscii(b: seq<byte>) {
    forall i :: 0 <= i < |b| ==> b[i] < 0x80
  }

  /** Reads the object `Serialize` prints, with nothing that needed escaping in its strings. */
  function ParseJson(b: seq<byte>): Option<Payload> {
    if exists i :: 0 <= i < |b| && b[i] >= 0x80 then None
    else ParseObject(AsciiText(b))
  }

  /** Everything up to the next double quote, and the rest from there on. */
  function ParseName(t: string): (string, string) {
    var i := Find(t, '"');
    (t[..i], t[i..])
  }

  /** No quotes, backslashes or control characters. */
  predicate Unescaped(s: string) {
    forall i :: 0 <= i < |s| ==> ' ' <= s[i] && s[i] != '"' && s[i] != '\\'
  }

  function ParseFields(t: string, head: string, middle: string, end: string): Option<Payload> {
    if !(head <= t) then None
    else
      var (ns, r) := ParseName(t[|head|..]);
      if !(middle <= r) then None
      else
        var (viewer, e) := ParseName(r[|middle|..]);
        if e == end && Unescaped(ns) && Unescaped(viewer) then Some(Payload(ns, viewer)) else None
  }

  function ParseObject(t: string): Option<Payload> {
    ParseFields(t, HEAD, MIDDLE, END)
  }

  /* ---- The serialised payload is JSON for it ---- */

  lemma JsonCharReadBack(c: char, tail: string)
    ensures JsonText.ReadChar(JsonChar(c) + tail) == Some((c, tail))
    ensures JsonChar(c) != "" && JsonChar(c)[0] != '"'
  {
    JsonText.CharReadBack(c, tail);
    if c != '"' && c != '\\' && c as int >= 32 {
      assert ([c] + tail)[1..] == tail;
    } else {
      hide JsonText.ReadChar, JsonText.EscapeUnit;
      JsonText.EscapeUnitStart(c as int);
    }
  }

  /** A JSON reader finds the name again between its quotes. */
  lemma {:induction false} CharsReadBack(s: string, tail: string)
    ensures JsonText.ReadText(JsonChars(s) + (['"'] + tail)) == Some((s, tail))
  {
    hide JsonText.ReadChar, JsonChar;
    if s == "" {
      assert JsonChars(s) + (['"'] + tail) == ['"'] + tail;
      assert (['"'] + tail)[1..] == tail;
    } else {
      var x, more := JsonChar(s[0]), JsonChars(s[1..]) + (['"'] + tail);
      CharsReadBack(s[1..], tail);
      JsonCharReadBack(s[0], more);
      Regroup(x, JsonChars(s[1..]), ['"'] + tail);
      assert (x + more)[0] == x[0];
      assert [s[0]] + s[1..] == s;
    }
  }

  /** What is signed: an object whose two members a JSON reader finds again. */
  lemma SerializeReadBack(p: Payload) returns (a: string, b: string)
    ensures Serialize(p) == "{\"namespace\":\"" + a
    ensures JsonText.ReadText(a) == Some((p.namespace, ",\"viewerName\":\"" + b))
    ensures JsonText.ReadText(b) == Some((p.viewerName, "}"))
  {
    b := JsonChars(p.viewerName) + (['"'] + "}");
    var rest := ",\"viewerName\":\"" + b;
    a := JsonChars(p.namespace) + (['"'] + rest);
    CharsReadBack(p.viewerName, "}");
    CharsReadBack(p.namespace, rest);
    LiteralsSpelled();
    hide *;
    SerializeSpelled(p);
    Concatenated(JsonChars(p.namespace), JsonChars(p.viewerName), "{\"namespace\":\"", ",\"viewerName\":\"", "}");
  }

  lemma LiteralsSpelled()
    ensures HEAD == "{\"namespace\":\"" && MIDDLE == ['"'] + ",\"viewerName\":\"" && END == ['"'] + "}"
  {
  }

  lemma SerializeSpelled(p: Payload)
    ensures Serialize(p) == HEAD + JsonChars(p.namespace) + MIDDLE + JsonChars(p.viewerName) + END
  {
  }

  lemma Concatenated(ns: string, viewer: string, head: string, middle: string, end: string)
    ensures head + ns + (['"'] + middle) + viewer + (['"'] + end) ==
            head + (ns + (['"'] + (middle + (viewer + (['"'] + end)))))
  {
  }

  /** So different payloads are signed as different texts. */
  lemma SerializeInjective(p: Payload, q: Payload)
    requires Serialize(p) == Serialize(q)
    ensures p == q
  {
    hide *;
    var a, b := SerializeReadBack(p);
    var c, d := SerializeReadBack(q);
    SamePrefix("{\"namespace\":\"", a, c);
    SamePrefix(",\"viewerName\":\"", b, d);
  }

  lemma SamePrefix(s: string, a: string, b: string)
    ensures s + a == s + b ==> a == b
  {
    if s + a == s + b {
      assert (s + a)[|s|..] == a && (s + b)[|s|..] == b;
    }
  }

  /* ---- Minting and parsing ---- */

  function Token(p: Payload, mac: Mac): string {
    var serialized := Uri.Utf8All(Serialize(p));
    Base64Url.Encode(serialized) + ['.'] + Base64Url.Encode(mac(serialized))
  }

  /** `createTensorboardProxyPath`: relative, without the leading slash. */
  function CreatePath(p: Payload, mac: Mac): string {
    RelativePath(PROXY_PREFIX, Token(p, mac))
  }

  function RelativePath(prefix: string, token: string): string
    requires prefix != ""
  {
    prefix[1..] + Uri.Encode(token) + ['/']
  }

  function ParseToken(token: string, mac: Mac): Option<Payload> {
    var decoded := Uri.Decode(token);
    if decoded.None? then None
    else
      var parts := Split(decoded.value, '.');
      if |parts| < 2 || parts[0] == "" || parts[1] == "" || (|parts| > 2 && parts[2] != "") then None
      else
        var serialized := Base64Url.Decode(parts[0]);
        if parts[1] != Base64Url.Encode(mac(serialized)) then None
        else
          var p := ParseJson(serialized);
          if p.None? || !Allowed(p.value.namespace) || !Allowed(p.value.viewerName) then None else p
  }

  function ParseRequest(prefix: string, path: string): Option<Request> {
    if !(prefix <= path) then None
    else
      var remainder := path[|prefix|..];
      var slash := Find(remainder, '/');
      var token := remainder[..slash];
      if token == "" then None
      else Some(Request(token, if slash == |remainder| then "/" else ['/'] + remainder[slash + 1..]))
  }

  /* ---- The round trip ---- */

  lemma {:induction false} AllowedPrintsPlain(name: string)
    requires forall i :: 0 <= i < |name| ==> NameChar(name[i]) || name[i] == '-'
    ensures JsonChars(name) == name
  {
    if name != "" {
      AllowedPrintsPlain(name[1..]);
      assert NameChar(name[0]) || name[0] == '-';
      assert [name[0]] + name[1..] == name;
    }
  }

  lemma {:induction false} AsciiBytes(t: string)
    requires forall i :: 0 <= i < |t| ==> t[i] as int < 0x80
    ensures AsciiText(Uri.Utf8All(t)) == t && IsAscii(Uri.Utf8All(t))
    ensures |Uri.Utf8All(t)| == |t|
  {
    if t != "" {
      AsciiBytes(t[1..]);
      assert Uri.Utf8All(t)[1..] == Uri.Utf8All(t[1..]);
      assert [t[0]] + t[1..] == t;
    }
  }

  lemma {:induction false} TextOfBytes(b: seq<byte>)
    requires IsAscii(b)
    ensures Uri.Utf8All(AsciiText(b)) == b
    ensures |AsciiText(b)| == |b| && forall i :: 0 <= i < |b| ==> AsciiText(b)[i] as int < 0x80
  {
    if b != [] {
      TextOfBytes(b[1..]);
      assert AsciiText(b)[1..] == AsciiText(b[1..]);
      assert [b[0]] + b[1..] == b;
    }
  }

  lemma NameReadBack(name: string, rest: string)
    requires Unescaped(name) && rest != "" && rest[0] == '"'
    ensures ParseName(name + rest) == (name, rest)
  {
    assert name + rest == name + ['"'] + rest[1..];
    FindAt(name, '"', rest[1..]);
    assert (name + rest)[..|name|] == name && (name + rest)[|name|..] == rest;
  }

  /** The printed object is read back. */
  lemma ObjectReadBack(ns: string, viewer: string)
    requires Unescaped(ns) && Unescaped(viewer)
    ensures ParseObject(HEAD + ns + MIDDLE + viewer + END) == Some(Payload(ns, viewer))
  {
    FieldsReadBack(ns, viewer, HEAD, MIDDLE, END);
  }

  lemma FieldsReadBack(ns: string, viewer: string, head: string, middle: string, end: string)
    requires Unescaped(ns) && Unescaped(viewer)
    requires middle != "" && middle[0] == '"' && end != "" && end[0] == '"'
    ensures ParseFields(head + ns + middle + viewer + end, head, middle, end) == Some(Payload(ns, viewer))
  {
    var t, r := head + ns + middle + viewer + end, middle + (viewer + end);
    NameReadBack(ns, r);
    NameReadBack(viewer, end);
    hide ParseName, Unescaped;
    assert t == head + (ns + r);
    assert head <= t && t[|head|..] == ns + r;
    assert middle <= r && r[|middle|..] == viewer + end;
  }

  lemma ParsedName(t: string)
    ensures ParseName(t).0 + ParseName(t).1 == t
  {
  }

  /** What is read is exactly what would have been printed. */
  lemma ObjectPrintedBack(t: string)
    requires ParseObject(t).Some?
    ensures var p := ParseObject(t).value;
            t == HEAD + p.namespace + MIDDLE + p.viewerName + END
  {
    hide ParseName, Unescaped;
    var r := t[|HEAD|..];
    ParsedName(r);
    var r2 := ParseName(r).1[|MIDDLE|..];
    ParsedName(r2);
    assert t == HEAD + r;
    assert ParseName(r).1 == MIDDLE + r2;
    assert t == HEAD + (ParseName(r).0 + (MIDDLE + (ParseName(r2).0 + END)));
  }

  lemma AllowedIsPlain(name: string)
    requires Allowed(name)
    ensures Unescaped(name) && JsonChars(name) == name && SevenBit(name)
  {
    AllowedPrintsPlain(name);
  }

  lemma SerializeAllowed(p: Payload)
    requires Allowed(p.namespace) && Allowed(p.viewerName)
    ensures Serialize(p) == HEAD + p.namespace + MIDDLE + p.viewerName + END
    ensures SevenBit(Serialize(p))
  {
    AllowedIsPlain(p.namespace);
    AllowedIsPlain(p.viewerName);
    assert Serialize(p) == HEAD + p.namespace + MIDDLE + p.viewerName + END;
    LiteralsSevenBit();
    hide *;
    SevenBitConcat(HEAD, p.namespace, MIDDLE, p.viewerName, END);
  }

  ghost predicate SevenBit(s: string) {
    forall i :: 0 <= i < |s| ==> s[i] as int < 0x80
  }

  lemma LiteralsSevenBit()
    ensures SevenBit(HEAD) && SevenBit(MIDDLE) && SevenBit(END)
  {
  }

  lemma SevenBitConcat(a: string, b: string, c: string, d: string, e: string)
    requires SevenBit(a) && SevenBit(b) && SevenBit(c) && SevenBit(d) && SevenBit(e)
    ensures SevenBit(a + b + c + d + e)
  {
    SevenBitAppend(a, b);
    SevenBitAppend(a + b, c);
    SevenBitAppend(a + b + c, d);
    SevenBitAppend(a + b + c + d, e);
  }

  lemma SevenBitAppend(a: string, b: string)
    requires SevenBit(a) && SevenBit(b)
    ensures SevenBit(a + b)
  {
  }

  /** Serialising and reading agree in both directions on allowed names. */
  lemma JsonExactly(b: seq<byte>, p: Payload)
    requires DnsLabel(p.namespace) && DnsLabel(p.viewerName)
    ensures ParseJson(b) == Some(p) <==> b == Uri.Utf8All(Serialize(p))
  {
    AllowedIsLabel(p.namespace);
    AllowedIsLabel(p.viewerName);
    SerializeAllowed(p);
    AllowedIsPlain(p.namespace);
    AllowedIsPlain(p.viewerName);
    if b == Uri.Utf8All(Serialize(p)) {
      AsciiBytes(Serialize(p));
      ObjectReadBack(p.namespace, p.viewerName);
    }
    if ParseJson(b) == Some(p) {
      ObjectPrintedBack(AsciiText(b));
      TextOfBytes(b);
    }
  }

  lemma SplitOnce(a: string, b: string, c: char)
    requires Without(a, c) && Without(b, c)
    ensures Split(a + [c] + b, c) == [a, b]
  {
    SplitFirst(a, c, b);
    SplitFirst(b, c, "");
  }

  lemma TokenShape(p: Payload, mac: Mac)
    ensures var serialized := Uri.Utf8All(Serialize(p));
            && Uri.AllUnreserved(Token(p, mac)) && Token(p, mac) != ""
            && Split(Token(p, mac), '.') == [Base64Url.Encode(serialized), Base64Url.Encode(mac(serialized))]
            && Base64Url.Encode(serialized) != "" && Base64Url.Encode(mac(serialized)) != ""
  {
    var serialized := Uri.Utf8All(Serialize(p));
    var a, b := Base64Url.Encode(serialized), Base64Url.Encode(mac(serialized));
    assert Serialize(p)[0] == '{';
    assert serialized != [];
    Base64Url.EncodeInAlphabet(serialized);
    Base64Url.EncodeInAlphabet(mac(serialized));
    assert forall i :: 0 <= i < |a| ==> Base64Url.InAlphabet(a[i]);
    assert forall i :: 0 <= i < |b| ==> Base64Url.InAlphabet(b[i]);
    SplitOnce(a, b, '.');
  }

  lemma UnreservedHasNoSlash(s: string)
    requires Uri.AllUnreserved(s)
    ensures forall i :: 0 <= i < |s| ==> s[i] != '/' && s[i] != '%'
  {
    forall i | 0 <= i < |s| ensures s[i] != '/' && s[i] != '%' {
      assert Uri.Unreserved(s[i]);
    }
  }

  /** Minted tokens pass through URI encoding unchanged. */
  lemma TokenUnchanged(p: Payload, mac: Mac)
    ensures Uri.Encode(Token(p, mac)) == Token(p, mac)
    ensures Uri.Decode(Token(p, mac)) == Some(Token(p, mac))
  {
    var token := Token(p, mac);
    TokenShape(p, mac);
    Uri.EncodeFixed(token);
    UnreservedHasNoSlash(token);
    Uri.DecodePlain(token);
  }

  /** A request path with a token without slashes splits into that token and the rest. */
  lemma RequestSplits(prefix: string, token: string, rest: string)
    requires token != "" && forall i :: 0 <= i < |token| ==> token[i] != '/'
    requires rest == "" || rest[0] == '/'
    ensures ParseRequest(prefix, prefix + (token + rest)) == Some(Request(token, if rest == "" then "/" else rest))
  {
    var path := prefix + (token + rest);
    assert path[|prefix|..] == token + rest;
    if rest == "" {
      assert token + rest == token;
      FindNone(token, '/');
    } else {
      assert token + rest == token + ['/'] + rest[1..];
      FindAt(token, '/', rest[1..]);
      assert (token + rest)[..|token|] == token;
      assert (token + rest)[|token| + 1..] == rest[1..];
      assert ['/'] + rest[1..] == rest;
    }
  }

  /** A minted path leads back to the names it was minted for, whatever follows it and whatever the digest. */
  lemma MintedRoundTrip(p: Payload, mac: Mac, rest: string)
    requires DnsLabel(p.namespace) && DnsLabel(p.viewerName)
    ensures ParseRequest(PROXY_PREFIX, ['/'] + CreatePath(p, mac) + rest) == Some(Request(Token(p, mac), ['/'] + rest))
    ensures ParseToken(Token(p, mac), mac) == Some(p)
  {
    AllowedIsLabel(p.namespace);
    AllowedIsLabel(p.viewerName);
    MintedPathSplits(p, mac, rest);
    AcceptedExactly(Token(p, mac), p, mac);
    TokenShape(p, mac);
    TokenUnchanged(p, mac);
    Base64Url.RoundTrip(Uri.Utf8All(Serialize(p)));
  }

  lemma MintedPathSplits(p: Payload, mac: Mac, rest: string)
    ensures ParseRequest(PROXY_PREFIX, ['/'] + CreatePath(p, mac) + rest) == Some(Request(Token(p, mac), ['/'] + rest))
  {
    TokenShape(p, mac);
    TokenUnchanged(p, mac);
    UnreservedHasNoSlash(Token(p, mac));
    RequestSplits(PROXY_PREFIX, Token(p, mac), ['/'] + rest);
    AbsolutePath(PROXY_PREFIX, Token(p, mac), rest);
  }

  lemma AbsolutePath(prefix: string, token: string, rest: string)
    requires prefix != "" && prefix[0] == '/' && Uri.Encode(token) == token
    ensures ['/'] + RelativePath(prefix, token) + rest == prefix + (token + (['/'] + rest))
  {
    var tail := prefix[1..];
    assert RelativePath(prefix, token) == tail + token + ['/'];
    assert ['/'] + tail == prefix;
    hide *;
    Regroup(tail, token, ['/']);
    Regroup(['/'], tail, token + ['/']);
    Regroup(prefix, token + ['/'], rest);
    Regroup(token, ['/'], rest);
  }

  /** The decoded token consists of an encoding of `p` and the digest of `p`, and nothing that counts. */
  ghost predicate SignedFor(decoded: string, p: Payload, mac: Mac) {
    var parts := Split(decoded, '.');
    var serialized := Uri.Utf8All(Serialize(p));
    && |parts| >= 2 && (|parts| > 2 ==> parts[2] == "")
    && Base64Url.Decode(parts[0]) == serialized
    && parts[1] == Base64Url.Encode(mac(serialized))
  }

  /** A token is accepted for allowed names exactly when it carries their payload and its digest. */
  lemma AcceptedExactly(token: string, p: Payload, mac: Mac)
    ensures ParseToken(token, mac) == Some(p) <==>
            && DnsLabel(p.namespace) && DnsLabel(p.viewerName)
            && Uri.Decode(token).Some? && SignedFor(Uri.Decode(token).value, p, mac)
  {
    AllowedIsLabel(p.namespace);
    AllowedIsLabel(p.viewerName);
    if Allowed(p.namespace) && Allowed(p.viewerName) && Uri.Decode(token).Some? {
      var parts := Split(Uri.Decode(token).value, '.');
      TokenShape(p, mac);
      JsonExactly(Base64Url.Decode(parts[0]), p);
      SerializeAllowed(p);
      AsciiBytes(Serialize(p));
      assert Base64Url.Decode("") == [];
    }
  }

  /** A minted token gives back its names when both are labels, and is refused otherwise. */
  lemma MintedExactly(p: Payload, mac: Mac)
    ensures ParseToken(Token(p, mac), mac) ==
            if DnsLabel(p.namespace) && DnsLabel(p.viewerName) then Some(p) else None
  {
    AllowedIsLabel(p.namespace);
    AllowedIsLabel(p.viewerName);
    hide Allowed, DnsLabel;
    if DnsLabel(p.namespace) && DnsLabel(p.viewerName) {
      MintedRoundTrip(p, mac, "");
    } else {
      var r := ParseToken(Token(p, mac), mac);
      if r.Some? {
        var q := r.value;
        AcceptedExactly(Token(p, mac), q, mac);
        TokenShape(p, mac);
        TokenUnchanged(p, mac);
        Base64Url.RoundTrip(Uri.Utf8All(Serialize(p)));
        hide *;
        Uri.Utf8AllInjective(Serialize(p), Serialize(q));
        SerializeInjective(p, q);
      }
    }
  }

  /** The viewer of a log directory is named after a SHA-1 digest in hexadecimal: its tokens are accepted. */
  lemma ViewerAccepted(namespace: string, digest: string, mac: Mac)
    requires DnsLabel(namespace) && |digest| == 40
    requires forall i :: 0 <= i < 40 ==> '0' <= digest[i] <= '9' || 'a' <= digest[i] <= 'f'
    ensures var p := Payload(namespace, "viewer-" + digest);
            ParseToken(Token(p, mac), mac) == Some(p)
  {
    var name := "viewer-" + digest;
    assert name[|name| - 1] == digest[39];
    assert forall i :: 7 <= i < |name| ==> name[i] == digest[i - 7];
    assert DnsLabel(name);
    hide ParseToken, DnsLabel;
    MintedExactly(Payload(namespace, name), mac);
  }

  /** No token of any kind is accepted for a name that could lead the target elsewhere. */
  lemma OtherNamesRefused(name: string, p: Payload, token: string, mac: Mac)
    requires name == p.namespace || name == p.viewerName
    requires
      || name == "" || |name| > 63 || name[0] == '-' || name[|name| - 1] == '-'
      || exists i :: 0 <= i < |name| && (name[i] == '.' || name[i] == '/' || 'A' <= name[i] <= 'Z')
    ensures ParseToken(token, mac) != Some(p)
  {
    AcceptedExactly(token, p, mac);
    AllowedIsLabel(name);
    hide ParseToken, Allowed, SignedFor;
  }

  /** The path as it is handed out, below the proxy's own prefix, for names that are labels. */
  lemma MintedPathSpelled(p: Payload, mac: Mac)
    requires DnsLabel(p.namespace) && DnsLabel(p.viewerName)
    ensures
      var text := Uri.Utf8All("{\"namespace\":\"" + p.namespace + "\",\"viewerName\":\"" + p.viewerName + "\"}");
      CreatePath(p, mac) ==
        "apps/tensorboard/proxy/" + (Base64Url.Encode(text) + "." + Base64Url.Encode(mac(text))) + "/"
  {
    AllowedIsLabel(p.namespace);
    AllowedIsLabel(p.viewerName);
    SerializeAllowed(p);
    TokenUnchanged(p, mac);
    assert PROXY_PREFIX[1..] == "apps/tensorboard/proxy/";
    hide Uri.Encode, Uri.Utf8All, Base64Url.Encode, Serialize, Allowed;
  }

  /* ---- Requests that only carry the viewer in their referer ---- */

  /** `getTensorboardProxyBasePath`, from the path of the referer. */
  function BasePath(prefix: string, pathname: string): Option<string> {
    var at := IndexOf(pathname, prefix);
    if at.None? then None
    else
      var request := ParseRequest(prefix, pathname[at.value..]);
      if request.None? then None
      else Some(pathname[..at.value] + prefix + Uri.Encode(request.value.token))
  }

  /** The middleware; `exempt` holds for document navigations and for routes of the UI server itself. */
  function Rewrite(prefix: string, url: string, refererPath: Option<string>, exempt: bool): string {
    if refererPath.None? || exempt then url
    else
      var basePath := BasePath(prefix, refererPath.value);
      if basePath.None? || basePath.value == "" || IndexOf(url, prefix).Some? then url
      else basePath.value + url
  }

  lemma OccursLeft(left: string, right: string, p: string, i: nat)
    requires i + |p| <= |left|
    ensures OccursAt(left + right, p, i) <==> left[i..i + |p|] == p
  {
    SliceOfLeft(left, right, i, i + |p|);
  }

  /** The first place where the prefix occurs depends only on what comes before and on the prefix itself. */
  lemma FirstOccurrence(prefix: string, base: string, a: string, b: string)
    requires IndexOf(base + prefix + a, prefix) == Some(|base|)
    ensures IndexOf(base + prefix + b, prefix) == Some(|base|)
  {
    var left := base + prefix;
    assert left[|base|..] == prefix;
    hide IndexOf;
    OccursLeft(left, b, prefix, |base|);
    forall i | 0 <= i < |base| ensures !OccursAt(left + b, prefix, i) {
      OccursLeft(left, a, prefix, i);
      OccursLeft(left, b, prefix, i);
      assert !OccursAt(left + a, prefix, i);
    }
  }

  /** `req.path`: the URL without its query. */
  function PathOf(url: string): string {
    url[..Find(url, '?')]
  }

  function QueryOf(url: string): string {
    url[Find(url, '?')..]
  }

  /** What the proxy route reads off a request. */
  function Routed(prefix: string, url: string): Option<Request> {
    var path := PathOf(url);
    var at := IndexOf(path, prefix);
    if at.None? then None else ParseRequest(prefix, path[at.value..])
  }

  /** The path of a page below the proxy route of `token`, in a UI mounted at `base`. */
  ghost predicate RefererOf(prefix: string, base: string, token: string, tail: string) {
    && token != "" && Without(token, '/')
    && (tail == "" || tail[0] == '/')
    && Without(base + prefix, '?')
    && IndexOf(base + prefix + (token + tail), prefix) == Some(|base|)
  }

  /** A URL of this server that does not name the proxy route itself. */
  ghost predicate PlainUrl(prefix: string, url: string) {
    url != "" && url[0] == '/' && IndexOf(url, prefix).None?
  }

  lemma RefererBase(prefix: string, base: string, token: string, tail: string)
    requires RefererOf(prefix, base, token, tail)
    ensures BasePath(prefix, base + prefix + (token + tail)) == Some(base + prefix + Uri.Encode(token))
  {
    var pathname := base + prefix + (token + tail);
    assert pathname[..|base|] == base;
    assert pathname[|base|..] == prefix + (token + tail);
    RequestSplits(prefix, token, tail);
  }

  /** A query stays behind whatever is put in front of the path. */
  lemma PathBehind(front: string, url: string)
    requires Without(front, '?')
    ensures PathOf(front + url) == front + PathOf(url) && QueryOf(front + url) == QueryOf(url)
  {
    FindBehind(front, url, '?');
    var i := Find(url, '?');
    hide Find;
    assert (front + url)[..|front| + i] == front + url[..i];
    assert (front + url)[|front| + i..] == url[i..];
  }

  lemma WithoutConcat(a: string, b: string, c: char)
    requires Without(a, c) && Without(b, c)
    ensures Without(a + b, c)
  {
  }

  /** What the route reads when `encoded` and the URL follow the base path. */
  lemma RoutedBehind(prefix: string, base: string, seen: string, encoded: string, url: string)
    requires Without(base + prefix, '?') && IndexOf(base + prefix + seen, prefix) == Some(|base|)
    requires encoded != "" && Without(encoded, '/') && Without(encoded, '?')
    requires url != "" && url[0] == '/'
    ensures var rewritten := base + prefix + encoded + url;
            && Routed(prefix, rewritten) == Some(Request(encoded, PathOf(url)))
            && QueryOf(rewritten) == QueryOf(url)
            && IndexOf(rewritten, prefix) == Some(|base|)
  {
    var path := PathOf(url);
    assert path != "" && path[0] == '/';
    hide IndexOf, ParseRequest, Find, PathOf, QueryOf;
    WithoutConcat(base + prefix, encoded, '?');
    PathBehind(base + prefix + encoded, url);
    RequestSplits(prefix, encoded, path);
    FirstOccurrence(prefix, base, seen, encoded + path);
    FirstOccurrence(prefix, base, seen, encoded + url);
    AtBase(base, prefix, encoded, path);
    AtBase(base, prefix, encoded, url);
  }

  /**
    A request whose referer carries a token is routed with its own path as the path to forward
    and keeps its query; sending the result through the middleware again changes nothing.  The
    token arrives URI-encoded once more.
   */
  lemma RewriteCarriesToken(prefix: string, base: string, token: string, tail: string, url: string)
    requires prefix != "" && RefererOf(prefix, base, token, tail) && PlainUrl(prefix, url)
    ensures var referer := Some(base + prefix + (token + tail));
            var rewritten := Rewrite(prefix, url, referer, false);
            && Routed(prefix, rewritten) == Some(Request(Uri.Encode(token), PathOf(url)))
            && QueryOf(rewritten) == QueryOf(url)
            && Rewrite(prefix, rewritten, referer, false) == rewritten
    ensures Rewrite(prefix, url, None, false) == url
    ensures Rewrite(prefix, url, Some(base + prefix + (token + tail)), true) == url
  {
    var encoded := Uri.Encode(token);
    RewriteAddsBase(prefix, base, token, tail, url);
    EncodedToken(token);
    Uri.EncodeFixed(token);
    RoutedBehind(prefix, base, token + tail, encoded, url);
    hide *;
    RewriteKeepsProxied(prefix, base + prefix + encoded + url, Some(base + prefix + (token + tail)));
  }

  lemma AtBase(base: string, prefix: string, encoded: string, url: string)
    ensures base + prefix + encoded + url == base + prefix + (encoded + url)
    ensures (base + prefix + (encoded + url))[|base|..] == prefix + (encoded + url)
  {
  }

  lemma RewriteAddsBase(prefix: string, base: string, token: string, tail: string, url: string)
    requires prefix != "" && RefererOf(prefix, base, token, tail) && PlainUrl(prefix, url)
    ensures Rewrite(prefix, url, Some(base + prefix + (token + tail)), false) == base + prefix + Uri.Encode(token) + url
  {
    RefererBase(prefix, base, token, tail);
    hide BasePath, IndexOf;
    assert |base + prefix + Uri.Encode(token)| > 0;
  }

  /** A path that names the proxy route already is left alone. */
  lemma RewriteKeepsProxied(prefix: string, url: string, refererPath: Option<string>)
    requires IndexOf(url, prefix).Some?
    ensures forall exempt :: Rewrite(prefix, url, refererPath, exempt) == url
  {
  }

  /** An encoded token has no slash and no question mark. */
  lemma {:induction false} EncodedToken(token: string)
    ensures Without(Uri.Encode(token), '/') && Without(Uri.Encode(token), '?')
  {
    if token != "" {
      EncodedToken(token[1..]);
      if !Uri.Unreserved(token[0]) {
        EscapesArePlain(Uri.Utf8(token[0]));
      }
      WithoutConcat(Uri.EncodeChar(token[0]), Uri.Encode(token[1..]), '/');
      WithoutConcat(Uri.EncodeChar(token[0]), Uri.Encode(token[1..]), '?');
    }
  }

  lemma {:induction false} EscapesArePlain(b: seq<byte>)
    ensures Without(Uri.PercentAll(b), '/') && Without(Uri.PercentAll(b), '?')
  {
    if b != [] {
      EscapesArePlain(b[1..]);
      assert forall n :: 0 <= n < 16 ==> Uri.HEX[n] != '/' && Uri.HEX[n] != '?';
      WithoutConcat(Uri.Percent(b[0]), Uri.PercentAll(b[1..]), '/');
      WithoutConcat(Uri.Percent(b[0]), Uri.PercentAll(b[1..]), '?');
    }
  }

  /** The rewritten request keeps the token exactly when the token has only unreserved characters. */
  lemma RewriteExactly(prefix: string, base: string, token: string, tail: string, url: string)
    requires prefix != "" && RefererOf(prefix, base, token, tail) && PlainUrl(prefix, url)
    ensures var rewritten := Rewrite(prefix, url, Some(base + prefix + (token + tail)), false);
            Routed(prefix, rewritten) == Some(Request(token, PathOf(url))) <==> Uri.AllUnreserved(token)
  {
    RewriteCarriesToken(prefix, base, token, tail, url);
    Uri.EncodeFixed(token);
  }

  /** So a minted token survives the rewriting, and the request it leads to is accepted. */
  lemma MintedReferer(p: Payload, mac: Mac, base: string, tail: string, url: string)
    requires DnsLabel(p.namespace) && DnsLabel(p.viewerName)
    requires RefererOf(PROXY_PREFIX, base, Token(p, mac), tail) && PlainUrl(PROXY_PREFIX, url)
    ensures var rewritten := Rewrite(PROXY_PREFIX, url, Some(base + PROXY_PREFIX + (Token(p, mac) + tail)), false);
            && Routed(PROXY_PREFIX, rewritten) == Some(Request(Token(p, mac), PathOf(url)))
            && ParseToken(Token(p, mac), mac) == Some(p)
  {
    AllowedIsLabel(p.namespace);
    AllowedIsLabel(p.viewerName);
    TokenShape(p, mac);
    RewriteExactly(PROXY_PREFIX, base, Token(p, mac), tail, url);
    MintedRoundTrip(p, mac, "");
  }
}
