/**
  `container_component_dumps`: prints a value as JSON with every placeholder in quotes and
  then strips the quotes of the non-string input placeholders in the printed text.  The
  reference is a printer that looks at the types instead.
 */
module ContainerDumps {
  import opened JsonText
  import opened Sequences

  /* ---- Values ---- */

  /** Letters, digits and underscores; Python also allows letters beyond ASCII. */
  predicate IdentChar(c: char) {
    'a' <= c <= 'z' || 'A' <= c <= 'Z' || '0' <= c <= '9' || c == '_' || c as int >= 128
  }

  /** The name of a component's input is a Python identifier. */
  type Name = s: string | s != "" && forall i :: 0 <= i < |s| ==> IdentChar(s[i]) witness "x"

  /** The characters of numbers as `json.dumps` prints them; `NaN` and `Infinity` are among these. */
  predicate NumberChar(c: char) {
    || '0' <= c <= '9' || c == '+' || c == '-' || c == '.' || c == 'e'
    || c == 'N' || c == 'a' || c == 'I' || c == 'n' || c == 'f' || c == 'i' || c == 't' || c == 'y'
  }

  predicate StartsNumber(c: char) {
    '0' <= c <= '9' || c == '-' || c == 'N' || c == 'I'
  }

  predicate IsNumberText(s: string) {
    s != "" && StartsNumber(s[0]) && forall i :: 0 <= i < |s| ==> NumberChar(s[i])
  }

  /** How `json.dumps` prints a number. */
  type NumberText = s: string | IsNumberText(s) witness "0"

  datatype Field = Field(key: string, value: Json)

  /**
    `Text` also stands for every placeholder that is not an input value: those print as strings.
    A tuple prints like a list.
   */
  datatype Json =
    | Null
    | Bool(b: bool)
    | Number(text: NumberText)
    | Text(s: string)
    | Input(name: Name, isString: bool)
    | List(items: seq<Json>)
    | Tuple(items: seq<Json>)
    | Dict(fields: seq<Field>)

  /* ---- json.dumps ---- */

  function Escape(s: string): string {
    if s == "" then "" else EscapeChar(s[0]) + Escape(s[1..])
  }

  function Quote(s: string): string {
    ['"'] + Escape(s) + ['"']
  }

  const PREFIX := "{{$.inputs.parameters["
  const SUFFIX := "]}}"

  function Placeholder(k: string): string {
    PREFIX + ['\''] + k + ['\''] + SUFFIX
  }

  /** Prints `v`; a string ends up as its quoted text after the keys in `done` were unquoted. */
  function Render(v: Json, done: seq<Name>): string
    decreases v, 1
  {
    match v
    case Null => "null"
    case Bool(b) => if b then "true" else "false"
    case Number(text) => text
    case Text(s) => UnquoteAll(Quote(s), done)
    case Input(name, _) => UnquoteAll(Quote(Placeholder(name)), done)
    case List(items) => ['['] + RenderItems(items, done) + [']']
    case Tuple(items) => ['['] + RenderItems(items, done) + [']']
    case Dict(fields) => ['{'] + RenderFields(fields, done) + ['}']
  }

  function RenderItems(items: seq<Json>, done: seq<Name>): string
    decreases items, 0
  {
    if items == [] then ""
    else if |items| == 1 then Render(items[0], done)
    else Render(items[0], done) + ", " + RenderItems(items[1..], done)
  }

  function RenderField(f: Field, done: seq<Name>): string
    decreases f, 0
  {
    UnquoteAll(Quote(f.key), done) + ": " + Render(f.value, done)
  }

  function RenderFields(fields: seq<Field>, done: seq<Name>): string
    decreases fields, 0
  {
    if fields == [] then ""
    else if |fields| == 1 then RenderField(fields[0], done)
    else RenderField(fields[0], done) + ", " + RenderFields(fields[1..], done)
  }

  function JsonDumps(v: Json): string {
    Render(v, [])
  }

  /* ---- The text pass ---- */

  function PatternLength(k: string): nat {
    |PREFIX| + |k| + |SUFFIX| + 4
  }

  predicate IsQuote(c: char) {
    c == '\'' || c == '"'
  }

  /** The pattern for key `k` matches at the start of `s`; each inner quote may be of either kind. */
  predicate Matches(s: string, k: string) {
    && PatternLength(k) <= |s|
    && IsQuote(s[|PREFIX| + 1]) && IsQuote(s[|PREFIX| + |k| + 2])
    && s[..PatternLength(k)] ==
       ['"'] + PREFIX + [s[|PREFIX| + 1]] + k + [s[|PREFIX| + |k| + 2]] + SUFFIX + ['"']
  }

  /** `re.sub`: every match, from left to right, becomes the bare placeholder. */
  function Sub(s: string, k: string): string
    decreases |s|
  {
    if s == "" then ""
    else if Matches(s, k) then Placeholder(k) + Sub(s[PatternLength(k)..], k)
    else [s[0]] + Sub(s[1..], k)
  }

  function UnquoteAll(s: string, keys: seq<Name>): string {
    if keys == [] then s
    else Sub(UnquoteAll(s, keys[..|keys| - 1]), keys[|keys| - 1])
  }

  /** The names of the non-string inputs, in the order they are met; tuples are not looked into. */
  function NonStringFields(v: Json): seq<Name>
    decreases v, 1
  {
    match v
    case Input(name, isString) => if isString then [] else [name]
    case List(items) => ItemsNonStringFields(items)
    case Dict(fields) => FieldsNonStringFields(fields)
    case _ => []
  }

  function ItemsNonStringFields(items: seq<Json>): seq<Name>
    decreases items, 0
  {
    if items == [] then [] else NonStringFields(items[0]) + ItemsNonStringFields(items[1..])
  }

  function FieldsNonStringFields(fields: seq<Field>): seq<Name>
    decreases fields, 0
  {
    if fields == [] then [] else NonStringFields(fields[0].value) + FieldsNonStringFields(fields[1..])
  }

  function Dumps(v: Json): string {
    UnquoteAll(JsonDumps(v), NonStringFields(v))
  }

  class FieldCollector {
    var nonStrFields: seq<Name>

    constructor ()
      ensures nonStrFields == []
    {
      nonStrFields := [];
    }

    method Visit(v: Json)
      modifies this
      ensures nonStrFields == old(nonStrFields) + NonStringFields(v)
      decreases v
    {
      match v {
        case List(items) =>
          for i := 0 to |items|
            invariant nonStrFields + ItemsNonStringFields(items[i..]) == old(nonStrFields) + ItemsNonStringFields(items)
          {
            assert items[i..][1..] == items[i + 1..];
            ghost var before := nonStrFields;
            Visit(items[i]);
            Regroup(before, NonStringFields(items[i]), ItemsNonStringFields(items[i + 1..]));
          }
        case Dict(fields) =>
          for i := 0 to |fields|
            invariant nonStrFields + FieldsNonStringFields(fields[i..]) == old(nonStrFields) + FieldsNonStringFields(fields)
          {
            assert fields[i..][1..] == fields[i + 1..];
            ghost var before := nonStrFields;
            Visit(fields[i].value);
            Regroup(before, NonStringFields(fields[i].value), FieldsNonStringFields(fields[i + 1..]));
          }
        case Input(name, isString) =>
          if !isString {
            nonStrFields := nonStrFields + [name];
          }
        case _ =>
      }
    }
  }

  method UnquoteNonstringPlaceholders(text: string, keys: seq<Name>) returns (jsonString: string)
    ensures jsonString == UnquoteAll(text, keys)
  {
    jsonString := text;
    for i := 0 to |keys|
      invariant jsonString == UnquoteAll(text, keys[..i])
    {
      assert keys[..i + 1][..i] == keys[..i];
      jsonString := Sub(jsonString, keys[i]);
    }
    assert keys[..|keys|] == keys;
  }

  method ContainerComponentDumps(v: Json) returns (jsonString: string)
    ensures jsonString == Dumps(v)
  {
    var collector := new FieldCollector();
    collector.Visit(v);
    assert collector.nonStrFields == NonStringFields(v);
    jsonString := UnquoteNonstringPlaceholders(JsonDumps(v), collector.nonStrFields);
  }

  /* ---- Matches do not reach across the structure of the text ---- */

  ghost predicate NoStraddle(a: string, b: string, k: string) {
    forall i :: 0 <= i < |a| && Matches((a + b)[i..], k) ==> i + PatternLength(k) <= |a|
  }

  lemma MatchesPrefix(a: string, b: string, k: string)
    requires PatternLength(k) <= |a|
    ensures Matches(a, k) <==> Matches(a + b, k)
  {
    assert (a + b)[..PatternLength(k)] == a[..PatternLength(k)];
  }

  lemma NoStraddleDrop(a: string, b: string, k: string, n: nat)
    requires NoStraddle(a, b, k) && n <= |a|
    ensures NoStraddle(a[n..], b, k)
  {
    forall i | 0 <= i < |a[n..]| && Matches((a[n..] + b)[i..], k) ensures i + PatternLength(k) <= |a[n..]| {
      assert (a + b)[n + i..] == (a[n..] + b)[i..];
    }
  }

  lemma {:induction false} SubSplit(a: string, b: string, k: string)
    requires NoStraddle(a, b, k)
    ensures Sub(a + b, k) == Sub(a, k) + Sub(b, k)
    decreases |a|
  {
    hide Matches, PatternLength;
    var n := PatternLength(k);
    if a == "" {
      assert a + b == b;
    } else {
      assert (a + b)[0..] == a + b;
      if n <= |a| {
        MatchesPrefix(a, b, k);
      }
      MatchesLong(a, k);
      if Matches(a + b, k) {
        assert (a + b)[n..] == a[n..] + b;
        NoStraddleDrop(a, b, k, n);
        SubSplit(a[n..], b, k);
      } else {
        assert (a + b)[1..] == a[1..] + b;
        NoStraddleDrop(a, b, k, 1);
        SubSplit(a[1..], b, k);
      }
    }
  }

  lemma MatchesLong(s: string, k: string)
    ensures Matches(s, k) ==> 0 < PatternLength(k) <= |s|
    ensures 0 < PatternLength(k)
  {
  }

  /** What stands at each place of a match. */
  lemma MatchChars(s: string, k: Name, j: nat)
    requires Matches(s, k) && j < PatternLength(k)
    ensures s[j] != ' ' && s[j] != ',' && s[j] != ':'
    ensures j == 0 || j == PatternLength(k) - 1 ==> s[j] == '"'
    ensures 0 < j < PatternLength(k) - 1 && s[j] == '"' ==> j == |PREFIX| + 1 || j == |PREFIX| + |k| + 2
  {
    var n := PatternLength(k);
    var m := s[..n];
    assert s[j] == m[j];
    if 1 <= j <= |PREFIX| {
      assert m[j] == PREFIX[j - 1];
      assert PREFIX[j - 1] in PREFIX;
    } else if |PREFIX| + 2 <= j < |PREFIX| + 2 + |k| {
      assert m[j] == k[j - |PREFIX| - 2];
    } else if |PREFIX| + |k| + 3 <= j < n - 1 {
      assert m[j] == SUFFIX[j - |PREFIX| - |k| - 3];
    }
  }

  lemma NoStraddleFirst(c: char, b: string, k: Name)
    requires c != '"'
    ensures NoStraddle([c], b, k)
  {
    assert ([c] + b)[0..] == [c] + b;
    if Matches([c] + b, k) {
      MatchChars([c] + b, k, 0);
    }
  }

  lemma NoStraddleLast(a: string, c: char, k: Name)
    requires c != '"'
    ensures NoStraddle(a, [c], k)
  {
    var n := PatternLength(k);
    forall i | 0 <= i < |a| && Matches((a + [c])[i..], k) ensures i + n <= |a| {
      MatchChars((a + [c])[i..], k, n - 1);
      assert (a + [c])[i..][n - 1] == (a + [c])[i + n - 1];
    }
  }

  ghost predicate Separator(c: char) {
    c == ' ' || c == ',' || c == ':'
  }

  lemma MatchHasNoSeparator(s: string, i: nat, k: Name)
    requires i <= |s| && Matches(s[i..], k)
    ensures i + PatternLength(k) <= |s|
    ensures forall p :: i <= p < i + PatternLength(k) ==> !Separator(s[p])
  {
    forall p | i <= p < i + PatternLength(k) ensures !Separator(s[p]) {
      MatchChars(s[i..], k, p - i);
      assert s[i..][p - i] == s[p];
    }
  }

  lemma NoStraddleSeparator(a: string, b: string, k: Name)
    requires (a != "" && Separator(a[|a| - 1])) || (b != "" && Separator(b[0]))
    ensures NoStraddle(a, b, k)
  {
    var p := if a != "" && Separator(a[|a| - 1]) then |a| - 1 else |a|;
    assert Separator((a + b)[p]);
    forall i | 0 <= i < |a| && Matches((a + b)[i..], k) ensures i + PatternLength(k) <= |a| {
      MatchHasNoSeparator(a + b, i, k);
    }
  }

  lemma {:induction false} SubNoMatch(s: string, k: string)
    requires forall i :: 0 <= i < |s| ==> !Matches(s[i..], k)
    ensures Sub(s, k) == s
    decreases |s|
  {
    if s != "" {
      assert s[0..] == s;
      forall i | 0 <= i < |s[1..]| ensures !Matches(s[1..][i..], k) {
        assert s[1..][i..] == s[i + 1..];
      }
      SubNoMatch(s[1..], k);
    }
  }

  lemma SubNoQuote(s: string, k: Name)
    requires forall i :: 0 <= i < |s| ==> s[i] != '"'
    ensures Sub(s, k) == s
  {
    forall i | 0 <= i < |s| ensures !Matches(s[i..], k) {
      if Matches(s[i..], k) {
        MatchChars(s[i..], k, 0);
      }
    }
    SubNoMatch(s, k);
  }

  lemma SubBrackets(open: char, body: string, close: char, k: Name)
    requires open != '"' && close != '"'
    ensures Sub([open] + body + [close], k) == [open] + Sub(body, k) + [close]
  {
    assert [open] + body + [close] == [open] + (body + [close]);
    NoStraddleFirst(open, body + [close], k);
    SubSplit([open], body + [close], k);
    NoStraddleLast(body, close, k);
    SubSplit(body, [close], k);
    SubNoQuote([open], k);
    SubNoQuote([close], k);
  }

  lemma SubJoin(a: string, sep: string, b: string, k: Name)
    requires sep == ", " || sep == ": "
    ensures Sub(a + sep + b, k) == Sub(a, k) + sep + Sub(b, k)
  {
    assert a + sep + b == a + (sep + b);
    assert Separator(sep[0]) && Separator(sep[1]);
    SubNoQuote(sep, k);
    hide *;
    NoStraddleSeparator(a, sep + b, k);
    SubSplit(a, sep + b, k);
    NoStraddleSeparator(sep, b, k);
    SubSplit(sep, b, k);
    Regroup(Sub(a, k), sep, Sub(b, k));
  }

  /** Unquoting the whole text of a value is unquoting each of its strings. */
  lemma {:induction false} SubRender(v: Json, done: seq<Name>, k: Name)
    ensures Sub(Render(v, done), k) == Render(v, done + [k])
    decreases v, 1
  {
    assert (done + [k])[..|done|] == done;
    match v
    case Null => SubNoQuote("null", k);
    case Bool(b) => SubNoQuote(if b then "true" else "false", k);
    case Number(text) => SubNoQuote(text, k);
    case Text(_) =>
    case Input(_, _) =>
    case List(items) =>
      SubRenderItems(items, done, k);
      SubBrackets('[', RenderItems(items, done), ']', k);
    case Tuple(items) =>
      SubRenderItems(items, done, k);
      SubBrackets('[', RenderItems(items, done), ']', k);
    case Dict(fields) =>
      SubRenderFields(fields, done, k);
      SubBrackets('{', RenderFields(fields, done), '}', k);
  }

  lemma {:induction false} SubRenderItems(items: seq<Json>, done: seq<Name>, k: Name)
    ensures Sub(RenderItems(items, done), k) == RenderItems(items, done + [k])
    decreases items, 0
  {
    if items != [] {
      SubRender(items[0], done, k);
      if |items| > 1 {
        SubRenderItems(items[1..], done, k);
        SubJoin(Render(items[0], done), ", ", RenderItems(items[1..], done), k);
      }
    }
  }

  lemma {:induction false} SubRenderField(f: Field, done: seq<Name>, k: Name)
    ensures Sub(RenderField(f, done), k) == RenderField(f, done + [k])
    decreases f, 0
  {
    assert (done + [k])[..|done|] == done;
    SubRender(f.value, done, k);
    SubJoin(UnquoteAll(Quote(f.key), done), ": ", Render(f.value, done), k);
  }

  lemma {:induction false} SubRenderFields(fields: seq<Field>, done: seq<Name>, k: Name)
    ensures Sub(RenderFields(fields, done), k) == RenderFields(fields, done + [k])
    decreases fields, 0
  {
    if fields != [] {
      SubRenderField(fields[0], done, k);
      if |fields| > 1 {
        SubRenderFields(fields[1..], done, k);
        SubJoin(RenderField(fields[0], done), ", ", RenderFields(fields[1..], done), k);
      }
    }
  }

  lemma {:induction false} UnquoteRender(v: Json, keys: seq<Name>)
    ensures UnquoteAll(JsonDumps(v), keys) == Render(v, keys)
    decreases |keys|
  {
    if keys != [] {
      var n := |keys| - 1;
      UnquoteRender(v, keys[..n]);
      SubRender(v, keys[..n], keys[n]);
      assert keys[..n] + [keys[n]] == keys;
    }
  }

  /* ---- One string on its own ---- */

  predicate Ascii(s: string) {
    forall i :: 0 <= i < |s| ==> s[i] as int < 128
  }

  /** Every quote after the first character is escaped. */
  ghost predicate QuotesEscaped(s: string) {
    forall i :: 0 < i < |s| && s[i] == '"' ==> s[i - 1] == '\\'
  }

  /** Neither a double quote nor an opening brace. */
  predicate Inner(c: char) {
    c as int < 128 && c != '"' && c != '{'
  }

  lemma EscapeUnitShape(n: nat)
    requires n < 0x1_0000
    ensures |EscapeUnit(n)| == 6 && EscapeUnit(n)[0] == '\\'
    ensures forall i :: 0 <= i < 6 ==> Inner(EscapeUnit(n)[i])
  {
    assert forall i :: 0 <= i < |HEX| ==> Inner(HEX[i]);
  }

  /** A character that is not plain is escaped by a backslash and more. */
  lemma EscapeCharShape(c: char)
    ensures Plain(c) ==> EscapeChar(c) == [c]
    ensures !Plain(c) ==> |EscapeChar(c)| >= 2 && EscapeChar(c)[0] == '\\'
    ensures !Plain(c) && c != '"' ==> forall i :: 0 <= i < |EscapeChar(c)| ==> Inner(EscapeChar(c)[i])
    ensures c == '"' ==> EscapeChar(c) == "\\\""
  {
    hide EscapeUnit;
    if c as int < 0x1_0000 {
      EscapeUnitShape(c as int);
    } else {
      var v := c as int - 0x1_0000;
      EscapeUnitShape(0xD800 + v / 1024);
      EscapeUnitShape(0xDC00 + v % 1024);
    }
  }

  lemma {:induction false} EscapeShape(s: string)
    ensures Ascii(Escape(s)) && QuotesEscaped(Escape(s))
    ensures s != "" ==> Escape(s) != "" && Escape(s)[0] != '"'
  {
    if s != "" {
      EscapeShape(s[1..]);
      EscapeCharShape(s[0]);
      var x, t := EscapeChar(s[0]), Escape(s[1..]);
      hide EscapeChar;
      forall i | 0 < i < |x + t| && (x + t)[i] == '"' ensures (x + t)[i - 1] == '\\' {
        if i < |x| {
          assert x[i] == '"';
        } else {
          assert t[i - |x|] == '"';
        }
      }
    }
  }

  lemma {:induction false} EscapeAppend(a: string, b: string)
    ensures Escape(a + b) == Escape(a) + Escape(b)
  {
    hide EscapeChar;
    if a == "" {
      assert a + b == b;
    } else {
      EscapeAppend(a[1..], b);
      assert (a + b)[1..] == a[1..] + b;
      var x := EscapeChar(a[0]);
      assert x + (Escape(a[1..]) + Escape(b)) == (x + Escape(a[1..])) + Escape(b);
    }
  }

  ghost predicate EndsIn(s: string, y: string) {
    |y| <= |s| && s[|s| - |y|..] == y
  }

  ghost predicate AllPlain(y: string) {
    forall i :: 0 <= i < |y| ==> Plain(y[i])
  }

  lemma {:induction false} EscapePlain(s: string)
    requires AllPlain(s)
    ensures Escape(s) == s
  {
    if s != "" {
      EscapePlain(s[1..]);
    }
  }

  lemma PlaceholderPlain(k: Name)
    ensures forall i :: 0 <= i < |Placeholder(k)| ==> Placeholder(k)[i] != '"'
    ensures Ascii(k) ==> AllPlain(Placeholder(k))
    ensures Placeholder(k)[0] == '{' && |Placeholder(k)| == PatternLength(k) - 2
  {
    var p := Placeholder(k);
    assert forall i :: 0 <= i < |PREFIX| ==> Plain(PREFIX[i]);
    assert forall i :: 0 <= i < |SUFFIX| ==> Plain(SUFFIX[i]);
    forall i | 0 <= i < |p| ensures p[i] != '"' && (Ascii(k) ==> Plain(p[i])) {
      if |PREFIX| + 1 <= i < |PREFIX| + 1 + |k| {
        assert p[i] == k[i - |PREFIX| - 1];
      }
    }
  }

  /** The quoted text ends in the quoted placeholder, so the text pass will strip those quotes. */
  ghost predicate Ends(text: string, k: Name) {
    var n := PatternLength(k);
    n <= |text| && text[|text| - n..] == ['"'] + Placeholder(k) + ['"']
  }

  /** The raw string is the placeholder, or ends in a double quote followed by it. */
  ghost predicate Hits(t: string, k: Name) {
    var p := Placeholder(k);
    t == p || (|p| < |t| && t[|t| - |p| - 1..] == ['"'] + p)
  }

  /** An escape cannot be the end of a plain text that starts with a brace. */
  lemma TailNotEscape(a: string, x: string, y: string)
    requires |x| >= 2 && x[0] == '\\' && forall i :: 0 <= i < |x| ==> x[i] != '{'
    requires y != "" && y[0] == '{' && forall i :: 0 <= i < |y| ==> y[i] != '\\'
    ensures |y| <= |a + x| ==> (a + x)[|a + x| - |y|..] != y
  {
    var s := a + x;
    if |y| <= |s| {
      var tail := s[|s| - |y|..];
      if |x| <= |y| {
        assert tail[|y| - |x|] == x[0];
      } else {
        assert tail[0] == x[|x| - |y|];
      }
    }
  }

  lemma EscapeLast(t: string)
    requires t != ""
    ensures Escape(t) == Escape(t[..|t| - 1]) + EscapeChar(t[|t| - 1])
  {
    hide *;
    var front, c := t[..|t| - 1], t[|t| - 1];
    assert t == front + [c];
    EscapeAppend(front, [c]);
    EscapeOne(c);
  }

  lemma EscapeOne(c: char)
    ensures Escape([c]) == EscapeChar(c)
  {
    hide EscapeChar;
    assert [c][1..] == "" && Escape("") == "";
  }

  lemma EscapeCharNoBrace(c: char)
    requires !Plain(c)
    ensures |EscapeChar(c)| >= 2 && EscapeChar(c)[0] == '\\'
    ensures forall i :: 0 <= i < |EscapeChar(c)| ==> EscapeChar(c)[i] != '{'
  {
    EscapeCharShape(c);
    hide EscapeChar;
    if c != '"' {
      assert forall i :: 0 <= i < |EscapeChar(c)| ==> Inner(EscapeChar(c)[i]);
    }
  }

  lemma LastIsPlain(t: string, y: string)
    requires t != "" && y != "" && y[0] == '{' && AllPlain(y) && EndsIn(Escape(t), y)
    ensures Escape(t) == Escape(t[..|t| - 1]) + [t[|t| - 1]]
  {
    hide Escape, EscapeChar;
    EscapeLast(t);
    var c := t[|t| - 1];
    if Plain(c) {
      EscapeCharShape(c);
    } else {
      EscapeCharNoBrace(c);
      TailNotEscape(Escape(t[..|t| - 1]), EscapeChar(c), y);
    }
  }

  /** A tail without escapes that starts with a brace comes from the same tail of the raw string. */
  lemma {:induction false} EscapedTail(t: string, y: string)
    requires y != "" && y[0] == '{' && AllPlain(y) && EndsIn(Escape(t), y)
    ensures EndsIn(t, y)
    decreases |t|
  {
    if t != "" {
      LastIsPlain(t, y);
      hide *;
      var front := t[..|t| - 1];
      TailFront(Escape(front), t[|t| - 1], y);
      if |y| > 1 {
        PlainFront(y);
        EscapedTail(front, y[..|y| - 1]);
      }
      TailExtended(t, y);
    }
  }

  lemma PlainFront(y: string)
    requires |y| > 1 && AllPlain(y)
    ensures AllPlain(y[..|y| - 1])
  {
    hide Plain;
  }

  lemma TailFront(e: string, c: char, y: string)
    requires y != "" && EndsIn(e + [c], y)
    ensures y[|y| - 1] == c && EndsIn(e, y[..|y| - 1])
  {
    var tail := (e + [c])[|e| + 1 - |y|..];
    assert tail[|y| - 1] == c;
    assert tail[..|y| - 1] == e[|e| - (|y| - 1)..];
  }

  lemma TailExtended(t: string, y: string)
    requires t != "" && y != "" && t[|t| - 1] == y[|y| - 1]
    requires |y| > 1 ==> EndsIn(t[..|t| - 1], y[..|y| - 1])
    ensures EndsIn(t, y)
  {
    if |y| > 1 {
      assert t[|t| - |y|..] == t[..|t| - 1][|t| - |y|..] + [t[|t| - 1]];
      assert y == y[..|y| - 1] + [y[|y| - 1]];
    }
  }

  lemma EndsTail(t: string, k: Name)
    requires Ends(Quote(t), k)
    ensures var e, p := Escape(t), Placeholder(k);
            EndsIn(e, p) && (|p| < |e| ==> e[|e| - |p| - 1] == '"')
  {
    PlaceholderPlain(k);
    hide Escape, Placeholder;
    assert |Quote(t)| == |Escape(t)| + 2;
    TailInQuotes(Escape(t), Placeholder(k));
  }

  lemma TailInQuotes(e: string, p: string)
    requires |p| <= |e|
    requires (['"'] + e + ['"'])[|e| - |p|..] == ['"'] + p + ['"']
    ensures e[|e| - |p|..] == p
    ensures |p| < |e| ==> e[|e| - |p| - 1] == '"'
  {
    var text := ['"'] + e + ['"'];
    var tail := text[|e| - |p|..];
    assert tail[1..|p| + 1] == p;
    assert tail[1..|p| + 1] == text[|e| - |p| + 1..|e| + 1];
    assert text[|e| - |p| + 1..|e| + 1] == e[|e| - |p|..];
    assert tail[0] == text[|e| - |p|];
  }

  lemma AsciiName(k: Name)
    requires Ascii(Placeholder(k))
    ensures Ascii(k)
  {
    forall i | 0 <= i < |k| ensures k[i] as int < 128 {
      assert Placeholder(k)[|PREFIX| + 1 + i] == k[i];
    }
  }

  lemma TailAscii(e: string, p: string)
    requires EndsIn(e, p) && Ascii(e)
    ensures Ascii(p)
  {
    assert forall i :: 0 <= i < |p| ==> p[i] == e[|e| - |p|..][i] == e[|e| - |p| + i];
  }

  lemma EndsOnlyHits(t: string, k: Name)
    requires Ends(Quote(t), k)
    ensures Ascii(k) && Hits(t, k)
  {
    hide Escape, Placeholder, Quote, Ends, EndsIn, Ascii, QuotesEscaped, Plain;
    var p := Placeholder(k);
    EndsTail(t, k);
    EscapeShape(t);
    TailAscii(Escape(t), p);
    AsciiName(k);
    PlaceholderPlain(k);
    assert AllPlain(p);
    hide AllPlain;
    EscapedTail(t, p);
    QuoteBefore(t, p);
  }

  lemma QuoteBefore(t: string, p: string)
    requires AllPlain(p) && EndsIn(t, p)
    requires |p| < |Escape(t)| ==> Escape(t)[|Escape(t)| - |p| - 1] == '"'
    ensures t == p || (|p| < |t| && t[|t| - |p| - 1..] == ['"'] + p)
  {
    hide *;
    var u := TailSplit(t, p);
    EscapeAppend(u, p);
    EscapePlain(p);
    if u != "" {
      EscapeEndsQuote(u);
      BeforeTail(Escape(u), p);
      BeforeTail(u, p);
    }
  }

  lemma TailSplit(t: string, p: string) returns (u: string)
    requires EndsIn(t, p)
    ensures t == u + p
  {
    u := t[..|t| - |p|];
  }

  lemma BeforeTail(u: string, p: string)
    requires u != ""
    ensures (u + p)[|u + p| - |p| - 1] == u[|u| - 1]
    ensures (u + p)[|u + p| - |p| - 1..] == [u[|u| - 1]] + p
  {
  }

  /** An escaped text ends in a double quote only if the raw text does. */
  lemma EscapeEndsQuote(u: string)
    ensures u != "" ==> Escape(u) != ""
    ensures u != "" && Escape(u)[|Escape(u)| - 1] == '"' ==> u[|u| - 1] == '"'
  {
    if u != "" {
      EscapeShape(u);
      var c := u[|u| - 1];
      EscapeLast(u);
      EscapeCharShape(c);
      assert Escape(u)[|Escape(u)| - 1] == EscapeChar(c)[|EscapeChar(c)| - 1];
    }
  }

  lemma HitsEnd(t: string, k: Name)
    requires Ascii(k) && Hits(t, k)
    ensures Ends(Quote(t), k)
  {
    hide Escape, Placeholder, Ascii, AllPlain;
    var p := Placeholder(k);
    PlaceholderPlain(k);
    EscapePlain(p);
    if t == p {
      assert EndsIn(Quote(t), ['"'] + p + ['"']);
    } else {
      var f := EscapeHit(t, p);
      QuotedEnd(f, p);
    }
  }

  lemma EscapeHit(t: string, p: string) returns (f: string)
    requires |p| < |t| && t[|t| - |p| - 1..] == ['"'] + p && Escape(p) == p
    ensures f == Escape(t[..|t| - |p| - 1]) + ['\\']
    ensures Escape(t) == f + (['"'] + p)
  {
    var u := t[..|t| - |p| - 1];
    assert t == u + (['"'] + p);
    EscapeOne('"');
    EscapeCharShape('"');
    hide *;
    EscapeAppend(u, ['"'] + p);
    EscapeAppend(['"'], p);
    f := Escape(u) + ['\\'];
    assert Escape(['"']) == ['\\', '"'];
    assert Escape(u) + (['\\', '"'] + p) == f + (['"'] + p);
  }

  lemma QuotedEnd(f: string, p: string)
    ensures EndsIn(['"'] + (f + (['"'] + p)) + ['"'], ['"'] + p + ['"'])
  {
    assert ['"'] + (f + (['"'] + p)) + ['"'] == ['"'] + f + (['"'] + p + ['"']);
  }

  /** In a text all of whose quotes are escaped nothing matches. */
  lemma SubDead(s: string, k: Name)
    requires QuotesEscaped(s)
    ensures Sub(s, k) == s
  {
    forall i | 0 <= i < |s| ensures !Matches(s[i..], k) {
      if Matches(s[i..], k) {
        MatchEnd(s, i, k);
      }
    }
    SubNoMatch(s, k);
  }

  /** A match ends in a brace and an unescaped double quote. */
  lemma MatchEnd(s: string, i: nat, k: Name)
    requires i <= |s| && Matches(s[i..], k)
    ensures i + PatternLength(k) <= |s|
    ensures s[i + PatternLength(k) - 1] == '"' && s[i + PatternLength(k) - 2] == '}'
  {
    var n := PatternLength(k);
    var m := s[i..];
    assert m[..n][n - 1] == '"' && m[..n][n - 2] == SUFFIX[2];
    assert m[n - 1] == s[i + n - 1] && m[n - 2] == s[i + n - 2];
  }

  /** What stands before each inner quote of a match. */
  lemma MatchInner(s: string, i: nat, k: Name)
    requires i <= |s| && Matches(s[i..], k)
    ensures i + PatternLength(k) <= |s|
    ensures s[i + |PREFIX|] != '\\' && s[i + |PREFIX| + |k| + 1] != '\\'
    ensures s[i + |PREFIX| + 1] == '\'' && s[i + |PREFIX| + |k| + 2] == '\'' ==>
              s[i..i + PatternLength(k)] == ['"'] + Placeholder(k) + ['"']
    ensures IsQuote(s[i + |PREFIX| + 1]) && IsQuote(s[i + |PREFIX| + |k| + 2])
  {
    var m, n := s[i..], PatternLength(k);
    var a, b := |PREFIX| + 1, |PREFIX| + |k| + 2;
    assert m[..n][a - 1] == PREFIX[|PREFIX| - 1];
    assert m[..n][b - 1] == k[|k| - 1];
    assert m[a] == s[i + a] && m[a - 1] == s[i + a - 1];
    assert m[b] == s[i + b] && m[b - 1] == s[i + b - 1];
    assert s[i..i + n] == m[..n];
  }

  /** Inside the quotes of a quoted string every double quote is escaped. */
  lemma TokenQuotes(t: string)
    ensures forall j :: 0 < j < |Quote(t)| - 1 && Quote(t)[j] == '"' ==> Quote(t)[j - 1] == '\\'
  {
    var text, e := Quote(t), Escape(t);
    EscapeShape(t);
    forall j | 0 < j < |text| - 1 && text[j] == '"' ensures text[j - 1] == '\\' {
      assert e[j - 1] == text[j];
      assert j > 1 ==> e[j - 2] == text[j - 1];
    }
  }

  /** A match in a quoted string is its whole tail, with single inner quotes. */
  lemma TokenMatch(t: string, i: nat, k: Name)
    requires i <= |Quote(t)| && Matches(Quote(t)[i..], k)
    ensures i + PatternLength(k) == |Quote(t)| && Ends(Quote(t), k)
  {
    var text, n := Quote(t), PatternLength(k);
    MatchEnd(text, i, k);
    MatchInner(text, i, k);
    TokenQuotes(t);
    hide Quote, Matches, Placeholder;
    assert i + n == |text|;
    assert text[i + |PREFIX| + 1] == '\'' && text[i + |PREFIX| + |k| + 2] == '\'';
    assert text[i..i + n] == text[|text| - n..];
  }

  lemma SubTokenMiss(t: string, k: Name)
    requires !Ends(Quote(t), k)
    ensures Sub(Quote(t), k) == Quote(t)
  {
    var text := Quote(t);
    forall i | 0 <= i < |text| ensures !Matches(text[i..], k) {
      if Matches(text[i..], k) {
        TokenMatch(t, i, k);
      }
    }
    SubNoMatch(text, k);
  }

  lemma BeforeEndNoMatch(t: string, k: Name, a: string, b: string)
    requires Ends(Quote(t), k) && Quote(t) == a + b && |b| == PatternLength(k)
    ensures NoStraddle(a, b, k)
    ensures forall i :: 0 <= i < |a| ==> !Matches(a[i..], k)
  {
    hide *;
    forall i | 0 <= i < |a| ensures !Matches((a + b)[i..], k) && !Matches(a[i..], k) {
      NoMatchBefore(t, i, k, a, b);
    }
    NothingStraddles(a, b, k);
  }

  lemma NothingStraddles(a: string, b: string, k: Name)
    requires forall i :: 0 <= i < |a| ==> !Matches((a + b)[i..], k)
    ensures NoStraddle(a, b, k)
  {
    hide Matches;
  }

  lemma NoMatchBefore(t: string, i: nat, k: Name, a: string, b: string)
    requires Ends(Quote(t), k) && Quote(t) == a + b && |b| == PatternLength(k) && i < |a|
    ensures !Matches((a + b)[i..], k) && !Matches(a[i..], k)
  {
    hide Matches, Quote, PatternLength, Ends;
    assert (a + b)[i..] == a[i..] + b;
    if Matches((a + b)[i..], k) {
      TokenMatch(t, i, k);
    }
    MatchesLong(a[i..], k);
    if PatternLength(k) <= |a[i..]| {
      MatchesPrefix(a[i..], b, k);
    }
  }

  /** The text pass on one quoted string strips the final quoted placeholder. */
  lemma SubTokenHit(t: string, k: Name)
    requires Ends(Quote(t), k)
    ensures Sub(Quote(t), k) == Quote(t)[..|Quote(t)| - PatternLength(k)] + Placeholder(k)
  {
    var text, n := Quote(t), PatternLength(k);
    var a, b := text[..|text| - n], ['"'] + Placeholder(k) + ['"'];
    PlaceholderPlain(k);
    assert text == a + b;
    BeforeEndNoMatch(t, k, a, b);
    hide Sub, Matches, Quote, Placeholder;
    SubSplit(a, b, k);
    SubNoMatch(a, k);
    SubExact(k);
  }

  /** Inside, the name may stand in quotes of either kind; what replaces the match has single ones. */
  lemma EitherQuote(k: Name, q: char, r: char)
    requires (q == '\'' || q == '"') && (r == '\'' || r == '"')
    ensures Sub("\"{{$.inputs.parameters[" + [q] + k + [r] + "]}}\"", k) == "{{$.inputs.parameters['" + k + "']}}"
  {
    var open, close := "\"{{$.inputs.parameters[", "]}}\"";
    assert open == ['"'] + PREFIX && close == SUFFIX + ['"'];
    hide *;
    PlaceholderSpelled(k);
    SubPattern(k, q, r);
    Regroup(open + [q] + k + [r], SUFFIX, ['"']);
  }

  lemma SubPattern(k: Name, q: char, r: char)
    requires IsQuote(q) && IsQuote(r)
    ensures Sub(['"'] + PREFIX + [q] + k + [r] + SUFFIX + ['"'], k) == Placeholder(k)
  {
    var b := ['"'] + PREFIX + [q] + k + [r] + SUFFIX + ['"'];
    assert |b| == PatternLength(k);
    assert b[..PatternLength(k)] == b && b[PatternLength(k)..] == "";
    assert b[|PREFIX| + 1] == q && b[|PREFIX| + |k| + 2] == r;
    assert Matches(b, k);
    assert Placeholder(k) + "" == Placeholder(k);
    hide Placeholder, Matches;
  }

  /** The printed name of an input, spelled out. */
  lemma PlaceholderSpelled(k: string)
    ensures Placeholder(k) == "{{$.inputs.parameters['" + k + "']}}"
  {
    var open, close := "{{$.inputs.parameters['", "']}}";
    assert open == PREFIX + ['\''] && close == ['\''] + SUFFIX;
    Regroup(open, k, ['\'']);
    assert Placeholder(k) == open + k + close;
  }

  lemma SubExact(k: Name)
    ensures Sub(['"'] + Placeholder(k) + ['"'], k) == Placeholder(k)
  {
    SubPattern(k, '\'', '\'');
    PlaceholderParts(k);
    hide Sub, Placeholder;
  }

  lemma PlaceholderParts(k: string)
    ensures ['"'] + Placeholder(k) + ['"'] == ['"'] + PREFIX + ['\''] + k + ['\''] + SUFFIX + ['"']
  {
  }

  lemma StrippedIsDead(t: string, k: Name)
    requires Ends(Quote(t), k)
    ensures QuotesEscaped(Quote(t)[..|Quote(t)| - PatternLength(k)] + Placeholder(k))
  {
    var text, n := Quote(t), PatternLength(k);
    EscapeShape(t);
    PlaceholderPlain(k);
    var a := text[..|text| - n];
    var r := a + Placeholder(k);
    forall j | 0 < j < |r| && r[j] == '"' ensures r[j - 1] == '\\' {
      assert j < |a| && a[j] == text[j] == Escape(t)[j - 1];
      assert j > 1 && text[j - 1] == Escape(t)[j - 2];
    }
  }

  lemma EndsShape(text: string, k: Name)
    requires Ends(text, k)
    ensures text[|text| - PatternLength(k)] == '"'
    ensures forall j :: |text| - PatternLength(k) < j < |text| - 1 ==> text[j] != '"'
  {
    var n := PatternLength(k);
    PlaceholderPlain(k);
    var tail := text[|text| - n..];
    assert tail[0] == text[|text| - n];
    forall j | |text| - n < j < |text| - 1 ensures text[j] != '"' {
      assert tail[j - (|text| - n)] == text[j];
      assert tail[j - (|text| - n)] == Placeholder(k)[j - (|text| - n) - 1];
    }
  }

  lemma EndsUnique(text: string, k: Name, l: Name)
    requires Ends(text, k) && Ends(text, l)
    ensures k == l
  {
    EndsShape(text, k);
    EndsShape(text, l);
    assert PatternLength(k) == PatternLength(l);
    SamePlaceholder(k, l);
  }

  lemma SamePlaceholder(k: Name, l: Name)
    requires |k| == |l| && ['"'] + Placeholder(k) + ['"'] == ['"'] + Placeholder(l) + ['"']
    ensures k == l
  {
    var a, b := ['"'] + Placeholder(k) + ['"'], ['"'] + Placeholder(l) + ['"'];
    var w := |PREFIX| + 2;
    assert a[w..w + |k|] == k && b[w..w + |l|] == l;
  }

  lemma {:induction false} UnquoteTokenMiss(t: string, keys: seq<Name>)
    requires forall k :: k in keys ==> !Ends(Quote(t), k)
    ensures UnquoteAll(Quote(t), keys) == Quote(t)
    decreases |keys|
  {
    if keys != [] {
      var n := |keys| - 1;
      assert keys[n] in keys;
      UnquoteTokenMiss(t, keys[..n]);
      SubTokenMiss(t, keys[n]);
    }
  }

  /** After all keys, a quoted string has lost the quotes of the one placeholder it ends in. */
  lemma {:induction false} UnquoteTokenHit(t: string, keys: seq<Name>, k: Name)
    requires k in keys && Ends(Quote(t), k)
    ensures UnquoteAll(Quote(t), keys) == Quote(t)[..|Quote(t)| - PatternLength(k)] + Placeholder(k)
    decreases |keys|
  {
    var n := |keys| - 1;
    var l := keys[n];
    hide Quote, Placeholder, Sub, PatternLength, Ends;
    assert UnquoteAll(Quote(t), keys) == Sub(UnquoteAll(Quote(t), keys[..n]), l);
    hide *;
    if k in keys[..n] {
      UnquoteTokenHit(t, keys[..n], k);
      SubStripped(t, k, l);
    } else {
      assert l == k;
      OthersMiss(t, keys[..n], k);
      UnquoteTokenMiss(t, keys[..n]);
      SubTokenHit(t, k);
    }
  }

  lemma SubStripped(t: string, k: Name, l: Name)
    requires Ends(Quote(t), k)
    ensures var stripped := Quote(t)[..|Quote(t)| - PatternLength(k)] + Placeholder(k);
            Sub(stripped, l) == stripped
  {
    StrippedIsDead(t, k);
    SubDead(Quote(t)[..|Quote(t)| - PatternLength(k)] + Placeholder(k), l);
  }

  lemma OthersMiss(t: string, keys: seq<Name>, k: Name)
    requires k !in keys && Ends(Quote(t), k)
    ensures forall j :: j in keys ==> !Ends(Quote(t), j)
  {
    forall j | j in keys ensures !Ends(Quote(t), j) {
      if Ends(Quote(t), j) {
        EndsUnique(Quote(t), j, k);
      }
    }
  }

  /* ---- The printer that looks at types ---- */

  function TypedPrint(v: Json): string
    decreases v, 1
  {
    match v
    case Null => "null"
    case Bool(b) => if b then "true" else "false"
    case Number(text) => text
    case Text(s) => Quote(s)
    case Input(name, isString) => if isString then Quote(Placeholder(name)) else Placeholder(name)
    case List(items) => ['['] + TypedPrintItems(items) + [']']
    case Tuple(items) => ['['] + TypedPrintItems(items) + [']']
    case Dict(fields) => ['{'] + TypedPrintFields(fields) + ['}']
  }

  function TypedPrintItems(items: seq<Json>): string
    decreases items, 0
  {
    if items == [] then ""
    else if |items| == 1 then TypedPrint(items[0])
    else TypedPrint(items[0]) + ", " + TypedPrintItems(items[1..])
  }

  function TypedPrintField(f: Field): string
    decreases f, 0
  {
    Quote(f.key) + ": " + TypedPrint(f.value)
  }

  function TypedPrintFields(fields: seq<Field>): string
    decreases fields, 0
  {
    if fields == [] then ""
    else if |fields| == 1 then TypedPrintField(fields[0])
    else TypedPrintField(fields[0]) + ", " + TypedPrintFields(fields[1..])
  }

  /* ---- When the two printers agree ---- */

  ghost predicate Free(t: string, keys: seq<Name>) {
    forall k :: k in keys ==> !Hits(t, k)
  }

  /** No string, dictionary key or string input can be mistaken for one of the placeholders. */
  ghost predicate CollisionFree(v: Json, keys: seq<Name>)
    decreases v, 1
  {
    match v
    case Text(s) => Free(s, keys)
    case Input(name, isString) => isString ==> Free(Placeholder(name), keys)
    case List(items) => ItemsCollisionFree(items, keys)
    case Tuple(items) => ItemsCollisionFree(items, keys)
    case Dict(fields) => FieldsCollisionFree(fields, keys)
    case _ => true
  }

  ghost predicate ItemsCollisionFree(items: seq<Json>, keys: seq<Name>)
    decreases items, 0
  {
    items == [] || (CollisionFree(items[0], keys) && ItemsCollisionFree(items[1..], keys))
  }

  ghost predicate FieldsCollisionFree(fields: seq<Field>, keys: seq<Name>)
    decreases fields, 0
  {
    fields == [] || (
      Free(fields[0].key, keys) && CollisionFree(fields[0].value, keys) && FieldsCollisionFree(fields[1..], keys))
  }

  ghost predicate AllAscii(keys: seq<Name>) {
    forall k :: k in keys ==> Ascii(k)
  }

  /** The names of all non-string inputs, in tuples as well. */
  function PlaceholderNames(v: Json): seq<Name>
    decreases v, 1
  {
    match v
    case Input(name, isString) => if isString then [] else [name]
    case List(items) => ItemsPlaceholderNames(items)
    case Tuple(items) => ItemsPlaceholderNames(items)
    case Dict(fields) => FieldsPlaceholderNames(fields)
    case _ => []
  }

  function ItemsPlaceholderNames(items: seq<Json>): seq<Name>
    decreases items, 0
  {
    if items == [] then [] else PlaceholderNames(items[0]) + ItemsPlaceholderNames(items[1..])
  }

  function FieldsPlaceholderNames(fields: seq<Field>): seq<Name>
    decreases fields, 0
  {
    if fields == [] then [] else PlaceholderNames(fields[0].value) + FieldsPlaceholderNames(fields[1..])
  }

  ghost predicate AllIn(names: seq<Name>, keys: seq<Name>) {
    forall k :: k in names ==> k in keys
  }

  lemma AllInConcat(a: seq<Name>, b: seq<Name>, keys: seq<Name>)
    ensures AllIn(a + b, keys) <==> AllIn(a, keys) && AllIn(b, keys)
  {
    assert forall k :: k in a + b <==> k in a || k in b;
  }

  /** The two texts are the same, or they already differ where both go on. */
  ghost predicate SameOrDiverge(good: bool, a: string, b: string) {
    && (good ==> a == b)
    && (!good ==> exists i :: 0 <= i < |a| && i < |b| && a[i] != b[i])
  }

  /** So whatever follows cannot make up for a difference. */
  lemma DivergeConcat(g: bool, a: string, b: string, h: bool, x: string, y: string)
    requires SameOrDiverge(g, a, b) && SameOrDiverge(h, x, y)
    ensures SameOrDiverge(g && h, a + x, b + y)
  {
    if !g {
      var i :| 0 <= i < |a| && i < |b| && a[i] != b[i];
      assert (a + x)[i] != (b + y)[i];
    } else if !h {
      var i :| 0 <= i < |x| && i < |y| && x[i] != y[i];
      assert (a + x)[|a| + i] != (b + y)[|b| + i];
    }
  }

  lemma DivergeBrackets(open: char, g: bool, a: string, b: string, close: char)
    requires SameOrDiverge(g, a, b)
    ensures SameOrDiverge(g, [open] + a + [close], [open] + b + [close])
  {
    DivergeConcat(true, [open], [open], g, a, b);
    DivergeConcat(g, [open] + a, [open] + b, true, [close], [close]);
  }

  lemma DivergeJoin(g: bool, a: string, b: string, sep: string, h: bool, x: string, y: string)
    requires SameOrDiverge(g, a, b) && SameOrDiverge(h, x, y)
    ensures SameOrDiverge(g && h, a + sep + x, b + sep + y)
  {
    DivergeConcat(g, a, b, true, sep, sep);
    DivergeConcat(g, a + sep, b + sep, h, x, y);
  }

  lemma QuotedAgrees(t: string, keys: seq<Name>)
    requires AllAscii(keys)
    ensures SameOrDiverge(Free(t, keys), UnquoteAll(Quote(t), keys), Quote(t))
  {
    if Free(t, keys) {
      forall k | k in keys ensures !Ends(Quote(t), k) {
        if Ends(Quote(t), k) {
          EndsOnlyHits(t, k);
        }
      }
      UnquoteTokenMiss(t, keys);
    } else {
      var k :| k in keys && Hits(t, k);
      HitsEnd(t, k);
      UnquoteTokenHit(t, keys, k);
      PlaceholderPlain(k);
      EndsShape(Quote(t), k);
      var i := |Quote(t)| - PatternLength(k);
      assert UnquoteAll(Quote(t), keys)[i] == Placeholder(k)[0];
      assert Quote(t)[i] == '"';
    }
  }

  lemma BareAgrees(k: Name, keys: seq<Name>)
    requires AllAscii(keys)
    ensures SameOrDiverge(k in keys, UnquoteAll(Quote(Placeholder(k)), keys), Placeholder(k))
  {
    PlaceholderPlain(k);
    if k in keys {
      HitsEnd(Placeholder(k), k);
      EscapePlain(Placeholder(k));
      UnquoteTokenHit(Placeholder(k), keys, k);
    } else {
      forall l | l in keys ensures !Ends(Quote(Placeholder(k)), l) {
        if Ends(Quote(Placeholder(k)), l) {
          EndsOnlyHits(Placeholder(k), l);
          HitsOther(k, l);
        }
      }
      UnquoteTokenMiss(Placeholder(k), keys);
      assert UnquoteAll(Quote(Placeholder(k)), keys)[0] == '"';
    }
  }

  /** One placeholder hits only its own name. */
  lemma HitsOther(k: Name, l: Name)
    requires Hits(Placeholder(k), l)
    ensures k == l
  {
    PlaceholderPlain(k);
    PlaceholderPlain(l);
    NoQuoteTail(Placeholder(k), Placeholder(l));
    SamePlaceholder(k, l);
  }

  lemma NoQuoteTail(p: string, q: string)
    requires forall i :: 0 <= i < |p| ==> p[i] != '"'
    ensures |q| < |p| ==> p[|p| - |q| - 1..] != ['"'] + q
  {
    assert |q| < |p| ==> p[|p| - |q| - 1..][0] == p[|p| - |q| - 1];
  }

  lemma {:induction false} RenderAgrees(v: Json, keys: seq<Name>)
    requires AllAscii(keys)
    ensures SameOrDiverge(CollisionFree(v, keys) && AllIn(PlaceholderNames(v), keys), Render(v, keys), TypedPrint(v))
    decreases v, 1
  {
    match v
    case Text(s) => QuotedAgrees(s, keys);
    case Input(name, isString) =>
      if isString {
        QuotedAgrees(Placeholder(name), keys);
      } else {
        BareAgrees(name, keys);
        assert AllIn([name], keys) <==> name in keys;
      }
    case List(items) =>
      ItemsAgree(items, keys);
      DivergeBrackets('[', ItemsCollisionFree(items, keys) && AllIn(ItemsPlaceholderNames(items), keys),
                      RenderItems(items, keys), TypedPrintItems(items), ']');
    case Tuple(items) =>
      ItemsAgree(items, keys);
      DivergeBrackets('[', ItemsCollisionFree(items, keys) && AllIn(ItemsPlaceholderNames(items), keys),
                      RenderItems(items, keys), TypedPrintItems(items), ']');
    case Dict(fields) =>
      FieldsAgree(fields, keys);
      DivergeBrackets('{', FieldsCollisionFree(fields, keys) && AllIn(FieldsPlaceholderNames(fields), keys),
                      RenderFields(fields, keys), TypedPrintFields(fields), '}');
    case _ =>
  }

  lemma {:induction false} ItemsAgree(items: seq<Json>, keys: seq<Name>)
    requires AllAscii(keys)
    ensures SameOrDiverge(ItemsCollisionFree(items, keys) && AllIn(ItemsPlaceholderNames(items), keys),
                          RenderItems(items, keys), TypedPrintItems(items))
    decreases items, 0
  {
    if items != [] {
      RenderAgrees(items[0], keys);
      ItemsAgree(items[1..], keys);
      AllInConcat(PlaceholderNames(items[0]), ItemsPlaceholderNames(items[1..]), keys);
      if |items| > 1 {
        DivergeJoin(CollisionFree(items[0], keys) && AllIn(PlaceholderNames(items[0]), keys),
                    Render(items[0], keys), TypedPrint(items[0]), ", ",
                    ItemsCollisionFree(items[1..], keys) && AllIn(ItemsPlaceholderNames(items[1..]), keys),
                    RenderItems(items[1..], keys), TypedPrintItems(items[1..]));
      }
    }
  }

  lemma FieldAgrees(f: Field, keys: seq<Name>)
    requires AllAscii(keys)
    requires SameOrDiverge(CollisionFree(f.value, keys) && AllIn(PlaceholderNames(f.value), keys),
                           Render(f.value, keys), TypedPrint(f.value))
    ensures SameOrDiverge(Free(f.key, keys) && CollisionFree(f.value, keys) && AllIn(PlaceholderNames(f.value), keys),
                          RenderField(f, keys), TypedPrintField(f))
  {
    QuotedAgrees(f.key, keys);
    hide Free, AllIn, CollisionFree, UnquoteAll, Quote, Render, TypedPrint;
    DivergeJoin(Free(f.key, keys), UnquoteAll(Quote(f.key), keys), Quote(f.key), ": ",
                CollisionFree(f.value, keys) && AllIn(PlaceholderNames(f.value), keys),
                Render(f.value, keys), TypedPrint(f.value));
  }

  lemma {:induction false} FieldsAgree(fields: seq<Field>, keys: seq<Name>)
    requires AllAscii(keys)
    ensures SameOrDiverge(FieldsCollisionFree(fields, keys) && AllIn(FieldsPlaceholderNames(fields), keys),
                          RenderFields(fields, keys), TypedPrintFields(fields))
    decreases fields, 0
  {
    if fields != [] {
      RenderAgrees(fields[0].value, keys);
      FieldAgrees(fields[0], keys);
      FieldsAgree(fields[1..], keys);
      AllInConcat(PlaceholderNames(fields[0].value), FieldsPlaceholderNames(fields[1..]), keys);
      if |fields| > 1 {
        DivergeJoin(Free(fields[0].key, keys) && CollisionFree(fields[0].value, keys)
                      && AllIn(PlaceholderNames(fields[0].value), keys),
                    RenderField(fields[0], keys), TypedPrintField(fields[0]), ", ",
                    FieldsCollisionFree(fields[1..], keys) && AllIn(FieldsPlaceholderNames(fields[1..]), keys),
                    RenderFields(fields[1..], keys), TypedPrintFields(fields[1..]));
      }
    }
  }

  /* ---- Names beyond ASCII ---- */

  lemma AsciiConcat(a: string, b: string)
    ensures Ascii(a + b) <==> Ascii(a) && Ascii(b)
  {
    assert forall i :: 0 <= i < |a| ==> (a + b)[i] == a[i];
    assert forall i :: 0 <= i < |b| ==> (a + b)[|a| + i] == b[i];
  }

  lemma UnquotedAscii(t: string, keys: seq<Name>)
    ensures Ascii(UnquoteAll(Quote(t), keys))
  {
    EscapeShape(t);
    AsciiConcat(['"'] + Escape(t), ['"']);
    AsciiConcat(['"'], Escape(t));
    if k :| k in keys && Ends(Quote(t), k) {
      UnquoteTokenHit(t, keys, k);
      EndsOnlyHits(t, k);
      PlaceholderPlain(k);
      AsciiConcat(Quote(t)[..|Quote(t)| - PatternLength(k)], Placeholder(k));
    } else {
      UnquoteTokenMiss(t, keys);
    }
  }

  /** Whatever the names are, the printed text is ASCII. */
  lemma {:induction false} RenderAscii(v: Json, keys: seq<Name>)
    ensures Ascii(Render(v, keys))
    decreases v, 1
  {
    match v
    case Text(s) => UnquotedAscii(s, keys);
    case Input(name, _) => UnquotedAscii(Placeholder(name), keys);
    case List(items) => ItemsAscii(items, keys);
    case Tuple(items) => ItemsAscii(items, keys);
    case Dict(fields) => FieldsAscii(fields, keys);
    case _ =>
  }

  lemma {:induction false} ItemsAscii(items: seq<Json>, keys: seq<Name>)
    ensures Ascii(RenderItems(items, keys))
    decreases items, 0
  {
    if items != [] {
      RenderAscii(items[0], keys);
      ItemsAscii(items[1..], keys);
    }
  }

  lemma {:induction false} FieldsAscii(fields: seq<Field>, keys: seq<Name>)
    ensures Ascii(RenderFields(fields, keys))
    decreases fields, 0
  {
    if fields != [] {
      UnquotedAscii(fields[0].key, keys);
      RenderAscii(fields[0].value, keys);
      FieldsAscii(fields[1..], keys);
    }
  }

  lemma AllAsciiConcat(a: seq<Name>, b: seq<Name>)
    requires AllAscii(a) && AllAscii(b)
    ensures AllAscii(a + b)
  {
    hide Ascii;
    assert forall k :: k in a + b <==> k in a || k in b;
  }

  lemma AsciiBrackets(open: char, body: string, close: char)
    requires Ascii([open] + body + [close])
    ensures Ascii(body)
  {
    AsciiConcat([open] + body, [close]);
    AsciiConcat([open], body);
  }

  lemma AsciiJoin(a: string, sep: string, b: string)
    requires Ascii(a + sep + b)
    ensures Ascii(a) && Ascii(b)
  {
    AsciiConcat(a + sep, b);
    AsciiConcat(a, sep);
  }

  /** A bare placeholder shows its name as it is. */
  lemma {:induction false} TypedPrintAscii(v: Json)
    requires Ascii(TypedPrint(v))
    ensures AllAscii(PlaceholderNames(v))
    decreases v, 1
  {
    match v
    case Input(name, isString) =>
      if !isString {
        AsciiName(name);
      }
    case List(items) =>
      AsciiBrackets('[', TypedPrintItems(items), ']');
      TypedItemsAscii(items);
    case Tuple(items) =>
      AsciiBrackets('[', TypedPrintItems(items), ']');
      TypedItemsAscii(items);
    case Dict(fields) =>
      AsciiBrackets('{', TypedPrintFields(fields), '}');
      TypedFieldsAscii(fields);
    case _ =>
  }

  lemma {:induction false} TypedItemsAscii(items: seq<Json>)
    requires Ascii(TypedPrintItems(items))
    ensures AllAscii(ItemsPlaceholderNames(items))
    decreases items, 0
  {
    if items != [] {
      hide Ascii, AllAscii;
      if |items| > 1 {
        AsciiJoin(TypedPrint(items[0]), ", ", TypedPrintItems(items[1..]));
      } else {
        assert TypedPrintItems(items[1..]) == "";
        NothingAscii();
      }
      TypedPrintAscii(items[0]);
      TypedItemsAscii(items[1..]);
      AllAsciiConcat(PlaceholderNames(items[0]), ItemsPlaceholderNames(items[1..]));
    } else {
      assert ItemsPlaceholderNames(items) == [];
    }
  }

  lemma NothingAscii()
    ensures Ascii("")
  {
  }

  lemma TypedFieldAscii(f: Field)
    requires Ascii(TypedPrintField(f))
    ensures Ascii(TypedPrint(f.value))
  {
    hide Ascii, Quote, TypedPrint;
    AsciiJoin(Quote(f.key), ": ", TypedPrint(f.value));
  }

  lemma {:induction false} TypedFieldsAscii(fields: seq<Field>)
    requires Ascii(TypedPrintFields(fields))
    ensures AllAscii(FieldsPlaceholderNames(fields))
    decreases fields, 0
  {
    if fields != [] {
      hide Ascii, AllAscii;
      if |fields| > 1 {
        AsciiJoin(TypedPrintField(fields[0]), ", ", TypedPrintFields(fields[1..]));
      } else {
        assert TypedPrintFields(fields[1..]) == "";
        NothingAscii();
      }
      TypedFieldAscii(fields[0]);
      TypedPrintAscii(fields[0].value);
      TypedFieldsAscii(fields[1..]);
      AllAsciiConcat(PlaceholderNames(fields[0].value), FieldsPlaceholderNames(fields[1..]));
    } else {
      assert FieldsPlaceholderNames(fields) == [];
    }
  }

  /** What the walk collects are some of the names. */
  lemma {:induction false} CollectedNames(v: Json)
    ensures AllIn(NonStringFields(v), PlaceholderNames(v))
    decreases v, 1
  {
    match v
    case List(items) => ItemsCollectedNames(items);
    case Dict(fields) => FieldsCollectedNames(fields);
    case _ =>
  }

  lemma {:induction false} ItemsCollectedNames(items: seq<Json>)
    ensures AllIn(ItemsNonStringFields(items), ItemsPlaceholderNames(items))
    decreases items, 0
  {
    if items != [] {
      CollectedNames(items[0]);
      ItemsCollectedNames(items[1..]);
    }
  }

  lemma {:induction false} FieldsCollectedNames(fields: seq<Field>)
    ensures AllIn(FieldsNonStringFields(fields), FieldsPlaceholderNames(fields))
    decreases fields, 0
  {
    if fields != [] {
      CollectedNames(fields[0].value);
      FieldsCollectedNames(fields[1..]);
    }
  }

  /**
    The text pass does what the types ask for in exactly these cases: the names collected are
    ASCII, no other string can be mistaken for one of them, and every name was collected,
    which fails for a name that occurs in tuples only.
   */
  lemma DumpsExactly(v: Json)
    ensures var keys := NonStringFields(v);
            Dumps(v) == TypedPrint(v) <==>
            AllAscii(keys) && CollisionFree(v, keys) && AllIn(PlaceholderNames(v), keys)
  {
    var keys := NonStringFields(v);
    UnquoteRender(v, keys);
    if AllAscii(keys) {
      RenderAgrees(v, keys);
    } else {
      RenderAscii(v, keys);
      CollectedNames(v);
      if Ascii(TypedPrint(v)) {
        TypedPrintAscii(v);
      }
    }
  }

  /** A non-string input that occurs in a tuple only keeps its quotes. */
  lemma TupleMissed(k: Name)
    ensures Dumps(Tuple([Input(k, false)])) != TypedPrint(Tuple([Input(k, false)]))
  {
    var v := Tuple([Input(k, false)]);
    DumpsExactly(v);
    hide Dumps, TypedPrint, CollisionFree;
    assert PlaceholderNames(v.items[0]) == [k] && ItemsPlaceholderNames([]) == [];
    assert v.items[1..] == [] && PlaceholderNames(v) == [k] + [];
    assert k in PlaceholderNames(v) && NonStringFields(v) == [];
  }

  lemma ExampleFields(literal: string)
    ensures NonStringFields(List([Text(literal), Input("k", false)])) == ["k"]
  {
    var items := [Text(literal), Input("k", false)];
    assert items[1..] == [Input("k", false)] && items[1..][1..] == [];
    assert NonStringFields(items[0]) == [];
    assert NonStringFields(items[1]) == ["k"];
    assert ItemsNonStringFields(items[1..]) == ["k"] + [];
  }

  /** A literal that is no placeholder's text, but ends in a double quote and one, is damaged. */
  lemma LiteralDamaged()
    ensures var literal := ['"'] + Placeholder("k");
            && literal != Placeholder("k")
            && Dumps(List([Text(literal), Input("k", false)])) != TypedPrint(List([Text(literal), Input("k", false)]))
  {
    var literal := ['"'] + Placeholder("k");
    var items := [Text(literal), Input("k", false)];
    ExampleFields(literal);
    assert Hits(literal, "k") by {
      assert literal[|literal| - |Placeholder("k")| - 1..] == literal;
    }
    hide Placeholder, Hits, NonStringFields, Dumps, TypedPrint;
    assert "k" in ["k"];
    assert !CollisionFree(items[0], ["k"]);
    DumpsExactly(List(items));
  }

  /* ---- A string input beside another one ---- */

  lemma PlainIsFree(t: string, k: Name)
    requires AllPlain(t) && t != Placeholder(k)
    ensures Free(t, [k])
  {
    hide Placeholder;
    var p := Placeholder(k);
    assert |p| < |t| ==> t[|t| - |p| - 1..][0] == t[|t| - |p| - 1];
  }

  lemma TwoFieldsText(f: Field, g: Field)
    ensures TypedPrint(Dict([f, g])) == "{" + TypedPrintField(f) + ", " + TypedPrintField(g) + "}"
  {
    hide TypedPrintField;
    TwoFieldsBody(f, g);
    hide TypedPrintFields;
    assert TypedPrint(Dict([f, g])) == ['{'] + TypedPrintFields([f, g]) + ['}'];
    hide TypedPrint;
    var a, b := TypedPrintField(f), TypedPrintField(g);
    assert "{" + a + ", " + b == ['{'] + (a + ", " + b);
  }

  lemma TwoFieldsBody(f: Field, g: Field)
    ensures TypedPrintFields([f, g]) == TypedPrintField(f) + ", " + TypedPrintField(g)
  {
    hide TypedPrintField;
    assert [f, g][1..] == [g];
    assert TypedPrintFields([g]) == TypedPrintField(g);
  }

  lemma TwoFieldsNames(f: Field, g: Field)
    ensures NonStringFields(Dict([f, g])) == NonStringFields(f.value) + NonStringFields(g.value)
    ensures PlaceholderNames(Dict([f, g])) == PlaceholderNames(f.value) + PlaceholderNames(g.value)
  {
    var fields := [f, g];
    assert fields[1..] == [g] && [g][1..] == [];
    assert FieldsNonStringFields([g]) == NonStringFields(g.value) + FieldsNonStringFields([]);
    assert FieldsPlaceholderNames([g]) == PlaceholderNames(g.value) + FieldsPlaceholderNames([]);
  }

  lemma TwoFieldsFree(f: Field, g: Field, keys: seq<Name>)
    requires Free(f.key, keys) && CollisionFree(f.value, keys) && Free(g.key, keys) && CollisionFree(g.value, keys)
    ensures CollisionFree(Dict([f, g]), keys)
  {
    var fields := [f, g];
    assert fields[1..] == [g] && [g][1..] == [];
    hide Free;
    assert FieldsCollisionFree([g], keys);
  }

  lemma PlainQuote(s: string)
    requires AllPlain(s)
    ensures Quote(s) == "\"" + s + "\""
  {
    EscapePlain(s);
  }

  lemma StringInputText(a: string, k: Name)
    requires AllPlain(a) && Ascii(k)
    ensures TypedPrintField(Field(a, Input(k, true))) == "\"" + a + "\": \"" + Placeholder(k) + "\""
  {
    PlaceholderPlain(k);
    PlainQuote(a);
    PlainQuote(Placeholder(k));
    assert TypedPrintField(Field(a, Input(k, true))) == Quote(a) + ": " + Quote(Placeholder(k));
    hide *;
    QuotedPair(a, Placeholder(k));
  }

  lemma QuotedPair(a: string, b: string)
    ensures ("\"" + a + "\"") + ": " + ("\"" + b + "\"") == "\"" + a + "\": \"" + b + "\""
  {
  }

  lemma OtherInputText(b: string, l: Name)
    requires AllPlain(b)
    ensures TypedPrintField(Field(b, Input(l, false))) == "\"" + b + "\": " + Placeholder(l)
  {
    PlainQuote(b);
    assert TypedPrintField(Field(b, Input(l, false))) == Quote(b) + ": " + Placeholder(l);
    hide *;
    assert "\"" + b + "\"" + ": " == "\"" + b + "\": ";
  }

  /** A string input keeps its quotes, and an input that is no string loses them. */
  lemma DocumentedExample(a: string, k: Name, b: string, l: Name)
    requires AllPlain(a) && AllPlain(b) && Ascii(k) && Ascii(l) && k != l
    requires a != Placeholder(l) && b != Placeholder(l)
    ensures Dumps(Dict([Field(a, Input(k, true)), Field(b, Input(l, false))])) ==
            "{" + ("\"" + a + "\": \"" + Placeholder(k) + "\"") + ", " + ("\"" + b + "\": " + Placeholder(l)) + "}"
  {
    var f, g := Field(a, Input(k, true)), Field(b, Input(l, false));
    TwoFieldsNames(f, g);
    TwoFieldsText(f, g);
    PlaceholderPlain(k);
    ExampleNames(k, l);
    PlainIsFree(a, l);
    PlainIsFree(b, l);
    if Placeholder(k) == Placeholder(l) {
      PlaceholderPlain(l);
      SamePlaceholder(k, l);
    }
    PlainIsFree(Placeholder(k), l);
    assert CollisionFree(f.value, [l]) && CollisionFree(g.value, [l]);
    hide *;
    TwoFieldsFree(f, g, [l]);
    DumpsExactly(Dict([f, g]));
    StringInputText(a, k);
    OtherInputText(b, l);
    OneName(l);
  }

  lemma ExampleNames(k: Name, l: Name)
    ensures NonStringFields(Input(k, true)) == [] && NonStringFields(Input(l, false)) == [l]
    ensures PlaceholderNames(Input(k, true)) == [] && PlaceholderNames(Input(l, false)) == [l]
    ensures [] + [l] == [l]
  {
  }

  lemma OneName(l: Name)
    requires Ascii(l)
    ensures AllAscii([l]) && AllIn([l], [l])
  {
  }
}
