/**
  What the printed text of a value says: a reader of JSON in which the bare placeholder of an
  input is a value too.  Reading the text of the type-directed printer gives the value back,
  and so does reading what `container_component_dumps` prints, exactly when the two are the same.
 */
module ContainerJson {
  import opened Wrappers
  import opened Sequences
  import opened Strings
  import opened JsonText
  import opened ContainerDumps

  /* ---- Reading ---- */

  /** White space of JSON. */
  predicate Space(c: char) {
    c == ' ' || c == '\t' || c == '\n' || c == '\r'
  }

  function Skip(t: string): (r: string)
    ensures |r| <= |t|
  {
    if t != "" && Space(t[0]) then Skip(t[1..]) else t
  }

  /** The length of the longest piece of number characters at the start. */
  function NumberLength(t: string): (n: nat)
    ensures n <= |t| && forall i :: 0 <= i < n ==> NumberChar(t[i])
    ensures n < |t| ==> !NumberChar(t[n])
  {
    if t != "" && NumberChar(t[0]) then 1 + NumberLength(t[1..]) else 0
  }

  predicate IsName(s: string) {
    s != "" && forall i :: 0 <= i < |s| ==> IdentChar(s[i])
  }

  /** Every Python identifier of ASCII letters, digits and underscores, and any text beyond ASCII, is a name. */
  lemma NamesSpelled(s: string)
    requires s != "" && forall i :: 0 <= i < |s| ==>
      'a' <= s[i] <= 'z' || 'A' <= s[i] <= 'Z' || '0' <= s[i] <= '9' || s[i] == '_' || s[i] > '\U{7F}'
    ensures IsName(s)
  {
  }

  /** Integers, decimals, exponents and the three texts that are no numbers of JSON print as numbers. */
  lemma NumbersSpelled(s: string)
    requires
      || s == "NaN" || s == "Infinity" || s == "-Infinity"
      || (s != "" && (s[0] == '-' || '0' <= s[0] <= '9')
          && forall i :: 0 <= i < |s| ==>
               '0' <= s[i] <= '9' || s[i] == '.' || s[i] == 'e' || s[i] == '-' || s[i] == '+')
    ensures IsNumberText(s)
  {
  }

  const OPEN := "{{$.inputs.parameters['"
  const CLOSE := "']}}"

  /** What follows the opening of a bare placeholder. */
  function ReadInput(t: string): (r: Option<(Json, string)>)
    ensures r.Some? ==> |r.value.1| <= |t|
  {
    var i := Find(t, '\'');
    if !IsName(t[..i]) || !(CLOSE <= t[i..]) then None
    else Some((Input(t[..i], false), t[i + |CLOSE|..]))
  }

  function ReadValue(t: string): (r: Option<(Json, string)>)
    ensures r.Some? ==> |r.value.1| < |t|
    decreases |t|, 1
  {
    ReadAt(Skip(t))
  }

  /** A value that starts right here. */
  function ReadAt(s: string): (r: Option<(Json, string)>)
    ensures r.Some? ==> |r.value.1| < |s|
    decreases |s|, 0
  {
    if s == "" then None
    else if s[0] == '"' then Worded(ReadText(s[1..]))
    else if OPEN <= s then ReadInput(s[|OPEN|..])
    else if s[0] == '[' then ReadList(Skip(s[1..]))
    else if s[0] == '{' then ReadDict(Skip(s[1..]))
    else ReadAtom(s)
  }

  function Worded(x: Option<(string, string)>): Option<(Json, string)> {
    if x.None? then None else Some((Text(x.value.0), x.value.1))
  }

  function ReadAtom(s: string): (r: Option<(Json, string)>)
    requires s != ""
    ensures r.Some? ==> |r.value.1| < |s|
  {
    if "null" <= s then Some((Null, s[4..]))
    else if "true" <= s then Some((Bool(true), s[4..]))
    else if "false" <= s then Some((Bool(false), s[5..]))
    else if !StartsNumber(s[0]) then None
    else Some((Number(s[..NumberLength(s)]), s[NumberLength(s)..]))
  }

  /** What follows an opening bracket. */
  function ReadList(u: string): (r: Option<(Json, string)>)
    ensures r.Some? ==> |r.value.1| < |u|
    decreases |u|, 4
  {
    if u != "" && u[0] == ']' then Some((List([]), u[1..]))
    else
      var x := ReadItems(u);
      if x.None? then None else Some((List(x.value.0), x.value.1))
  }

  /** What follows an opening brace. */
  function ReadDict(u: string): (r: Option<(Json, string)>)
    ensures r.Some? ==> |r.value.1| < |u|
    decreases |u|, 4
  {
    if u != "" && u[0] == '}' then Some((Dict([]), u[1..]))
    else
      var x := ReadFields(u);
      if x.None? then None else Some((Dict(x.value.0), x.value.1))
  }

  /** One item or more, up to the closing bracket. */
  function ReadItems(t: string): (r: Option<(seq<Json>, string)>)
    ensures r.Some? ==> |r.value.1| < |t|
    decreases |t|, 2
  {
    var x := ReadValue(t);
    if x.None? then None
    else
      var u := Skip(x.value.1);
      if u == "" then None
      else if u[0] == ']' then Some(([x.value.0], u[1..]))
      else if u[0] == ',' then Joined(x.value.0, ReadItems(u[1..]))
      else None
  }

  function Joined<T>(x: T, more: Option<(seq<T>, string)>): Option<(seq<T>, string)> {
    if more.None? then None else Some(([x] + more.value.0, more.value.1))
  }

  function ReadField(t: string): (r: Option<(Field, string)>)
    ensures r.Some? ==> |r.value.1| < |t|
    decreases |t|, 2
  {
    var s := Skip(t);
    if s == "" || s[0] != '"' then None
    else
      var key := ReadText(s[1..]);
      if key.None? then None else ReadKeyed(key.value.0, Skip(key.value.1))
  }

  /** The colon and the value of a field whose key has been read. */
  function ReadKeyed(key: string, u: string): (r: Option<(Field, string)>)
    ensures r.Some? ==> |r.value.1| < |u|
    decreases |u|, 2
  {
    if u == "" || u[0] != ':' then None else Keyed(key, ReadValue(u[1..]))
  }

  function Keyed(key: string, x: Option<(Json, string)>): Option<(Field, string)> {
    if x.None? then None else Some((Field(key, x.value.0), x.value.1))
  }

  /** One field or more, up to the closing brace. */
  function ReadFields(t: string): (r: Option<(seq<Field>, string)>)
    ensures r.Some? ==> |r.value.1| < |t|
    decreases |t|, 3
  {
    var x := ReadField(t);
    if x.None? then None
    else
      var u := Skip(x.value.1);
      if u == "" then None
      else if u[0] == '}' then Some(([x.value.0], u[1..]))
      else if u[0] == ',' then Joined(x.value.0, ReadFields(u[1..]))
      else None
  }

  /** A whole text. */
  function Read(t: string): Option<Json> {
    var x := ReadValue(t);
    if x.None? || Skip(x.value.1) != "" then None else Some(x.value.0)
  }

  /* ---- The value a text stands for ---- */

  /** A tuple reads as a list, and a string input as the string that is its placeholder. */
  function AsRead(v: Json): Json
    decreases v, 1
  {
    match v
    case Input(name, isString) => if isString then Text("{{$.inputs.parameters['" + name + "']}}") else v
    case List(items) => List(ItemsAsRead(items))
    case Tuple(items) => List(ItemsAsRead(items))
    case Dict(fields) => Dict(FieldsAsRead(fields))
    case _ => v
  }

  function ItemsAsRead(items: seq<Json>): seq<Json>
    decreases items, 0
  {
    if items == [] then [] else [AsRead(items[0])] + ItemsAsRead(items[1..])
  }

  function FieldsAsRead(fields: seq<Field>): seq<Field>
    decreases fields, 0
  {
    if fields == [] then []
    else [Field(fields[0].key, AsRead(fields[0].value))] + FieldsAsRead(fields[1..])
  }

  /* ---- Strings ---- */

  /** What is read when the characters of `s` come first. */
  function Before(s: string, x: Option<(string, string)>): Option<(string, string)> {
    if x.None? then None else Some((s + x.value.0, x.value.1))
  }

  lemma OneCharRead(c: char, x: string, more: string)
    requires ReadChar(x + more) == Some((c, more)) && x != "" && x[0] != '"'
    ensures ReadText(x + more) == Before([c], ReadText(more))
  {
    hide ReadChar;
  }

  lemma BeforeTwice(c: char, s: string, x: Option<(string, string)>)
    ensures Before([c], Before(s, x)) == Before([c] + s, x)
    ensures Before("", x) == x
  {
    if x.Some? {
      Regroup([c], s, x.value.0);
      assert "" + x.value.0 == x.value.0;
    }
  }

  /** The characters of a string are read back, whatever follows them. */
  lemma {:induction false} EscapeIsRead(s: string, more: string)
    ensures ReadText(Escape(s) + more) == Before(s, ReadText(more))
  {
    hide ReadText, ReadChar, EscapeChar, Before;
    if s == "" {
      assert Escape(s) + more == more;
      BeforeTwice(' ', "", ReadText(more));
    } else {
      var x, later := EscapeChar(s[0]), Escape(s[1..]) + more;
      EscapeIsRead(s[1..], more);
      CharReadBack(s[0], later);
      EscapeCharShape(s[0]);
      Regroup(x, Escape(s[1..]), more);
      OneCharRead(s[0], x, later);
      BeforeTwice(s[0], s[1..], ReadText(more));
      assert [s[0]] + s[1..] == s;
    }
  }

  /** So are the characters between two quotes. */
  lemma EscapeReadBack(s: string, tail: string)
    ensures ReadText(Escape(s) + ['"'] + tail) == Some((s, tail))
  {
    EscapeIsRead(s, ['"'] + tail);
    Regroup(Escape(s), ['"'], tail);
    assert (['"'] + tail)[1..] == tail && s + "" == s;
    assert ReadText(['"'] + tail) == Some(("", tail));
  }

  /** A backslash before a brace is no escape. */
  lemma DamagedUnread(s: string, more: string)
    ensures ReadText(Escape(s) + ("\\{" + more)) == None
  {
    EscapeIsRead(s, "\\{" + more);
    var t := "\\{" + more;
    assert t[0] == '\\' && t[1] == '{';
    assert ReadChar(t) == None;
  }

  /* ---- One value in front of a text ---- */

  /** What may follow a value: nothing that could belong to a number. */
  ghost predicate Stops(tail: string) {
    tail == "" || !NumberChar(tail[0])
  }

  lemma QuoteReadBack(s: string, tail: string)
    ensures ReadValue(Quote(s) + tail) == Some((Text(s), tail))
  {
    var t := Quote(s) + tail;
    EscapeReadBack(s, tail);
    hide ReadText, Escape;
    assert t[0] == '"' && t[1..] == Escape(s) + ['"'] + tail;
  }

  lemma InputReadBack(k: Name, tail: string)
    ensures ReadValue(Placeholder(k) + tail) == Some((Input(k, false), tail))
  {
    PlaceholderSpelled(k);
    assert OPEN == "{{$.inputs.parameters['" && CLOSE == "']}}";
    var t, u := Placeholder(k) + tail, k + (CLOSE + tail);
    assert t == OPEN + u;
    assert OPEN <= t && t[|OPEN|..] == u && t[0] == '{';
    InputTailReadBack(k, tail);
    hide ReadInput, Placeholder;
  }

  lemma InputTailReadBack(k: Name, tail: string)
    ensures ReadInput(k + (CLOSE + tail)) == Some((Input(k, false), tail))
  {
    var u := k + (CLOSE + tail);
    assert u == k + ['\''] + ("]}}" + tail);
    FindAt(k, '\'', "]}}" + tail);
    assert u[..|k|] == k && u[|k|..] == CLOSE + tail;
    assert u[|k| + |CLOSE|..] == tail;
  }

  lemma NumberEnds(text: string, tail: string)
    requires Stops(tail) && forall i :: 0 <= i < |text| ==> NumberChar(text[i])
    ensures NumberLength(text + tail) == |text|
  {
    var t := text + tail;
    assert forall i :: 0 <= i < |text| ==> t[i] == text[i];
    assert tail != "" ==> t[|text|] == tail[0];
  }

  lemma NumberReadBack(text: NumberText, tail: string)
    requires Stops(tail)
    ensures ReadValue(text + tail) == Some((Number(text), tail))
  {
    var t := text + tail;
    NumberEnds(text, tail);
    assert t[0] == text[0] && t[..|text|] == text && t[|text|..] == tail;
    hide NumberChar;
  }

  lemma WordReadBack(tail: string)
    ensures ReadValue("null" + tail) == Some((Null, tail))
    ensures ReadValue("true" + tail) == Some((Bool(true), tail))
    ensures ReadValue("false" + tail) == Some((Bool(false), tail))
  {
    var n, t, f := "null" + tail, "true" + tail, "false" + tail;
    assert n[0] == 'n' && n[..4] == "null" && n[4..] == tail;
    assert t[0] == 't' && t[..4] == "true" && t[4..] == tail;
    assert f[0] == 'f' && f[..5] == "false" && f[5..] == tail;
  }

  /* ---- Values inside values ---- */

  lemma SpaceBefore(t: string)
    ensures ReadValue([' '] + t) == ReadValue(t)
    ensures ReadItems([' '] + t) == ReadItems(t)
    ensures ReadFields([' '] + t) == ReadFields(t)
  {
    SkipSpace(t);
    hide ReadAt, Skip, ReadKeyed;
    assert ReadField([' '] + t) == ReadField(t);
    hide ReadField;
  }

  lemma SkipSpace(t: string)
    ensures Skip([' '] + t) == Skip(t)
  {
    assert ([' '] + t)[1..] == t;
  }

  lemma ReadsList(body: string)
    requires body != "" && !Space(body[0])
    ensures ReadValue(['['] + body) == ReadList(body)
  {
    var t := ['['] + body;
    assert t[0] == '[' && t[1..] == body;
    assert Skip(t) == t;
    hide ReadList;
  }

  lemma ReadsDict(body: string)
    requires |body| >= 2 && !Space(body[0]) && (body[0] == '{' ==> body[1] == '{')
    ensures ReadValue(['{'] + body) == ReadDict(body)
  {
    var t := ['{'] + body;
    assert t[0] == '{' && t[1] == body[0] && t[2] == body[1] && t[1..] == body;
    hide ReadDict, ReadAt;
    NotOpen(t);
    assert Skip(t) == t && Skip(body) == body;
    BraceIsDict(t);
  }

  lemma BraceIsDict(t: string)
    requires t != "" && t[0] == '{' && !(OPEN <= t)
    ensures ReadAt(t) == ReadDict(Skip(t[1..]))
  {
    hide ReadDict, Skip, ReadInput, ReadList, ReadAtom;
  }

  lemma NotOpen(t: string)
    requires |t| >= 3 && (t[1] != '{' || t[2] != '$')
    ensures !(OPEN <= t)
  {
    assert OPEN[1] == '{' && OPEN[2] == '$';
  }

  lemma LastItem(text: string, x: Json, tail: string)
    requires ReadValue(text + ([']'] + tail)) == Some((x, [']'] + tail))
    ensures ReadItems(text + ([']'] + tail)) == Some(([x], tail))
  {
    var u := [']'] + tail;
    assert Skip(u) == u && u[1..] == tail;
    hide ReadValue;
  }

  lemma MoreItems(text: string, x: Json, rest: string)
    requires ReadValue(text + (", " + rest)) == Some((x, ", " + rest))
    ensures ReadItems(text + (", " + rest)) == Joined(x, ReadItems(rest))
  {
    var u := ", " + rest;
    assert Skip(u) == u && u[0] == ',' && u[1..] == [' '] + rest;
    SpaceBefore(rest);
    hide ReadValue;
  }

  lemma LastField(text: string, x: Field, tail: string)
    requires ReadField(text + (['}'] + tail)) == Some((x, ['}'] + tail))
    ensures ReadFields(text + (['}'] + tail)) == Some(([x], tail))
  {
    var u := ['}'] + tail;
    assert Skip(u) == u && u[1..] == tail;
    hide ReadField;
  }

  lemma MoreFields(text: string, x: Field, rest: string)
    requires ReadField(text + (", " + rest)) == Some((x, ", " + rest))
    ensures ReadFields(text + (", " + rest)) == Joined(x, ReadFields(rest))
  {
    var u := ", " + rest;
    assert Skip(u) == u && u[0] == ',' && u[1..] == [' '] + rest;
    SpaceBefore(rest);
    hide ReadField;
  }

  lemma KeyReadBack(key: string, text: string)
    ensures ReadField(Quote(key) + ": " + text) == Keyed(key, ReadValue(text))
  {
    var t, u := Quote(key) + ": " + text, ": " + text;
    QuoteStart(key, u);
    Regroup(Quote(key), ": ", text);
    hide *;
    EscapeReadBack(key, u);
    QuotedField(t, key, u);
    ColonRead(key, text);
  }

  lemma QuoteStart(key: string, rest: string)
    ensures var t := Quote(key) + rest;
            t != "" && t[0] == '"' && t[1..] == Escape(key) + ['"'] + rest
  {
    hide Escape;
  }

  lemma QuotedField(t: string, key: string, rest: string)
    requires t != "" && t[0] == '"' && ReadText(t[1..]) == Some((key, rest))
    ensures ReadField(t) == ReadKeyed(key, Skip(rest))
  {
    hide ReadText, ReadKeyed;
    assert Skip(t) == t;
  }

  lemma ColonRead(key: string, text: string)
    ensures Skip(": " + text) == ": " + text
    ensures ReadKeyed(key, ": " + text) == Keyed(key, ReadValue(text))
  {
    var u := ": " + text;
    assert u[0] == ':' && u[1..] == [' '] + text;
    SpaceBefore(text);
    hide ReadValue;
  }

  /* ---- The type-directed text ---- */

  /** How the text of a value starts. */
  lemma TypedStart(v: Json)
    ensures TypedPrint(v) != ""
    ensures var c := TypedPrint(v)[0]; !Space(c) && c != ']'
  {
    if v.Input? {
      PlaceholderSpelled(v.name);
    }
    hide Placeholder;
  }

  lemma {:induction false} TypedReadBack(v: Json, tail: string)
    requires Stops(tail)
    ensures ReadValue(TypedPrint(v) + tail) == Some((AsRead(v), tail))
    decreases v, 1
  {
    hide ReadValue, Quote, Placeholder;
    match v
    case Null => WordReadBack(tail);
    case Bool(b) => WordReadBack(tail);
    case Number(text) => NumberReadBack(text, tail);
    case Text(s) => QuoteReadBack(s, tail);
    case Input(name, isString) =>
      QuoteReadBack(Placeholder(name), tail);
      InputReadBack(name, tail);
      PlaceholderSpelled(name);
    case List(items) => ListReadBack(items, tail);
    case Tuple(items) => ListReadBack(items, tail);
    case Dict(fields) => DictReadBack(fields, tail);
  }

  lemma {:induction false} ListReadBack(items: seq<Json>, tail: string)
    ensures ReadValue(['['] + TypedPrintItems(items) + [']'] + tail) == Some((List(ItemsAsRead(items)), tail))
    decreases items, 1
  {
    hide ReadValue, ReadItems, TypedPrint;
    var body := TypedPrintItems(items) + ([']'] + tail);
    assert ['['] + TypedPrintItems(items) + [']'] + tail == ['['] + body;
    if items == [] {
      assert body == [']'] + tail;
      assert body[1..] == tail;
    } else {
      TypedStart(items[0]);
      ItemsReadBack(items, tail);
      assert body[0] == TypedPrint(items[0])[0];
    }
    ReadsList(body);
  }

  lemma {:induction false} ItemsReadBack(items: seq<Json>, tail: string)
    requires items != []
    ensures ReadItems(TypedPrintItems(items) + ([']'] + tail)) == Some((ItemsAsRead(items), tail))
    decreases items, 0
  {
    hide ReadValue, ReadItems, TypedPrint;
    var text := TypedPrint(items[0]);
    if |items| == 1 {
      TypedReadBack(items[0], [']'] + tail);
      LastItem(text, AsRead(items[0]), tail);
      assert items[1..] == [];
      assert ItemsAsRead(items) == [AsRead(items[0])] + [] == [AsRead(items[0])];
    } else {
      var rest := TypedPrintItems(items[1..]) + ([']'] + tail);
      ItemsReadBack(items[1..], tail);
      TypedReadBack(items[0], ", " + rest);
      MoreItems(text, AsRead(items[0]), rest);
      assert TypedPrintItems(items) == text + ", " + TypedPrintItems(items[1..]);
      Regroup(text + ", ", TypedPrintItems(items[1..]), [']'] + tail);
      Regroup(text, ", ", rest);
    }
  }

  lemma {:induction false} DictReadBack(fields: seq<Field>, tail: string)
    ensures ReadValue(['{'] + TypedPrintFields(fields) + ['}'] + tail) == Some((Dict(FieldsAsRead(fields)), tail))
    decreases fields, 1
  {
    hide ReadValue, ReadFields, TypedPrintField;
    var body := TypedPrintFields(fields) + (['}'] + tail);
    assert ['{'] + TypedPrintFields(fields) + ['}'] + tail == ['{'] + body;
    if fields == [] {
      assert ['{'] + body == "{}" + tail;
      NoFields(tail);
    } else {
      FieldStart(fields[0]);
      FieldsReadBack(fields, tail);
      assert body[0] == TypedPrintField(fields[0])[0];
      ReadsDict(body);
    }
  }

  lemma NoFields(tail: string)
    ensures ReadValue("{}" + tail) == Some((Dict([]), tail))
  {
    var t, u := "{}" + tail, ['}'] + tail;
    assert t[0] == '{' && t[1] == '}' && t[1..] == u && u[1..] == tail;
    hide ReadAt;
    assert Skip(t) == t && Skip(u) == u;
    assert !(OPEN <= t) by {
      assert OPEN[1] == '{';
    }
    BraceIsDict(t);
  }

  lemma FieldStart(f: Field)
    ensures |TypedPrintField(f)| >= 2 && TypedPrintField(f)[0] == '"'
  {
  }

  lemma {:induction false} FieldReadBack(f: Field, tail: string)
    requires Stops(tail)
    ensures ReadField(TypedPrintField(f) + tail) == Some((Field(f.key, AsRead(f.value)), tail))
    decreases f, 0
  {
    TypedReadBack(f.value, tail);
    KeyReadBack(f.key, TypedPrint(f.value) + tail);
    hide ReadValue, ReadField, Quote, TypedPrint, AsRead;
    Regroup(Quote(f.key) + ": ", TypedPrint(f.value), tail);
  }

  lemma {:induction false} FieldsReadBack(fields: seq<Field>, tail: string)
    requires fields != []
    ensures ReadFields(TypedPrintFields(fields) + (['}'] + tail)) == Some((FieldsAsRead(fields), tail))
    decreases fields, 0
  {
    hide ReadField, ReadFields, TypedPrintField, AsRead;
    var text, x := TypedPrintField(fields[0]), Field(fields[0].key, AsRead(fields[0].value));
    if |fields| == 1 {
      FieldReadBack(fields[0], ['}'] + tail);
      LastField(text, x, tail);
      assert fields[1..] == [];
      assert FieldsAsRead(fields) == [x] + [] == [x];
    } else {
      var rest := TypedPrintFields(fields[1..]) + (['}'] + tail);
      FieldsReadBack(fields[1..], tail);
      FieldReadBack(fields[0], ", " + rest);
      MoreFields(text, x, rest);
      assert TypedPrintFields(fields) == text + ", " + TypedPrintFields(fields[1..]);
      Regroup(text + ", ", TypedPrintFields(fields[1..]), ['}'] + tail);
      Regroup(text, ", ", rest);
    }
  }

  /** The text printed by types reads as the value, for every value. */
  lemma PrintReadBack(v: Json)
    ensures Read(TypedPrint(v)) == Some(AsRead(v))
  {
    TypedReadBack(v, "");
    assert TypedPrint(v) + "" == TypedPrint(v);
    hide ReadValue, TypedPrint;
  }

  /* ---- The text that is printed when the quotes are stripped wrongly ---- */

  ghost predicate Wrong<T>(r: Option<(T, string)>, v: T) {
    r.None? || r.value.0 != v
  }

  /** The value prints as its type asks for, once the quotes of `keys` are stripped. */
  ghost predicate PrintsByType(v: Json, keys: seq<Name>) {
    CollisionFree(v, keys) && AllIn(PlaceholderNames(v), keys)
  }

  ghost predicate ItemsPrintByType(items: seq<Json>, keys: seq<Name>) {
    ItemsCollisionFree(items, keys) && AllIn(ItemsPlaceholderNames(items), keys)
  }

  ghost predicate FieldsPrintByType(fields: seq<Field>, keys: seq<Name>) {
    FieldsCollisionFree(fields, keys) && AllIn(FieldsPlaceholderNames(fields), keys)
  }

  /** A string that hits a name has become the bare placeholder, or holds a backslash before a brace. */
  lemma DamagedShape(t: string, keys: seq<Name>) returns (k: Name, u: string)
    requires AllAscii(keys) && !Free(t, keys)
    ensures
      var text := UnquoteAll(Quote(t), keys);
      || (t == Placeholder(k) && text == Placeholder(k))
      || (text == ['"'] + Escape(u) + ['\\'] + Placeholder(k))
  {
    k :| k in keys && Hits(t, k);
    var p := Placeholder(k);
    PlaceholderPlain(k);
    EscapePlain(p);
    HitsEnd(t, k);
    UnquoteTokenHit(t, keys, k);
    hide UnquoteAll, Placeholder, AllPlain, Escape, Ascii;
    if t == p {
      u := "";
      assert Quote(t)[..0] + p == p;
    } else {
      u := t[..|t| - |p| - 1];
      var f := EscapeHit(t, p);
      hide *;
      CutQuoted(f, p);
      Regroup(['"'], Escape(u), ['\\']);
    }
  }

  lemma CutQuoted(f: string, p: string)
    ensures var text := ['"'] + (f + (['"'] + p)) + ['"'];
            text[..|text| - |p| - 2] == ['"'] + f
  {
  }

  lemma PlaceholderStart(k: Name, tail: string)
    ensures var t := Placeholder(k) + tail;
            |t| >= 2 && t[0] == '{' && t[1] == '{' && t == ['{'] + Placeholder(k)[1..] + tail
  {
    PlaceholderSpelled(k);
    hide Placeholder;
  }

  lemma DamagedIsWrong(t: string, keys: seq<Name>, tail: string)
    requires AllAscii(keys) && !Free(t, keys)
    ensures Wrong(ReadValue(UnquoteAll(Quote(t), keys) + tail), Text(t))
    ensures ReadField(UnquoteAll(Quote(t), keys) + tail) == None
  {
    var k, u := DamagedShape(t, keys);
    PlaceholderStart(k, tail);
    var text := UnquoteAll(Quote(t), keys) + tail;
    hide UnquoteAll, Quote, Placeholder, Free, AllAscii, ReadText, ReadKeyed;
    if text == Placeholder(k) + tail {
      InputReadBack(k, tail);
      assert Skip(text) == text;
    } else {
      var body := Escape(u) + ("\\{" + (Placeholder(k)[1..] + tail));
      BackslashBrace(Escape(u), Placeholder(k), tail);
      DamagedUnread(u, Placeholder(k)[1..] + tail);
      assert text == ['"'] + body;
      assert text[0] == '"' && text[1..] == body;
      assert Skip(text) == text;
    }
  }

  lemma BackslashBrace(e: string, p: string, tail: string)
    requires p != "" && p[0] == '{'
    ensures ['"'] + e + ['\\'] + p + tail == ['"'] + (e + ("\\{" + (p[1..] + tail)))
  {
    assert p == ['{'] + p[1..];
  }

  /** How a text starts in which quotes may have been stripped. */
  lemma QuotedStart(t: string, keys: seq<Name>)
    requires AllAscii(keys)
    ensures var text := UnquoteAll(Quote(t), keys);
            |text| >= 2 && (text[0] == '"' || (text[0] == '{' && text[1] == '{'))
  {
    QuotedAgrees(t, keys);
    if !Free(t, keys) {
      var k, u := DamagedShape(t, keys);
      PlaceholderStart(k, "");
      assert Placeholder(k) + "" == Placeholder(k);
    }
    hide UnquoteAll, Placeholder, Free, AllAscii;
  }

  lemma RenderStart(v: Json, keys: seq<Name>)
    requires AllAscii(keys)
    ensures Render(v, keys) != ""
    ensures var c := Render(v, keys)[0]; !Space(c) && c != ']'
  {
    match v
    case Text(s) => QuotedStart(s, keys);
    case Input(name, _) => QuotedStart(Placeholder(name), keys);
    case _ =>
  }

  lemma InputIsWrong(name: Name, isString: bool, keys: seq<Name>, tail: string)
    requires AllAscii(keys) && !PrintsByType(Input(name, isString), keys)
    ensures Wrong(ReadValue(Render(Input(name, isString), keys) + tail), AsRead(Input(name, isString)))
  {
    var p := Placeholder(name);
    PlaceholderSpelled(name);
    hide ReadValue, Placeholder, Free, AllAscii, UnquoteAll;
    if isString {
      DamagedIsWrong(p, keys, tail);
    } else {
      assert name !in keys;
      BareMissed(name, keys);
      QuoteReadBack(p, tail);
    }
  }

  /** An input whose name was not collected keeps its quotes. */
  lemma BareMissed(k: Name, keys: seq<Name>)
    requires AllAscii(keys) && k !in keys
    ensures UnquoteAll(Quote(Placeholder(k)), keys) == Quote(Placeholder(k))
  {
    forall l | l in keys ensures !Ends(Quote(Placeholder(k)), l) {
      if Ends(Quote(Placeholder(k)), l) {
        EndsOnlyHits(Placeholder(k), l);
        HitsOther(k, l);
      }
    }
    UnquoteTokenMiss(Placeholder(k), keys);
  }

  /** A value whose text differs from the type-directed one does not read as that value. */
  lemma {:induction false} WrongReads(v: Json, keys: seq<Name>, tail: string)
    requires AllAscii(keys) && Stops(tail) && !PrintsByType(v, keys)
    ensures Wrong(ReadValue(Render(v, keys) + tail), AsRead(v))
    decreases v, 1
  {
    hide ReadValue, AllAscii, Free, Placeholder, Quote, UnquoteAll;
    match v
    case Text(s) => DamagedIsWrong(s, keys, tail);
    case Input(name, isString) => InputIsWrong(name, isString, keys, tail);
    case List(items) => ListIsWrong(items, keys, tail);
    case Tuple(items) => ListIsWrong(items, keys, tail);
    case Dict(fields) => DictIsWrong(fields, keys, tail);
    case _ =>
  }

  lemma {:induction false} ListIsWrong(items: seq<Json>, keys: seq<Name>, tail: string)
    requires AllAscii(keys) && !ItemsPrintByType(items, keys)
    ensures Wrong(ReadValue(['['] + RenderItems(items, keys) + [']'] + tail), List(ItemsAsRead(items)))
    decreases items, 1
  {
    assert items != [];
    hide *;
    var body := RenderItems(items, keys) + ([']'] + tail);
    Wrapped("[", RenderItems(items, keys), "]", tail);
    ItemsRenderStart(items, keys, [']'] + tail);
    ItemsWrong(items, keys, tail);
    WrongList(body, ItemsAsRead(items));
  }

  lemma ItemsRenderStart(items: seq<Json>, keys: seq<Name>, tail: string)
    requires AllAscii(keys) && items != []
    ensures var text := RenderItems(items, keys) + tail;
            text != "" && !Space(text[0]) && text[0] != ']'
  {
    RenderStart(items[0], keys);
    hide Render, AllAscii;
    var text := Render(items[0], keys);
    assert text <= RenderItems(items, keys);
  }

  lemma WrongList(body: string, xs: seq<Json>)
    requires body != "" && !Space(body[0]) && body[0] != ']' && Wrong(ReadItems(body), xs)
    ensures Wrong(ReadValue(['['] + body), List(xs))
  {
    hide ReadValue, ReadItems;
    ReadsList(body);
  }

  /** One item reads as its value or not, and is then followed by the others. */
  lemma ItemReads(v: Json, keys: seq<Name>, tail: string)
    requires AllAscii(keys) && Stops(tail) && PrintsByType(v, keys)
    ensures ReadValue(Render(v, keys) + tail) == Some((AsRead(v), tail))
  {
    RenderAgrees(v, keys);
    TypedReadBack(v, tail);
    hide ReadValue, Render, TypedPrint, AsRead, CollisionFree, AllIn, AllAscii;
  }

  lemma {:induction false} ItemsWrong(items: seq<Json>, keys: seq<Name>, tail: string)
    requires AllAscii(keys) && items != [] && !ItemsPrintByType(items, keys)
    ensures Wrong(ReadItems(RenderItems(items, keys) + ([']'] + tail)), ItemsAsRead(items))
    decreases items, 0
  {
    AllInConcat(PlaceholderNames(items[0]), ItemsPlaceholderNames(items[1..]), keys);
    var text := Render(items[0], keys);
    var rest := RenderItems(items[1..], keys) + ([']'] + tail);
    var next := if |items| == 1 then [']'] + tail else ", " + rest;
    hide ReadItems, ReadValue, Render, AllAscii, CollisionFree, AllIn, AsRead;
    FirstItem(items, keys, tail);
    hide RenderItems;
    if PrintsByType(items[0], keys) {
      assert !ItemsPrintByType(items[1..], keys);
      assert |items| > 1;
      ItemReads(items[0], keys, next);
      MoreItems(text, AsRead(items[0]), rest);
      ItemsWrong(items[1..], keys, tail);
      JoinedWrong(AsRead(items[0]), ReadItems(rest), ItemsAsRead(items[1..]));
    } else {
      WrongReads(items[0], keys, next);
      HeadWrong(text + next, AsRead(items[0]), ItemsAsRead(items));
    }
  }

  /** The text of some items starts with that of the first. */
  lemma FirstItem(items: seq<Json>, keys: seq<Name>, tail: string)
    requires items != []
    ensures RenderItems(items, keys) + ([']'] + tail) ==
            Render(items[0], keys) +
            if |items| == 1 then [']'] + tail else ", " + (RenderItems(items[1..], keys) + ([']'] + tail))
  {
    hide Render;
    if |items| > 1 {
      var text, rest := Render(items[0], keys), RenderItems(items[1..], keys) + ([']'] + tail);
      Regroup(text + ", ", RenderItems(items[1..], keys), [']'] + tail);
      Regroup(text, ", ", rest);
    }
  }

  lemma JoinedWrong<T>(x: T, r: Option<(seq<T>, string)>, xs: seq<T>)
    requires Wrong(r, xs)
    ensures Wrong(Joined(x, r), [x] + xs)
  {
    if r.Some? {
      assert ([x] + r.value.0)[1..] == r.value.0 && ([x] + xs)[1..] == xs;
    }
  }

  lemma HeadWrong(t: string, x: Json, xs: seq<Json>)
    requires Wrong(ReadValue(t), x) && xs != [] && xs[0] == x
    ensures Wrong(ReadItems(t), xs)
  {
    hide ReadValue;
  }

  ghost predicate FieldPrintsByType(f: Field, keys: seq<Name>) {
    Free(f.key, keys) && PrintsByType(f.value, keys)
  }

  function FieldAsRead(f: Field): Field {
    Field(f.key, AsRead(f.value))
  }

  lemma FieldRenderStart(f: Field, keys: seq<Name>)
    requires AllAscii(keys)
    ensures var text := RenderField(f, keys);
            |text| >= 2 && (text[0] == '"' || (text[0] == '{' && text[1] == '{'))
  {
    QuotedStart(f.key, keys);
    hide UnquoteAll, Quote, AllAscii, Render;
  }

  lemma {:induction false} DictIsWrong(fields: seq<Field>, keys: seq<Name>, tail: string)
    requires AllAscii(keys) && !FieldsPrintByType(fields, keys)
    ensures Wrong(ReadValue(['{'] + RenderFields(fields, keys) + ['}'] + tail), Dict(FieldsAsRead(fields)))
    decreases fields, 1
  {
    assert fields != [];
    hide *;
    var body := RenderFields(fields, keys) + (['}'] + tail);
    Wrapped("{", RenderFields(fields, keys), "}", tail);
    FieldsRenderStart(fields, keys, ['}'] + tail);
    FieldsWrong(fields, keys, tail);
    WrongDict(body, FieldsAsRead(fields));
  }

  lemma FieldsRenderStart(fields: seq<Field>, keys: seq<Name>, tail: string)
    requires AllAscii(keys) && fields != []
    ensures var text := RenderFields(fields, keys) + tail;
            |text| >= 2 && (text[0] == '"' || (text[0] == '{' && text[1] == '{'))
  {
    FieldRenderStart(fields[0], keys);
    hide RenderField, AllAscii;
    var text := RenderField(fields[0], keys);
    assert text <= RenderFields(fields, keys);
  }

  lemma Wrapped(open: string, body: string, close: string, tail: string)
    ensures open + body + close + tail == open + (body + (close + tail))
  {
  }

  lemma WrongDict(body: string, xs: seq<Field>)
    requires |body| >= 2 && (body[0] == '"' || (body[0] == '{' && body[1] == '{')) && Wrong(ReadFields(body), xs)
    ensures Wrong(ReadValue(['{'] + body), Dict(xs))
  {
    hide ReadValue, ReadFields;
    ReadsDict(body);
  }

  lemma FieldReads(f: Field, keys: seq<Name>, tail: string)
    requires AllAscii(keys) && Stops(tail) && FieldPrintsByType(f, keys)
    ensures ReadField(RenderField(f, keys) + tail) == Some((FieldAsRead(f), tail))
  {
    RenderAgrees(f.value, keys);
    FieldAgrees(f, keys);
    FieldReadBack(f, tail);
    hide ReadField, RenderField, TypedPrintField, Free, CollisionFree, AllIn, AllAscii, AsRead;
  }

  lemma {:induction false} FieldWrong(f: Field, keys: seq<Name>, tail: string)
    requires AllAscii(keys) && Stops(tail) && !FieldPrintsByType(f, keys)
    ensures Wrong(ReadField(RenderField(f, keys) + tail), FieldAsRead(f))
    decreases f, 0
  {
    var key, text := UnquoteAll(Quote(f.key), keys), Render(f.value, keys) + tail;
    hide ReadField, Render, AllAscii, Quote, UnquoteAll, PrintsByType, AsRead, ReadValue;
    Regroup(key + ": ", Render(f.value, keys), tail);
    if Free(f.key, keys) {
      QuotedAgrees(f.key, keys);
      hide Free;
      WrongReads(f.value, keys, tail);
      KeyReadBack(f.key, text);
    } else {
      hide Free;
      DamagedIsWrong(f.key, keys, ": " + text);
      Regroup(key, ": ", text);
    }
  }

  lemma {:induction false} FieldsWrong(fields: seq<Field>, keys: seq<Name>, tail: string)
    requires AllAscii(keys) && fields != [] && !FieldsPrintByType(fields, keys)
    ensures Wrong(ReadFields(RenderFields(fields, keys) + (['}'] + tail)), FieldsAsRead(fields))
    decreases fields, 0
  {
    AllInConcat(PlaceholderNames(fields[0].value), FieldsPlaceholderNames(fields[1..]), keys);
    var text := RenderField(fields[0], keys);
    var rest := RenderFields(fields[1..], keys) + (['}'] + tail);
    var next := if |fields| == 1 then ['}'] + tail else ", " + rest;
    hide ReadFields, ReadField, RenderField, AllAscii, CollisionFree, AllIn, AsRead, Free;
    FirstField(fields, keys, tail);
    hide RenderFields;
    if FieldPrintsByType(fields[0], keys) {
      assert !FieldsPrintByType(fields[1..], keys);
      assert |fields| > 1;
      FieldReads(fields[0], keys, next);
      MoreFields(text, FieldAsRead(fields[0]), rest);
      FieldsWrong(fields[1..], keys, tail);
      JoinedWrong(FieldAsRead(fields[0]), ReadFields(rest), FieldsAsRead(fields[1..]));
    } else {
      FieldWrong(fields[0], keys, next);
      HeadFieldWrong(text + next, FieldAsRead(fields[0]), FieldsAsRead(fields));
    }
  }

  lemma FirstField(fields: seq<Field>, keys: seq<Name>, tail: string)
    requires fields != []
    ensures RenderFields(fields, keys) + (['}'] + tail) ==
            RenderField(fields[0], keys) +
            if |fields| == 1 then ['}'] + tail else ", " + (RenderFields(fields[1..], keys) + (['}'] + tail))
  {
    hide RenderField;
    if |fields| > 1 {
      var text, rest := RenderField(fields[0], keys), RenderFields(fields[1..], keys) + (['}'] + tail);
      Regroup(text + ", ", RenderFields(fields[1..], keys), ['}'] + tail);
      Regroup(text, ", ", rest);
    }
  }

  lemma HeadFieldWrong(t: string, x: Field, xs: seq<Field>)
    requires Wrong(ReadField(t), x) && xs != [] && xs[0] == x
    ensures Wrong(ReadFields(t), xs)
  {
    hide ReadField;
  }

  /* ---- Names beyond ASCII ---- */

  lemma AsciiRest(t: string, n: nat)
    requires Ascii(t) && n <= |t|
    ensures Ascii(t[n..])
  {
  }

  lemma {:induction false} SkipAscii(t: string)
    requires Ascii(t)
    ensures Ascii(Skip(t))
  {
    if t != "" && Space(t[0]) {
      SkipAscii(t[1..]);
    }
  }

  lemma ReadCharAscii(t: string)
    requires Ascii(t) && ReadChar(t).Some?
    ensures Ascii(ReadChar(t).value.1)
  {
    hide ReadHex4;
  }

  lemma {:induction false} ReadTextAscii(t: string)
    requires Ascii(t) && ReadText(t).Some?
    ensures Ascii(ReadText(t).value.1)
    decreases |t|
  {
    hide ReadChar;
    if t[0] != '"' {
      ReadCharAscii(t);
      ReadTextAscii(ReadChar(t).value.1);
    }
  }

  /** What is read from an ASCII text has no bare placeholder with another name. */
  ghost predicate PlainNames(x: Option<(Json, string)>) {
    x.Some? ==> AllAscii(PlaceholderNames(x.value.0)) && Ascii(x.value.1)
  }

  lemma {:induction false} ReadValueAscii(t: string)
    requires Ascii(t)
    ensures PlainNames(ReadValue(t))
    decreases |t|, 1
  {
    SkipAscii(t);
    ReadAtAscii(Skip(t));
  }

  lemma {:induction false} ReadAtAscii(s: string)
    requires Ascii(s)
    ensures PlainNames(ReadAt(s))
    decreases |s|, 0
  {
    hide ReadList, ReadDict, ReadText, Skip, ReadInput, ReadAtom;
    if s != "" {
      AsciiRest(s, 1);
      if s[0] == '"' {
        if ReadText(s[1..]).Some? {
          ReadTextAscii(s[1..]);
        }
      } else if OPEN <= s {
        AsciiRest(s, |OPEN|);
        ReadInputAscii(s[|OPEN|..]);
      } else if s[0] == '[' {
        SkipAscii(s[1..]);
        ReadListAscii(Skip(s[1..]));
      } else if s[0] == '{' {
        SkipAscii(s[1..]);
        ReadDictAscii(Skip(s[1..]));
      } else {
        ReadAtomAscii(s);
      }
    }
  }

  lemma ReadAtomAscii(s: string)
    requires s != "" && Ascii(s)
    ensures PlainNames(ReadAtom(s))
  {
  }

  lemma ReadInputAscii(t: string)
    requires Ascii(t)
    ensures PlainNames(ReadInput(t))
  {
  }

  lemma {:induction false} ReadListAscii(u: string)
    requires Ascii(u)
    ensures PlainNames(ReadList(u))
    decreases |u|, 4
  {
    hide ReadItems;
    if u == "" || u[0] != ']' {
      ReadItemsAscii(u);
    }
  }

  lemma {:induction false} ReadItemsAscii(t: string)
    requires Ascii(t)
    ensures var x := ReadItems(t); x.Some? ==> AllAscii(ItemsPlaceholderNames(x.value.0)) && Ascii(x.value.1)
    decreases |t|, 2
  {
    hide ReadValue, Ascii, Skip;
    ReadValueAscii(t);
    var x := ReadValue(t);
    if x.Some? {
      SkipAscii(x.value.1);
      var u := Skip(x.value.1);
      if u != "" {
        AsciiRest(u, 1);
        assert [x.value.0][1..] == [];
        if u[0] == ',' {
          ReadItemsAscii(u[1..]);
          var more := ReadItems(u[1..]);
          if more.Some? {
            assert ([x.value.0] + more.value.0)[1..] == more.value.0;
            AllAsciiConcat(PlaceholderNames(x.value.0), ItemsPlaceholderNames(more.value.0));
          }
        }
      }
    }
  }

  lemma {:induction false} ReadDictAscii(u: string)
    requires Ascii(u)
    ensures PlainNames(ReadDict(u))
    decreases |u|, 4
  {
    hide ReadFields;
    if u == "" || u[0] != '}' {
      ReadFieldsAscii(u);
    }
  }

  lemma {:induction false} ReadFieldAscii(t: string)
    requires Ascii(t)
    ensures var x := ReadField(t); x.Some? ==> AllAscii(PlaceholderNames(x.value.0.value)) && Ascii(x.value.1)
    decreases |t|, 2
  {
    hide ReadValue, ReadText, Skip;
    SkipAscii(t);
    var s := Skip(t);
    if s != "" && s[0] == '"' {
      AsciiRest(s, 1);
      var key := ReadText(s[1..]);
      if key.Some? {
        ReadTextAscii(s[1..]);
        SkipAscii(key.value.1);
        var u := Skip(key.value.1);
        if u != "" {
          AsciiRest(u, 1);
          ReadValueAscii(u[1..]);
        }
      }
    }
  }

  lemma {:induction false} ReadFieldsAscii(t: string)
    requires Ascii(t)
    ensures var x := ReadFields(t); x.Some? ==> AllAscii(FieldsPlaceholderNames(x.value.0)) && Ascii(x.value.1)
    decreases |t|, 3
  {
    hide ReadField, Ascii, Skip;
    ReadFieldAscii(t);
    var x := ReadField(t);
    if x.Some? {
      SkipAscii(x.value.1);
      var u := Skip(x.value.1);
      if u != "" {
        AsciiRest(u, 1);
        assert [x.value.0][1..] == [];
        if u[0] == ',' {
          ReadFieldsAscii(u[1..]);
          var more := ReadFields(u[1..]);
          if more.Some? {
            assert ([x.value.0] + more.value.0)[1..] == more.value.0;
            AllAsciiConcat(PlaceholderNames(x.value.0.value), FieldsPlaceholderNames(more.value.0));
          }
        }
      }
    }
  }

  lemma {:induction false} NamesAsRead(v: Json)
    ensures PlaceholderNames(AsRead(v)) == PlaceholderNames(v)
    decreases v, 1
  {
    match v
    case List(items) => ItemsNamesAsRead(items);
    case Tuple(items) => ItemsNamesAsRead(items);
    case Dict(fields) => FieldsNamesAsRead(fields);
    case _ =>
  }

  lemma {:induction false} ItemsNamesAsRead(items: seq<Json>)
    ensures ItemsPlaceholderNames(ItemsAsRead(items)) == ItemsPlaceholderNames(items)
    decreases items, 0
  {
    if items != [] {
      NamesAsRead(items[0]);
      ItemsNamesAsRead(items[1..]);
      assert ItemsAsRead(items)[1..] == ItemsAsRead(items[1..]);
    }
  }

  lemma {:induction false} FieldsNamesAsRead(fields: seq<Field>)
    ensures FieldsPlaceholderNames(FieldsAsRead(fields)) == FieldsPlaceholderNames(fields)
    decreases fields, 0
  {
    if fields != [] {
      NamesAsRead(fields[0].value);
      FieldsNamesAsRead(fields[1..]);
      assert FieldsAsRead(fields)[1..] == FieldsAsRead(fields[1..]);
    }
  }

  /* ---- What the printed text means ---- */

  /**
    The text that `container_component_dumps` prints reads as the value it was given exactly
    when it is the text that the types ask for.
   */
  lemma DumpsReadsExactly(v: Json)
    ensures var keys := NonStringFields(v);
            Read(Dumps(v)) == Some(AsRead(v)) <==>
            AllAscii(keys) && CollisionFree(v, keys) && AllIn(PlaceholderNames(v), keys)
  {
    var keys := NonStringFields(v);
    UnquoteRender(v, keys);
    var text := Render(v, keys);
    assert text + "" == text;
    if !AllAscii(keys) {
      RenderAscii(v, keys);
      CollectedNames(v);
      NamesAsRead(v);
      ReadValueAscii(text);
    } else if PrintsByType(v, keys) {
      ItemReads(v, keys, "");
    } else {
      WrongReads(v, keys, "");
    }
    hide ReadValue, Render, AsRead, Ascii;
  }
}
