/**
  Reading all objects of a bucket that match a key with wildcards: the service lists, page
  by page, the names that start with the text before the first wildcard, and a pattern
  built from the key filters them.
 */
module GlobListing {
  import opened Wrappers
  import opened Sequences

  /* ---- The pattern ---- */

  /** The characters that `.` does not match. */
  predicate LineTerminator(c: char) {
    c == '\n' || c == '\r' || c as int == 0x2028 || c as int == 0x2029
  }

  predicate OneLine(s: string) {
    forall i :: 0 <= i < |s| ==> !LineTerminator(s[i])
  }

  function FirstStar(s: string): (i: nat)
    ensures i <= |s|
  {
    if s == "" || s[0] == '*' then 0 else 1 + FirstStar(s[1..])
  }

  function DropStars(s: string): (r: string)
    ensures |r| <= |s|
  {
    if s != "" && s[0] == '*' then DropStars(s[1..]) else s
  }

  /** `key.split(/\*+/)`. */
  function SplitStars(key: string): (segments: seq<string>)
    ensures segments != []
    decreases |key|
  {
    var i := FirstStar(key);
    if i == |key| then [key] else [key[..i]] + SplitStars(DropStars(key[i + 1..]))
  }

  /** The segments, escaped and joined by `.*`, match the whole name. */
  predicate MatchesSegments(segments: seq<string>, name: string)
    requires segments != []
    decreases |segments|
  {
    if |segments| == 1 then name == segments[0]
    else
      segments[0] <= name
      && exists k :: 0 <= k <= |name| - |segments[0]| && OneLine(name[|segments[0]|..][..k])
                     && MatchesSegments(segments[1..], name[|segments[0]|..][k..])
  }

  predicate KeyMatches(key: string, name: string) {
    MatchesSegments(SplitStars(key), name)
  }

  /** The reference: a star takes any number of characters, none of them ending a line. */
  predicate Glob(key: string, name: string)
    decreases |key| + |name|
  {
    if key == "" then name == ""
    else if key[0] == '*' then
      Glob(key[1..], name) || (name != "" && !LineTerminator(name[0]) && Glob(key, name[1..]))
    else name != "" && name[0] == key[0] && Glob(key[1..], name[1..])
  }

  /** A star splits the name: what it takes, and what the rest of the key matches. */
  lemma {:induction false} StarTakes(key: string, name: string)
    requires key != "" && key[0] == '*'
    ensures Glob(key, name) <==> exists k :: 0 <= k <= |name| && OneLine(name[..k]) && Glob(key[1..], name[k..])
    decreases |name|
  {
    assert name[0..] == name && OneLine(name[..0]);
    if name != "" {
      var t := name[1..];
      StarTakes(key, t);
      forall k | 0 <= k <= |t| && OneLine(t[..k]) && Glob(key[1..], t[k..]) && !LineTerminator(name[0])
        ensures OneLine(name[..k + 1]) && Glob(key[1..], name[k + 1..])
      {
        assert name[..k + 1] == [name[0]] + t[..k];
        assert name[k + 1..] == t[k..];
      }
      forall k | 0 < k <= |name| && OneLine(name[..k]) && Glob(key[1..], name[k..])
        ensures !LineTerminator(name[0]) && OneLine(t[..k - 1]) && Glob(key[1..], t[k - 1..])
      {
        assert name[..k][0] == name[0];
        assert t[..k - 1] == name[..k][1..];
        assert t[k - 1..] == name[k..];
      }
    }
  }

  /** A run of stars is as good as one. */
  lemma {:induction false} StarsCollapse(key: string, name: string)
    requires |key| >= 2 && key[0] == '*' && key[1] == '*'
    ensures Glob(key, name) <==> Glob(key[1..], name)
    decreases |name|
  {
    if name != "" {
      StarsCollapse(key, name[1..]);
      if Glob(key[1..], name[1..]) && !LineTerminator(name[0]) {
        assert Glob(key[1..], name);
      }
    }
  }

  lemma {:induction false} StarsDropped(key: string, name: string)
    requires key != "" && key[0] == '*'
    ensures Glob(key, name) <==>
            exists k :: 0 <= k <= |name| && OneLine(name[..k]) && Glob(DropStars(key[1..]), name[k..])
    decreases |key|
  {
    if |key| >= 2 && key[1] == '*' {
      StarsCollapse(key, name);
      StarsDropped(key[1..], name);
      assert DropStars(key[1..]) == DropStars(key[1..][1..]);
    } else {
      StarTakes(key, name);
    }
  }

  /** Splitting on stars and joining with `.*` means what the wildcards mean. */
  lemma {:induction false} KeyMatchesGlob(key: string, name: string)
    ensures KeyMatches(key, name) <==> Glob(key, name)
    decreases |key|
  {
    if key == "" {
    } else if key[0] == '*' {
      var rest := DropStars(key[1..]);
      var segments := SplitStars(key);
      assert key[0 + 1..] == key[1..] && key[..0] == "";
      assert segments == [""] + SplitStars(rest);
      assert segments[1..] == SplitStars(rest);
      assert name[0..] == name;
      StarsDropped(key, name);
      forall k | 0 <= k <= |name| ensures Glob(rest, name[k..]) <==> MatchesSegments(SplitStars(rest), name[k..]) {
        KeyMatchesGlob(rest, name[k..]);
      }
    } else {
      SplitLetter(key);
      if name != "" && name[0] == key[0] {
        KeyMatchesGlob(key[1..], name[1..]);
        LetterFirst(key[0], SplitStars(key[1..]), name);
      } else {
        LetterNeeded(key[0], SplitStars(key[1..]), name);
      }
    }
  }

  /** The first segment of a key that starts with a letter starts with it. */
  function Prefixed(c: char, segments: seq<string>): seq<string>
    requires segments != []
  {
    [[c] + segments[0]] + segments[1..]
  }

  lemma FirstStarLater(key: string)
    requires key != "" && key[0] != '*'
    ensures FirstStar(key) == FirstStar(key[1..]) + 1
  {
  }

  lemma SplitLetter(key: string)
    requires key != "" && key[0] != '*'
    ensures SplitStars(key) == Prefixed(key[0], SplitStars(key[1..]))
  {
    FirstStarLater(key);
    hide FirstStar, DropStars;
    var c, t, i := key[0], key[1..], FirstStar(key[1..]);
    assert key == [c] + t;
    if i < |t| {
      assert key[..i + 1] == [c] + t[..i];
      assert key[i + 2..] == t[i + 1..];
    }
  }

  lemma LetterFirst(c: char, segments: seq<string>, name: string)
    requires segments != [] && name != "" && name[0] == c
    ensures MatchesSegments(Prefixed(c, segments), name) <==> MatchesSegments(segments, name[1..])
  {
    var s := segments[0];
    assert [c] + s <= name <==> s <= name[1..] by {
      assert name == [c] + name[1..];
      if s <= name[1..] {
        assert ([c] + s) <= name;
      }
      if [c] + s <= name {
        assert forall i :: 0 <= i < |s| ==> name[1..][i] == ([c] + s)[i + 1];
      }
    }
    if |segments| == 1 {
      assert name == [c] + s <==> name[1..] == s by {
        assert name == [c] + name[1..];
        assert ([c] + s)[1..] == s;
      }
    } else if s <= name[1..] {
      assert name[|s| + 1..] == name[1..][|s|..];
      assert Prefixed(c, segments)[1..] == segments[1..];
    }
  }

  lemma LetterNeeded(c: char, segments: seq<string>, name: string)
    requires segments != [] && (name == "" || name[0] != c)
    ensures !MatchesSegments(Prefixed(c, segments), name)
  {
    assert Prefixed(c, segments)[0][0] == c;
  }

  /* ---- What a star takes, spelled out ---- */

  /** Any characters, slashes included, but none of the four that end a line. */
  ghost predicate OnOneLine(s: string) {
    forall i :: 0 <= i < |s| ==>
      s[i] != '\n' && s[i] != '\r' && s[i] != '\U{2028}' && s[i] != '\U{2029}'
  }

  ghost predicate NoStar(s: string) {
    forall i :: 0 <= i < |s| ==> s[i] != '*'
  }

  lemma {:induction false} LiteralGlob(a: string, key: string, name: string)
    requires NoStar(a)
    ensures Glob(a + key, name) <==> a <= name && Glob(key, name[|a|..])
  {
    if a == "" {
      assert a + key == key && name[0..] == name;
    } else {
      var whole := a + key;
      assert whole[0] == a[0] && whole[1..] == a[1..] + key;
      if name != "" && name[0] == a[0] {
        LiteralGlob(a[1..], key, name[1..]);
        LiteralPrefix(a, name);
        if a <= name {
          assert name[1..][|a| - 1..] == name[|a|..];
        }
      }
    }
  }

  lemma LiteralPrefix(a: string, name: string)
    requires a != "" && name != "" && name[0] == a[0]
    ensures a <= name <==> a[1..] <= name[1..]
  {
    assert a == [a[0]] + a[1..] && name == [name[0]] + name[1..];
    if a <= name {
      assert name[..|a|][1..] == name[1..][..|a| - 1];
    }
  }

  lemma LiteralOnly(b: string, name: string)
    requires NoStar(b)
    ensures Glob(b, name) <==> name == b
  {
    assert b + "" == b;
    LiteralGlob(b, "", name);
    if b <= name {
      assert name == b + name[|b|..];
    }
  }

  /** A key with one star matches the names that fill the star with text on one line. */
  lemma OneStarExactly(a: string, b: string, name: string)
    requires NoStar(a) && NoStar(b)
    ensures KeyMatches(a + "*" + b, name) <==> exists m :: OnOneLine(m) && name == a + m + b
  {
    var key := "*" + b;
    Regroup(a, "*", b);
    KeyMatchesGlob(a + key, name);
    LiteralGlob(a, key, name);
    hide Glob, KeyMatches;
    if a <= name {
      var t := name[|a|..];
      assert key[1..] == b;
      StarTakes(key, t);
      forall k | 0 <= k <= |t| ensures Glob(b, t[k..]) <==> t == t[..k] + b {
        LiteralOnly(b, t[k..]);
        assert t == t[..k] + t[k..];
        if t == t[..k] + b {
          assert t[k..] == b;
        }
      }
      forall k | 0 <= k <= |t| ensures OneLine(t[..k]) <==> OnOneLine(t[..k]) {
        LineSpelled(t[..k]);
      }
      StarFilled(a, b, name);
    }
  }

  lemma LineSpelled(s: string)
    ensures OneLine(s) <==> OnOneLine(s)
  {
  }

  lemma StarFilled(a: string, b: string, name: string)
    requires a <= name
    ensures var t := name[|a|..];
            (exists k :: 0 <= k <= |t| && OnOneLine(t[..k]) && t == t[..k] + b) <==>
            (exists m :: OnOneLine(m) && name == a + m + b)
  {
    var t := name[|a|..];
    assert name == a + t;
    hide OnOneLine;
    if k :| 0 <= k <= |t| && OnOneLine(t[..k]) && t == t[..k] + b {
      Regroup(a, t[..k], b);
      assert name == a + t[..k] + b;
    }
    if m :| OnOneLine(m) && name == a + m + b {
      Regroup(a, m, b);
      assert t == m + b;
      assert t[..|m|] == m;
    }
  }

  /* ---- Prefix and filter ---- */

  function Prefix(key: string): string {
    key[..FirstStar(key)]
  }

  /** The prefix is the text up to the first star. */
  lemma {:induction false} PrefixExactly(key: string)
    ensures Prefix(key) <= key && NoStar(Prefix(key))
    ensures |Prefix(key)| < |key| ==> key[|Prefix(key)|] == '*'
  {
    if key != "" && key[0] != '*' {
      PrefixExactly(key[1..]);
      assert Prefix(key) == [key[0]] + Prefix(key[1..]);
    }
  }

  /** Whatever matches starts with the text before the first star. */
  lemma MatchHasPrefix(key: string, name: string)
    requires KeyMatches(key, name)
    ensures Prefix(key) <= name
  {
    assert SplitStars(key)[0] == Prefix(key) by {
      assert key[..|key|] == key;
    }
  }

  function WithPrefix(names: seq<string>, prefix: string): seq<string> {
    if names == [] then []
    else (if prefix <= names[0] then [names[0]] else []) + WithPrefix(names[1..], prefix)
  }

  function Matching(names: seq<string>, key: string): seq<string> {
    if names == [] then []
    else (if KeyMatches(key, names[0]) then [names[0]] else []) + Matching(names[1..], key)
  }

  ghost function Globbed(names: seq<string>, key: string): seq<string> {
    if names == [] then []
    else (if Glob(key, names[0]) then [names[0]] else []) + Globbed(names[1..], key)
  }

  lemma {:induction false} MatchingAppend(a: seq<string>, b: seq<string>, key: string)
    ensures Matching(a + b, key) == Matching(a, key) + Matching(b, key)
  {
    if a == [] {
      assert a + b == b;
    } else {
      assert (a + b)[0] == a[0] && (a + b)[1..] == a[1..] + b;
      var first := if KeyMatches(key, a[0]) then [a[0]] else [];
      assert Matching(a + b, key) == first + Matching(a[1..] + b, key);
      assert Matching(a, key) == first + Matching(a[1..], key);
      hide *;
      MatchingAppend(a[1..], b, key);
      Regroup(first, Matching(a[1..], key), Matching(b, key));
    }
  }

  /** Listing by prefix first loses nothing, in any bucket and for any key. */
  lemma {:induction false} PrefixLosesNothing(names: seq<string>, key: string)
    ensures Matching(WithPrefix(names, Prefix(key)), key) == Globbed(names, key)
  {
    if names != [] {
      PrefixLosesNothing(names[1..], key);
      KeyMatchesGlob(key, names[0]);
      if KeyMatches(key, names[0]) {
        MatchHasPrefix(key, names[0]);
      }
      var first := if Prefix(key) <= names[0] then [names[0]] else [];
      MatchingAppend(first, WithPrefix(names[1..], Prefix(key)), key);
      assert first != [] ==> first[1..] == [];
    }
  }

  /* ---- The listing service ---- */

  /** An item of a listing page may come without a name. */
  type Page = seq<Option<string>>

  function Named(page: Page): seq<string> {
    if page == [] then []
    else (if page[0].Some? && page[0].value != "" then [page[0].value] else []) + Named(page[1..])
  }

  function AllNamed(pages: seq<Page>): seq<string> {
    if pages == [] then [] else Named(pages[0]) + AllNamed(pages[1..])
  }

  /** The names of all pages are those of their items, but for the missing and the empty ones, in order. */
  lemma {:induction false} AllNamedExactly(pages: seq<Page>, page: Page, item: Option<string>)
    ensures Named(page + [item]) ==
            Named(page) + match item { case None => [] case Some(n) => if n == "" then [] else [n] }
    ensures AllNamed(pages + [page]) == AllNamed(pages) + Named(page)
    ensures Named([]) == [] && AllNamed([]) == []
    decreases |pages| + |page|
  {
    if pages != [] {
      assert (pages + [page])[1..] == pages[1..] + [page];
      AllNamedExactly(pages[1..], page, item);
    } else {
      assert pages + [page] == [page] && [page][1..] == [];
      if page != [] {
        assert (page + [item])[1..] == page[1..] + [item];
        AllNamedExactly([], page[1..], item);
      } else {
        assert page + [item] == [item] && [item][1..] == [];
      }
    }
  }

  /** `listGCSObjectNames`: follows the page tokens; page i answers token i, the first needs none. */
  method ListObjectNames(pages: seq<Page>) returns (names: seq<string>)
    requires pages != []
    ensures names == AllNamed(pages)
  {
    names := [];
    var pageToken: Option<nat> := Some(0);
    while pageToken.Some?
      invariant pageToken.Some? ==> pageToken.value < |pages|
      invariant names + (if pageToken.Some? then AllNamed(pages[pageToken.value..]) else []) == AllNamed(pages)
      decreases if pageToken.Some? then |pages| - pageToken.value else 0
    {
      var i := pageToken.value;
      assert pages[i..][1..] == pages[i + 1..];
      Regroup(names, Named(pages[i]), AllNamed(pages[i + 1..]));
      names := names + Named(pages[i]);
      pageToken := if i + 1 < |pages| then Some(i + 1) else None;
    }
  }

  /** The handler: however the service cuts its answer into pages, the files are those the wildcards ask for. */
  method MatchingFiles(key: string, pages: seq<Page>, ghost bucket: seq<string>) returns (files: seq<string>)
    requires pages != [] && AllNamed(pages) == WithPrefix(bucket, Prefix(key))
    ensures files == Globbed(bucket, key)
  {
    PrefixLosesNothing(bucket, key);
    hide *;
    var names := ListObjectNames(pages);
    files := [];
    MatchingOne("", key);
    for i := 0 to |names|
      invariant files == Matching(names[..i], key)
    {
      assert names[..i + 1] == names[..i] + [names[i]];
      MatchingAppend(names[..i], [names[i]], key);
      MatchingOne(names[i], key);
      if KeyMatches(key, names[i]) {
        files := files + [names[i]];
      }
    }
    assert names[..|names|] == names;
  }

  lemma MatchingOne(name: string, key: string)
    ensures Matching([], key) == []
    ensures Matching([name], key) == if KeyMatches(key, name) then [name] else []
  {
    assert [name][1..] == [];
    hide KeyMatches;
  }
}
