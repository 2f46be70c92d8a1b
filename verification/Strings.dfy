/** Searching a string for a character and splitting it there. */
module Strings {

  /** The first place of `c` in `s`, or the length of `s`. */
  function Find(s: string, c: char): (i: nat)
    ensures i <= |s|
    ensures forall j :: 0 <= j < i ==> s[j] != c
    ensures i < |s| ==> s[i] == c
  {
    if s == "" || s[0] == c then 0 else 1 + Find(s[1..], c)
  }

  function Split(s: string, c: char): (parts: seq<string>)
    ensures parts != []
    decreases |s|
  {
    var i := Find(s, c);
    if i == |s| then [s] else [s[..i]] + Split(s[i + 1..], c)
  }

  ghost predicate Without(s: string, c: char) {
    forall i :: 0 <= i < |s| ==> s[i] != c
  }

  lemma FindAt(a: string, c: char, rest: string)
    requires Without(a, c)
    ensures Find(a + [c] + rest, c) == |a|
  {
    var s := a + [c] + rest;
    assert s[|a|] == c;
    assert forall i :: 0 <= i < |a| ==> s[i] == a[i];
  }

  lemma FindNone(a: string, c: char)
    requires Without(a, c)
    ensures Find(a, c) == |a|
  {
  }

  /** What does not hold the character is passed over. */
  lemma FindBehind(a: string, b: string, c: char)
    requires Without(a, c)
    ensures Find(a + b, c) == |a| + Find(b, c)
  {
    var s, i := a + b, Find(b, c);
    assert forall j :: 0 <= j < |a| ==> s[j] == a[j];
    assert forall j :: 0 <= j < |b| ==> s[|a| + j] == b[j];
  }

  lemma SplitFirst(a: string, c: char, b: string)
    requires Without(a, c)
    ensures Split(a + [c] + b, c) == [a] + Split(b, c)
    ensures Split(a, c) == [a]
  {
    var s := a + [c] + b;
    FindAt(a, c, b);
    FindNone(a, c);
    assert s[..|a|] == a && s[|a| + 1..] == b;
  }

  lemma CutAt(a: string, c: char) returns (h: string, t: string)
    requires Find(a, c) < |a|
    ensures a == h + [c] + t && Without(h, c)
  {
    var i := Find(a, c);
    h, t := a[..i], a[i + 1..];
  }

  /** Splitting behind any occurrence splits the list. */
  lemma {:induction false} SplitConcat(a: string, c: char, b: string)
    ensures Split(a + [c] + b, c) == Split(a, c) + Split(b, c)
    decreases |a|
  {
    hide Split;
    if Find(a, c) == |a| {
      SplitFirst(a, c, b);
    } else {
      var h, t := CutAt(a, c);
      SplitFirst(h, c, t);
      SplitFirst(h, c, t + [c] + b);
      SplitConcat(t, c, b);
      hide *;
      assert a + [c] + b == h + [c] + (t + [c] + b);
      assert [h] + (Split(t, c) + Split(b, c)) == ([h] + Split(t, c)) + Split(b, c);
    }
  }
}
