/**
  Resolving a file on a pod's volume: which volume mount is picked, and where the file lies
  below that mount.  Paths are strings; `Normalize` and `JoinPaths` are those of `path.posix`.
 */
module VolumePaths {
  import opened Sequences
  import opened Strings
  import opened Wrappers

  /* ---- posix paths ---- */

  function Join(parts: seq<string>): string {
    if parts == [] then "" else if |parts| == 1 then parts[0] else parts[0] + ['/'] + Join(parts[1..])
  }

  /** Works the segments off: empty ones and dots vanish, two dots take the last name back. */
  function Reduce(parts: seq<string>, done: seq<string>, aboveRoot: bool): seq<string> {
    if parts == [] then done
    else if parts[0] == "" || parts[0] == "." then Reduce(parts[1..], done, aboveRoot)
    else if parts[0] == ".." then
      if done != [] && done[|done| - 1] != ".." then Reduce(parts[1..], done[..|done| - 1], aboveRoot)
      else Reduce(parts[1..], if aboveRoot then done + [".."] else done, aboveRoot)
    else Reduce(parts[1..], done + [parts[0]], aboveRoot)
  }

  predicate IsAbsolute(p: string) {
    p != "" && p[0] == '/'
  }

  function Normalize(p: string): string {
    if p == "" then "."
    else
      var text := Join(Reduce(Split(p, '/'), [], !IsAbsolute(p)));
      var slash := p[|p| - 1] == '/';
      if text == "" then if IsAbsolute(p) then "/" else if slash then "./" else "."
      else (if IsAbsolute(p) then "/" else "") + text + if slash then "/" else ""
  }

  function JoinPaths(a: string, b: string): string {
    if a == "" && b == "" then "."
    else if a == "" then Normalize(b)
    else if b == "" then Normalize(a)
    else Normalize(a + ['/'] + b)
  }

  /* ---- The code ---- */

  datatype Error =
    | InvalidPath | NotRelative | HasParentSegments | NotAbsolute | OutsideSubPath
    | NotConfigured | NoContainer | NotMounted

  const NUL: char := 0 as char

  function NormalizeRelative(p: string): Result<string, Error> {
    if NUL in p then Err(InvalidPath)
    else if p == "" then Ok("")
    else if IsAbsolute(p) then Err(NotRelative)
    else if ".." in Split(p, '/') then Err(HasParentSegments)
    else
      var n := Normalize(p);
      if n == "." || "../" <= n || n == ".." then Err(InvalidPath) else Ok(n)
  }

  /** The file is the sub path itself or lies below it. */
  predicate Below(file: string, sub: string) {
    file == sub || sub + "/" <= file
  }

  predicate IsInsideSubPath(file: string, sub: string) {
    var f, s := NormalizeRelative(file), NormalizeRelative(sub);
    f.Ok? && s.Ok? && Below(f.value, s.value)
  }

  /** An absent sub path is the empty string. */
  function Resolve(file: string, mountPath: string, subPath: string): Result<string, Error> {
    var f := NormalizeRelative(file);
    if f.Err? then f
    else
      var mount := Normalize(mountPath);
      if !IsAbsolute(mount) then Err(NotAbsolute)
      else if subPath == "" then Ok(JoinPaths(mount, f.value))
      else
        var s := NormalizeRelative(subPath);
        if s.Err? then s
        else if Below(f.value, s.value) then
          Ok(JoinPaths(mount, if f.value == s.value then "" else f.value[|s.value| + 1..]))
        else Err(OutsideSubPath)
  }

  datatype Mount = Mount(name: string, mountPath: string, subPath: string)

  datatype Container = Container(name: string, mounts: Option<seq<Mount>>)

  datatype Pod = Pod(volumes: Option<seq<string>>, containers: Option<seq<Container>>)

  /** Without names any container will do. */
  ghost predicate Asked(c: Container, names: Option<seq<string>>) {
    names.Some? ==> exists k :: 0 <= k < |names.value| && names.value[k] == c.name
  }

  /** The container at i is the first that is asked for. */
  ghost predicate FirstAsked(containers: seq<Container>, i: int, names: Option<seq<string>>) {
    && 0 <= i < |containers| && Asked(containers[i], names)
    && forall j :: 0 <= j < i ==> !Asked(containers[j], names)
  }

  function FindContainer(containers: seq<Container>, names: Option<seq<string>>): (r: Option<Container>)
    ensures r.Some? ==> exists i :: FirstAsked(containers, i, names) && containers[i] == r.value
    ensures r.None? ==> forall c :: c in containers ==> !Asked(c, names)
  {
    if containers == [] then None
    else if names.None? || containers[0].name in names.value then
      assert FirstAsked(containers, 0, names);
      Some(containers[0])
    else
      assert containers[0].name !in names.value;
      FirstAskedTail(containers, names);
      FindContainer(containers[1..], names)
  }

  lemma FirstAskedTail(containers: seq<Container>, names: Option<seq<string>>)
    requires containers != [] && !Asked(containers[0], names)
    ensures forall i :: FirstAsked(containers[1..], i, names) ==>
              FirstAsked(containers, i + 1, names) && containers[i + 1] == containers[1..][i]
  {
    hide Asked;
    forall i | FirstAsked(containers[1..], i, names) ensures FirstAsked(containers, i + 1, names) {
      assert forall j :: 0 < j < |containers| ==> containers[j] == containers[1..][j - 1];
    }
  }

  predicate Suits(m: Mount, volume: string, file: string) {
    m.name == volume && (m.subPath == "" || IsInsideSubPath(file, m.subPath))
  }

  /** The mount at i suits and none before it does. */
  ghost predicate FirstSuits(mounts: seq<Mount>, i: int, volume: string, file: string) {
    && 0 <= i < |mounts| && Suits(mounts[i], volume, file)
    && forall j :: 0 <= j < i ==> !Suits(mounts[j], volume, file)
  }

  lemma FirstSuitsTail(mounts: seq<Mount>, volume: string, file: string)
    requires mounts != [] && !Suits(mounts[0], volume, file)
    ensures forall i :: FirstSuits(mounts[1..], i, volume, file) ==>
              FirstSuits(mounts, i + 1, volume, file) && mounts[i + 1] == mounts[1..][i]
  {
    hide Suits;
    forall i | FirstSuits(mounts[1..], i, volume, file) ensures FirstSuits(mounts, i + 1, volume, file) {
      assert forall j :: 0 < j < |mounts| ==> mounts[j] == mounts[1..][j - 1];
    }
  }

  function FindMount(mounts: seq<Mount>, volume: string, file: string): (r: Option<Mount>)
    ensures r.Some? ==> exists i :: FirstSuits(mounts, i, volume, file) && mounts[i] == r.value
    ensures r.None? ==> forall m :: m in mounts ==> !Suits(m, volume, file)
  {
    if mounts == [] then None
    else if Suits(mounts[0], volume, file) then
      assert FirstSuits(mounts, 0, volume, file);
      Some(mounts[0])
    else
      FirstSuitsTail(mounts, volume, file);
      FindMount(mounts[1..], volume, file)
  }

  /** The mount that `findFileOnPodVolume` picks, or the first thing that is missing. */
  function PickMount(pod: Pod, names: Option<seq<string>>, volume: string, file: string): (r: Result<Mount, Error>)
    ensures r.Ok? ==> Suits(r.value, volume, file)
  {
    if pod.volumes.None? || volume !in pod.volumes.value then Err(NotConfigured)
    else
      var c := if pod.containers.Some? then FindContainer(pod.containers.value, names) else None;
      if c.None? then Err(NoContainer)
      else if c.value.mounts.None? then Err(NotMounted)
      else
        var m := FindMount(c.value.mounts.value, volume, file);
        if m.None? then Err(NotMounted) else Ok(m.value)
  }

  /** The mount at j of the container at i is the one to pick. */
  ghost predicate Picks(pod: Pod, names: Option<seq<string>>, volume: string, file: string, i: int, j: int) {
    && pod.containers.Some? && FirstAsked(pod.containers.value, i, names)
    && pod.containers.value[i].mounts.Some?
    && FirstSuits(pod.containers.value[i].mounts.value, j, volume, file)
  }

  /**
    Which mount is picked: the volume must be among those of the pod, the container is the first
    that is asked for, and the mount the first of it that suits.  What is missing first is reported.
   */
  lemma PickExactly(pod: Pod, names: Option<seq<string>>, volume: string, file: string)
    ensures
      var r := PickMount(pod, names, volume, file);
      var asked := if pod.containers.Some? then pod.containers.value else [];
      && (r == Err(NotConfigured) <==> (pod.volumes.Some? ==> volume !in pod.volumes.value))
      && (r == Err(NoContainer) <==> r != Err(NotConfigured) && forall c :: c in asked ==> !Asked(c, names))
      && (r.Ok? ==> exists i, j :: Picks(pod, names, volume, file, i, j)
                                   && pod.containers.value[i].mounts.value[j] == r.value)
      && (r == Err(NotMounted) ==> forall i, j :: !Picks(pod, names, volume, file, i, j))
      && (r.Err? ==> r == Err(NotConfigured) || r == Err(NoContainer) || r == Err(NotMounted))
  {
    hide Suits, Asked;
    var r := PickMount(pod, names, volume, file);
    if pod.volumes.Some? && volume in pod.volumes.value && pod.containers.Some? {
      var containers := pod.containers.value;
      var c := FindContainer(containers, names);
      if c.Some? {
        var i :| FirstAsked(containers, i, names) && containers[i] == c.value;
        FirstAskedOnce(containers, names, i);
        if r.Ok? {
          var mounts := containers[i].mounts.value;
          var j :| FirstSuits(mounts, j, volume, file) && mounts[j] == r.value;
          assert Picks(pod, names, volume, file, i, j);
        }
      }
    }
  }

  lemma FirstAskedOnce(containers: seq<Container>, names: Option<seq<string>>, i: int)
    requires FirstAsked(containers, i, names)
    ensures forall k :: FirstAsked(containers, k, names) ==> k == i
  {
    hide Asked;
  }

  /** What a mount must be: of that volume, and with a sub path only if the file is that path or below it. */
  lemma SuitsSpelled(m: Mount, volume: string, file: string)
    ensures
      Suits(m, volume, file) <==>
      && m.name == volume
      && (m.subPath != "" ==>
            var f, s := NormalizeRelative(file), NormalizeRelative(m.subPath);
            f.Ok? && s.Ok? && (f.value == s.value || exists rest :: f.value == s.value + "/" + rest))
  {
    if m.subPath != "" {
      var f, s := NormalizeRelative(file), NormalizeRelative(m.subPath);
      hide NormalizeRelative;
      if f.Ok? && s.Ok? {
        PrefixSpelled(s.value + "/", f.value);
      }
    }
  }

  lemma PrefixSpelled(a: string, s: string)
    ensures a <= s <==> exists rest :: s == a + rest
  {
    if a <= s {
      assert s == a + s[|a|..];
    }
  }

  /** The file's path and the root it must stay below. */
  function FindFile(pod: Pod, names: Option<seq<string>>, volume: string, file: string)
    : Result<(string, string), Error>
  {
    var m := PickMount(pod, names, volume, file);
    if m.Err? then Err(m.error)
    else
      var r := Resolve(file, m.value.mountPath, m.value.subPath);
      if r.Err? then Err(r.error) else Ok((r.value, Normalize(m.value.mountPath)))
  }

  /* ---- What normalising keeps ---- */

  /** The names along a path: its segments without the empty ones and the dots. */
  function Names(parts: seq<string>): seq<string> {
    if parts == [] then []
    else (if parts[0] == "" || parts[0] == "." then [] else [parts[0]]) + Names(parts[1..])
  }

  function PathNames(p: string): seq<string> {
    Names(Split(p, '/'))
  }

  lemma {:induction false} NamesAppend(a: seq<string>, b: seq<string>)
    ensures Names(a + b) == Names(a) + Names(b)
  {
    if a == [] {
      assert a + b == b;
    } else {
      NamesAppend(a[1..], b);
      assert (a + b)[0] == a[0] && (a + b)[1..] == a[1..] + b;
      var first: seq<string> := if a[0] == "" || a[0] == "." then [] else [a[0]];
      assert first + (Names(a[1..]) + Names(b)) == (first + Names(a[1..])) + Names(b);
    }
  }

  /** Without two dots, reducing only drops empty segments and dots. */
  lemma {:induction false} ReduceIsNames(parts: seq<string>, done: seq<string>, aboveRoot: bool)
    requires ".." !in parts
    ensures Reduce(parts, done, aboveRoot) == done + Names(parts)
  {
    if parts != [] {
      assert parts[0] in parts && forall x :: x in parts[1..] ==> x in parts;
      var first: seq<string> := if parts[0] == "" || parts[0] == "." then [] else [parts[0]];
      assert done + first == if first == [] then done else done + [parts[0]];
      assert Names(parts) == first + Names(parts[1..]);
      assert Reduce(parts, done, aboveRoot) == Reduce(parts[1..], done + first, aboveRoot);
      hide *;
      ReduceIsNames(parts[1..], done + first, aboveRoot);
      Regroup(done, first, Names(parts[1..]));
    }
  }

  /** A name: not empty, no dot, and without slashes. */
  ghost predicate IsName(s: string) {
    s != "" && s != "." && forall i :: 0 <= i < |s| ==> s[i] != '/'
  }

  ghost predicate AllNames(parts: seq<string>) {
    forall i :: 0 <= i < |parts| ==> IsName(parts[i])
  }

  lemma {:induction false} SplitHasNoSlash(s: string)
    ensures forall p :: p in Split(s, '/') ==> forall i :: 0 <= i < |p| ==> p[i] != '/'
    decreases |s|
  {
    var i := Find(s, '/');
    if i < |s| {
      SplitHasNoSlash(s[i + 1..]);
    }
  }

  lemma {:induction false} NamesAreNames(parts: seq<string>)
    requires forall p :: p in parts ==> forall i :: 0 <= i < |p| ==> p[i] != '/'
    ensures AllNames(Names(parts))
    ensures forall p :: p in Names(parts) ==> p in parts
  {
    if parts != [] {
      assert parts[0] in parts && forall x :: x in parts[1..] ==> x in parts;
      NamesAreNames(parts[1..]);
    }
  }

  /** Reducing from the root leaves names only, and none of them is two dots. */
  lemma {:induction false} ReduceFromRoot(parts: seq<string>, done: seq<string>)
    requires forall p :: p in parts ==> forall i :: 0 <= i < |p| ==> p[i] != '/'
    requires AllNames(done) && ".." !in done
    ensures AllNames(Reduce(parts, done, false)) && ".." !in Reduce(parts, done, false)
    decreases |parts|
  {
    if parts != [] {
      assert parts[0] in parts && forall x :: x in parts[1..] ==> x in parts;
      ReduceFromRoot(parts[1..], done);
      if parts[0] == "" || parts[0] == "." {
      } else if parts[0] == ".." {
        if done != [] {
          ReduceFromRoot(parts[1..], done[..|done| - 1]);
        }
      } else {
        ReduceFromRoot(parts[1..], done + [parts[0]]);
      }
    }
  }

  lemma {:induction false} SplitJoin(parts: seq<string>)
    requires AllNames(parts) && parts != []
    ensures Split(Join(parts), '/') == parts && Join(parts) != ""
  {
    if |parts| == 1 {
      SplitFirst(parts[0], '/', "");
    } else {
      SplitJoin(parts[1..]);
      SplitFirst(parts[0], '/', Join(parts[1..]));
      assert parts == [parts[0]] + parts[1..];
    }
  }

  lemma {:induction false} NamesOfNames(parts: seq<string>)
    requires AllNames(parts)
    ensures Names(parts) == parts
  {
    if parts != [] {
      NamesOfNames(parts[1..]);
      assert parts == [parts[0]] + parts[1..];
    }
  }

  lemma EmptyPath()
    ensures Split("", '/') == [""] && PathNames("") == []
  {
    assert Split("", '/') == [""];
    assert [""][1..] == [];
  }

  /** A slash at either end adds no name. */
  lemma EndSlashes(t: string)
    ensures PathNames(t + ['/']) == PathNames(t)
    ensures PathNames(['/'] + t) == PathNames(t)
  {
    EmptyPath();
    assert t + ['/'] == t + ['/'] + "" && ['/'] + t == "" + ['/'] + t;
    hide Split, Names;
    SplitConcat(t, '/', "");
    NamesAppend(Split(t, '/'), [""]);
    SplitConcat("", '/', t);
    NamesAppend([""], Split(t, '/'));
    assert Names([""]) == [];
  }

  /** The names along a joined list, with or without a slash before and behind it. */
  lemma NamesOfJoined(parts: seq<string>, front: bool, back: bool)
    requires AllNames(parts) && parts != []
    ensures PathNames((if front then "/" else "") + Join(parts) + (if back then "/" else "")) == parts
  {
    var text := Join(parts);
    SplitJoin(parts);
    NamesOfNames(parts);
    assert PathNames(text) == parts;
    hide *;
    var t := (if front then "/" else "") + text;
    assert t == if front then ['/'] + text else text;
    EndSlashes(text);
    EndSlashes(t);
    assert t + (if back then "/" else "") == if back then t + ['/'] else t;
  }

  /** Normalising a relative path without two dots keeps the names along it. */
  lemma RelativeKeepsNames(p: string)
    requires NormalizeRelative(p).Ok?
    ensures PathNames(NormalizeRelative(p).value) == PathNames(p)
    ensures ".." !in Split(p, '/') && ".." !in PathNames(p)
  {
    EmptyPath();
    if p != "" {
      ReduceIsNames(Split(p, '/'), [], true);
      SplitHasNoSlash(p);
      NamesAreNames(Split(p, '/'));
      assert [] + PathNames(p) == PathNames(p);
      if PathNames(p) != [] {
        SplitJoin(PathNames(p));
        NamesOfJoined(PathNames(p), false, p[|p| - 1] == '/');
      } else {
        DotSlash();
      }
    }
  }

  /**
    Which relative paths are accepted, and as which text: the names along the path joined by
    slashes, with a slash at the end if the path has one.
   */
  lemma NormalizeRelativeExactly(p: string)
    ensures
      var r, slash := NormalizeRelative(p), p != "" && p[|p| - 1] == '/';
      && (r.Ok? <==>
            || p == ""
            || ((0 as char) !in p && p[0] != '/' && ".." !in Split(p, '/') && (PathNames(p) != [] || slash)))
      && (r.Ok? && p != "" ==>
            r.value == (if PathNames(p) == [] then "." else Join(PathNames(p))) + if slash then "/" else "")
      && (p == "" ==> r.value == "")
  {
    if p != "" && p[0] != '/' && ".." !in Split(p, '/') {
      RelativeText(p);
    }
    hide Split, Normalize, PathNames, Join;
  }

  lemma RelativeText(p: string)
    requires p != "" && p[0] != '/' && ".." !in Split(p, '/')
    ensures
      var n, slash := Normalize(p), p[|p| - 1] == '/';
      && n == (if PathNames(p) == [] then "." else Join(PathNames(p))) + (if slash then "/" else "")
      && (n == "." <==> PathNames(p) == [] && !slash) && n != ".." && !("../" <= n)
  {
    var slash := p[|p| - 1] == '/';
    NormalizeNames(p);
    hide *;
    if PathNames(p) == [] {
      DotTexts();
    } else {
      PathNamesOrdinary(p);
      JoinedIsOrdinary(PathNames(p), slash);
    }
  }

  lemma DotTexts()
    ensures "." + "/" == "./" && "." + "" == "." && "./" != "." && "./" != ".." && !("../" <= "./") && !("../" <= ".")
  {
  }

  lemma PathNamesOrdinary(p: string)
    requires ".." !in Split(p, '/')
    ensures AllNames(PathNames(p)) && ".." !in PathNames(p)
  {
    hide Split, AllNames;
    SplitHasNoSlash(p);
    NamesAreNames(Split(p, '/'));
  }

  /** Without two dots, normalising a relative path drops the empty segments and the dots. */
  lemma NormalizeNames(p: string)
    requires p != "" && p[0] != '/' && ".." !in Split(p, '/')
    ensures Normalize(p) ==
            (if PathNames(p) == [] then "." else Join(PathNames(p))) + (if p[|p| - 1] == '/' then "/" else "")
  {
    var slash := p[|p| - 1] == '/';
    ReducedNames(p);
    PathNamesOrdinary(p);
    NormalizeRelativeText(p);
    hide *;
    if PathNames(p) == [] {
      NoNames();
      DotTexts();
    } else {
      SplitJoin(PathNames(p));
    }
  }

  lemma NoNames()
    ensures Join([]) == ""
  {
  }

  lemma ReducedNames(p: string)
    requires ".." !in Split(p, '/')
    ensures Reduce(Split(p, '/'), [], true) == PathNames(p)
  {
    ReduceIsNames(Split(p, '/'), [], true);
    assert [] + PathNames(p) == PathNames(p);
  }

  lemma NormalizeRelativeText(p: string)
    requires p != "" && p[0] != '/'
    ensures var text, slash := Join(Reduce(Split(p, '/'), [], true)), p[|p| - 1] == '/';
            Normalize(p) == if text == "" then if slash then "./" else "." else text + if slash then "/" else ""
  {
    hide Split, Reduce, Join;
    var text := Join(Reduce(Split(p, '/'), [], true));
    assert "" + text == text;
  }

  /** The text of names without two dots among them is neither a dot nor leads up. */
  lemma JoinedIsOrdinary(names: seq<string>, slash: bool)
    requires AllNames(names) && names != [] && ".." !in names
    ensures var n := Join(names) + if slash then "/" else "";
            n != "." && n != ".." && !("../" <= n) && n != ""
  {
    var n := Join(names) + if slash then "/" else "";
    JoinedSplits(names, slash);
    assert names[0] in names;
    hide *;
    StartsOrdinary(n, Split(n, '/'));
  }

  lemma JoinedSplits(names: seq<string>, slash: bool)
    requires AllNames(names) && names != []
    ensures var n := Join(names) + if slash then "/" else "";
            var parts := Split(n, '/');
            n != "" && parts != [] && parts[0] == names[0] && IsName(parts[0])
  {
    var text := Join(names);
    SplitJoin(names);
    EmptyPath();
    assert IsName(names[0]);
    hide *;
    if slash {
      SplitConcat(text, '/', "");
      assert text + "/" == text + ['/'] + "";
    } else {
      assert text + "" == text;
    }
  }

  /** A path whose first segment is a name other than two dots. */
  lemma StartsOrdinary(n: string, parts: seq<string>)
    requires parts == Split(n, '/') && parts != [] && IsName(parts[0]) && parts[0] != ".."
    ensures n != "." && n != ".." && !("../" <= n)
  {
    SplitFirst(".", '/', "");
    SplitFirst("..", '/', "");
    if "../" <= n {
      var rest := n[3..];
      assert n == ".." + ['/'] + rest;
      SplitFirst("..", '/', rest);
    }
    hide Split;
  }

  /* ---- What two dots do ---- */

  /** The list after one segment. */
  function Worked(part: string, done: seq<string>, aboveRoot: bool): seq<string> {
    if part == "" || part == "." then done
    else if part != ".." then done + [part]
    else if done != [] && done[|done| - 1] != ".." then done[..|done| - 1]
    else if aboveRoot then done + [".."] else done
  }

  lemma ReduceStep(part: string, parts: seq<string>, done: seq<string>, aboveRoot: bool)
    ensures Reduce([part] + parts, done, aboveRoot) == Reduce(parts, Worked(part, done, aboveRoot), aboveRoot)
  {
    assert ([part] + parts)[1..] == parts;
  }

  /** Two dots take back the name before them, wherever the two stand. */
  lemma {:induction false} ParentUndoes(a: seq<string>, x: string, b: seq<string>, done: seq<string>, aboveRoot: bool)
    requires IsName(x) && x != ".."
    ensures Reduce(a + [x, ".."] + b, done, aboveRoot) == Reduce(a + b, done, aboveRoot)
    decreases |a|
  {
    hide Reduce;
    if a == [] {
      assert a + [x, ".."] + b == [x] + ([".."] + b) && a + b == b;
      ReduceStep(x, [".."] + b, done, aboveRoot);
      ReduceStep("..", b, done + [x], aboveRoot);
      assert (done + [x])[..|done|] == done;
    } else {
      assert a + [x, ".."] + b == [a[0]] + (a[1..] + [x, ".."] + b) && a + b == [a[0]] + (a[1..] + b);
      ReduceStep(a[0], a[1..] + [x, ".."] + b, done, aboveRoot);
      ReduceStep(a[0], a[1..] + b, done, aboveRoot);
      ParentUndoes(a[1..], x, b, Worked(a[0], done, aboveRoot), aboveRoot);
    }
  }

  /** At the root they do nothing; at the start of a relative path they stay. */
  lemma ParentAtStart(b: seq<string>)
    ensures Reduce([".."] + b, [], false) == Reduce(b, [], false)
    ensures Reduce([".."] + b, [], true) == Reduce(b, [".."], true)
  {
    assert ([".."] + b)[1..] == b;
    assert [] + [".."] == [".."];
  }

  /** The text of a normalised absolute path. */
  lemma AbsoluteSpelled(p: string)
    requires IsAbsolute(p)
    ensures var parts := Reduce(Split(p, '/'), [], false);
            Normalize(p) ==
              if parts == [] then "/" else "/" + Join(parts) + if p[|p| - 1] == '/' then "/" else ""
  {
    SplitHasNoSlash(p);
    ReduceFromRoot(Split(p, '/'), []);
    var parts := Reduce(Split(p, '/'), [], false);
    if parts != [] {
      SplitJoin(parts);
    }
  }

  lemma DotSlash()
    ensures PathNames("./") == []
  {
    SplitFirst(".", '/', "");
    assert "./" == "." + ['/'] + "";
    EmptyPath();
    NamesAppend(["."], [""]);
  }

  /** A normalised absolute path: a slash and names, none of them two dots. */
  lemma AbsoluteNames(p: string)
    requires IsAbsolute(p)
    ensures IsAbsolute(Normalize(p))
    ensures PathNames(Normalize(p)) == Reduce(Split(p, '/'), [], false)
    ensures ".." !in PathNames(Normalize(p)) && ".." !in Split(Normalize(p), '/')
  {
    var parts := Reduce(Split(p, '/'), [], false);
    SplitHasNoSlash(p);
    ReduceFromRoot(Split(p, '/'), []);
    var n := Normalize(p);
    if parts == [] {
      SplitFirst("", '/', "");
      EmptyPath();
      assert "/" == "" + ['/'] + "";
      NamesAppend([""], [""]);
    } else {
      SplitJoin(parts);
      NamesOfJoined(parts, true, p[|p| - 1] == '/');
    }
    NoParentAmongParts(Split(n, '/'));
  }

  lemma {:induction false} NoParentAmongParts(parts: seq<string>)
    ensures ".." in parts ==> ".." in Names(parts)
  {
    if parts != [] {
      NoParentAmongParts(parts[1..]);
    }
  }

  /* ---- Where the file ends up ---- */

  /** Joining a mount and a path without two dots appends the names. */
  lemma JoinedNames(mountPath: string, rel: string)
    requires IsAbsolute(mountPath) && ".." !in Split(rel, '/')
    ensures var mount, path := Normalize(mountPath), JoinPaths(Normalize(mountPath), rel);
            && IsAbsolute(path)
            && PathNames(path) == PathNames(mount) + PathNames(rel)
            && ".." !in PathNames(path)
  {
    var mount := Normalize(mountPath);
    AbsoluteNames(mountPath);
    EmptyPath();
    if rel == "" {
      AbsoluteNames(mount);
      ReduceIsNames(Split(mount, '/'), [], false);
    } else {
      var joined := mount + ['/'] + rel;
      SplitConcat(mount, '/', rel);
      assert ".." !in Split(joined, '/');
      assert joined[0] == mount[0];
      AbsoluteNames(joined);
      ReduceIsNames(Split(joined, '/'), [], false);
      NamesAppend(Split(mount, '/'), Split(rel, '/'));
    }
  }

  /** What is left of a file below a sub path are the file's names without those of the sub path. */
  lemma BelowNames(file: string, sub: string)
    requires Below(file, sub)
    ensures var rel := if file == sub then "" else file[|sub| + 1..];
            && PathNames(file) == PathNames(sub) + PathNames(rel)
            && (".." !in PathNames(file) ==> ".." !in Split(rel, '/'))
  {
    EmptyPath();
    if file != sub {
      var rel := file[|sub| + 1..];
      assert file == sub + ['/'] + rel;
      SplitConcat(sub, '/', rel);
      NamesAppend(Split(sub, '/'), Split(rel, '/'));
      NoParentAmongParts(Split(rel, '/'));
    }
  }

  /** The file's own names below the mount: without those of the sub path. */
  function NamesBelow(file: string, subPath: string): seq<string> {
    var n := |PathNames(subPath)|;
    if subPath == "" || n > |PathNames(file)| then PathNames(file) else PathNames(file)[n..]
  }

  /** Every resolved path is the mount's names followed by the file's names below the sub path. */
  lemma ResolvedInsideMount(file: string, mountPath: string, subPath: string)
    requires Resolve(file, mountPath, subPath).Ok?
    ensures var path := Resolve(file, mountPath, subPath).value;
            && IsAbsolute(path)
            && PathNames(path) == PathNames(Normalize(mountPath)) + NamesBelow(file, subPath)
            && ".." !in PathNames(path)
            && (subPath != "" ==> PathNames(subPath) <= PathNames(file))
  {
    var f := NormalizeRelative(file).value;
    MountAbsolute(mountPath);
    RelativeKeepsNames(file);
    NoParentAmongParts(Split(f, '/'));
    if subPath == "" {
      JoinedNames(mountPath, f);
    } else {
      var s := NormalizeRelative(subPath).value;
      RelativeKeepsNames(subPath);
      BelowNames(f, s);
      JoinedNames(mountPath, if f == s then "" else f[|s| + 1..]);
    }
  }

  lemma MountAbsolute(mountPath: string)
    ensures IsAbsolute(Normalize(mountPath)) <==> IsAbsolute(mountPath)
  {
    if IsAbsolute(mountPath) {
      AbsoluteNames(mountPath);
    } else if mountPath != "" {
      RelativeStays(Split(mountPath, '/'), []);
      SplitHasNoSlash(mountPath);
    }
  }

  /** Reducing a relative path leaves segments without slashes, none of them empty. */
  lemma {:induction false} RelativeStays(parts: seq<string>, done: seq<string>)
    requires AllNames(done)
    ensures (forall p :: p in parts ==> forall i :: 0 <= i < |p| ==> p[i] != '/') ==>
              Join(Reduce(parts, done, true)) == "" || Join(Reduce(parts, done, true))[0] != '/'
    decreases |parts|
  {
    if forall p :: p in parts ==> forall i :: 0 <= i < |p| ==> p[i] != '/' {
      if parts == [] {
        if done != [] {
          assert IsName(done[0]);
          assert Join(done)[0] == done[0][0];
        }
      } else {
        assert parts[0] in parts && forall x :: x in parts[1..] ==> x in parts;
        RelativeStays(parts[1..], done);
        if parts[0] == ".." {
          if done != [] && done[|done| - 1] != ".." {
            RelativeStays(parts[1..], done[..|done| - 1]);
          } else {
            RelativeStays(parts[1..], done + [".."]);
          }
        } else if parts[0] != "" && parts[0] != "." {
          RelativeStays(parts[1..], done + [parts[0]]);
        }
      }
    }
  }

  /**
    Once a mount is picked, resolving fails exactly for a relative mount path or, without a
    sub path, a bad file path.
   */
  lemma PickedResolvesExactly(pod: Pod, names: Option<seq<string>>, volume: string, file: string)
    requires PickMount(pod, names, volume, file).Ok?
    ensures var m := PickMount(pod, names, volume, file).value;
            FindFile(pod, names, volume, file).Ok? <==>
            IsAbsolute(m.mountPath) && (m.subPath != "" || NormalizeRelative(file).Ok?)
  {
    MountAbsolute(PickMount(pod, names, volume, file).value.mountPath);
  }

  /** Whatever `findFileOnPodVolume` returns lies below the root it returns with it. */
  lemma FoundInsideMount(pod: Pod, names: Option<seq<string>>, volume: string, file: string)
    requires FindFile(pod, names, volume, file).Ok?
    ensures var (path, root) := FindFile(pod, names, volume, file).value;
            var m := PickMount(pod, names, volume, file).value;
            && IsAbsolute(path) && root == Normalize(m.mountPath)
            && PathNames(path) == PathNames(root) + NamesBelow(file, m.subPath)
            && ".." !in PathNames(path)
  {
    var m := PickMount(pod, names, volume, file).value;
    ResolvedInsideMount(file, m.mountPath, m.subPath);
  }
}
