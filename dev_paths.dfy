/**
 Path handling of dev mode: turning a `file://` image reference into the
 project's source root, and the component-wise prefix test on paths that
 decides which registered roots a filesystem event falls under.
 */
module DevPaths {
  import opened Helper
  import opened Manifest

  // ---------------------------------------------------------------------------
  // `String::replace(pat, "")`
  // ---------------------------------------------------------------------------

  /** The local-artifact scheme marker. */
  const FileScheme: string := "file://"

  predicate OccursAt(s: string, pat: string, i: nat)
  {
    i + |pat| <= |s| && s[i..i + |pat|] == pat
  }

  /**
   `s.replace(pat, "")`: removes the non-overlapping occurrences of `pat` found
   scanning from left to right.
   */
  function RemoveAll(s: string, pat: string): (r: string)
    requires |pat| > 0
    ensures |r| <= |s|
    decreases |s|
  {
    if |s| < |pat| then s
    else if s[..|pat|] == pat then RemoveAll(s[|pat|..], pat)
    else [s[0]] + RemoveAll(s[1..], pat)
  }

  /** A string without any occurrence of `pat` is left as it is. */
  lemma {:induction false} RemoveAllAbsent(s: string, pat: string)
    requires |pat| > 0
    requires forall i :: 0 <= i <= |s| ==> !OccursAt(s, pat, i)
    ensures RemoveAll(s, pat) == s
  {
    if |s| >= |pat| {
      assert !OccursAt(s, pat, 0);
      forall i | 0 <= i <= |s[1..]|
        ensures !OccursAt(s[1..], pat, i)
      {
        assert !OccursAt(s, pat, i + 1);
        if i + |pat| <= |s[1..]| {
          assert s[1..][i..i + |pat|] == s[i + 1..i + 1 + |pat|];
        }
      }
      RemoveAllAbsent(s[1..], pat);
      assert s == [s[0]] + s[1..];
    }
  }

  /** A string not starting with `pat` keeps its first character. */
  lemma RemoveAllKeeps(c: char, t: string, pat: string)
    requires |pat| > 0
    requires |t| + 1 < |pat| || ([c] + t)[..|pat|] != pat
    ensures RemoveAll([c] + t, pat) == [c] + RemoveAll(t, pat)
  {
    assert ([c] + t)[1..] == t;
  }

  /** A string starting with `pat` loses that occurrence. */
  lemma RemoveAllDrops(t: string, pat: string)
    requires |pat| > 0
    ensures RemoveAll(pat + t, pat) == RemoveAll(t, pat)
  {
    assert (pat + t)[..|pat|] == pat && (pat + t)[|pat|..] == t;
  }

  /**
   The removal is of all occurrences found in one pass, not a fixed point:
   removing an inner occurrence can join the pieces around it into a new one.
   */
  lemma RemoveAllMayLeaveScheme()
    ensures RemoveAll("fil" + FileScheme + "e://", FileScheme) == FileScheme
  {
    var tail := "e://";
    assert RemoveAll(tail, FileScheme) == tail;
    RemoveAllDrops(tail, FileScheme);
    var t1 := FileScheme + tail;
    var t2 := ['l'] + t1;
    var t3 := ['i'] + t2;
    var t4 := ['f'] + t3;
    assert t2[..7][1] != FileScheme[1];
    RemoveAllKeeps('l', t1, FileScheme);
    assert t3[..7][1] != FileScheme[1];
    RemoveAllKeeps('i', t2, FileScheme);
    assert t4[..7][3] != FileScheme[3];
    RemoveAllKeeps('f', t3, FileScheme);
    assert RemoveAll(t4, FileScheme) == ['f'] + (['i'] + (['l'] + tail));
    assert ['f'] + (['i'] + (['l'] + tail)) == FileScheme;
    assert "fil" + FileScheme + tail == t4;
  }

  // ---------------------------------------------------------------------------
  // `Regex::replace(s, "")` for `/build/([^/]+)\.wasm` and `/build/([^/]+)\.par.gz`
  // ---------------------------------------------------------------------------

  /** The two build-output patterns; in the second the dot before `gz` is unescaped. */
  datatype ArtifactPattern =
    | WasmModule    // `/build/([^/]+)\.wasm`
    | ParGzArchive  // `/build/([^/]+)\.par.gz`

  const BuildDir: string := "/build/"

  /** Length of the literal tail that follows `[^/]+`. */
  function TailLength(pat: ArtifactPattern): nat
  {
    match pat
    case WasmModule => 5
    case ParGzArchive => 7
  }

  /** The tail of the pattern matches at `j`; an unescaped `.` matches anything but a newline. */
  predicate TailAt(s: string, j: int, pat: ArtifactPattern)
  {
    0 <= j && j + TailLength(pat) <= |s| &&
    match pat
    case WasmModule => s[j..j + 5] == ".wasm"
    case ParGzArchive => s[j..j + 4] == ".par" && s[j + 4] != '\n' && s[j + 5..j + 7] == "gz"
  }

  predicate BuildDirAt(s: string, i: int)
  {
    0 <= i && i + |BuildDir| <= |s| && s[i..i + |BuildDir|] == BuildDir
  }

  predicate NoSlash(s: string, from: nat, to: nat)
    requires from <= to <= |s|
  {
    forall k :: from <= k < to ==> s[k] != '/'
  }

  /** `s[i..e]` is a match of the pattern: `/build/`, one or more non-slashes, the tail. */
  predicate IsMatch(s: string, i: int, e: int, pat: ArtifactPattern)
  {
    && BuildDirAt(s, i)
    && i + |BuildDir| + TailLength(pat) < e <= |s|
    && NoSlash(s, i + |BuildDir|, e - TailLength(pat))
    && TailAt(s, e - TailLength(pat), pat)
  }

  /** The end of the run of non-slash characters that starts at `from`. */
  function RunEnd(s: string, from: nat): (k: nat)
    requires from <= |s|
    ensures from <= k <= |s| && NoSlash(s, from, k)
    ensures k < |s| ==> s[k] == '/'
    decreases |s| - from
  {
    if from == |s| || s[from] == '/' then from else RunEnd(s, from + 1)
  }

  /**
   Backtracking of the greedy `[^/]+`: the largest `j` in `(lo, hi]` at which
   the tail matches.
   */
  function Backtrack(s: string, lo: nat, hi: nat, pat: ArtifactPattern): (r: Option<nat>)
    ensures r.Some? ==> lo < r.value <= hi && TailAt(s, r.value, pat)
    ensures r.Some? ==> forall j :: r.value < j <= hi ==> !TailAt(s, j, pat)
    ensures r.None? ==> forall j :: lo < j <= hi ==> !TailAt(s, j, pat)
    decreases hi
  {
    if hi <= lo then None
    else if TailAt(s, hi, pat) then Some(hi)
    else Backtrack(s, lo, hi - 1, pat)
  }

  /** The end of the preferred match starting at `i`, if any: the longest one. */
  function MatchEndAt(s: string, i: nat, pat: ArtifactPattern): (r: Option<nat>)
    ensures r.Some? ==> IsMatch(s, i, r.value, pat)
    ensures r.Some? ==> forall e :: IsMatch(s, i, e, pat) ==> e <= r.value
    ensures r.None? ==> forall e :: !IsMatch(s, i, e, pat)
  {
    if BuildDirAt(s, i) then
      var lo := i + |BuildDir|;
      var k := RunEnd(s, lo);
      var b := Backtrack(s, lo, k, pat);
      assert forall e :: IsMatch(s, i, e, pat) ==> e - TailLength(pat) <= k;
      match b
      case None => None
      case Some(j) =>
        assert NoSlash(s, lo, j);
        Some(j + TailLength(pat))
    else None
  }

  /** The leftmost match starting at or after `from`, with its preferred end. */
  function FirstMatch(s: string, from: nat, pat: ArtifactPattern): (r: Option<(nat, nat)>)
    requires from <= |s|
    ensures r.Some? ==> from <= r.value.0 && IsMatch(s, r.value.0, r.value.1, pat)
    ensures r.Some? ==> forall e :: IsMatch(s, r.value.0, e, pat) ==> e <= r.value.1
    ensures r.Some? ==> forall i, e :: from <= i < r.value.0 ==> !IsMatch(s, i, e, pat)
    ensures r.None? ==> forall i, e :: from <= i ==> !IsMatch(s, i, e, pat)
    decreases |s| - from
  {
    match MatchEndAt(s, from, pat)
    case Some(e) => Some((from, e))
    case None =>
      if from == |s| then None else FirstMatch(s, from + 1, pat)
  }

  /**
   `Regex::replace(s, "")`: removes the leftmost match, taking the longest one
   that starts there; a string without a match is returned as it is.
   */
  function ReplaceFirst(s: string, pat: ArtifactPattern): (r: string)
    ensures (forall i, e :: !IsMatch(s, i, e, pat)) ==> r == s
    ensures forall i, e ::
      && IsMatch(s, i, e, pat)
      && (forall i', e' :: i' < i ==> !IsMatch(s, i', e', pat))
      && (forall e' :: IsMatch(s, i, e', pat) ==> e' <= e)
      ==> i <= e <= |s| && r == s[..i] + s[e..]
  {
    var m := FirstMatch(s, 0, pat);
    if m.Some? then
      var (i0, e0) := m.value;
      assert forall i, e ::
        && IsMatch(s, i, e, pat)
        && (forall i', e' :: i' < i ==> !IsMatch(s, i', e', pat))
        && (forall e' :: IsMatch(s, i, e', pat) ==> e' <= e)
        ==> i == i0 && e == e0;
      s[..i0] + s[e0..]
    else
      s
  }

  // ---------------------------------------------------------------------------
  // From image reference to source root
  // ---------------------------------------------------------------------------

  /** `image.starts_with("file://")`. */
  predicate IsLocalImage(image: string)
  {
    |image| >= |FileScheme| && image[..|FileScheme|] == FileScheme
  }

  /** The artifact path handed to the inspection: every `file://` removed. */
  function RawArtifactPath(image: string): string
  {
    RemoveAll(image, FileScheme)
  }

  /**
   The key a local component is filed under: actors lose the module pattern
   and then the archive pattern, capability providers the archive pattern only.
   */
  function NormalizedPath(props: Properties): string
  {
    match props
    case ActorComponent(image) =>
      ReplaceFirst(ReplaceFirst(RawArtifactPath(image), WasmModule), ParGzArchive)
    case CapabilityComponent(image) =>
      ReplaceFirst(RawArtifactPath(image), ParGzArchive)
  }

  /** A `file://` reference whose rest holds no further `file://` yields that rest. */
  lemma RawArtifactPathOfLocal(path: string)
    requires NoFileScheme(path)
    ensures RawArtifactPath(FileScheme + path) == path
  {
    var s := FileScheme + path;
    assert s[..|FileScheme|] == FileScheme && s[|FileScheme|..] == path;
    RemoveAllAbsent(path, FileScheme);
  }

  /** A string holding no `/build/` has no match of either pattern. */
  lemma NoBuildDirNoMatch(s: string, pat: ArtifactPattern)
    requires NoBuildDirBefore(s, |s|)
    ensures ReplaceFirst(s, pat) == s
  {
  }

  /**
   The build-output convention: a path `<root>/build/<name><tail>` with a
   non-empty, slash-free `name` is matched from the `/build/` after `root` to
   the end, provided no `/build/` starts inside `root`.
   */
  lemma {:induction false} StripsBuildOutput(root: string, rest: string, pat: ArtifactPattern)
    requires |rest| > TailLength(pat)
    requires NoSlash(rest, 0, |rest| - TailLength(pat))
    requires TailAt(rest, |rest| - TailLength(pat), pat)
    requires NoBuildDirBefore(root + BuildDir + rest, |root|)
    ensures ReplaceFirst(root + BuildDir + rest, pat) == root
  {
    var s := root + BuildDir + rest;
    var i, e := |root|, |s|;
    var t := TailLength(pat);
    assert s[i..i + |BuildDir|] == BuildDir;
    assert s[i + |BuildDir|..] == rest;
    forall k | i + |BuildDir| <= k < e - t
      ensures s[k] != '/'
    {
      assert s[k] == rest[k - i - |BuildDir|];
    }
    assert s[e - t..] == rest[|rest| - t..];
    match pat {
      case WasmModule =>
        assert s[e - t..e - t + 5] == rest[|rest| - t..|rest| - t + 5];
      case ParGzArchive =>
        assert s[e - t..e - t + 4] == rest[|rest| - t..|rest| - t + 4];
        assert s[e - t + 4] == rest[|rest| - t + 4];
        assert s[e - t + 5..e - t + 7] == rest[|rest| - t + 5..|rest| - t + 7];
    }
    assert IsMatch(s, i, e, pat);
    assert s[..i] == root;
  }

  /** No `file://` occurs anywhere in `s`. */
  ghost predicate NoFileScheme(s: string)
  {
    forall i :: 0 <= i <= |s| ==> !OccursAt(s, FileScheme, i)
  }

  /** No `/build/` starts in the first `n` characters of `s`. */
  ghost predicate NoBuildDirBefore(s: string, n: nat)
  {
    forall i :: 0 <= i < n ==> !BuildDirAt(s, i)
  }

  /** A prefix of a string with no `/build/` starting in its first `|root|` characters holds no `/build/`. */
  lemma NoBuildDirInPrefix(root: string, rest: string)
    requires NoBuildDirBefore(root + rest, |root|)
    ensures NoBuildDirBefore(root, |root|)
  {
    forall i | 0 <= i < |root|
      ensures !BuildDirAt(root, i)
    {
      assert !BuildDirAt(root + rest, i);
      if i + |BuildDir| <= |root| {
        assert (root + rest)[i..i + |BuildDir|] == root[i..i + |BuildDir|];
      }
    }
  }

  /** `<name>.wasm` with a non-empty slash-free name fits `[^/]+\.wasm`. */
  lemma ModuleFileName(name: string)
    requires name != [] && '/' !in name
    ensures |name + ".wasm"| > TailLength(WasmModule)
    ensures NoSlash(name + ".wasm", 0, |name + ".wasm"| - TailLength(WasmModule))
    ensures TailAt(name + ".wasm", |name + ".wasm"| - TailLength(WasmModule), WasmModule)
  {
    var rest := name + ".wasm";
    assert rest[|name|..] == ".wasm";
    forall k | 0 <= k < |name|
      ensures rest[k] != '/'
    {
      assert rest[k] == name[k];
    }
  }

  /** `<name>.par<c>gz` with a non-empty slash-free name fits `[^/]+\.par.gz` when `c` is not a newline. */
  lemma ArchiveFileName(name: string, c: char)
    requires name != [] && '/' !in name && c != '\n'
    ensures |name + ".par" + [c] + "gz"| > TailLength(ParGzArchive)
    ensures NoSlash(name + ".par" + [c] + "gz", 0, |name + ".par" + [c] + "gz"| - TailLength(ParGzArchive))
    ensures TailAt(name + ".par" + [c] + "gz", |name + ".par" + [c] + "gz"| - TailLength(ParGzArchive), ParGzArchive)
  {
    var rest := name + ".par" + [c] + "gz";
    var j := |name|;
    assert rest[j..j + 4] == ".par";
    assert rest[j + 4] == c;
    assert rest[j + 5..j + 7] == "gz";
    forall k | 0 <= k < |name|
      ensures rest[k] != '/'
    {
      assert rest[k] == name[k];
    }
  }

  /**
   An actor image `file://<root>/build/<name>.wasm` normalises to `root`, given
   that `name` is non-empty and slash-free and that no `/build/` starts inside
   `root` and no further `file://` occurs.
   */
  lemma ActorSourceRoot(root: string, name: string)
    requires name != [] && '/' !in name
    requires NoFileScheme(root + BuildDir + name + ".wasm")
    requires NoBuildDirBefore(root + BuildDir + name + ".wasm", |root|)
    ensures NormalizedPath(ActorComponent(FileScheme + root + BuildDir + name + ".wasm")) == root
  {
    var rest := name + ".wasm";
    var path := root + BuildDir + rest;
    assert root + BuildDir + name + ".wasm" == path;
    assert FileScheme + root + BuildDir + name + ".wasm" == FileScheme + path;
    RawArtifactPathOfLocal(path);
    ModuleFileName(name);
    StripsBuildOutput(root, rest, WasmModule);
    assert path == root + (BuildDir + rest);
    NoBuildDirInPrefix(root, BuildDir + rest);
    NoBuildDirNoMatch(root, ParGzArchive);
  }

  /**
   A provider image `file://<root>/build/<name>.par<c>gz` normalises to `root`
   for any character `c` but a newline, because the dot before `gz` is not
   escaped.
   */
  lemma ProviderSourceRoot(root: string, name: string, c: char)
    requires name != [] && '/' !in name && c != '\n'
    requires NoFileScheme(root + BuildDir + name + ".par" + [c] + "gz")
    requires NoBuildDirBefore(root + BuildDir + name + ".par" + [c] + "gz", |root|)
    ensures NormalizedPath(CapabilityComponent(FileScheme + root + BuildDir + name + ".par" + [c] + "gz")) == root
  {
    var rest := name + ".par" + [c] + "gz";
    var path := root + BuildDir + rest;
    assert root + BuildDir + name + ".par" + [c] + "gz" == path;
    assert FileScheme + root + BuildDir + name + ".par" + [c] + "gz" == FileScheme + path;
    RawArtifactPathOfLocal(path);
    ArchiveFileName(name, c);
    StripsBuildOutput(root, rest, ParGzArchive);
  }

  // ---------------------------------------------------------------------------
  // `Path::components` and `Path::starts_with`
  // ---------------------------------------------------------------------------

  /** A component of a Unix path. */
  datatype PathComponent = RootDir | CurDir | ParentDir | Normal(name: string)

  /** The components named by separator-delimited pieces: empty pieces and `.` name none. */
  function NormalComponents(pieces: seq<string>): (cs: seq<PathComponent>)
    ensures |cs| <= |pieces|
    ensures RootDir !in cs && CurDir !in cs
  {
    if pieces == [] then []
    else
      var p := pieces[0];
      (if p == "" || p == "." then []
       else if p == ".." then [ParentDir]
       else [Normal(p)])
      + NormalComponents(pieces[1..])
  }

  /**
   `Path::components` on Unix: a leading `/` is the root, repeated separators
   and `.` pieces are dropped except for a leading `.` of a relative path.
   */
  function Components(s: string): seq<PathComponent>
  {
    ComponentsOfPieces(|s| > 0 && s[0] == '/', Split(s, '/'))
  }

  /** The components named by the `/`-delimited pieces of an absolute or relative path. */
  function ComponentsOfPieces(absolute: bool, pieces: seq<string>): seq<PathComponent>
    requires |pieces| >= 1
  {
    if absolute then [RootDir] + NormalComponents(pieces[1..])
    else if pieces[0] == "." then [CurDir] + NormalComponents(pieces[1..])
    else NormalComponents(pieces)
  }

  /** `path.starts_with(base)`: the components of `base` are a prefix of those of `path`. */
  predicate StartsWith(path: string, base: string)
  {
    var b, c := Components(base), Components(path);
    |b| <= |c| && c[..|b|] == b
  }

  lemma {:induction false} NormalComponentsAppend(xs: seq<string>, ys: seq<string>)
    ensures NormalComponents(xs + ys) == NormalComponents(xs) + NormalComponents(ys)
  {
    if xs != [] {
      NormalComponentsAppend(xs[1..], ys);
      assert (xs + ys)[0] == xs[0];
      assert (xs + ys)[1..] == xs[1..] + ys;
      var p := xs[0];
      var head := if p == "" || p == "." then [] else if p == ".." then [ParentDir] else [Normal(p)];
      assert NormalComponents(xs + ys) == head + NormalComponents(xs[1..] + ys);
      assert NormalComponents(xs) == head + NormalComponents(xs[1..]);
    } else {
      assert xs + ys == ys;
    }
  }

  /** The split of `<root>/<sub>` is the split of `root` followed by that of `sub`. */
  lemma SplitUnder(root: string, sub: string)
    ensures Split(root + "/" + sub, '/') == Split(root, '/') + Split(sub, '/')
  {
    SplitAppend(root, sub, '/');
  }

  /** More pieces after the first one add their components at the end. */
  lemma ComponentsOfMorePieces(absolute: bool, xs: seq<string>, ys: seq<string>)
    requires |xs| >= 1
    ensures ComponentsOfPieces(absolute, xs + ys) == ComponentsOfPieces(absolute, xs) + NormalComponents(ys)
  {
    assert (xs + ys)[0] == xs[0];
    assert (xs + ys)[1..] == xs[1..] + ys;
    NormalComponentsAppend(xs[1..], ys);
    NormalComponentsAppend(xs, ys);
  }

  /**
   Every path below `<root>/<sub>` starts with `root`: in particular every
   event under the watched `<root>/src` tree falls under `root`.
   */
  lemma UnderRoot(root: string, sub: string)
    ensures StartsWith(root + "/" + sub, root)
  {
    var p := root + "/" + sub;
    var cr, cp := Components(root), Components(p);
    if root == [] {
      assert Split(root, '/') == [""];
      assert cr == [];
    } else {
      assert p[0] == root[0];
      SplitUnder(root, sub);
      ComponentsOfMorePieces(root[0] == '/', Split(root, '/'), Split(sub, '/'));
      assert cp == cr + NormalComponents(Split(sub, '/'));
      assert cp[..|cr|] == cr;
    }
  }

  /** The components of an absolute path of two plain names. */
  lemma ComponentsOfTwoNames(x: string, y: string)
    requires x != "" && x != "." && x != ".." && '/' !in x
    requires y != "" && y != "." && y != ".." && '/' !in y
    ensures Components("/" + x + "/" + y) == [RootDir, Normal(x), Normal(y)]
  {
    var pieces := ["", x, y];
    assert [x, y][1..] == [y];
    assert Join([x, y], '/') == x + "/" + y;
    assert pieces[1..] == [x, y];
    assert Join(pieces, '/') == "" + "/" + (x + "/" + y);
    assert "" + "/" + (x + "/" + y) == "/" + x + "/" + y;
    SplitJoin(pieces, '/');
    assert pieces[1..] == [x, y];
    assert NormalComponents([y]) == [Normal(y)];
  }

  /** Prefixes are whole components: `/a/bc` does not start with `/a/b`, a string prefix of it. */
  lemma NotCharacterPrefix()
    ensures "/a/b" <= "/a/bc" && !StartsWith("/a/bc", "/a/b")
  {
    ComponentsOfTwoNames("a", "b");
    ComponentsOfTwoNames("a", "bc");
    assert "/" + "a" + "/" + "b" == "/a/b";
    assert "/" + "a" + "/" + "bc" == "/a/bc";
    var b, c := Components("/a/b"), Components("/a/bc");
    assert b == [RootDir, Normal("a"), Normal("b")];
    assert c == [RootDir, Normal("a"), Normal("bc")];
    assert c[..|b|][2] != b[2] by { assert "b" != "bc"; }
  }
}
