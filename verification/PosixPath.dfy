/** The parts of Node's path.posix that both sides of provisioning rely on. */
module PosixPath {
  import opened Text

  /** A path component that normalization keeps. */
  predicate Plain(s: string) {
    s != "" && s != "." && s != ".." && '/' !in s
  }

  function Descend(done: seq<string>, p: string, absolute: bool): seq<string> {
    if p == "" || p == "." then done
    else if p == ".." then
      if done != [] && done[|done| - 1] != ".." then done[..|done| - 1]
      else if absolute then done else done + [p]
    else done + [p]
  }

  /** Resolves empty, "." and ".." components against the components before them. */
  function Resolve(done: seq<string>, parts: seq<string>, absolute: bool): seq<string>
    decreases |parts|
  {
    if parts == [] then done
    else
      Resolve(Descend(done, parts[0], absolute), parts[1..], absolute)
  }

  predicate Absolute(path: string) {
    path != "" && path[0] == '/'
  }

  function Components(path: string): seq<string> {
    Resolve([], Split(path, '/'), Absolute(path))
  }

  function Normalize(path: string): string {
    if path == "" then "."
    else
      var parts := Components(path);
      var trailing := path[|path| - 1] == '/';
      if parts == [] then if Absolute(path) then "/" else if trailing then "./" else "."
      else (if Absolute(path) then "/" else "") + Unsplit(parts, "/") + (if trailing then "/" else "")
  }

  function NonEmpty(parts: seq<string>): seq<string> {
    if parts == [] then []
    else if parts[0] == "" then NonEmpty(parts[1..])
    else [parts[0]] + NonEmpty(parts[1..])
  }

  function Raw(parts: seq<string>): string {
    Unsplit(NonEmpty(parts), "/")
  }

  /** path.posix.join; path.join on Linux. */
  function Join(parts: seq<string>): string {
    Normalize(Raw(parts))
  }

  // ---------------------------------------------------------------------------
  // Appending a plain component

  lemma {:induction false} ResolveAppend(done: seq<string>, parts: seq<string>, p: string, absolute: bool)
    requires Plain(p)
    ensures Resolve(done, parts + [p], absolute) == Resolve(done, parts, absolute) + [p]
    decreases |parts|
  {
    if parts == [] {
      assert parts + [p] == [p] && [p][1..] == [];
    } else {
      assert (parts + [p])[1..] == parts[1..] + [p];
      ResolveAppend(Descend(done, parts[0], absolute), parts[1..], p, absolute);
    }
  }

  /** Going down into a component and up again leads back, and there is nothing above the root. */
  lemma {:induction false} ResolveUp(done: seq<string>, parts: seq<string>, p: string, absolute: bool)
    requires Plain(p)
    ensures Resolve(done, parts + [p, ".."], absolute) == Resolve(done, parts, absolute)
    ensures absolute && Resolve(done, parts, absolute) == [] ==> Resolve(done, parts + [".."], absolute) == []
    decreases |parts|
  {
    if parts == [] {
      assert parts + [p, ".."] == [p, ".."] && [p, ".."][1..] == [".."] && [".."][1..] == [];
      assert parts + [".."] == [".."];
      assert (done + [p])[..|done|] == done;
    } else {
      assert (parts + [p, ".."])[1..] == parts[1..] + [p, ".."];
      assert (parts + [".."])[1..] == parts[1..] + [".."];
      ResolveUp(Descend(done, parts[0], absolute), parts[1..], p, absolute);
    }
  }

  lemma {:induction false} UnsplitAppend(parts: seq<string>, p: string)
    requires parts != []
    ensures Unsplit(parts + [p], "/") == Unsplit(parts, "/") + "/" + p
  {
    if |parts| > 1 {
      assert (parts + [p])[1..] == parts[1..] + [p];
      UnsplitAppend(parts[1..], p);
    }
  }

  /** What a resolved component list consists of. */
  predicate Component(p: string) {
    p != "" && p != "." && '/' !in p
  }

  lemma {:induction false} ResolvedComponents(done: seq<string>, parts: seq<string>, absolute: bool)
    requires (forall q <- done :: Component(q)) && (forall q <- parts :: '/' !in q)
    ensures forall q <- Resolve(done, parts, absolute) :: Component(q)
    decreases |parts|
  {
    if parts != [] {
      assert parts[0] in parts;
      ResolvedComponents(Descend(done, parts[0], absolute), parts[1..], absolute);
    }
  }

  lemma ComponentsAppend(path: string, p: string)
    requires path != "" && Plain(p)
    ensures Components(path + "/" + p) == Components(path) + [p]
  {
    SplitConcat(path, p, '/');
    SplitWithout(p, '/');
    ResolveAppend([], Split(path, '/'), p, Absolute(path));
  }

  function Rooted(path: string, parts: seq<string>): string {
    (if Absolute(path) then "/" else "") + Unsplit(parts, "/")
  }

  lemma NormalizeNoTrail(path: string)
    requires path != "" && path[|path| - 1] != '/'
    ensures Normalize(path) == if Components(path) == [] then (if Absolute(path) then "/" else ".") else Rooted(path, Components(path))
  {
    hide Components, Unsplit;
  }

  /** Joining a plain component to a path without trailing slash. */
  lemma NormalizeAppend(path: string, p: string)
    requires path != "" && path[|path| - 1] != '/' && Plain(p)
    ensures Components(path + "/" + p) == Components(path) + [p]
    ensures Normalize(path + "/" + p) ==
      if Components(path) == [] then (if Absolute(path) then "/" else "") + p else Normalize(path) + "/" + p
  {
    hide Components, Normalize, Rooted;
    var parts, longer := Components(path), path + "/" + p;
    ComponentsAppend(path, p);
    NormalizeNoTrail(path);
    NormalizeNoTrail(longer);
    RootedAppend(path, longer, parts, p);
  }

  lemma RootedAppend(path: string, longer: string, parts: seq<string>, p: string)
    requires path != "" && longer != "" && longer[0] == path[0]
    ensures Rooted(longer, parts + [p]) == if parts == [] then (if Absolute(path) then "/" else "") + p else Rooted(path, parts) + "/" + p
  {
    if parts == [] {
      assert parts + [p] == [p];
    } else {
      var root := if Absolute(path) then "/" else "";
      UnsplitAppend(parts, p);
      hide Unsplit;
      assert root + (Unsplit(parts, "/") + "/" + p) == root + Unsplit(parts, "/") + "/" + p;
    }
  }

  /** A normalized path is "." or "/" exactly when no component is left. */
  lemma NormalizedRoot(path: string)
    requires path != "" && path[|path| - 1] != '/'
    ensures Components(path) == [] <==> Normalize(path) == "." || Normalize(path) == "/"
    ensures Components(path) == [] ==> Normalize(path) == if Absolute(path) then "/" else "."
  {
    var parts := Components(path);
    ResolvedComponents([], Split(path, '/'), Absolute(path));
    if parts != [] {
      assert parts[0] in parts;
      assert Component(parts[0]);
      assert parts[0] <= Unsplit(parts, "/");
      assert |parts| == 1 ==> Unsplit(parts, "/") == parts[0];
    }
  }

  lemma PlainNormalizes(p: string)
    requires Plain(p)
    ensures Normalize(p) == p && Components(p) == [p]
  {
    SplitWithout(p, '/');
    assert Resolve([], [p], Absolute(p)) == [p];
  }

  lemma {:induction false} NonEmptyAppend(parts: seq<string>, p: string)
    requires p != ""
    ensures NonEmpty(parts + [p]) == NonEmpty(parts) + [p]
    ensures forall q <- NonEmpty(parts) :: q != ""
  {
    if parts == [] {
      assert parts + [p] == [p];
    } else {
      assert (parts + [p])[1..] == parts[1..] + [p];
      NonEmptyAppend(parts[1..], p);
    }
  }

  lemma RawOne(p: string)
    ensures Raw([p]) == p
  {
    assert NonEmpty([p]) == if p == "" then [] else [p];
  }

  lemma RawAppend(parts: seq<string>, p: string)
    requires p != ""
    ensures Raw(parts + [p]) == if Raw(parts) == "" then p else Raw(parts) + "/" + p
  {
    NonEmptyAppend(parts, p);
    var kept := NonEmpty(parts);
    if kept != [] {
      UnsplitAppend(kept, p);
      assert kept[0] in kept;
    }
  }

  /** A path without trailing slash that names something below "/" or below the working directory. */
  predicate Below(path: string) {
    path != "" && path[|path| - 1] != '/' && Components(path) != []
  }

  /** Joining one more plain component extends the joined path by that component. */
  lemma JoinAppend(parts: seq<string>, p: string)
    requires Below(Raw(parts)) && Plain(p)
    ensures Join(parts + [p]) == Join(parts) + "/" + p
    ensures Below(Raw(parts + [p]))
  {
    RawAppend(parts, p);
    NormalizeAppend(Raw(parts), p);
  }

  /** The first plain component after a directory of any form. */
  lemma RawBelow(parts: seq<string>, p: string)
    requires Plain(p)
    ensures Below(Raw(parts + [p]))
  {
    RawAppend(parts, p);
    if Raw(parts) == "" {
      PlainNormalizes(p);
    } else {
      ComponentsAppend(Raw(parts), p);
    }
  }
}
