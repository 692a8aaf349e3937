/** Filename handling shared by both receivers: cleaning, sanitizing, and renaming
    of root folders.  Paths are Unix paths, so the protocol separator and the
    operating system separator are both '/'. */
module Paths {
  import opened Wrappers

  datatype PathError = AbsolutePath | PathTraversal | EmptyPath

  /** A path segment that names an entry of the directory it is resolved in. */
  predicate Plain(seg: string) {
    seg != "" && seg != "." && seg != ".." && '/' !in seg
  }

  predicate AllPlain(segs: seq<string>) {
    forall i :: 0 <= i < |segs| ==> Plain(segs[i])
  }

  /** strings.Split(s, "/") */
  function Split(s: string): (parts: seq<string>)
    ensures |parts| >= 1
    ensures forall i :: 0 <= i < |parts| ==> '/' !in parts[i]
  {
    if s == "" then [""]
    else
      var rest := Split(s[1..]);
      if s[0] == '/' then [""] + rest
      else [[s[0]] + rest[0]] + rest[1..]
  }

  /** strings.Join(parts, "/") */
  function Join(parts: seq<string>): string
    requires parts != []
  {
    if |parts| == 1 then parts[0] else parts[0] + "/" + Join(parts[1..])
  }

  /** What filepath.Clean does with one segment, given the segments kept so far. */
  function CleanSegment(rooted: bool, kept: seq<string>, seg: string): seq<string> {
    if seg == "" || seg == "." then kept
    else if seg != ".." then kept + [seg]
    else if kept != [] && kept[|kept| - 1] != ".." then kept[..|kept| - 1]
    else if rooted then kept
    else kept + [".."]
  }

  function CleanSegments(rooted: bool, kept: seq<string>, segs: seq<string>): seq<string>
    decreases |segs|
  {
    if segs == [] then kept
    else CleanSegments(rooted, CleanSegment(rooted, kept, segs[0]), segs[1..])
  }

  predicate IsAbs(path: string) {
    path != "" && path[0] == '/'
  }

  /** filepath.Clean */
  function Clean(path: string): string {
    var kept := CleanSegments(IsAbs(path), [], Split(path));
    if IsAbs(path) then (if kept == [] then "/" else "/" + Join(kept))
    else if kept == [] then "."
    else Join(kept)
  }

  /** filepath.Base */
  function Base(path: string): string
    decreases |path|
  {
    if path == "" then "."
    else if path == "/" then "/"
    else if path[|path| - 1] == '/' then Base(path[..|path| - 1])
    else var parts := Split(path); parts[|parts| - 1]
  }

  function SanitizeRelativePath(filename: string): Result<string, PathError> {
    if filename == "" then Failure(EmptyPath)
    else
      var cleaned := Clean(filename);
      if cleaned == "" || cleaned == "." then Failure(EmptyPath)
      else if IsAbs(cleaned) then Failure(AbsolutePath)
      else if "../" <= cleaned || cleaned == ".." then Failure(PathTraversal)
      else if ".." in Split(cleaned) then Failure(PathTraversal)
      else Success(cleaned)
  }

  function SanitizePathWithFallback(filename: string): Result<string, PathError> {
    var path := match SanitizeRelativePath(filename)
                case Success(p) => p
                case Failure(_) => Base(filename);
    if path == "." || path == "/" || path == "" || path == ".." then Failure(EmptyPath)
    else Success(path)
  }

  /** Reference meaning of a relative name: walk it one segment at a time from a
      directory that must not be left.  None once the walk climbs out. */
  function Walk(at: seq<string>, segs: seq<string>): Option<seq<string>>
    decreases |segs|
  {
    if segs == [] then Some(at)
    else if segs[0] == "" || segs[0] == "." then Walk(at, segs[1..])
    else if segs[0] != ".." then Walk(at + [segs[0]], segs[1..])
    else if at == [] then None
    else Walk(at[..|at| - 1], segs[1..])
  }

  // ---------- Split and Join ----------

  lemma {:induction false} SplitNoSlash(s: string)
    requires '/' !in s
    ensures Split(s) == [s]
  {
    if s != "" {
      SplitNoSlash(s[1..]);
      assert s == [s[0]] + s[1..];
    }
  }

  lemma {:induction false} SplitAppend(a: string, b: string)
    requires '/' !in a
    ensures Split(a + "/" + b) == [a] + Split(b)
  {
    if a == "" {
      assert (a + "/" + b)[1..] == b;
    } else {
      SplitAppend(a[1..], b);
      assert (a + "/" + b)[1..] == a[1..] + "/" + b;
      assert a == [a[0]] + a[1..];
    }
  }

  lemma {:induction false} SplitOfJoin(parts: seq<string>)
    requires parts != []
    requires forall i :: 0 <= i < |parts| ==> '/' !in parts[i]
    ensures Split(Join(parts)) == parts
  {
    if |parts| == 1 {
      SplitNoSlash(parts[0]);
    } else {
      SplitOfJoin(parts[1..]);
      SplitAppend(parts[0], Join(parts[1..]));
      assert parts == [parts[0]] + parts[1..];
    }
  }

  lemma {:induction false} JoinOfSplit(s: string)
    ensures Join(Split(s)) == s
  {
    if s != "" {
      var rest := Split(s[1..]);
      JoinOfSplit(s[1..]);
      if s[0] == '/' {
        assert ([""] + rest)[1..] == rest;
        assert s == "/" + s[1..];
      } else {
        var parts := [[s[0]] + rest[0]] + rest[1..];
        assert parts[1..] == rest[1..];
        if |rest| == 1 {
          assert s == [s[0]] + s[1..];
        } else {
          assert Join(parts) == ([s[0]] + rest[0]) + "/" + Join(rest[1..]);
          assert s == [s[0]] + (rest[0] + "/" + Join(rest[1..]));
        }
      }
    }
  }

  lemma SplitHead(p: string)
    ensures "../" <= p ==> Split(p)[0] == ".."
    ensures '/' !in p ==> Split(p) == [p]
  {
    if "../" <= p {
      assert p == ".." + "/" + p[3..];
      SplitAppend("..", p[3..]);
    }
    if '/' !in p {
      SplitNoSlash(p);
    }
  }

  lemma JoinPlainShape(parts: seq<string>)
    requires parts != [] && AllPlain(parts)
    ensures var p := Join(parts); p != "" && p != "." && p != ".." && !IsAbs(p) && !("../" <= p)
  {
    SplitOfJoin(parts);
    SplitHead(Join(parts));
    assert Plain(parts[0]);
  }

  // ---------- Cleaning against the walk ----------

  /** Once a relative path has climbed out, its cleaned form starts with "..". */
  lemma {:induction false} ClimbedOutStays(kept: seq<string>, segs: seq<string>)
    requires kept != [] && kept[0] == ".."
    ensures var r := CleanSegments(false, kept, segs); r != [] && r[0] == ".."
    decreases |segs|
  {
    if segs != [] {
      ClimbedOutStays(CleanSegment(false, kept, segs[0]), segs[1..]);
    }
  }

  /** Cleaning a relative path is the walk, unless the walk climbs out. */
  lemma {:induction false} CleanIsWalk(at: seq<string>, segs: seq<string>)
    requires AllPlain(at)
    requires forall i :: 0 <= i < |segs| ==> '/' !in segs[i]
    ensures match Walk(at, segs)
            case Some(end) => CleanSegments(false, at, segs) == end && AllPlain(end)
            case None =>
              var r := CleanSegments(false, at, segs); r != [] && r[0] == ".."
    decreases |segs|
  {
    if segs != [] {
      var seg := segs[0];
      if seg == ".." && at == [] {
        assert CleanSegment(false, at, seg) == [".."];
        ClimbedOutStays([".."], segs[1..]);
      } else {
        assert at != [] ==> Plain(at[|at| - 1]);
        CleanIsWalk(CleanSegment(false, at, seg), segs[1..]);
      }
    }
  }

  lemma {:induction false} CleanPlain(at: seq<string>, segs: seq<string>)
    requires AllPlain(segs)
    ensures CleanSegments(false, at, segs) == at + segs
    decreases |segs|
  {
    if segs != [] {
      assert Plain(segs[0]);
      CleanPlain(at + [segs[0]], segs[1..]);
      assert at + [segs[0]] + segs[1..] == at + segs;
    } else {
      assert at + segs == at;
    }
  }

  lemma {:induction false} RootedKeeps(kept: seq<string>, segs: seq<string>)
    requires AllPlain(kept) && forall i :: 0 <= i < |segs| ==> '/' !in segs[i]
    ensures AllPlain(CleanSegments(true, kept, segs))
    decreases |segs|
  {
    if segs != [] {
      RootedKeeps(CleanSegment(true, kept, segs[0]), segs[1..]);
    }
  }

  /** A filename is accepted exactly when it is relative and its walk ends strictly
      below the directory it starts in without ever leaving it; the accepted path
      then spells that walk. */
  lemma SanitizeIsWalk(filename: string)
    ensures SanitizeRelativePath(filename).Success? <==>
            !IsAbs(filename) && Walk([], Split(filename)).Some? && Walk([], Split(filename)).value != []
    ensures SanitizeRelativePath(filename).Success? ==>
              var path := SanitizeRelativePath(filename).value;
              Split(path) == Walk([], Split(filename)).value && AllPlain(Split(path))
  {
    var segs := Split(filename);
    if IsAbs(filename) {
      RootedKeeps([], segs);
      assert IsAbs(Clean(filename));
    } else if filename == "" {
      assert Walk([], [""]) == Walk([], [""][1..]);
    } else {
      CleanIsWalk([], segs);
      var kept := CleanSegments(false, [], segs);
      match Walk([], segs)
      case None =>
        if |kept| > 1 {
          assert Join(kept) == "../" + Join(kept[1..]);
        }
      case Some(end) =>
        if end != [] {
          JoinPlainShape(end);
          SplitOfJoin(end);
        }
    }
  }

  lemma SanitizeIdempotent(filename: string)
    requires SanitizeRelativePath(filename).Success?
    ensures SanitizeRelativePath(SanitizeRelativePath(filename).value) == SanitizeRelativePath(filename)
  {
    var path := SanitizeRelativePath(filename).value;
    SanitizeIsWalk(filename);
    JoinOfSplit(path);
    JoinPlainShape(Split(path));
    CleanPlain([], Split(path));
    assert [] + Split(path) == Split(path);
  }

  // ---------- The fallback to the base name ----------

  /** The last non-empty segment of a path, if it has one. */
  function LastName(segs: seq<string>): Option<string> {
    if segs == [] then None
    else if segs[|segs| - 1] != "" then Some(segs[|segs| - 1])
    else LastName(segs[..|segs| - 1])
  }

  lemma {:induction false} SplitTrailingSlash(s: string)
    ensures Split(s + "/") == Split(s) + [""]
  {
    if s == "" {
      assert Split("/") == [""] + Split("/"[1..]);
    } else {
      SplitTrailingSlash(s[1..]);
      assert (s + "/")[1..] == s[1..] + "/";
    }
  }

  lemma {:induction false} BaseIsLastName(path: string)
    ensures match LastName(Split(path))
            case Some(name) => Base(path) == name && '/' !in name && name != ""
            case None => Base(path) == if path == "" then "." else "/"
    decreases |path|
  {
    if path == "" {
    } else if path[|path| - 1] == '/' {
      var front := path[..|path| - 1];
      assert path == front + "/";
      SplitTrailingSlash(front);
      assert (Split(front) + [""])[..|Split(front)|] == Split(front);
      BaseIsLastName(front);
      if front == "" {
        assert LastName([""]) == LastName([""][..0]);
      }
    } else {
      LastSegmentNonEmpty(path);
    }
  }

  lemma {:induction false} LastSegmentNonEmpty(path: string)
    requires path != "" && path[|path| - 1] != '/'
    ensures Split(path)[|Split(path)| - 1] != ""
  {
    if |path| > 1 {
      LastSegmentNonEmpty(path[1..]);
    }
  }

  /** Every filename is either rejected or becomes a relative path whose segments all
      name entries, so joined to any directory it stays strictly below it. */
  lemma FallbackContained(filename: string)
    ensures SanitizePathWithFallback(filename).Success? ==>
              AllPlain(Split(SanitizePathWithFallback(filename).value))
  {
    SanitizeIsWalk(filename);
    BaseIsLastName(filename);
    if SanitizeRelativePath(filename).Failure? && LastName(Split(filename)).Some? {
      SplitNoSlash(Base(filename));
    }
  }

  /** A filename is rejected exactly when neither its walk nor its last name is usable. */
  lemma FallbackRejects(filename: string)
    ensures SanitizePathWithFallback(filename).Failure? <==>
            && SanitizeRelativePath(filename).Failure?
            && match LastName(Split(filename)) {
                 case None => true
                 case Some(name) => name == "." || name == ".."
               }
  {
    SanitizeIsWalk(filename);
    BaseIsLastName(filename);
    if SanitizeRelativePath(filename).Success? {
      var path := SanitizeRelativePath(filename).value;
      JoinOfSplit(path);
      JoinPlainShape(Split(path));
    }
  }

  /** What a filename becomes: a relative one whose walk ends below the directory spells that
      walk, folders and all; of any other only the last name is left, unless it means a
      directory. */
  lemma FallbackExact(filename: string)
    ensures var walk, name := Walk([], Split(filename)), LastName(Split(filename));
            var r := SanitizePathWithFallback(filename);
            if !IsAbs(filename) && walk.Some? && walk.value != [] then
              r.Success? && Split(r.value) == walk.value && r.value == Join(walk.value)
            else if name.Some? && name.value != "." && name.value != ".." then r == Success(name.value)
            else r == Failure(EmptyPath)
  {
    SanitizeIsWalk(filename);
    BaseIsLastName(filename);
    FallbackRejects(filename);
    if SanitizeRelativePath(filename).Success? {
      JoinOfSplit(SanitizeRelativePath(filename).value);
    }
  }

  lemma FallbackIdempotent(filename: string)
    requires SanitizePathWithFallback(filename).Success?
    ensures SanitizePathWithFallback(SanitizePathWithFallback(filename).value) == SanitizePathWithFallback(filename)
  {
    var path := SanitizePathWithFallback(filename).value;
    FallbackContained(filename);
    CleanPlain([], Split(path));
    assert [] + Split(path) == Split(path);
    JoinOfSplit(path);
    JoinPlainShape(Split(path));
  }
}
