/** Renaming the root folders of a transfer so that they do not merge with folders that
    already exist in the save directory. */
module FolderRemap {
  import opened Wrappers
  import opened Paths
  import opened UniqueNames

  /** The root folder of a sanitized name that has at least one subdirectory level. */
  function RootOf(filename: string): Option<string> {
    match SanitizeRelativePath(filename)
    case Failure(_) => None
    case Success(path) => if |Split(path)| > 1 then Some(Split(path)[0]) else None
  }

  function RootsOf(filenames: seq<string>): set<string> {
    set f | f in filenames && RootOf(f).Some? :: RootOf(f).value
  }

  /** The roots are the first folders of the accepted names that have one. */
  lemma RootsExact(filenames: seq<string>, root: string)
    ensures root in RootsOf(filenames) <==>
            exists f :: f in filenames && !IsAbs(f) && Walk([], Split(f)).Some? && |Walk([], Split(f)).value| > 1
                        && Walk([], Split(f)).value[0] == root
  {
    forall f | f in filenames
      ensures RootOf(f) == Some(root) <==>
              !IsAbs(f) && Walk([], Split(f)).Some? && |Walk([], Split(f)).value| > 1
              && Walk([], Split(f)).value[0] == root
    {
      SanitizeIsWalk(f);
    }
  }

  lemma RootsArePlain(filenames: seq<string>)
    ensures forall root :: root in RootsOf(filenames) ==> Plain(root)
  {
    forall f | f in filenames && RootOf(f).Some? ensures Plain(RootOf(f).value) {
      SanitizeIsWalk(f);
    }
  }

  ghost predicate RemapValues(existing: set<string>, remap: map<string, string>) {
    forall root :: root in remap ==> UniqueFolder(existing, root) == Some(remap[root])
  }

  /** What Apply may assume of the table. */
  ghost predicate SafeRemap(remap: map<string, string>) {
    forall root :: root in remap ==> Plain(root) && Plain(remap[root])
  }

  class FolderRemapper {
    var remap: map<string, string>

    constructor ()
      ensures remap == map[]
    {
      remap := map[];
    }

    /** NewFolderRemapper: false when some root has no unique name left. */
    method Fill(existing: set<string>, filenames: seq<string>) returns (ok: bool)
      requires remap == map[]
      modifies this
      ensures ok ==> remap.Keys == RootsOf(filenames) * existing
      ensures ok ==> RemapValues(existing, remap) && SafeRemap(remap)
      ensures !ok ==> exists root :: root in RootsOf(filenames) && UniqueFolder(existing, root) == None
    {
      var roots := RootsOf(filenames);
      RootsArePlain(filenames);
      var todo := roots;
      while todo != {}
        invariant todo <= roots
        invariant remap.Keys == (roots - todo) * existing
        invariant RemapValues(existing, remap)
      {
        var root :| root in todo;
        var unique := FindUniqueFolderName(existing, root);
        if unique.None? {
          return false;
        }
        if unique.value != root {
          remap := remap[root := unique.value];
        }
        todo := todo - {root};
      }
      forall root | root in remap ensures Plain(root) && Plain(remap[root]) {
        UniqueFolderPlain(existing, root);
      }
      return true;
    }
  }

  lemma UniqueFolderPlain(existing: set<string>, root: string)
    requires Plain(root) && UniqueFolder(existing, root).Some?
    ensures Plain(UniqueFolder(existing, root).value)
  {
    if root in existing {
      var k :| 1 <= k <= MaxUniquePathAttempts && NumberedScan(existing, root, 1).value == NumberedFolder(root, k);
      assert NumberedFolder(root, k)[|NumberedFolder(root, k)| - 1] == ')';
    }
  }

  /** FolderRemapper.Apply: split at the first separator, look the root up. */
  function Apply(remap: map<string, string>, sanitizedPath: string): string {
    var parts := Split(sanitizedPath);
    if |parts| > 1 && parts[0] in remap then remap[parts[0]] + "/" + Join(parts[1..]) else sanitizedPath
  }

  /** Renaming replaces exactly the first segment, and only of paths inside a folder. */
  lemma ApplyChangesOnlyRoot(remap: map<string, string>, path: string)
    requires SafeRemap(remap)
    ensures var before := Split(path); var after := Split(Apply(remap, path));
            && |after| == |before| && after[1..] == before[1..]
            && after[0] == (if |before| > 1 && before[0] in remap then remap[before[0]] else before[0])
  {
    var parts := Split(path);
    if |parts| > 1 && parts[0] in remap {
      SplitAppend(remap[parts[0]], Join(parts[1..]));
      SplitOfJoin(parts[1..]);
    }
  }

  /** Every accepted filename is stored strictly below the save directory: its path is
      the directory followed by one or more entry names. */
  lemma StoredBelowSaveDir(remap: map<string, string>, saveDir: string, filename: string)
    requires SafeRemap(remap) && SanitizePathWithFallback(filename).Success?
    ensures var path := Apply(remap, SanitizePathWithFallback(filename).value);
            && Split(saveDir + "/" + path) == Split(saveDir) + Split(path)
            && AllPlain(Split(path)) && Split(path) != []
  {
    var sane := SanitizePathWithFallback(filename).value;
    FallbackContained(filename);
    ApplyChangesOnlyRoot(remap, sane);
    var before, after := Split(sane), Split(Apply(remap, sane));
    assert after == [after[0]] + after[1..];
    forall i | 0 <= i < |after| ensures Plain(after[i]) {
      if i > 0 { assert after[i] == after[1..][i - 1] == before[1..][i - 1] == before[i]; }
    }
    SplitConcat(saveDir, Apply(remap, sane));
  }

  /** One character in front of split text. */
  function Cons(c: char, parts: seq<string>): seq<string>
    requires parts != []
  {
    if c == '/' then [""] + parts else [[c] + parts[0]] + parts[1..]
  }

  lemma ConsAppend(c: char, parts: seq<string>, more: seq<string>)
    requires parts != []
    ensures Cons(c, parts + more) == Cons(c, parts) + more
  {
    assert (parts + more)[1..] == parts[1..] + more;
  }

  lemma {:induction false} SplitConcat(a: string, b: string)
    ensures Split(a + "/" + b) == Split(a) + Split(b)
  {
    if a == "" {
      SplitAppend("", b);
    } else {
      var whole := a + "/" + b;
      assert whole[1..] == a[1..] + "/" + b && whole[0] == a[0];
      assert Split(whole) == Cons(a[0], Split(whole[1..])) && Split(a) == Cons(a[0], Split(a[1..]));
      hide Split, Cons;
      SplitConcat(a[1..], b);
      ConsAppend(a[0], Split(a[1..]), Split(b));
    }
  }
}
