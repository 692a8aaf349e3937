/** Unique file and folder names: "report.pdf", "report (1).pdf", "report (2).pdf", ... */
module UniqueNames {
  import opened Wrappers

  const MaxUniquePathAttempts := 10000

  /** strconv.Itoa on a non-negative number */
  function Itoa(n: nat): (s: string)
    ensures s != "" && forall i :: 0 <= i < |s| ==> '0' <= s[i] <= '9'
  {
    var digit := [('0' as int + n % 10) as char];
    if n < 10 then digit else Itoa(n / 10) + digit
  }

  /** filepath.Ext: the suffix from the last dot of the last path element. */
  function Ext(name: string): (ext: string)
    ensures |ext| <= |name| && name[|name| - |ext|..] == ext
    ensures ext != "" ==> ext[0] == '.'
    ensures forall i :: 0 < i < |ext| ==> ext[i] != '.'
    ensures '/' !in ext
  {
    ExtFrom(name, |name|)
  }

  function ExtFrom(name: string, i: nat): (ext: string)
    requires i <= |name|
    requires forall j :: i <= j < |name| ==> name[j] != '.' && name[j] != '/'
    ensures |ext| <= |name| && name[|name| - |ext|..] == ext
    ensures ext != "" ==> ext[0] == '.'
    ensures forall j :: 0 < j < |ext| ==> ext[j] != '.'
    ensures '/' !in ext
  {
    if i == 0 || name[i - 1] == '/' then ""
    else if name[i - 1] == '.' then name[i - 1..]
    else ExtFrom(name, i - 1)
  }

  datatype Key = Key(dir: string, filename: string)

  /** The path tried for a given suffix; suffix 0 is the name itself. */
  function Candidate(key: Key, suffix: nat): string {
    var name := if suffix == 0 then key.filename
                else
                  var ext := Ext(key.filename);
                  key.filename[..|key.filename| - |ext|] + " (" + Itoa(suffix) + ")" + ext;
    key.dir + "/" + name
  }

  // ---------- What the numbered names look like ----------

  /** The number a decimal text denotes. */
  function Value(digits: string): nat
    requires forall i :: 0 <= i < |digits| ==> '0' <= digits[i] <= '9'
  {
    if digits == "" then 0
    else 10 * Value(digits[..|digits| - 1]) + (digits[|digits| - 1] as int - '0' as int)
  }

  /** The text of a number denotes it, without leading zeros. */
  lemma {:induction false} ItoaValue(n: nat)
    ensures Value(Itoa(n)) == n && (|Itoa(n)| > 1 ==> Itoa(n)[0] != '0')
  {
    if n < 10 {
      assert Itoa(n)[..0] == "";
    } else {
      ItoaValue(n / 10);
      var s := Itoa(n);
      assert s[..|s| - 1] == Itoa(n / 10);
      assert n >= 10 && |Itoa(n / 10)| == 1 ==> Value(Itoa(n / 10)) == n / 10;
      if |Itoa(n / 10)| == 1 {
        assert Itoa(n / 10)[..0] == "" && Itoa(n / 10)[0] != '0';
      }
    }
  }

  /** A name with a dot has an extension, which begins at its last dot. */
  lemma ExtIsLastDot(name: string)
    requires '.' in name && '/' !in name
    ensures Ext(name) != "" && '.' !in Ext(name)[1..]
  {
    DotFound(name, |name|);
  }

  lemma Joined(dir: string, stem: string, digits: string, ext: string)
    ensures dir + "/" + (stem + " (" + digits + ")" + ext) == dir + "/" + stem + " (" + digits + ")" + ext
  {
  }

  /** The number goes between the stem and the extension; together the two are the name. */
  lemma CandidateShape(key: Key, suffix: nat) returns (stem: string, digits: string)
    requires suffix > 0
    ensures stem + Ext(key.filename) == key.filename
    ensures Candidate(key, 0) == key.dir + "/" + key.filename
    ensures Candidate(key, suffix) == key.dir + "/" + stem + " (" + digits + ")" + Ext(key.filename)
    ensures (forall i :: 0 <= i < |digits| ==> '0' <= digits[i] <= '9') && Value(digits) == suffix
  {
    hide ExtFrom, Ext, Value, Itoa;
    var ext := Ext(key.filename);
    stem, digits := key.filename[..|key.filename| - |ext|], Itoa(suffix);
    ItoaValue(suffix);
    Joined(key.dir, stem, digits, ext);
  }

  lemma {:induction false} DotFound(name: string, i: nat)
    requires i <= |name| && '/' !in name && '.' in name
    requires forall j :: i <= j < |name| ==> name[j] != '.' && name[j] != '/'
    ensures ExtFrom(name, i) != ""
  {
    if i > 0 && name[i - 1] != '.' {
      DotFound(name, i - 1);
    }
  }

  /** No two suffixes give the same path. */
  lemma CandidatesDistinct(key: Key, i: nat, j: nat)
    requires 0 < i && 0 < j && Candidate(key, i) == Candidate(key, j)
    ensures i == j
  {
    var stem, a := CandidateShape(key, i);
    var same, b := CandidateShape(key, j);
    var before, after := key.dir + "/" + stem + " (", ")" + Ext(key.filename);
    assert |stem| + |Ext(key.filename)| == |same| + |Ext(key.filename)|;
    assert stem == key.filename[..|stem|] == same;
    assert Candidate(key, i) == before + a + after && Candidate(key, j) == before + b + after;
    assert |a| == |b|;
    assert a == (before + a + after)[|before|..|before| + |a|];
    assert b == (before + b + after)[|before|..|before| + |b|];
  }

  /** What a search for a name ends with: the suffix to use, a suffix whose file is missing
      but cannot be created, or nothing within the limit. */
  datatype Search = Use(suffix: nat) | Denied(suffix: nat) | Exhausted

  /** Goes on while the path exists; `refuses` are the paths that cannot be created for
      another reason. */
  function Scan(taken: set<string>, refuses: string -> bool, key: Key, from: nat): (found: Search)
    ensures !found.Exhausted? ==>
              && from <= found.suffix && (found.suffix == 0 || found.suffix <= MaxUniquePathAttempts)
              && Candidate(key, found.suffix) !in taken
              && (found.Denied? <==> refuses(Candidate(key, found.suffix)))
              && forall j :: from <= j < found.suffix ==> Candidate(key, j) in taken
    ensures found.Exhausted? ==>
              forall j :: from <= j <= MaxUniquePathAttempts ==> Candidate(key, j) in taken
    decreases MaxUniquePathAttempts - from
  {
    if from > MaxUniquePathAttempts then Exhausted
    else if Candidate(key, from) in taken then Scan(taken, refuses, key, from + 1)
    else if refuses(Candidate(key, from)) then Denied(from)
    else Use(from)
  }

  /** A scan that skips suffixes already known to be taken finds what the full scan finds. */
  lemma {:induction false} ScanSkipsTaken(taken: set<string>, refuses: string -> bool, key: Key, from: nat, hint: nat)
    requires from <= hint
    requires forall j :: from <= j < hint ==> Candidate(key, j) in taken
    ensures Scan(taken, refuses, key, from) == Scan(taken, refuses, key, hint)
    decreases hint - from
  {
    if from < hint {
      if from <= MaxUniquePathAttempts {
        ScanSkipsTaken(taken, refuses, key, from + 1, hint);
      }
    }
  }

  /** The first `k - i` numbered names from `i` on exist, and name `k` does not. */
  predicate FirstFree(existing: set<string>, folderName: string, i: nat, k: nat) {
    && i <= k && NumberedFolder(folderName, k) !in existing
    && forall j :: i <= j < k ==> NumberedFolder(folderName, j) in existing
  }

  /** FindUniqueFolderName: `existing` holds the entries of the save directory. */
  method FindUniqueFolderName(existing: set<string>, folderName: string) returns (unique: Option<string>)
    ensures unique == UniqueFolder(existing, folderName)
    ensures folderName !in existing ==> unique == Some(folderName)
    ensures folderName in existing && unique.Some? ==>
              exists k :: 1 <= k <= MaxUniquePathAttempts && unique.value == folderName + " (" + Itoa(k) + ")"
                          && FirstFree(existing, folderName, 1, k)
    ensures unique.None? <==>
              && folderName in existing
              && forall k :: 1 <= k <= MaxUniquePathAttempts ==> NumberedFolder(folderName, k) in existing
  {
    if folderName !in existing {
      return Some(folderName);
    }
    for i := 1 to MaxUniquePathAttempts + 1
      invariant NumberedScan(existing, folderName, 1) == NumberedScan(existing, folderName, i)
    {
      var newName := NumberedFolder(folderName, i);
      if newName !in existing {
        return Some(newName);
      }
    }
    return None;
  }

  function NumberedFolder(folderName: string, i: nat): string {
    folderName + " (" + Itoa(i) + ")"
  }

  function NumberedScan(existing: set<string>, folderName: string, i: nat): (unique: Option<string>)
    ensures unique.Some? ==>
              exists k :: i <= k <= MaxUniquePathAttempts && unique.value == NumberedFolder(folderName, k)
                          && FirstFree(existing, folderName, i, k)
    ensures unique.None? ==>
              forall k :: i <= k <= MaxUniquePathAttempts ==> NumberedFolder(folderName, k) in existing
    decreases MaxUniquePathAttempts - i
  {
    if i > MaxUniquePathAttempts then None
    else if NumberedFolder(folderName, i) !in existing then
      assert FirstFree(existing, folderName, i, i);
      Some(NumberedFolder(folderName, i))
    else
      var rest := NumberedScan(existing, folderName, i + 1);
      assert forall k :: FirstFree(existing, folderName, i + 1, k) ==> FirstFree(existing, folderName, i, k);
      rest
  }

  function UniqueFolder(existing: set<string>, folderName: string): (unique: Option<string>)
    ensures unique.Some? ==> unique.value !in existing
  {
    if folderName !in existing then Some(folderName) else NumberedScan(existing, folderName, 1)
  }

  // ---------- The allocator, one call at a time ----------

  datatype Outcome = Created | Exists | Failed

  /** What the operating system offers: exclusive creation of an empty file. */
  class Disk {
    const refuses: string -> bool        // paths that cannot be created even though they are free
    var files: map<string, Bytes>

    constructor (refuses: string -> bool)
      ensures files == map[] && this.refuses == refuses
    {
      this.refuses := refuses;
      files := map[];
    }

    method CreateExclusive(path: string) returns (outcome: Outcome)
      modifies this
      ensures outcome == if path in old(files) then Exists else if refuses(path) then Failed else Created
      ensures files == if outcome.Created? then old(files)[path := []] else old(files)
    {
      if path in files {
        return Exists;
      }
      if refuses(path) {
        return Failed;
      }
      files := files[path := []];
      return Created;
    }
  }

  class UniqueFileAllocator {
    var next: map<Key, nat>

    constructor ()
      ensures next == map[]
    {
      next := map[];
    }

    method Reset()
      modifies this
      ensures next == map[]
    {
      next := map[];
    }

    /** Create starts at the hint.  As long as every suffix below a hint is taken, it
        still creates the file that the search from suffix zero creates, and fails only
        when that search fails. */
    method Create(disk: Disk, dir: string, filename: string) returns (path: Option<string>)
      modifies this, disk
      ensures var key := Key(dir, filename);
              var found := Scan(old(disk.files.Keys), disk.refuses, key, Hint(old(next), key));
              && path == (if found.Use? then Some(Candidate(key, found.suffix)) else None)
              && next == if found.Use? then Remember(old(next), key, found.suffix) else old(next)
      ensures path.Some? ==> path.value !in old(disk.files)
      ensures disk.files == if path.None? then old(disk.files) else old(disk.files)[path.value := []]
      ensures old(HintsTaken(next, disk.files.Keys)) ==>
                && HintsTaken(next, disk.files.Keys)
                && Scan(old(disk.files.Keys), disk.refuses, Key(dir, filename), 0)
                   == Scan(old(disk.files.Keys), disk.refuses, Key(dir, filename), Hint(old(next), Key(dir, filename)))
    {
      hide HintsTaken, Scan, Candidate;
      var key := Key(dir, filename);
      var start := if key in next then next[key] else 0;
      ghost var taken := disk.files.Keys;
      if HintsTaken(next, taken) {
        HintIsHarmless(next, taken, disk.refuses, key);
      }
      var used: Search;
      path, used := CreateFrom(disk, key, start);
      if used.Use? {
        if old(HintsTaken(next, disk.files.Keys)) {
          FoundKeepsHints(next, taken, disk.refuses, key);
          assert disk.files.Keys == taken + {path.value};
        }
        var hint := used.suffix + 1;
        if key !in next || hint > next[key] {
          next := next[key := hint];
        }
      }
    }
  }

  function Hint(next: map<Key, nat>, key: Key): nat {
    if key in next then next[key] else 0
  }

  function Remember(next: map<Key, nat>, key: Key, used: nat): map<Key, nat> {
    if used + 1 > Hint(next, key) then next[key := used + 1] else next
  }

  predicate AllTaken(taken: set<string>, key: Key, below: nat) {
    forall j :: 0 <= j < below ==> Candidate(key, j) in taken
  }

  /** Every suffix below a hint is taken: true while no created file is removed. */
  ghost predicate HintsTaken(next: map<Key, nat>, taken: set<string>) {
    forall key :: key in next ==> AllTaken(taken, key, next[key])
  }

  lemma HintIsHarmless(next: map<Key, nat>, taken: set<string>, refuses: string -> bool, key: Key)
    requires HintsTaken(next, taken)
    ensures Scan(taken, refuses, key, 0) == Scan(taken, refuses, key, Hint(next, key))
  {
    ScanSkipsTaken(taken, refuses, key, 0, Hint(next, key));
  }

  lemma RememberKeepsHints(next: map<Key, nat>, taken: set<string>, key: Key, used: nat)
    requires HintsTaken(next, taken)
    requires AllTaken(taken, key, used)
    ensures HintsTaken(Remember(next, key, used), taken + {Candidate(key, used)})
  {
    var after := taken + {Candidate(key, used)};
    forall k | k in Remember(next, key, used) ensures AllTaken(after, k, Remember(next, key, used)[k]) {
      if k in next {
        assert AllTaken(taken, k, next[k]);
      }
    }
  }

  lemma FoundKeepsHints(next: map<Key, nat>, taken: set<string>, refuses: string -> bool, key: Key)
    requires HintsTaken(next, taken) && Scan(taken, refuses, key, Hint(next, key)).Use?
    ensures var used := Scan(taken, refuses, key, Hint(next, key)).suffix;
            HintsTaken(Remember(next, key, used), taken + {Candidate(key, used)})
  {
    hide Scan, Candidate;
    RememberKeepsHints(next, taken, key, Scan(taken, refuses, key, Hint(next, key)).suffix);
  }

  /** createUniqueFileFrom: an existing path is passed over, any other error ends the search. */
  method CreateFrom(disk: Disk, key: Key, startSuffix: nat) returns (path: Option<string>, used: Search)
    modifies disk
    ensures used == Scan(old(disk.files.Keys), disk.refuses, key, startSuffix)
    ensures path == if used.Use? then Some(Candidate(key, used.suffix)) else None
    ensures disk.files == if used.Use? then old(disk.files)[path.value := []] else old(disk.files)
  {
    var i := startSuffix;
    if i == 0 {
      var plain := Candidate(key, 0);
      var outcome := disk.CreateExclusive(plain);
      if outcome.Created? {
        return Some(plain), Use(0);
      }
      if outcome.Failed? {
        return None, Denied(0);
      }
      i := 1;
    }
    while i <= MaxUniquePathAttempts
      invariant disk.files == old(disk.files)
      invariant Scan(disk.files.Keys, disk.refuses, key, startSuffix) == Scan(disk.files.Keys, disk.refuses, key, i)
    {
      var candidate := Candidate(key, i);
      var outcome := disk.CreateExclusive(candidate);
      if outcome.Created? {
        return Some(candidate), Use(i);
      }
      if outcome.Failed? {
        return None, Denied(i);
      }
      i := i + 1;
    }
    return None, Exhausted;
  }
}
