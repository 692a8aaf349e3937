/** The unique-name allocator under concurrent calls.  One step is one mutex-protected
    access to the hint table or one exclusive create, the two atomic operations a call
    is made of; any other program may create or remove files in between. */
module ConcurrentNames {
  import opened UniqueNames

  datatype Call =
    | Reading(key: Key)                        // before the hint is read
    | Trying(key: Key, suffix: nat)            // next exclusive create to attempt
    | Storing(key: Key, used: nat)             // created, hint not stored yet
    | Returned(key: Key, used: nat)
    | Spent(key: Key)                          // every suffix is taken
    | Broken(key: Key)                         // a create failed for another reason
  {
    predicate Created() { Storing? || Returned? }
    function Path(): string requires Created() { Candidate(key, used) }
  }

  datatype Allocator = Allocator(taken: set<string>, next: map<Key, nat>, calls: map<nat, Call>)

  datatype Step =
    | Begin(id: nat, key: Key)
    | ReadHint(id: nat)
    | Attempt(id: nat, refused: bool)          // whether a free path could not be created
    | StoreHint(id: nat)
    | OtherCreates(path: string)
    | OtherRemoves(path: string)
    | ResetHints

  predicate Enabled(a: Allocator, s: Step) {
    match s
    case Begin(id, _) => id !in a.calls
    case ReadHint(id) => id in a.calls && a.calls[id].Reading?
    case Attempt(id, _) => id in a.calls && a.calls[id].Trying?
    case StoreHint(id) => id in a.calls && a.calls[id].Storing?
    case _ => true
  }

  function Apply(a: Allocator, s: Step): Allocator
    requires Enabled(a, s)
  {
    match s
    case Begin(id, key) => a.(calls := a.calls[id := Reading(key)])
    case ReadHint(id) =>
      var key := a.calls[id].key;
      a.(calls := a.calls[id := Trying(key, Hint(a.next, key))])
    case Attempt(id, refused) =>
      var Trying(key, i) := a.calls[id];
      if i > MaxUniquePathAttempts then a.(calls := a.calls[id := Spent(key)])
      else if Candidate(key, i) in a.taken then a.(calls := a.calls[id := Trying(key, i + 1)])
      else if refused then a.(calls := a.calls[id := Broken(key)])
      else a.(taken := a.taken + {Candidate(key, i)}, calls := a.calls[id := Storing(key, i)])
    case StoreHint(id) =>
      var Storing(key, used) := a.calls[id];
      a.(next := Remember(a.next, key, used), calls := a.calls[id := Returned(key, used)])
    case OtherCreates(path) => a.(taken := a.taken + {path})
    case OtherRemoves(path) => a.(taken := a.taken - {path})
    case ResetHints => a.(next := map[])
  }

  predicate IsRun(a: Allocator, steps: seq<Step>)
    decreases |steps|
  {
    steps == [] || (Enabled(a, steps[0]) && IsRun(Apply(a, steps[0]), steps[1..]))
  }

  function Run(a: Allocator, steps: seq<Step>): Allocator
    requires IsRun(a, steps)
    decreases |steps|
  {
    if steps == [] then a else Run(Apply(a, steps[0]), steps[1..])
  }

  function Start(taken: set<string>): Allocator {
    Allocator(taken, map[], map[])
  }

  predicate NothingRemoved(steps: seq<Step>) {
    forall i :: 0 <= i < |steps| ==> !steps[i].OtherRemoves?
  }

  predicate Behind(taken: set<string>, c: Call) {
    match c
    case Trying(key, i) => AllTaken(taken, key, i)
    case Storing(key, used) => AllTaken(taken, key, used + 1)
    case _ => true
  }

  ghost predicate CallsBehind(a: Allocator) {
    forall id :: id in a.calls ==> Behind(a.taken, a.calls[id])
  }

  ghost predicate Owned(a: Allocator) {
    && (forall id :: id in a.calls && a.calls[id].Created() ==> a.calls[id].Path() in a.taken)
    && (forall i, j :: i in a.calls && j in a.calls && i != j && a.calls[i].Created() && a.calls[j].Created()
          ==> a.calls[i].Path() != a.calls[j].Path())
  }

  ghost predicate Inv(a: Allocator) {
    HintsTaken(a.next, a.taken) && CallsBehind(a) && Owned(a)
  }

  lemma MoreTaken(taken: set<string>, more: set<string>, key: Key, below: nat)
    requires taken <= more && AllTaken(taken, key, below)
    ensures AllTaken(more, key, below)
  {
  }

  lemma StepKeepsHints(a: Allocator, s: Step)
    requires Inv(a) && Enabled(a, s) && !s.OtherRemoves?
    ensures HintsTaken(Apply(a, s).next, Apply(a, s).taken)
  {
    var b := Apply(a, s);
    if s.StoreHint? {
      var Storing(key, used) := a.calls[s.id];
      RememberKeepsHints(a.next, a.taken, key, used);
      assert a.calls[s.id].Path() in a.taken;
      assert a.taken + {Candidate(key, used)} == a.taken;
    } else {
      forall k | k in b.next ensures AllTaken(b.taken, k, b.next[k]) {
        MoreTaken(a.taken, b.taken, k, b.next[k]);
      }
    }
  }

  lemma BehindGrows(taken: set<string>, more: set<string>, c: Call)
    requires taken <= more && Behind(taken, c)
    ensures Behind(more, c)
  {
  }

  lemma OneMoreTaken(taken: set<string>, more: set<string>, key: Key, i: nat, path: string)
    requires AllTaken(taken, key, i) && taken <= more && path in more && path == Candidate(key, i)
    ensures AllTaken(more, key, i + 1)
  {
    forall j | 0 <= j < i + 1 ensures Candidate(key, j) in more {
      if j < i { assert Candidate(key, j) in taken; }
    }
  }

  lemma AttemptBehind(a: Allocator, id: nat, refused: bool)
    requires id in a.calls && a.calls[id].Trying? && Behind(a.taken, a.calls[id])
    ensures Behind(Apply(a, Attempt(id, refused)).taken, Apply(a, Attempt(id, refused)).calls[id])
  {
    var Trying(key, i) := a.calls[id];
    var path := Candidate(key, i);
    if i <= MaxUniquePathAttempts {
      OneMoreTaken(a.taken, a.taken + {path}, key, i, path);
      if path in a.taken {
        OneMoreTaken(a.taken, a.taken, key, i, path);
      }
    }
  }

  lemma StepKeepsCallsBehind(a: Allocator, s: Step)
    requires Inv(a) && Enabled(a, s) && !s.OtherRemoves?
    ensures CallsBehind(Apply(a, s))
  {
    var b := Apply(a, s);
    forall id | id in b.calls ensures Behind(b.taken, b.calls[id]) {
      if id in a.calls && a.calls[id] == b.calls[id] {
        BehindGrows(a.taken, b.taken, b.calls[id]);
      } else if s.Attempt? {
        AttemptBehind(a, id, s.refused);
      } else if s.ReadHint? {
        assert b.calls[id].key in a.next ==> AllTaken(a.taken, b.calls[id].key, a.next[b.calls[id].key]);
      }
    }
  }

  lemma StepKeepsOwned(a: Allocator, s: Step)
    requires Inv(a) && Enabled(a, s) && !s.OtherRemoves?
    ensures Owned(Apply(a, s))
  {
    hide HintsTaken, CallsBehind, Candidate;
    AnyStepIsSafe(a, s);
    var b := Apply(a, s);
    assert a.taken <= b.taken;
    hide Apply;
    forall i, j | i in b.calls && j in b.calls && i != j && b.calls[i].Created() && b.calls[j].Created()
      ensures b.calls[i].Path() != b.calls[j].Path()
    {
      if i in a.calls && a.calls[i].Created() {
        assert a.calls[i].Path() in a.taken;
      }
      if j in a.calls && a.calls[j].Created() {
        assert a.calls[j].Path() in a.taken;
      }
    }
  }

  /** While nothing is removed, in every reachable state the hints only skip taken
      names and the paths handed out are pairwise distinct. */
  lemma {:induction false} RunKeepsInv(a: Allocator, steps: seq<Step>)
    requires Inv(a) && IsRun(a, steps) && NothingRemoved(steps)
    ensures Inv(Run(a, steps))
    decreases |steps|
  {
    if steps != [] {
      StepKeepsHints(a, steps[0]);
      StepKeepsCallsBehind(a, steps[0]);
      StepKeepsOwned(a, steps[0]);
      RunKeepsInv(Apply(a, steps[0]), steps[1..]);
    }
  }

  /** Whatever the interleaving, a call that creates a file at this instant creates the
      one a search from suffix zero would create at this instant, and a call that fails
      does so only when that search fails in the same way. */
  lemma ConcurrentCreateIsScan(taken: set<string>, steps: seq<Step>, id: nat, refuses: string -> bool)
    requires IsRun(Start(taken), steps) && NothingRemoved(steps)
    requires var a := Run(Start(taken), steps); Enabled(a, Attempt(id, false))
    ensures var a := Run(Start(taken), steps);
            var Trying(key, i) := a.calls[id];
            match Apply(a, Attempt(id, refuses(Candidate(key, i)))).calls[id] {
              case Storing(k, used) => k == key && Scan(a.taken, refuses, key, 0) == Use(used)
              case Spent(k) => k == key && Scan(a.taken, refuses, key, 0) == Exhausted
              case Broken(k) => k == key && Scan(a.taken, refuses, key, 0) == Denied(i)
              case other => other == Trying(key, i + 1) && Candidate(key, i) in a.taken
            }
  {
    RunKeepsInv(Start(taken), steps);
    var a := Run(Start(taken), steps);
    var Trying(key, i) := a.calls[id];
    assert AllTaken(a.taken, key, i);
    ScanSkipsTaken(a.taken, refuses, key, 0, i);
  }

  predicate NewlyCreated(a: Allocator, b: Allocator, id: nat) {
    id in b.calls && b.calls[id].Created() && (id in a.calls ==> !a.calls[id].Created())
  }

  /** With removals a created path is still new at its creation, no step changes which
      path a call already owns, and a hint never falls except by Reset. */
  lemma AnyStepIsSafe(a: Allocator, s: Step)
    requires Enabled(a, s)
    ensures forall id :: id in a.calls && a.calls[id].Created() ==>
              Apply(a, s).calls[id].Created() && Apply(a, s).calls[id].Path() == a.calls[id].Path()
    ensures forall id :: NewlyCreated(a, Apply(a, s), id) ==>
                && Apply(a, s).calls[id].Path() !in a.taken
                && Apply(a, s).taken == a.taken + {Apply(a, s).calls[id].Path()}
    ensures !s.ResetHints? ==> forall key :: Hint(a.next, key) <= Hint(Apply(a, s).next, key)
  {
    hide Candidate, Hint, Remember;
    match s
    case Begin(id, key) =>
    case ReadHint(id) =>
    case Attempt(id, refused) =>
    case StoreHint(id) => HintsGrow(a, id);
    case OtherCreates(path) =>
    case OtherRemoves(path) =>
    case ResetHints =>
  }

  lemma HintsGrow(a: Allocator, id: nat)
    requires Enabled(a, StoreHint(id))
    ensures forall key :: Hint(a.next, key) <= Hint(Apply(a, StoreHint(id)).next, key)
  {
  }
}
