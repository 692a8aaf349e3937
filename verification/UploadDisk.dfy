/** What uploads leave on the disk: finished files, and nothing of the others. */
module UploadDisk {
  import opened Wrappers
  import opened UploadSession

  /** Path `p` of the session is where a request works, or where a finished file is. */
  predicate Used(y: Session, p: string)
    requires p in y.holders
  {
    match y.holders[p]
    case ByThread(t) => t in y.threads && PathOf(y.threads[t]) == Some(p)
    case ByFile(id) => id in y.saved && y.saved[id].path == p
  }

  ghost predicate NoLitter(y: Session) {
    && y.disk.Keys == y.foreign.Keys + y.holders.Keys
    && forall p :: p in y.holders ==> Used(y, p)
  }

  /** A step of thread `t` that keeps its path and every other. */
  lemma SamePaths(y: Session, z: Session, t: nat)
    requires NoLitter(y) && t in z.threads && z.threads == y.threads[t := z.threads[t]]
    requires t in y.threads ==> PathOf(y.threads[t]).None? || PathOf(z.threads[t]) == PathOf(y.threads[t])
    requires z.disk.Keys == y.disk.Keys && z.holders == y.holders && z.saved == y.saved && z.foreign == y.foreign
    ensures NoLitter(z)
  {
    hide PathOf;
    forall p | p in z.holders ensures Used(z, p) {
      assert Used(y, p);
    }
  }

  lemma CreateLitter(y: Session, t: nat, path: string)
    requires NoLitter(y) && t in y.threads && y.threads[t].Claimed? && path !in y.disk
    ensures NoLitter(CreateFile(y, t, path))
  {
    var z := CreateFile(y, t, path);
    forall p | p in z.holders ensures Used(z, p) {
      assert p != path ==> p in y.holders && Used(y, p);
    }
  }

  /** What is known of a request that has its body judged, or is settled. */
  lemma PathKnown(c: Config, y: Session, t: nat)
    requires Inv(c, y) && t in y.threads && PathOf(y.threads[t]).Some?
    ensures var p := PathOf(y.threads[t]).value; p in y.holders && y.holders[p] == ByThread(t) && p !in y.foreign
  {
    hide Owners, Contents, Countdowns, Conserved, Ends, PathOf;
  }

  /** An unfinished file is removed with the request's claim to its path. */
  lemma CloseLitter(y: Session, t: nat)
    requires NoLitter(y) && t in y.threads && y.threads[t].Judged?
    requires var p := y.threads[t].path; p in y.holders && y.holders[p] == ByThread(t) && p !in y.foreign
    ensures NoLitter(CloseFile(y, t))
  {
    hide Plain, Uncounted;
    var th, z := y.threads[t], CloseFile(y, t);
    if th.result == Finished {
      SamePaths(y, z, t);
    } else {
      assert z.disk == y.disk - {th.path} && z.holders == y.holders - {th.path} && z.foreign == y.foreign;
      assert z.threads == y.threads[t := z.threads[t]] && z.saved == y.saved;
      hide CloseFile;
      forall p | p in z.holders ensures Used(z, p) {
        assert Used(y, p) && p != th.path;
      }
    }
  }

  lemma SettledUnsaved(c: Config, y: Session, t: nat)
    requires Inv(c, y) && t in y.threads && y.threads[t].Settled?
    ensures y.threads[t].id in y.states && y.threads[t].id !in y.saved
  {
    SettledClaims(c, y, t);
    hide Owners, Contents, Countdowns, Conserved, Ends;
  }

  /** A finished one is handed over, and nothing was kept for its ID before. */
  lemma FinishLitter(c: Config, y: Session, t: nat)
    requires NoLitter(y) && Inv(c, y) && t in y.threads && y.threads[t].Settled?
    ensures NoLitter(FinishAttempt(y, t, y.threads[t]))
  {
    hide Inv, Outcome, Moved;
    var th, z := y.threads[t], FinishAttempt(y, t, y.threads[t]);
    SettledUnsaved(c, y, t);
    if th.kept.Some? {
      assert PathOf(th) == Some(th.kept.value.path);
      PathKnown(c, y, t);
      HandedOver(y, z, t, th.id, th.kept.value);
    } else {
      assert PathOf(th) == None;
      SamePaths(y, z, t);
    }
    hide FinishAttempt;
  }

  lemma HandedOver(y: Session, z: Session, t: nat, id: string, kept: Kept)
    requires NoLitter(y) && t in y.threads && t in z.threads && z.threads == y.threads[t := z.threads[t]]
    requires kept.path in y.holders && y.holders[kept.path] == ByThread(t) && id !in y.saved
    requires z.holders == y.holders[kept.path := ByFile(id)] && z.saved == y.saved[id := kept]
    requires z.disk == y.disk && z.foreign == y.foreign && PathOf(y.threads[t]) == Some(kept.path)
    ensures NoLitter(z)
  {
    hide PathOf;
    assert z.holders.Keys == y.holders.Keys + {kept.path};
    forall p | p in z.holders ensures Used(z, p) {
      if p != kept.path {
        assert Used(y, p);
      }
    }
  }

  lemma StepLitter(c: Config, y: Session, step: Step)
    requires NoLitter(y) && Inv(c, y) && Enabled(c, y, step)
    ensures NoLitter(Next(c, y, step))
  {
    match step
    case Create(t, path) => CreateLitter(y, t, path); hide *;
    case CleanUp(t) => PathKnown(c, y, t); CloseLitter(y, t); hide *;
    case Finish(t) => FinishLitter(c, y, t); hide *;
    case Foreign(path, data) => ForeignLitter(c, y, path, data); hide *;
    case Claim(t) => ClaimLitter(c, y, t); hide *;
    case _ => PlainLitter(c, y, step); hide *;
  }

  lemma ClaimLitter(c: Config, y: Session, t: nat)
    requires NoLitter(y) && t in y.threads && y.threads[t].Checked?
    ensures NoLitter(ClaimFile(c, y, t, y.threads[t].id, y.threads[t].token))
  {
    hide NoLitter;
    SamePaths(y, ClaimFile(c, y, t, y.threads[t].id, y.threads[t].token), t);
  }

  lemma ForeignLitter(c: Config, y: Session, path: string, data: Bytes)
    requires NoLitter(y) && path !in y.disk
    ensures NoLitter(y.(disk := y.disk[path := data], foreign := y.foreign[path := data]))
  {
    forall p | p in y.holders ensures Used(y.(disk := y.disk[path := data], foreign := y.foreign[path := data]), p) {
      assert Used(y, p);
    }
  }

  lemma PlainLitter(c: Config, y: Session, step: Step)
    requires NoLitter(y) && Inv(c, y) && Enabled(c, y, step)
    requires !step.Create? && !step.CleanUp? && !step.Finish? && !step.Foreign? && !step.Claim?
    ensures NoLitter(Next(c, y, step))
  {
    var z := Next(c, y, step);
    WritesOwn(c, y, step);
    assert PathAt(z, step.t) == PathAt(y, step.t);
    assert Plain(y, z, step.t) && z.holders == y.holders;
    hide NoLitter, Next, Inv;
    SamePaths(y, z, step.t);
  }

  /** Only paths that are there are written to. */
  lemma WritesOwn(c: Config, y: Session, step: Step)
    requires Inv(c, y) && Enabled(c, y, step)
    requires !step.Create? && !step.CleanUp? && !step.Finish? && !step.Foreign? && !step.Claim?
    ensures Next(c, y, step).disk.Keys == y.disk.Keys && Next(c, y, step).holders == y.holders
    ensures PathAt(Next(c, y, step), step.t) == PathAt(y, step.t)
  {
    hide Owners, Contents, Countdowns, Conserved, Ends;
    if step.Judge? {
      assert PathOf(y.threads[step.t]) == Some(y.threads[step.t].path);
      assert y.threads[step.t].path in y.disk;
    }
  }

  lemma {:induction false} RunLitter(c: Config, y: Session, steps: seq<Step>)
    requires NoLitter(y) && Inv(c, y) && IsRun(c, y, steps)
    ensures NoLitter(Run(c, y, steps)) && Inv(c, Run(c, y, steps))
    decreases |steps|
  {
    hide NoLitter, Inv, Next, Enabled;
    if steps != [] {
      StepLitter(c, y, steps[0]);
      InvStep(c, y, steps[0]);
      RunLitter(c, Next(c, y, steps[0]), steps[1..]);
    }
  }

  /** Where a finished file is. */
  predicate KeptAt(y: Session, p: string) { exists id :: id in y.saved && y.saved[id].path == p }

  /** However requests, cancels and other programs interleave: every path on the disk is another
      program's, or a request is still working there, or a finished file is there with its full
      contents.  Once all requests are answered, no partial file is left. */
  lemma NoPartialUploads(c: Config, y: Session, steps: seq<Step>)
    requires Fresh(c, y) && IsRun(c, y, steps)
    ensures var z := Run(c, y, steps);
            && (forall p :: p in z.disk <==> p in z.foreign || p in z.holders)
            && (forall p :: p in z.holders ==>
                  KeptAt(z, p) || exists t :: t in z.threads && PathOf(z.threads[t]) == Some(p))
            && (Rests(z) ==> forall p :: p in z.disk <==> p in z.foreign || KeptAt(z, p))
  {
    hide Inv, Run, IsRun, Fresh, NoLitter, KeptAt, PathOf, Rests;
    FreshClean(c, y);
    RunLitter(c, y, steps);
    DiskMeans(c, Run(c, y, steps));
  }

  lemma FreshClean(c: Config, y: Session)
    requires Fresh(c, y)
    ensures Inv(c, y) && NoLitter(y)
  {
    FreshInv(c, y);
    hide Inv;
  }

  lemma DiskMeans(c: Config, z: Session)
    requires Inv(c, z) && NoLitter(z)
    ensures forall p :: p in z.disk <==> p in z.foreign || p in z.holders
    ensures forall p :: p in z.holders ==>
              KeptAt(z, p) || exists t :: t in z.threads && PathOf(z.threads[t]) == Some(p)
    ensures Rests(z) ==> forall p :: p in z.disk <==> p in z.foreign || KeptAt(z, p)
  {
    hide Owners, Contents, Countdowns, Conserved, Ends;
    forall p | p in z.holders ensures KeptAt(z, p) || exists t :: t in z.threads && PathOf(z.threads[t]) == Some(p) {
      assert Used(z, p);
    }
    assert Rests(z) ==> forall t :: t in z.threads ==> PathOf(z.threads[t]) == None;
    hide PathOf, Rests, Used;
  }
}
