/** A retried upload goes to the path its first attempt created. */
module UploadTargets {
  import opened Wrappers
  import opened UploadSession

  /** A request that has claimed a file agrees with the path stored for it. */
  predicate PathKnown(y: Session, th: Thread) {
    Works(th).Some? ==>
      && th.id in y.states
      && var stored := y.states[th.id].targetPath;
         match th
         case Claimed(_, target) => stored == target
         case Opened(_, _) => stored.None?
         case Receiving(_, path, _) => stored == Some(path)
         case Judged(_, path, _, _, _) => stored == Some(path)
         case Settled(_, kept, _, _) => kept.Some? ==> stored == Some(kept.value.path)
         case _ => true
  }

  ghost predicate Stable(y: Session) {
    && (forall t :: t in y.threads ==> PathKnown(y, y.threads[t]))
    && (forall id :: id in y.saved ==> id in y.states && y.states[id].targetPath == Some(y.saved[id].path))
  }

  /** No stored path changes. */
  ghost predicate Keeps(y: Session, z: Session) {
    forall id :: id in y.states && y.states[id].targetPath.Some? ==>
      id in z.states && z.states[id].targetPath == y.states[id].targetPath
  }

  lemma SameStable(y: Session, z: Session, t: nat)
    requires Stable(y) && t in z.threads && z.threads == y.threads[t := z.threads[t]] && PathKnown(z, z.threads[t])
    requires z.states.Keys == y.states.Keys && forall id :: id in y.states ==>
               z.states[id].targetPath == y.states[id].targetPath
    requires z.saved == y.saved
    ensures Stable(z) && Keeps(y, z)
  {
    forall u | u in z.threads ensures PathKnown(z, z.threads[u]) {
      if u != t {
        assert PathKnown(y, y.threads[u]);
      }
    }
  }

  /** The first attempt stores its path, and nobody else works on the file. */
  lemma StoreStable(c: Config, y: Session, t: nat)
    requires Owners(c, y) && Stable(y) && Enabled(c, y, StoreTarget(t))
    ensures Stable(Next(c, y, StoreTarget(t))) && Keeps(y, Next(c, y, StoreTarget(t)))
  {
    var z, id := StorePath(y, t), y.threads[t].id;
    assert PathKnown(y, y.threads[t]) && Works(y.threads[t]) == Some(id);
    assert z.states == y.states[id := y.states[id].(targetPath := Some(y.threads[t].path))];
    assert z.threads == y.threads[t := Receiving(id, y.threads[t].path, [])] && z.saved == y.saved;
    forall u | u in z.threads ensures PathKnown(z, z.threads[u]) {
      if u != t {
        assert PathKnown(y, y.threads[u]) && Works(y.threads[u]) != Some(id);
      }
    }
    hide StorePath, Owners, Works;
    forall other | other in z.saved
      ensures other in z.states && z.states[other].targetPath == Some(z.saved[other].path)
    {
      assert other != id;
    }
  }

  /** Thread `t` gives its file back, with its path in place. */
  lemma FinishStable(c: Config, y: Session, t: nat)
    requires Owners(c, y) && Stable(y) && Enabled(c, y, Finish(t))
    ensures Stable(Next(c, y, Finish(t))) && Keeps(y, Next(c, y, Finish(t)))
  {
    hide Moved, Closing, Stable, Keeps, Outcome;
    var z, th := FinishAttempt(y, t, y.threads[t]), y.threads[t];
    assert Works(th) == Some(th.id) && th.id in y.states;
    StableMeans(y, t);
    assert z.states == y.states[th.id := y.states[th.id].(status := Outcome(y.states[th.id], th.result).0)];
    FinishedStable(y, z, t);
  }

  lemma FinishedStable(y: Session, z: Session, t: nat)
    requires Stable(y) && t in y.threads && y.threads[t].Settled? && y.threads[t].id in y.states
    requires PathKnown(y, y.threads[t])
    requires t in z.threads && z.threads == y.threads[t := z.threads[t]] && Works(z.threads[t]) == None
    requires var id := y.threads[t].id; id in z.states && z.states == y.states[id := z.states[id]]
                                        && z.states[id].targetPath == y.states[id].targetPath
    requires z.saved == if y.threads[t].kept.Some? then y.saved[y.threads[t].id := y.threads[t].kept.value] else y.saved
    ensures Stable(z) && Keeps(y, z)
  {
    forall u | u in z.threads ensures PathKnown(z, z.threads[u]) {
      if u != t {
        assert PathKnown(y, y.threads[u]);
      }
    }
  }

  lemma StableStep(c: Config, y: Session, step: Step)
    requires Owners(c, y) && Stable(y) && Enabled(c, y, step)
    ensures Stable(Next(c, y, step)) && Keeps(y, Next(c, y, step))
  {
    match step
    case StoreTarget(t) => StoreStable(c, y, t); hide *;
    case Finish(t) => FinishStable(c, y, t); hide *;
    case Foreign(path, data) => hide Works, Owners;
    case _ => PlainStable(c, y, step); hide *;
  }

  lemma PlainStable(c: Config, y: Session, step: Step)
    requires Stable(y) && Enabled(c, y, step) && !step.StoreTarget? && !step.Finish? && !step.Foreign?
    ensures Stable(Next(c, y, step)) && Keeps(y, Next(c, y, step))
  {
    PlainTargets(c, y, step);
    hide Stable, Keeps, Next, Enabled, PathKnown;
    SameStable(y, Next(c, y, step), step.t);
  }

  /** Most steps leave stored paths alone, and their thread at a path it knows. */
  ghost predicate OnlyMoves(y: Session, z: Session, t: nat) {
    && t in z.threads && z.threads == y.threads[t := z.threads[t]] && z.saved == y.saved
    && z.states.Keys == y.states.Keys
    && (forall id :: id in y.states ==> z.states[id].targetPath == y.states[id].targetPath)
    && PathKnown(z, z.threads[t])
  }

  lemma PlainTargets(c: Config, y: Session, step: Step)
    requires Stable(y) && Enabled(c, y, step) && !step.StoreTarget? && !step.Finish? && !step.Foreign?
    ensures OnlyMoves(y, Next(c, y, step), step.t)
  {
    StableMeans(y, step.t);
    hide Stable, OnlyMoves, PathKnown, Plain, Quiet, Uncounted, Untouched, PathAt, SameStates;
    match step
    case Claim(t) => ClaimMoves(c, y, t);
    case Create(t, path) => CreateMoves(y, t, path);
    case Append(t, chunk, spilled) => AppendMoves(y, t, chunk, spilled);
    case Judge(t, readOk, flushOk) => JudgeMoves(c, y, t, readOk, flushOk);
    case CleanUp(t) => CloseMoves(y, t);
    case GiveUp(t, response) => GiveUpMoves(y, t, response);
    case _ => IdleMoves(c, y, step);
  }

  lemma ClaimMoves(c: Config, y: Session, t: nat)
    requires t in y.threads && y.threads[t].Checked?
    ensures OnlyMoves(y, ClaimFile(c, y, t, y.threads[t].id, y.threads[t].token), t)
  {
  }

  lemma CreateMoves(y: Session, t: nat, path: string)
    requires t in y.threads && y.threads[t].Claimed? && Targets(y.threads[t], path) && PathKnown(y, y.threads[t])
    ensures OnlyMoves(y, CreateFile(y, t, path), t)
  {
  }

  lemma GiveUpMoves(y: Session, t: nat, response: Response)
    requires t in y.threads && y.threads[t].Claimed? && PathKnown(y, y.threads[t])
    ensures OnlyMoves(y, GiveUpAt(y, t, response), t)
  {
  }

  lemma AppendMoves(y: Session, t: nat, chunk: Bytes, spilled: nat)
    requires t in y.threads && y.threads[t].Receiving? && spilled <= |y.threads[t].body| + |chunk|
    requires PathKnown(y, y.threads[t])
    ensures OnlyMoves(y, AppendBody(y, t, chunk, spilled), t)
  {
  }

  lemma JudgeMoves(c: Config, y: Session, t: nat, readOk: bool, flushOk: bool)
    requires t in y.threads && y.threads[t].Receiving? && y.threads[t].id in c.metas && PathKnown(y, y.threads[t])
    ensures OnlyMoves(y, JudgeBody(c, y, t, readOk, flushOk), t)
  {
    hide Judgement;
  }

  lemma CloseMoves(y: Session, t: nat)
    requires t in y.threads && y.threads[t].Judged? && PathKnown(y, y.threads[t])
    ensures OnlyMoves(y, CloseFile(y, t), t)
  {
  }

  lemma IdleMoves(c: Config, y: Session, step: Step)
    requires Enabled(c, y, step) && (step.Arrive? || step.Decrement? || step.EndCas? || step.Zero? || step.Kill?)
    ensures OnlyMoves(y, Next(c, y, step), step.t)
  {
    hide CanAppend, Targets;
    match step
    case Arrive(t, id, token, ip) => assert Next(c, y, step) == ArriveNow(c, y, t, id, token, ip);
    case Decrement(t) => assert Next(c, y, step) == CountDown(y, t);
    case EndCas(t) => assert Next(c, y, step) == CompareAndSwap(y, t);
    case Zero(t) => assert Next(c, y, step) == ZeroCount(y, t);
    case Kill(t) => assert Next(c, y, step) == EndFromOutside(y, t);
  }

  lemma StableMeans(y: Session, t: nat)
    requires Stable(y)
    ensures t in y.threads ==> PathKnown(y, y.threads[t])
  {
  }

  lemma {:induction false} StableRun(c: Config, y: Session, steps: seq<Step>)
    requires Inv(c, y) && Stable(y) && IsRun(c, y, steps)
    ensures Stable(Run(c, y, steps)) && Keeps(y, Run(c, y, steps))
    ensures Inv(c, Run(c, y, steps))
    decreases |steps|
  {
    if steps != [] {
      InvStep(c, y, steps[0]);
      StableStep(c, y, steps[0]);
      hide Inv, Stable, Next, Enabled;
      StableRun(c, Next(c, y, steps[0]), steps[1..]);
    }
  }

  /** However the requests interleave: once an attempt has stored the path it created for a file,
      every later attempt at that file writes to that path and no other, and the file, if it is
      finished, is the one there. */
  lemma RetriesKeepPath(c: Config, y: Session, before: seq<Step>, after: seq<Step>, id: string)
    requires Fresh(c, y) && IsRun(c, y, before) && IsRun(c, Run(c, y, before), after)
    requires id in Run(c, y, before).states && Run(c, y, before).states[id].targetPath.Some?
    ensures var path := Run(c, y, before).states[id].targetPath.value; var z := Run(c, Run(c, y, before), after);
            && (id in z.saved ==> z.saved[id].path == path)
            && forall t :: t in z.threads && Works(z.threads[t]) == Some(id) && PathOf(z.threads[t]).Some? ==>
                 PathOf(z.threads[t]).value == path
  {
    hide Inv, Run, IsRun, Fresh, PathKnown, Works, PathOf;
    FreshStable(c, y);
    StableRun(c, y, before);
    var now := Run(c, y, before);
    StableRun(c, now, after);
    var z := Run(c, now, after);
    forall t | t in z.threads && Works(z.threads[t]) == Some(id) && PathOf(z.threads[t]).Some?
      ensures Some(PathOf(z.threads[t]).value) == now.states[id].targetPath
    {
      WritesThere(z, z.threads[t], id);
    }
  }

  lemma FreshStable(c: Config, y: Session)
    requires Fresh(c, y)
    ensures Inv(c, y) && Stable(y)
  {
    FreshInv(c, y);
    hide Inv;
  }

  lemma WritesThere(y: Session, th: Thread, id: string)
    requires PathKnown(y, th) && Works(th) == Some(id) && id in y.states && y.states[id].targetPath.Some?
    ensures PathOf(th).Some? ==> PathOf(th) == y.states[id].targetPath
  {
  }
}
