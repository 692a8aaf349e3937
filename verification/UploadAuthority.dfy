/** Who can upload: no file is worked on or finished but for a request with its own token from the
    session's client. */
module UploadAuthority {
  import opened Wrappers
  import opened UploadSession

  /** Among the steps so far request `t` came in for this file, with this token, from an address
      that may upload. */
  ghost predicate CameIn(c: Config, past: seq<Step>, t: nat, id: string, token: string) {
    exists ip :: Arrive(t, id, token, ip) in past && (c.clientIP == "" || ip == c.clientIP)
  }

  ghost predicate Entitled(c: Config, past: seq<Step>, t: nat, id: string) {
    id in c.metas && CameIn(c, past, t, id, c.metas[id].token)
  }

  ghost predicate Legitimate(c: Config, past: seq<Step>, t: nat, th: Thread) {
    && (th.Checked? ==> CameIn(c, past, t, th.id, th.token))
    && (Works(th).Some? ==> Entitled(c, past, t, Works(th).value))
  }

  ghost predicate AllLegitimate(c: Config, y: Session, past: seq<Step>) {
    && (forall t :: t in y.threads ==> Legitimate(c, past, t, y.threads[t]))
    && (forall id :: id in y.saved ==> exists t :: Entitled(c, past, t, id))
  }

  lemma MorePast(c: Config, past: seq<Step>, step: Step, t: nat, id: string, token: string)
    ensures CameIn(c, past, t, id, token) ==> CameIn(c, past + [step], t, id, token)
  {
  }

  lemma LegitimateStays(c: Config, past: seq<Step>, step: Step, t: nat, th: Thread)
    requires Legitimate(c, past, t, th)
    ensures Legitimate(c, past + [step], t, th)
  {
    hide CameIn;
    if th.Checked? {
      MorePast(c, past, step, t, th.id, th.token);
    }
    if Works(th).Some? {
      MorePast(c, past, step, t, Works(th).value, c.metas[Works(th).value].token);
    }
  }

  lemma SavedStays(c: Config, past: seq<Step>, step: Step, t: nat, id: string)
    requires Entitled(c, past, t, id)
    ensures Entitled(c, past + [step], t, id)
  {
    MorePast(c, past, step, t, id, c.metas[id].token);
    hide CameIn;
  }

  /** What a step may leave the thread that takes it with. */
  lemma MoverLegitimate(c: Config, y: Session, past: seq<Step>, step: Step)
    requires Enabled(c, y, step) && !step.Foreign?
    requires step.t in y.threads ==> Legitimate(c, past + [step], step.t, y.threads[step.t])
    ensures var z := Next(c, y, step); step.t in z.threads && Legitimate(c, past + [step], step.t, z.threads[step.t])
  {
    hide Quiet, Uncounted, PathAt, CanAppend, Targets, SameStates;
    match step
    case Arrive(t, id, token, ip) => assert step in past + [step];
    case Claim(t) => hide CameIn;
    case Finish(t) => hide CameIn;
    case _ => MoverPlain(c, y, past, step);
  }

  lemma MoverPlain(c: Config, y: Session, past: seq<Step>, step: Step)
    requires Enabled(c, y, step) && !step.Foreign? && !step.Arrive? && !step.Claim? && !step.Finish?
    requires step.t in y.threads ==> Legitimate(c, past + [step], step.t, y.threads[step.t])
    ensures var z := Next(c, y, step); step.t in z.threads && Legitimate(c, past + [step], step.t, z.threads[step.t])
  {
    var z := Next(c, y, step);
    assert Plain(y, z, step.t);
    assert WorksAt(z, step.t) == WorksAt(y, step.t) && !z.threads[step.t].Checked?;
    hide CameIn, Next;
  }

  lemma SavedBy(c: Config, y: Session, step: Step, id: string)
    requires Enabled(c, y, step) && id in Next(c, y, step).saved && id !in y.saved
    ensures step.Finish? && Works(y.threads[step.t]) == Some(id)
  {
    hide Quiet, Uncounted, PathAt, CanAppend, Targets, SameStates;
    match step
    case Finish(t) =>
    case Claim(t) =>
    case Foreign(_, _) =>
    case _ => assert Plain(y, Next(c, y, step), step.t);
  }

  lemma OthersStand(c: Config, y: Session, step: Step)
    requires Enabled(c, y, step)
    ensures var z := Next(c, y, step);
            if step.Foreign? then z.threads == y.threads
            else step.t in z.threads && z.threads == y.threads[step.t := z.threads[step.t]]
  {
    hide Quiet, Uncounted, PathAt, CanAppend, Targets, SameStates;
    match step
    case Finish(t) =>
    case Claim(t) =>
    case Foreign(_, _) =>
    case _ => assert Plain(y, Next(c, y, step), step.t);
  }

  lemma StepLegitimate(c: Config, y: Session, past: seq<Step>, step: Step)
    requires AllLegitimate(c, y, past) && Enabled(c, y, step)
    ensures AllLegitimate(c, Next(c, y, step), past + [step])
  {
    hide Next, Enabled, Legitimate, Entitled;
    var z, now := Next(c, y, step), past + [step];
    forall t | t in y.threads ensures Legitimate(c, now, t, y.threads[t]) {
      LegitimateStays(c, past, step, t, y.threads[t]);
    }
    OthersStand(c, y, step);
    if !step.Foreign? {
      MoverLegitimate(c, y, past, step);
    }
    forall id | id in z.saved ensures exists t :: Entitled(c, now, t, id) {
      if id in y.saved {
        var t :| Entitled(c, past, t, id);
        SavedStays(c, past, step, t, id);
      } else {
        SavedBy(c, y, step, id);
        ThreadKnown(c, y, step);
        assert Legitimate(c, now, step.t, y.threads[step.t]);
        WorkerEntitled(c, now, step.t, y.threads[step.t]);
      }
    }
  }

  lemma ThreadKnown(c: Config, y: Session, step: Step)
    requires Enabled(c, y, step) && step.Finish?
    ensures step.t in y.threads
  {
  }

  lemma WorkerEntitled(c: Config, past: seq<Step>, t: nat, th: Thread)
    requires Legitimate(c, past, t, th) && Works(th).Some?
    ensures Entitled(c, past, t, Works(th).value)
  {
  }

  lemma {:induction false} RunLegitimate(c: Config, y: Session, past: seq<Step>, steps: seq<Step>)
    requires AllLegitimate(c, y, past) && IsRun(c, y, steps)
    ensures AllLegitimate(c, Run(c, y, steps), past + steps)
    decreases |steps|
  {
    hide AllLegitimate, Next, Enabled;
    if steps == [] {
      assert past + steps == past;
    } else {
      StepLegitimate(c, y, past, steps[0]);
      RunLegitimate(c, Next(c, y, steps[0]), past + [steps[0]], steps[1..]);
      assert past + [steps[0]] + steps[1..] == past + steps;
    }
  }

  /** However the requests interleave and whatever tokens they carry: a request that works on a
      file came in with the token handed out for that file, and from the client's address if the
      session has one; and so did one for every file that is finished and kept. */
  lemma OnlyEntitledUpload(c: Config, y: Session, steps: seq<Step>)
    requires Fresh(c, y) && IsRun(c, y, steps)
    ensures var z := Run(c, y, steps);
            && (forall t :: t in z.threads && Works(z.threads[t]).Some? ==>
                  Entitled(c, steps, t, Works(z.threads[t]).value))
            && (forall id :: id in z.saved ==> exists t :: Entitled(c, steps, t, id))
  {
    assert AllLegitimate(c, y, []);
    RunLegitimate(c, y, [], steps);
    assert [] + steps == steps;
    hide Entitled, Works, Run, IsRun, Fresh;
    forall t | t in Run(c, y, steps).threads && Works(Run(c, y, steps).threads[t]).Some?
      ensures Entitled(c, steps, t, Works(Run(c, y, steps).threads[t]).value)
    {
      WorkerEntitled(c, steps, t, Run(c, y, steps).threads[t]);
    }
  }
}
