/** What the receiver acknowledges is what the sender's offer declared, whatever bytes were sent. */
module DeclaredFiles {
  import opened Wrappers
  import opened RtcMessages
  import opened DataChannel
  import opened FileIndex
  import opened Transfer
  import opened Handshake
  import H = Handshake
  import S = RtcSenderSpec
  import R = RtcReceiverSpec
  import RI = ReceiverInvariant

  // ---------- The transfer ----------

  lemma AgreedPhases(c: Setup, y: System)
    requires Transfer.Inv(c, y)
    ensures y.r.phase in {R.WaitFiles, R.ReceivingFiles, R.Done}
  {
    hide RI.Inv, QueueAgreed, DeliveredUpTo;
  }

  lemma StepDeclared(c: Setup, y: System, step: Step)
    requires Transfer.Inv(c, y) && Enabled(c, y, step)
    ensures RI.SavesDeclared(c.rc, y.r, Next(c, y, step).r)
  {
    AgreedPhases(c, y);
    assert RI.Inv(y.r);
    hide Transfer.Inv, RI.SavesDeclared, RI.Inv, R.HandleFrame, S.HandleFrame, S.Advance, S.CanGo;
    match step
    case ToReceiver(env) => RI.FrameDeclared(c.rc, env, y.r, y.s.outbox[0]);
    case ReceiverEvent(event, env) => RI.SilentDeclared(c.rc, y.r, R.Apply(c.rc, env, y.r, event));
    case _ => RI.SilentDeclared(c.rc, y.r, Next(c, y, step).r);
  }

  lemma DeclaredThen(c: Setup, a: R.Receiver, b: R.Receiver, z: R.Receiver)
    requires RI.SavesDeclared(c.rc, a, b) && RI.SavesDeclared(c.rc, b, z)
    ensures RI.SavesDeclared(c.rc, a, z)
  {
    hide RI.Declared;
  }

  lemma {:induction false} RunDeclared(c: Setup, y: System, steps: seq<Step>)
    requires Transfer.Inv(c, y) && IsRun(c, y, steps)
    ensures RI.SavesDeclared(c.rc, y.r, Run(c, y, steps).r)
    decreases |steps|
  {
    hide Transfer.Inv, RI.SavesDeclared, Next, Enabled;
    if steps == [] {
      RI.SilentDeclared(c.rc, y.r, y.r);
    } else {
      StepDeclared(c, y, steps[0]);
      Transfer.StepKeepsInv(c, y, steps[0]);
      RunDeclared(c, Next(c, y, steps[0]), steps[1..]);
      DeclaredThen(c, y.r, Next(c, y, steps[0]).r, Run(c, y, steps).r);
    }
  }

  // ---------- The handshake saves nothing ----------

  predicate SameFiles(r: R.Receiver, s: R.Receiver) { s.saved == r.saved && s.disk == r.disk && s.base == r.base }

  lemma TalkSavesNothing(c: Setup, env: R.Env, r: R.Receiver, data: Bytes)
    requires r.current.None? && r.phase in {R.WaitNonce, R.WaitToken, R.WaitPin, R.WaitFileList, R.WaitPairResponse}
    ensures SameFiles(r, R.HandleMessage(c.rc, env, r, data))
  {
    match Classify(c.rc.codec, data)
    case None =>
    case Some((msg, j)) =>
      match r.phase
      case WaitNonce =>
      case WaitToken =>
      case WaitPin =>
      case WaitFileList =>
      case _ =>
  }

  lemma HandshakeStepSaves(c: Setup, y: System, step: Step)
    requires H.Inv(c, y) && Enabled(c, y, step) && HonestStep(c, step) && !(step.Thread? && step.choice.Accept?)
    ensures SameFiles(y.r, Next(c, y, step).r)
  {
    match step
    case ToReceiver(env) =>
      var talk :| Wires(c, y, talk) && At(c, y.s, y.r, talk);
      assert talk.ToR?;
      RPhases(c, y.s, y.r, talk.j);
      assert y.r.current.None?;
      hide At, HonestPeers, RI.Inv, Wires;
      var (buffer, message) := ControlStep(y.r.controlBuffer, y.s.outbox[0]);
      if message.Some? {
        TalkSavesNothing(c, env, y.r.(controlBuffer := buffer), message.value);
      }
      hide R.HandleMessage;
    case _ => hide H.Inv;
  }

  lemma {:induction false} HandshakeSavesNothing(c: Setup, y: System, steps: seq<Step>)
    requires H.Inv(c, y) && HandshakeRun(c, y, steps)
    ensures SameFiles(y.r, RunHandshake(c, y, steps).r)
    decreases |steps|
  {
    if steps != [] {
      HandshakeStepSaves(c, y, steps[0]);
      H.StepKeepsInv(c, y, steps[0]);
      hide H.Inv, Next, Enabled, Measure;
      HandshakeSavesNothing(c, Next(c, y, steps[0]), steps[1..]);
    }
  }

  // ---------- From the open channel ----------

  /** The data is what the sender declared of the first file it offered under this ID. */
  predicate AsOffered(c: Setup, id: string, data: Bytes) {
    var file := First(S.FileID, c.sc.files, id);
    && file.Some? && |data| == file.value.size
    && (file.value.sha256 == "" || c.rc.sha256(data) == file.value.sha256)
  }

  lemma DeclaredIsOffered(c: Setup, saved: R.Saved)
    requires RI.Declared(c.rc, OfferedFiles(c), saved)
    ensures AsOffered(c, saved.id, saved.data)
  {
    FirstFileIsFirstEntry(c.sc.files, saved.id);
    hide First;
  }

  /** The file was acknowledged with success, and the sender has read that. */
  ghost predicate Confirmed(z: System, k: nat) { k < AckedCount(z.s.job) && k < |Queue(z.s.job)| }

  /** From the open channel, in every run, whatever the sender's files have become since the
      offer: everything the receiver keeps has the size the sender offered under that ID, and the
      hash if it offered one; and so has every file whose success the sender has read, which is
      on the receiver's disk under a path that was not there before. */
  lemma KeptAsOffered(c: Setup, y: System, handshake: seq<Step>, order: seq<string>, transfer: seq<Step>)
    requires Opened(c, y) && HandshakeRun(c, y, handshake)
    requires Enabled(c, RunHandshake(c, y, handshake), Thread(S.Accept(order)))
    requires IsRun(c, Next(c, RunHandshake(c, y, handshake), Thread(S.Accept(order))), transfer)
    ensures var z := Run(c, Next(c, RunHandshake(c, y, handshake), Thread(S.Accept(order))), transfer);
            && (forall p :: p in z.r.saved ==> AsOffered(c, z.r.saved[p].id, z.r.saved[p].data))
            && (forall k: nat :: Confirmed(z, k) ==>
                  exists p :: p in z.r.saved && z.r.saved[p].id == Queue(z.s.job)[k].id && p !in y.r.disk
                              && p in z.r.disk && AsOffered(c, Queue(z.s.job)[k].id, z.r.disk[p]))
  {
    hide H.Inv, Transfer.Inv, Next, Run, IsRun, RunHandshake, HandshakeRun, Opened, Enabled, S.CanGo, AsOffered;
    OpenedInv(c, y);
    HandshakeKeepsInv(c, y, handshake);
    HandshakeSavesNothing(c, y, handshake);
    OpenedEmpty(c, y);
    var a := RunHandshake(c, y, handshake);
    AcceptedStarts(c, a, order);
    var b := Next(c, a, Thread(S.Accept(order)));
    RunDeclared(c, b, transfer);
    RunKeepsInv(c, b, transfer);
    var z := Run(c, b, transfer);
    forall p | p in z.r.saved ensures AsOffered(c, z.r.saved[p].id, z.r.saved[p].data) {
      DeclaredIsOffered(c, z.r.saved[p]);
    }
    BaseStays(c, b, transfer);
    forall k: nat | Confirmed(z, k)
      ensures exists p :: p in z.r.saved && z.r.saved[p].id == Queue(z.s.job)[k].id && p !in y.r.disk
                          && p in z.r.disk && AsOffered(c, Queue(z.s.job)[k].id, z.r.disk[p])
    {
      var p := ConfirmedIsSaved(c, z, k);
    }
  }

  lemma OpenedEmpty(c: Setup, y: System)
    requires Opened(c, y)
    ensures y.r.saved == map[] && y.r.base == y.r.disk
  {
    hide HonestPeers, RI.Inv;
  }

  lemma AcceptedStarts(c: Setup, y: System, order: seq<string>)
    requires H.Inv(c, y) && Enabled(c, y, Thread(S.Accept(order)))
    ensures var z := Next(c, y, Thread(S.Accept(order)));
            Transfer.Inv(c, z) && z.r == y.r && z.r.files == OfferedFiles(c)
  {
    AcceptanceStartsTransfer(c, y, order);
    AcceptedState(c, y);
    hide H.Inv, RI.Inv, QueueAgreed, Covers, OfferedFiles, Wanted;
  }

  lemma {:induction false} BaseStays(c: Setup, y: System, steps: seq<Step>)
    requires Transfer.Inv(c, y) && IsRun(c, y, steps)
    ensures Run(c, y, steps).r.base == y.r.base
    decreases |steps|
  {
    hide Transfer.Inv, Enabled, Next;
    if steps != [] {
      Transfer.StepKeepsInv(c, y, steps[0]);
      StepKeepsBase(c, y, steps[0]);
      BaseStays(c, Next(c, y, steps[0]), steps[1..]);
    }
  }

  lemma StepKeepsBase(c: Setup, y: System, step: Step)
    requires Transfer.Inv(c, y) && Enabled(c, y, step)
    ensures Next(c, y, step).r.base == y.r.base
  {
    assert RI.Inv(y.r);
    hide Transfer.Inv, RI.Inv, R.HandleFrame, S.HandleFrame, S.Advance, S.CanGo;
    match step
    case ToReceiver(env) => RI.MessageContinues(c.rc, env, y.r, y.s.outbox[0]);
    case ReceiverEvent(event, env) =>
    case _ =>
  }

  lemma ConfirmedIsSaved(c: Setup, z: System, k: nat) returns (p: string)
    requires Transfer.Inv(c, z) && Confirmed(z, k)
    ensures p in z.r.saved && z.r.saved[p].id == Queue(z.s.job)[k].id && p !in z.r.base
    ensures p in z.r.disk && z.r.disk[p] == z.r.saved[p].data
  {
    hide Sync, QueueAgreed;
    var item := Queue(z.s.job)[k];
    assert Delivered(z.r, item);
    p :| p in z.r.saved && z.r.saved[p] == R.Saved(item.id, item.file.content);
    hide Delivered;
  }
}
