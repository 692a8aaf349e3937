/** The pipelined transfer without faults: it never gets stuck, always ends, and ends well. */
module TransferProgress {
  import opened Wrappers
  import opened RtcMessages
  import opened DataChannel
  import opened FileIndex
  import opened Transfer
  import S = RtcSenderSpec
  import R = RtcReceiverSpec
  import RI = ReceiverInvariant
  import Paths

  /** The file system grants every request of this step. */
  predicate CleanEnv(r: R.Receiver, env: R.Env) {
    && env.created.Some? && env.created.value !in r.disk
    && env.writeOk && env.flushOk && env.closeOk
  }

  /** No fault: nobody gives up or closes, and the file system works. */
  predicate Clean(y: System, step: Step) {
    match step
    case ToReceiver(env) => CleanEnv(y.r, env)
    case Thread(choice) => !choice.GiveUp?
    case ReceiverEvent(_, _) => false
    case _ => true
  }

  /** The declared sizes and hashes are those of the contents, and the names are usable. */
  ghost predicate Honest(c: Setup, queue: seq<S.Sendable>) {
    forall i :: 0 <= i < |queue| ==>
      && queue[i].file.size == |queue[i].file.content|
      && (queue[i].file.sha256 == "" || c.rc.sha256(queue[i].file.content) == queue[i].file.sha256)
      && Paths.SanitizePathWithFallback(queue[i].file.fileName).Success?
  }

  ghost predicate SuccessFrame(sc: S.Config, id: string, frame: Frame) {
    exists e :: frame == SendJSON(sc.codec, FileResponseMessage(id, true, e))
  }

  ghost predicate AcksGood(sc: S.Config, s: S.Sender, r: R.Receiver) {
    && (r.outbox != [] ==>
          && s.job.AwaitingAck? && s.job.index < |s.job.queue|
          && SuccessFrame(sc, s.job.queue[s.job.index].id, r.outbox[0]))
    && (s.fileResults.Some? ==> s.fileResults.value.success)
  }

  /** The receiver gives up its connection only after the final delimiter. */
  predicate ConnectedToTheEnd(s: S.Sender, r: R.Receiver) {
    r.connected
    || (r.phase == R.Done && s.outbox == []
        && match s.job
           case AwaitingAck(queue, i) => i + 1 == |queue| && (r.outbox != [] || s.fileResults.Some?)
           case Flushing(_) => true
           case Finished(_) => true
           case _ => false)
  }

  ghost predicate Smooth(c: Setup, y: System) {
    && Inv(c, y) && Honest(c, Queue(y.s.job)) && !y.s.failed
    && (y.r.current.Some? ==> !y.r.current.value.failed)
    && AcksGood(c.sc, y.s, y.r)
    && ConnectedToTheEnd(y.s, y.r)
  }

  // ---------- Faultless receiver steps ----------

  lemma CleanStart(c: Setup, env: R.Env, r: R.Receiver, queue: seq<S.Sendable>, i: nat)
    requires r.current.None? && i < |queue| && QueueAgreed(r, queue) && Honest(c, queue) && CleanEnv(r, env)
    ensures var t := R.StartReceiving(env, r, queue[i].id, queue[i].token);
            t.connected == r.connected && t.current.Some? && !t.current.value.failed
  {
  }

  lemma CleanBinary(env: R.Env, r: R.Receiver, data: Bytes, rest: seq<Frame>, all: Bytes)
    requires RI.Inv(r) && r.current.Some? && Flowing(r, [BinaryFrame(data)] + rest, all)
    requires !r.current.value.failed && env.writeOk
    requires First(DtoID, r.files, r.current.value.id).value.size >= |all|
    ensures var t := R.HandleBinaryData(env, r, data);
            t.connected == r.connected && t.current.Some? && !t.current.value.failed
  {
    assert ([BinaryFrame(data)] + rest)[1..] == rest;
    assert |r.current.value.accepted| + |data| <= |all|;
  }

  lemma CleanFinish(c: Setup, env: R.Env, r: R.Receiver, queue: seq<S.Sendable>, i: nat)
    requires RI.Inv(r) && i < |queue| && QueueAgreed(r, queue) && Honest(c, queue) && CleanEnv(r, env)
    requires Receiving(r, queue[i]) && Flowing(r, [], queue[i].file.content) && !r.current.value.failed
    requires r.connected && r.outbox == [] && c.rc.codec == c.sc.codec
    ensures var f := R.FinishCurrent(c.rc, env, r);
            && |f.outbox| == 1 && SuccessFrame(c.sc, queue[i].id, f.outbox[0]) && f.current.None? && f.connected
            && env.created.value !in f.disk
  {
    var a := r.current.value;
    assert a.accepted + Concat([]) == a.accepted;
    var (ok, e) := R.Verdict(c.rc, env, r);
    assert ok;
    var f := R.FinishCurrent(c.rc, env, r);
    assert f.outbox == [] + [SendJSON(c.sc.codec, FileResponseMessage(queue[i].id, true, e))];
  }

  lemma CleanFirstHeader(c: Setup, env: R.Env, r: R.Receiver, queue: seq<S.Sendable>)
    requires Faithful(c.sc.codec) && c.rc.codec == c.sc.codec && queue != [] && QueueAgreed(r, queue)
    requires Honest(c, queue)
    requires Idle(r) && CleanEnv(r, env)
    ensures var t := R.HandleFrame(c.rc, env, r, S.Header(c.sc, queue[0]));
            t.connected == r.connected && t.outbox == r.outbox && t.current.Some? && !t.current.value.failed
  {
    HeaderHandled(c, env, r, queue[0]);
    hide R.HandleFrame;
    CleanStart(c, env, r, queue, 0);
    assert R.Silent(r, R.StartReceiving(env, r, queue[0].id, queue[0].token));
    hide R.StartReceiving, QueueAgreed, Honest;
  }

  lemma SmoothInFlight(c: Setup, y: System, env: R.Env, i: nat, frames: seq<Frame>, data: Bytes)
    requires Smooth(c, y) && y.r.connected && y.s.outbox != [] && CleanEnv(y.r, env)
    requires i < |Queue(y.s.job)| && frames != [] && y.s.outbox[0] == frames[0]
    requires InFlight(c.sc, y.r, Queue(y.s.job), i, frames, data) && data <= Queue(y.s.job)[i].file.content
    ensures var t := R.HandleFrame(c.rc, env, y.r, y.s.outbox[0]);
            t.connected && t.outbox == y.r.outbox && t.current.Some? && !t.current.value.failed
  {
    hide AcksGood, ConnectedToTheEnd, Sync;
    var q := Queue(y.s.job);
    if Idle(y.r) {
      CleanFirstHeader(c, env, y.r, q);
      hide R.HandleFrame, RI.Inv;
    } else {
      assert frames == [BinaryFrame(frames[0].data)] + frames[1..];
      CleanBinary(env, y.r, frames[0].data, frames[1..], data);
      hide R.HandleBinaryData, RI.Inv;
    }
  }

  lemma SmoothBoundary(c: Setup, y: System, env: R.Env, i: nat)
    requires Smooth(c, y) && y.r.connected && CleanEnv(y.r, env) && y.s.job.AwaitingAck?
    requires y.s.job.index == i < |Queue(y.s.job)|
    requires y.s.outbox == [S.Boundary(c.sc, Queue(y.s.job), i)] && NoAck(y.s, y.r)
    requires var item := Queue(y.s.job)[i]; Receiving(y.r, item) && Flowing(y.r, [], item.file.content)
    ensures var q := Queue(y.s.job); var t := R.HandleFrame(c.rc, env, y.r, y.s.outbox[0]);
            && |t.outbox| == 1 && SuccessFrame(c.sc, q[i].id, t.outbox[0])
            && if i + 1 < |q| then t.connected && t.current.Some? && !t.current.value.failed
               else t.phase == R.Done && t.current.None?
  {
    hide R.HandleFrame, R.HandleBoundary, R.FinishCurrent, Sync, AcksGood, ConnectedToTheEnd, RI.DiskExact,
         RI.Alternates, RI.CurrentBounded;
    var q := Queue(y.s.job);
    BoundaryHandled(c, env, y.r, q, i);
    CleanFinish(c, env, y.r, q, i);
    var f := R.FinishCurrent(c.rc, env, y.r);
    if i + 1 < |q| {
      CleanStart(c, env, f, q, i + 1);
      assert R.Silent(f, R.StartReceiving(env, f, q[i + 1].id, q[i + 1].token));
    }
  }

  // ---------- A measure that every faultless step lowers ----------

  /** Bytes of items i and later. */
  function BytesFrom(queue: seq<S.Sendable>, i: nat): nat
    decreases |queue| - i
  {
    if i >= |queue| then 0 else |queue[i].file.content| + BytesFrom(queue, i + 1)
  }

  function BytesLeft(job: S.Job): int {
    match job
    case AwaitingAcceptance => 0
    case Starting(queue) => BytesFrom(queue, 0)
    case SendingFrames(queue, i, offset) => BytesFrom(queue, i) - offset
    case AwaitingAck(queue, i) => BytesFrom(queue, i + 1)
    case _ => 0
  }

  /** Headers, boundaries and the closing flush the thread still has to do. */
  function SendsLeft(job: S.Job): int {
    match job
    case AwaitingAcceptance => 0
    case Starting(queue) => |queue| + 2
    case SendingFrames(queue, i, _) => |queue| - i + 1
    case AwaitingAck(queue, i) => |queue| - i
    case Flushing(_) => 1
    case Finished(_) => 0
  }

  function Measure(y: System): int {
    4 * BytesLeft(y.s.job) + 4 * SendsLeft(y.s.job) + 3 * |y.s.outbox| + 2 * |y.r.outbox|
      + (if y.s.fileResults.Some? then 1 else 0)
  }

  lemma MeasureNat(c: Setup, y: System)
    requires Inv(c, y)
    ensures Measure(y) >= 0
  {
    hide RI.Inv, Delivered, Cut, Linked;
    JobInRange(c.sc, y.s, y.r);
  }

  lemma JobInRange(sc: S.Config, s: S.Sender, r: R.Receiver)
    requires Sync(sc, s, r)
    ensures s.job.SendingFrames? ==>
              s.job.index < |s.job.queue| && s.job.offset <= |s.job.queue[s.job.index].file.content|
    ensures s.job.AwaitingAck? ==> s.job.index < |s.job.queue|
  {
  }

  lemma ThreadLowers(sc: S.Config, s: S.Sender, r: R.Receiver, choice: S.Choice)
    requires S.CanGo(s, choice) && choice.Go?
    ensures var t := S.Advance(sc, s, choice);
            !t.failed ==> Measure(System(t, r)) < Measure(System(s, r))
  {
    match s.job
    case Starting(_) =>
    case SendingFrames(q, i, offset) =>
      if offset < |q[i].file.content| {
      } else {
      }
    case AwaitingAck(_, _) =>
    case _ =>
  }

  // ---------- Faultless steps keep the run smooth ----------

  /** What frame is next, by the job of the sending thread. */
  lemma NextFrame(c: Setup, y: System)
    requires Smooth(c, y) && y.s.outbox != []
    ensures y.r.connected && NoAck(y.s, y.r)
    ensures var q := Queue(y.s.job);
            match y.s.job
            case SendingFrames(_, i, offset) =>
              i < |q| && offset <= |q[i].file.content|
              && InFlight(c.sc, y.r, q, i, y.s.outbox, q[i].file.content[..offset])
            case AwaitingAck(_, i) =>
              && i < |q| && y.s.outbox[|y.s.outbox| - 1] == S.Boundary(c.sc, q, i)
              && InFlight(c.sc, y.r, q, i, y.s.outbox[..|y.s.outbox| - 1], q[i].file.content)
            case _ => Idle(y.r) && y.s.outbox == [Delimiter]
  {
    hide RI.Inv, InFlight, OneAck, Delivered;
  }

  /** What remains of a smooth state when the receiver has become t. */
  ghost predicate SmoothAfter(c: Setup, s: S.Sender, t: R.Receiver) {
    && (t.current.Some? ==> !t.current.value.failed)
    && AcksGood(c.sc, s, t) && ConnectedToTheEnd(s, t) && |t.outbox| <= 1
  }

  lemma NothingInFlight(c: Setup, r: R.Receiver, queue: seq<S.Sendable>, i: nat, data: Bytes)
    requires i < |queue| && InFlight(c.sc, r, queue, i, [], data)
    ensures Receiving(r, queue[i]) && Flowing(r, [], data)
  {
  }

  lemma SmoothAwaiting(c: Setup, y: System, env: R.Env)
    requires Smooth(c, y) && y.s.outbox != [] && CleanEnv(y.r, env) && y.s.job.AwaitingAck?
    ensures SmoothAfter(c, y.s.(outbox := y.s.outbox[1..]), R.HandleFrame(c.rc, env, y.r, y.s.outbox[0]))
  {
    hide R.HandleFrame, RI.Inv, Inv, Honest, InFlight, Delivered;
    var q, i, frames := Queue(y.s.job), y.s.job.index, y.s.outbox[..|y.s.outbox| - 1];
    NextFrame(c, y);
    if frames == [] {
      assert y.s.outbox == [S.Boundary(c.sc, q, i)];
      NothingInFlight(c, y.r, q, i, q[i].file.content);
      SmoothBoundary(c, y, env, i);
    } else {
      SmoothInFlight(c, y, env, i, frames, q[i].file.content);
    }
  }

  lemma SmoothToReceiver(c: Setup, y: System, env: R.Env)
    requires Smooth(c, y) && y.s.outbox != [] && CleanEnv(y.r, env)
    ensures SmoothAfter(c, y.s.(outbox := y.s.outbox[1..]), R.HandleFrame(c.rc, env, y.r, y.s.outbox[0]))
    ensures y.r.outbox == []
  {
    var q := Queue(y.s.job);
    NextFrame(c, y);
    match y.s.job {
      case SendingFrames(_, i, offset) =>
        SmoothInFlight(c, y, env, i, y.s.outbox, q[i].file.content[..offset]);
        hide InFlight, Idle;
      case AwaitingAck(_, i) =>
        SmoothAwaiting(c, y, env);
        hide SmoothAfter, InFlight, Idle;
      case _ => IdleDelimiter(c, y, env);
    }
    hide R.HandleFrame, RI.Inv, Inv, Honest;
  }

  lemma SmoothToSender(c: Setup, y: System)
    requires Smooth(c, y) && y.r.outbox != [] && Enabled(c, y, ToSender)
    ensures var z := Next(c, y, ToSender);
            && z.r.current == y.r.current && !z.s.failed && Measure(z) < Measure(y)
            && AcksGood(c.sc, z.s, z.r) && ConnectedToTheEnd(z.s, z.r)
  {
    AckInFlight(c, y);
    var item := y.s.job.queue[y.s.job.index];
    var e :| y.r.outbox[0] == SendJSON(c.sc.codec, FileResponseMessage(item.id, true, e));
    AckClassified(c, y.s, item.id, true, e);
    assert y.r.outbox[1..] == [];
    assert Next(c, y, ToSender)
        == System(y.s.(fileResults := Some(AckOf(item.id, true, e)), errors := y.s.errors), y.r.(outbox := []));
    hide S.HandleFrame, Sync, RI.Inv, Next;
  }

  lemma SmoothThread(c: Setup, y: System, choice: S.Choice)
    requires Smooth(c, y) && S.CanGo(y.s, choice) && choice.Go?
    ensures var z := Next(c, y, Thread(choice));
            !z.s.failed && AcksGood(c.sc, z.s, z.r) && ConnectedToTheEnd(z.s, z.r)
  {
    match y.s.job
    case Starting(_) =>
    case SendingFrames(q, i, offset) =>
    case AwaitingAck(_, _) => AckWaiting(c.sc, y.s, y.r); AckIsForItem(c, y);
    case _ =>
  }

  lemma AckIsForItem(c: Setup, y: System)
    requires Inv(c, y) && y.s.job.AwaitingAck? && y.s.fileResults.Some?
    ensures y.s.fileResults.value.id == y.s.job.queue[y.s.job.index].id
  {
    hide RI.Inv;
  }

  lemma SmoothStep(c: Setup, y: System, step: Step)
    requires Smooth(c, y) && Enabled(c, y, step) && Clean(y, step)
    ensures Smooth(c, Next(c, y, step)) && Measure(Next(c, y, step)) < Measure(y)
  {
    StepKeepsInv(c, y, step);
    QueueFixed(c, y, step);
    match step
    case ToReceiver(env) => SmoothToReceiver(c, y, env); hide R.HandleFrame, Inv;
    case ToSender => SmoothToSender(c, y);
    case Thread(choice) => SmoothThread(c, y, choice); ThreadLowers(c.sc, y.s, y.r, choice);
    case StartNonce(_) =>
  }

  /** Some step is always enabled before completion. */
  lemma NeverStuck(c: Setup, y: System)
    requires Smooth(c, y) && !y.s.job.Finished?
    ensures y.s.outbox != [] || y.r.outbox != [] || exists size :: S.CanGo(y.s, S.Go(size))
  {
    hide RI.Inv, Delivered;
    match y.s.job
    case SendingFrames(q, i, offset) =>
      var left := |q[i].file.content| - offset;
      assert S.CanGo(y.s, S.Go(if left <= ChunkSize then left else ChunkSize));
    case AwaitingAck(_, _) =>
      assert y.s.fileResults.Some? ==> S.CanGo(y.s, S.Go(0));
    case Starting(_) => assert S.CanGo(y.s, S.Go(0));
    case Flushing(_) => assert S.CanGo(y.s, S.Go(0));
    case _ =>
  }

  // ---------- Whole faultless runs ----------

  ghost predicate CleanRun(c: Setup, y: System, steps: seq<Step>)
    requires IsRun(c, y, steps)
    decreases |steps|
  {
    steps == [] || (Clean(y, steps[0]) && CleanRun(c, Next(c, y, steps[0]), steps[1..]))
  }

  lemma {:induction false} CleanRunSmooth(c: Setup, y: System, steps: seq<Step>)
    requires Smooth(c, y) && IsRun(c, y, steps) && CleanRun(c, y, steps)
    ensures Smooth(c, Run(c, y, steps)) && |steps| <= Measure(y) - Measure(Run(c, y, steps))
    decreases |steps|
  {
    if steps != [] {
      SmoothStep(c, y, steps[0]);
      CleanRunSmooth(c, Next(c, y, steps[0]), steps[1..]);
    }
  }

  /** Every faultless run is finite, is never stuck before SendFiles has returned nil, and
      once it has, every queued file is stored. */
  lemma FaultlessRunCompletes(c: Setup, y: System, steps: seq<Step>)
    requires Ready(c, y) && Honest(c, y.s.job.queue) && IsRun(c, y, steps) && CleanRun(c, y, steps)
    ensures var z := Run(c, y, steps);
            && |steps| <= 4 * BytesFrom(y.s.job.queue, 0) + 4 * (|y.s.job.queue| + 2)
            && !z.s.failed
            && (if z.s.job.Finished?
                then forall k :: 0 <= k < |y.s.job.queue| ==> Stored(z.r, y.s.job.queue[k])
                else z.s.outbox != [] || z.r.outbox != [] || exists size :: S.CanGo(z.s, S.Go(size)))
  {
    CleanRunSmooth(c, y, steps);
    var z := Run(c, y, steps);
    MeasureNat(c, z);
    EndToEndDelivery(c, y, steps);
    if !z.s.job.Finished? {
      NeverStuck(c, z);
    }
  }
}
