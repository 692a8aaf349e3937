/** Sender and receiver joined by their two channels, from the moment the file tokens are
    agreed: the pipelined transfer. */
module Transfer {
  import opened Wrappers
  import opened RtcMessages
  import opened DataChannel
  import opened FileIndex
  import S = RtcSenderSpec
  import R = RtcReceiverSpec
  import RI = ReceiverInvariant

  datatype Setup = Setup(sc: S.Config, rc: R.Config)

  datatype System = System(s: S.Sender, r: R.Receiver)

  datatype Step =
    | StartNonce(nonce: Bytes)                    // the data channel opens
    | ToReceiver(env: R.Env)                      // the next frame for the receiver is handled
    | ToSender                                    // the next frame for the sender is handled
    | Thread(choice: S.Choice)                    // the thread in Send or SendFiles moves on
    | ReceiverEvent(event: R.Event, env: R.Env)   // the receiver is closed from its own side

  predicate EndEvent(e: R.Event) { e.PeerClosed? || e.Close? || e.WatchdogExpired? }

  ghost predicate Enabled(c: Setup, y: System, step: Step) {
    && (y.r.phase == R.ReceivingFiles <==> y.r.current.Some?)
    && match step
       case StartNonce(_) => y.s.phase == S.Init
       case ToReceiver(_) => y.s.outbox != []
       case ToSender => y.r.outbox != []
       case Thread(choice) => S.CanGo(y.s, choice)
       case ReceiverEvent(event, _) => EndEvent(event)
  }

  function Next(c: Setup, y: System, step: Step): System
    requires Enabled(c, y, step)
  {
    match step
    case StartNonce(nonce) => y.(s := S.StartNonceExchange(c.sc, nonce, y.s))
    case ToReceiver(env) =>
      System(y.s.(outbox := y.s.outbox[1..]), R.HandleFrame(c.rc, env, y.r, y.s.outbox[0]))
    case ToSender =>
      System(S.HandleFrame(c.sc, y.s, y.r.outbox[0]), y.r.(outbox := y.r.outbox[1..]))
    case Thread(choice) => y.(s := S.Advance(c.sc, y.s, choice))
    case ReceiverEvent(event, env) => y.(r := R.Apply(c.rc, env, y.r, event))
  }

  // ---------- What the receiver has of the queue ----------

  /** The item was saved byte for byte. */
  ghost predicate Delivered(r: R.Receiver, item: S.Sendable) {
    exists path :: path in r.saved && r.saved[path] == R.Saved(item.id, item.file.content)
  }

  ghost predicate DeliveredUpTo(r: R.Receiver, queue: seq<S.Sendable>, n: nat) {
    forall k :: 0 <= k < n && k < |queue| ==> Delivered(r, queue[k])
  }

  /** The receiver accepted every queued item: same ID, its token, and a listed entry. */
  ghost predicate QueueAgreed(r: R.Receiver, queue: seq<S.Sendable>) {
    && (forall i :: 0 <= i < |queue| ==>
          && queue[i].id != "" && queue[i].token != ""
          && queue[i].id in r.fileTokens && r.fileTokens[queue[i].id] == queue[i].token
          && First(DtoID, r.files, queue[i].id) == Some(S.Dto(queue[i].file)))
    && (forall i, j :: 0 <= i < j < |queue| ==> queue[i].id != queue[j].id)
  }

  predicate Idle(r: R.Receiver) {
    r.phase == R.WaitFiles && r.current.None? && r.controlBuffer == []
  }

  predicate Receiving(r: R.Receiver, item: S.Sendable) {
    r.phase == R.ReceivingFiles && r.current.Some? && r.current.value.id == item.id
  }

  /** What the writer holds is a prefix of `data`, and with the frames in flight it is all
      of it unless the writer failed. */
  predicate Flowing(r: R.Receiver, frames: seq<Frame>, data: Bytes)
    requires r.current.Some?
  {
    && r.current.value.accepted <= data
    && (!r.current.value.failed ==> r.current.value.accepted + Concat(frames) == data)
  }

  function Queue(job: S.Job): seq<S.Sendable> {
    if job.AwaitingAcceptance? then [] else job.queue
  }

  /** Files whose acknowledgement the sender has read. */
  function AckedCount(job: S.Job): nat {
    match job
    case AwaitingAcceptance => 0
    case Starting(_) => 0
    case SendingFrames(_, i, _) => i
    case AwaitingAck(_, i) => i
    case Flushing(queue) => |queue|
    case Finished(queue) => |queue|
  }

  predicate NoAck(s: S.Sender, r: R.Receiver) { r.outbox == [] && s.fileResults.None? }

  ghost predicate AckFrame(sc: S.Config, r: R.Receiver, item: S.Sendable, frame: Frame) {
    exists ok, e :: frame == SendJSON(sc.codec, FileResponseMessage(item.id, ok, e)) && (ok ==> Delivered(r, item))
  }

  /** Exactly one acknowledgement is sent and unread, it is for `item`, and a success is true. */
  ghost predicate OneAck(sc: S.Config, s: S.Sender, r: R.Receiver, item: S.Sendable) {
    || (|r.outbox| == 1 && AckFrame(sc, r, item, r.outbox[0]) && s.fileResults.None?)
    || (r.outbox == [] && s.fileResults.Some? && s.fileResults.value.id == item.id
        && (s.fileResults.value.success ==> Delivered(r, item)))
  }

  /** Frames of item i in flight, after its header and before its boundary. */
  ghost predicate InFlight(sc: S.Config, r: R.Receiver, queue: seq<S.Sendable>, i: nat, frames: seq<Frame>, data: Bytes)
    requires i < |queue|
  {
    || (i == 0 && Idle(r) && frames != [] && frames[0] == S.Header(sc, queue[0])
        && ChunkFrames(frames[1..]) && Concat(frames[1..]) == data)
    || (Receiving(r, queue[i]) && ChunkFrames(frames) && Flowing(r, frames, data))
  }

  /** While the receiver holds its connection. */
  ghost predicate Linked(sc: S.Config, s: S.Sender, r: R.Receiver) {
    match s.job
    case AwaitingAcceptance => false
    case Starting(_) => Idle(r) && s.outbox == [] && NoAck(s, r)
    case SendingFrames(queue, i, offset) =>
      && i < |queue| && offset <= |queue[i].file.content| && NoAck(s, r)
      && InFlight(sc, r, queue, i, s.outbox, queue[i].file.content[..offset])
    case AwaitingAck(queue, i) =>
      && i < |queue|
      && ((s.outbox != [] && NoAck(s, r) && s.outbox[|s.outbox| - 1] == S.Boundary(sc, queue, i)
           && InFlight(sc, r, queue, i, s.outbox[..|s.outbox| - 1], queue[i].file.content))
          || (s.outbox == [] && i + 1 < |queue| && Receiving(r, queue[i + 1]) && r.current.value.accepted == []
              && !r.current.value.failed && (OneAck(sc, s, r, queue[i]) || (s.failed && NoAck(s, r)))))
    case Flushing(queue) => queue == [] && Idle(r) && (s.outbox == [] || s.outbox == [Delimiter]) && NoAck(s, r)
    case Finished(queue) => queue == [] && Idle(r) && (s.outbox == [] || s.outbox == [Delimiter]) && NoAck(s, r)
  }

  /** Once the receiver has given up its connection it can acknowledge nothing more. */
  ghost predicate Cut(sc: S.Config, s: S.Sender, r: R.Receiver) {
    && (match s.job
        case AwaitingAck(queue, i) => i < |queue| && (NoAck(s, r) || (s.outbox == [] && OneAck(sc, s, r, queue[i])))
        case SendingFrames(queue, i, offset) => i < |queue| && offset <= |queue[i].file.content| && NoAck(s, r)
        case _ => NoAck(s, r))
    && match r.phase
       case Done => true
       case WaitFiles =>
         (match s.job
          case SendingFrames(_, _, _) => ChunkFrames(s.outbox)
          case AwaitingAck(queue, i) =>
            s.outbox == [] || (NoAck(s, r) && ChunkFrames(s.outbox[..|s.outbox| - 1])
                               && s.outbox[|s.outbox| - 1] == S.Boundary(sc, queue, i))
          case Flushing(_) => s.outbox == [] || s.outbox == [Delimiter]
          case Finished(_) => s.outbox == [] || s.outbox == [Delimiter]
          case _ => false)
       case ReceivingFiles =>
         r.current.Some? && r.current.value.accepted == [] && s.outbox == [] && NoAck(s, r)
         && (s.job.AwaitingAck? || s.job.Flushing? || s.job.Finished?)
       case _ => false
  }

  ghost predicate Sync(sc: S.Config, s: S.Sender, r: R.Receiver) {
    if r.connected then Linked(sc, s, r) else Cut(sc, s, r)
  }

  ghost predicate Inv(c: Setup, y: System) {
    && Faithful(c.sc.codec) && c.rc.codec == c.sc.codec
    && RI.Inv(y.r)
    && y.s.phase in {S.SendingFiles, S.Done} && y.s.controlBuffer == [] && y.s.dropped == 0
    && !y.s.job.AwaitingAcceptance?
    && QueueAgreed(y.r, Queue(y.s.job))
    && DeliveredUpTo(y.r, Queue(y.s.job), AckedCount(y.s.job))
    && Sync(c.sc, y.s, y.r)
  }

  // ---------- Single receiver steps ----------

  lemma HeaderClassified(sc: S.Config, rc: R.Config, item: S.Sendable)
    requires Faithful(sc.codec) && rc.codec == sc.codec && item.id != "" && item.token != ""
    ensures var data := S.Header(sc, item).data; var j := FileHeaderMessage(item.id, item.token);
            && data != DelimiterText && sc.codec.decode(data) == Some(j)
            && AsString(j.id) == Some(item.id) && AsString(j.token) == Some(item.token)
            && Classify(rc.codec, data) == Some((FileHeader(item.id, item.token), j))
  {
    PeerMessagesClassified();
    var j := FileHeaderMessage(item.id, item.token);
    assert sc.codec.encode(j)[0] == OpenBrace;
  }

  /** Between files a header is handled as a request to start its item. */
  lemma HeaderHandled(c: Setup, env: R.Env, r: R.Receiver, item: S.Sendable)
    requires Faithful(c.sc.codec) && c.rc.codec == c.sc.codec && item.id != "" && item.token != "" && Idle(r)
    ensures R.HandleFrame(c.rc, env, r, S.Header(c.sc, item)) == R.StartReceiving(env, r, item.id, item.token)
  {
    HeaderClassified(c.sc, c.rc, item);
    hide R.StartReceiving, Classify;
    assert r.(controlBuffer := r.controlBuffer) == r;
  }

  /** A boundary finishes the current file and starts the item it names, if any. */
  lemma BoundaryHandled(c: Setup, env: R.Env, r: R.Receiver, queue: seq<S.Sendable>, i: nat)
    requires Faithful(c.sc.codec) && c.rc.codec == c.sc.codec && QueueAgreed(r, queue) && i < |queue|
    requires r.phase == R.ReceivingFiles && r.current.Some?
    ensures var f := R.FinishCurrent(c.rc, env, r);
            R.HandleFrame(c.rc, env, r, S.Boundary(c.sc, queue, i))
            == if i + 1 < |queue| then R.StartReceiving(env, f, queue[i + 1].id, queue[i + 1].token)
               else f.(phase := R.Done, connected := false)
  {
    hide R.FinishCurrent, R.StartReceiving, R.Silent;
    if i + 1 < |queue| {
      HeaderClassified(c.sc, c.rc, queue[i + 1]);
    }
    hide QueueAgreed, Faithful;
  }

  /** A header of an agreed item starts that item, unless its file cannot be created. */
  lemma StartOutcome(env: R.Env, r: R.Receiver, item: S.Sendable)
    requires r.current.None?
    requires item.id in r.fileTokens && r.fileTokens[item.id] == item.token
    ensures var t := R.StartReceiving(env, r, item.id, item.token);
            && t.controlBuffer == r.controlBuffer
            && (t == R.Reject(r)
                || (Receiving(t, item) && t.current.value.accepted == [] && !t.current.value.failed
                    && t.connected == r.connected))
  {
  }

  lemma BinaryOutcome(env: R.Env, r: R.Receiver, data: Bytes, rest: seq<Frame>, all: Bytes)
    requires RI.Inv(r) && r.current.Some? && Flowing(r, [BinaryFrame(data)] + rest, all)
    ensures var t := R.HandleBinaryData(env, r, data);
            || (t.phase == R.WaitFiles && !t.connected && t.current.None?)
            || (t.phase == R.ReceivingFiles && t.connected == r.connected && t.current.Some?
                && t.current.value.id == r.current.value.id && Flowing(t, rest, all))
  {
    var t := R.HandleBinaryData(env, r, data);
    if t.current.Some? {
      RI.BinaryStep(env, r, data);
      assert ([BinaryFrame(data)] + rest)[1..] == rest;
      var a := r.current.value.accepted;
      assert (a + data) + Concat(rest) == a + (data + Concat(rest));
      assert Concat([BinaryFrame(data)]) == data + Concat([]);
      if !r.current.value.failed {
        assert all[..|a|] == a && all[..|a + data|] == a + data;
      }
    }
  }

  /** At a boundary the finished item is acknowledged, truthfully. */
  lemma FinishOutcome(c: Setup, env: R.Env, r: R.Receiver, item: S.Sendable)
    requires RI.Inv(r) && Receiving(r, item) && Flowing(r, [], item.file.content)
    requires c.rc.codec == c.sc.codec && r.connected && r.outbox == []
    ensures var f := R.FinishCurrent(c.rc, env, r);
            && |f.outbox| == 1 && AckFrame(c.sc, f, item, f.outbox[0])
            && f.files == r.files && f.fileTokens == r.fileTokens && f.connected && f.current.None?
            && f.controlBuffer == r.controlBuffer
  {
    var (ok, e) := R.Verdict(c.rc, env, r);
    var f := R.FinishCurrent(c.rc, env, r);
    assert f.outbox == [] + [SendJSON(c.sc.codec, FileResponseMessage(item.id, ok, e))];
    if ok {
      var a := r.current.value;
      assert a.accepted + Concat([]) == a.accepted;
      assert a.path in f.saved && f.saved[a.path] == R.Saved(item.id, item.file.content);
    }
  }

  lemma DeliveredStays(r: R.Receiver, t: R.Receiver, queue: seq<S.Sendable>, n: nat)
    requires RI.Continues(r, t) && DeliveredUpTo(r, queue, n)
    ensures DeliveredUpTo(t, queue, n)
  {
    forall k | 0 <= k < n && k < |queue| ensures Delivered(t, queue[k]) {
      OneDeliveredStays(r, t, queue[k]);
      assert Delivered(r, queue[k]);
    }
  }

  lemma OneDeliveredStays(r: R.Receiver, t: R.Receiver, item: S.Sendable)
    requires RI.Continues(r, t)
    ensures Delivered(r, item) ==> Delivered(t, item)
  {
    if Delivered(r, item) {
      var path :| path in r.saved && r.saved[path] == R.Saved(item.id, item.file.content);
      assert path in t.saved;
    }
  }

  lemma OneAckStays(sc: S.Config, s: S.Sender, r: R.Receiver, t: R.Receiver, item: S.Sendable)
    requires RI.Continues(r, t) && t.outbox == r.outbox && OneAck(sc, s, r, item)
    ensures OneAck(sc, s, t, item)
  {
    OneDeliveredStays(r, t, item);
    if |r.outbox| == 1 {
      var ok, e :| r.outbox[0] == SendJSON(sc.codec,
                                           FileResponseMessage(item.id, ok, e)) && (ok ==> Delivered(r, item));
      assert AckFrame(sc, t, item, t.outbox[0]);
    }
  }

  // ---------- The receiver handles a frame, connected ----------

  lemma FirstHeaderOutcome(c: Setup, env: R.Env, r: R.Receiver, queue: seq<S.Sendable>, frames: seq<Frame>, data: Bytes)
    requires Faithful(c.sc.codec) && c.rc.codec == c.sc.codec && QueueAgreed(r, queue) && queue != []
    requires Idle(r) && r.connected && ChunkFrames(frames) && Concat(frames) == data
    ensures var t := R.HandleFrame(c.rc, env, r, S.Header(c.sc, queue[0]));
            && R.Silent(r, t)
            && if t.connected then InFlight(c.sc, t, queue, 0, frames, data)
               else t.phase == R.WaitFiles && t.current.None?
  {
    HeaderHandled(c, env, r, queue[0]);
    hide R.HandleFrame;
    StartOutcome(env, r, queue[0]);
    assert R.Silent(r, R.StartReceiving(env, r, queue[0].id, queue[0].token));
    hide R.StartReceiving, R.Silent, QueueAgreed, Faithful;
    assert [] + Concat(frames) == Concat(frames);
  }

  /** The first header of the run. */
  lemma FirstHeaderStep(c: Setup, y: System, env: R.Env, i: nat, frames: seq<Frame>, data: Bytes)
    requires Inv(c, y) && y.r.connected && y.s.outbox != []
    requires i < |Queue(y.s.job)| && i == 0 && Idle(y.r) && y.s.outbox[0] == S.Header(c.sc, Queue(y.s.job)[0])
    requires frames != [] && ChunkFrames(frames[1..]) && Concat(frames[1..]) == data
    ensures var t := R.HandleFrame(c.rc, env, y.r, y.s.outbox[0]);
            && R.Silent(y.r, t)
            && if t.connected then InFlight(c.sc, t, Queue(y.s.job), i, frames[1..], data)
               else t.phase == R.WaitFiles && t.current.None?
  {
    FirstHeaderOutcome(c, env, y.r, Queue(y.s.job), frames[1..], data);
    hide *;
  }

  /** What the acknowledgement of item `i` is once the boundary after it has been handled. */
  lemma BoundaryAck(c: Setup, s: S.Sender, f: R.Receiver, t: R.Receiver, item: S.Sendable)
    requires |f.outbox| == 1 && AckFrame(c.sc, f, item, f.outbox[0]) && s.fileResults.None?
    requires t.outbox == f.outbox && t.saved == f.saved
    ensures OneAck(c.sc, s, t, item)
  {
    var ok, e :| f.outbox[0] == SendJSON(c.sc.codec,
                                         FileResponseMessage(item.id, ok, e)) && (ok ==> Delivered(f, item));
    assert Delivered(f, item) ==> Delivered(t, item);
    assert AckFrame(c.sc, t, item, t.outbox[0]);
  }

  lemma BoundaryStep(c: Setup, y: System, env: R.Env, i: nat)
    requires Inv(c, y) && y.r.connected && y.s.job.AwaitingAck? && y.s.job.index == i < |Queue(y.s.job)|
    requires y.s.outbox == [S.Boundary(c.sc, Queue(y.s.job), i)] && NoAck(y.s, y.r)
    requires var item := Queue(y.s.job)[i]; Receiving(y.r, item) && Flowing(y.r, [], item.file.content)
    ensures var q := Queue(y.s.job); var t := R.HandleFrame(c.rc, env, y.r, y.s.outbox[0]);
            && t.files == y.r.files && t.fileTokens == y.r.fileTokens
            && OneAck(c.sc, y.s, t, q[i])
            && ((!t.connected && t.current.None? && (t.phase == R.Done || t.phase == R.WaitFiles))
                || (t.connected && i + 1 < |q| && Receiving(t, q[i + 1])
                    && t.current.value.accepted == [] && !t.current.value.failed))
  {
    hide Sync, AckFrame, OneAck;
    var q := Queue(y.s.job);
    BoundaryHandled(c, env, y.r, q, i);
    FinishOutcome(c, env, y.r, q[i]);
    hide RI.Inv, R.HandleFrame, R.HandleBoundary;
    var f, t := R.FinishCurrent(c.rc, env, y.r), R.HandleFrame(c.rc, env, y.r, y.s.outbox[0]);
    hide R.FinishCurrent;
    if i + 1 < |q| {
      StartOutcome(env, f, q[i + 1]);
    }
    hide R.StartReceiving;
    BoundaryAck(c, y.s, f, t, q[i]);
  }

  lemma InFlightStep(c: Setup, y: System, env: R.Env, i: nat, frames: seq<Frame>, data: Bytes)
    requires Inv(c, y) && y.r.connected && y.s.outbox != []
    requires i < |Queue(y.s.job)| && frames != [] && y.s.outbox[0] == frames[0]
    requires InFlight(c.sc, y.r, Queue(y.s.job), i, frames, data)
    ensures var t := R.HandleFrame(c.rc, env, y.r, y.s.outbox[0]);
            && R.Silent(y.r, t) && ChunkFrames(frames[1..])
            && if t.connected then InFlight(c.sc, t, Queue(y.s.job), i, frames[1..], data)
               else t.phase == R.WaitFiles && t.current.None?
  {
    if Idle(y.r) {
      FirstHeaderStep(c, y, env, i, frames, data);
    } else {
      assert frames == [BinaryFrame(frames[0].data)] + frames[1..];
      BinaryOutcome(env, y.r, frames[0].data, frames[1..], data);
    }
  }

  /** The frame just handled leaves the channel; what is in flight stays in flight. */
  lemma SyncAfterFrame(sc: S.Config, s: S.Sender, r: R.Receiver, t: R.Receiver, i: nat, frames: seq<Frame>, data: Bytes)
    requires Linked(sc, s, r) && s.outbox != [] && t.outbox == r.outbox
    requires i < |Queue(s.job)| && frames != [] && ChunkFrames(frames[1..])
    requires match s.job
             case SendingFrames(q, k, offset) => k == i && frames == s.outbox && data == q[i].file.content[..offset]
             case AwaitingAck(q, k) => k == i && frames == s.outbox[..|s.outbox| - 1] && data == q[i].file.content
             case _ => false
    requires if t.connected then InFlight(sc, t, Queue(s.job), i, frames[1..], data)
             else t.phase == R.WaitFiles && t.current.None?
    ensures Sync(sc, s.(outbox := s.outbox[1..]), t)
  {
    var s1 := s.(outbox := s.outbox[1..]);
    if s.job.AwaitingAck? {
      assert s1.outbox[..|s1.outbox| - 1] == frames[1..];
    }
  }

  lemma SyncAfterBoundary(sc: S.Config, s: S.Sender, t: R.Receiver, i: nat)
    requires s.job.AwaitingAck? && s.job.index == i < |Queue(s.job)| && |s.outbox| == 1
    requires OneAck(sc, s, t, Queue(s.job)[i])
    requires (!t.connected && t.current.None? && (t.phase == R.Done || t.phase == R.WaitFiles))
             || (t.connected && i + 1 < |Queue(s.job)| && Receiving(t, Queue(s.job)[i + 1])
                 && t.current.value.accepted == [] && !t.current.value.failed)
    ensures Sync(sc, s.(outbox := s.outbox[1..]), t)
  {
  }

  /** What handling the next frame of a connected transfer keeps. */
  ghost predicate FrameKeepsSync(c: Setup, y: System, t: R.Receiver)
    requires y.s.outbox != []
  {
    && t.files == y.r.files && t.fileTokens == y.r.fileTokens
    && Sync(c.sc, y.s.(outbox := y.s.outbox[1..]), t)
  }

  lemma SyncSending(c: Setup, y: System, env: R.Env)
    requires Inv(c, y) && y.r.connected && y.s.outbox != [] && y.s.job.SendingFrames?
    ensures FrameKeepsSync(c, y, R.HandleFrame(c.rc, env, y.r, y.s.outbox[0]))
  {
    var q, i := Queue(y.s.job), y.s.job.index;
    var data := q[i].file.content[..y.s.job.offset];
    var t := R.HandleFrame(c.rc, env, y.r, y.s.outbox[0]);
    hide R.HandleFrame, RI.Inv;
    InFlightStep(c, y, env, i, y.s.outbox, data);
    SyncAfterFrame(c.sc, y.s, y.r, t, i, y.s.outbox, data);
    hide InFlight, Sync;
  }

  lemma SyncAwaiting(c: Setup, y: System, env: R.Env)
    requires Inv(c, y) && y.r.connected && y.s.outbox != [] && y.s.job.AwaitingAck?
    ensures FrameKeepsSync(c, y, R.HandleFrame(c.rc, env, y.r, y.s.outbox[0]))
  {
    var q, i := Queue(y.s.job), y.s.job.index;
    var t := R.HandleFrame(c.rc, env, y.r, y.s.outbox[0]);
    hide R.HandleFrame, RI.Inv;
    var frames := y.s.outbox[..|y.s.outbox| - 1];
    if frames == [] {
      BoundaryStep(c, y, env, i);
      SyncAfterBoundary(c.sc, y.s, t, i);
      hide InFlight, Sync, OneAck;
    } else {
      InFlightStep(c, y, env, i, frames, q[i].file.content);
      SyncAfterFrame(c.sc, y.s, y.r, t, i, frames, q[i].file.content);
      hide InFlight, Sync;
    }
  }

  lemma SyncToReceiver(c: Setup, y: System, env: R.Env)
    requires Inv(c, y) && y.r.connected && y.s.outbox != []
    ensures FrameKeepsSync(c, y, R.HandleFrame(c.rc, env, y.r, y.s.outbox[0]))
  {
    match y.s.job
    case SendingFrames(_, _, _) => SyncSending(c, y, env); hide *;
    case AwaitingAck(_, _) => SyncAwaiting(c, y, env); hide *;
    case _ => IdleDelimiter(c, y, env); hide R.HandleFrame, RI.Inv, InFlight;
  }

  lemma ToReceiverConnected(c: Setup, y: System, env: R.Env)
    requires Inv(c, y) && y.r.connected && y.s.outbox != []
    ensures Inv(c, Next(c, y, ToReceiver(env)))
  {
    RI.MessageInv(c.rc, env, y.r, y.s.outbox[0]);
    RI.MessageContinues(c.rc, env, y.r, y.s.outbox[0]);
    SyncToReceiver(c, y, env);
    DeliveredStays(y.r, R.HandleFrame(c.rc, env, y.r, y.s.outbox[0]), Queue(y.s.job), AckedCount(y.s.job));
    hide R.HandleFrame, RI.Inv, RI.Continues, Sync;
  }

  lemma IdleDelimiter(c: Setup, y: System, env: R.Env)
    requires Idle(y.r) && y.s.outbox == [Delimiter]
    ensures R.HandleFrame(c.rc, env, y.r, y.s.outbox[0]) == y.r
  {
    assert y.r.(controlBuffer := y.r.controlBuffer) == y.r;
  }

  // ---------- The receiver handles a frame, cut off ----------

  lemma CutFrame(c: Setup, env: R.Env, r: R.Receiver, frame: Frame)
    requires RI.Inv(r) && !r.connected && r.phase in {R.WaitFiles, R.Done}
    ensures var t := R.HandleFrame(c.rc, env, r, frame);
            && R.Silent(r, t) && !t.connected
            && (r.phase == R.Done ==> t.phase == R.Done)
            && (r.phase == R.WaitFiles ==>
                  t.phase == R.WaitFiles
                  || (frame.TextFrame? && t.phase == R.ReceivingFiles && t.current.Some?
                      && t.current.value.accepted == []))
  {
    hide R.HandleNonce, R.HandleToken, R.HandlePin, R.HandleFileList, R.HandlePairResponse, R.HandshakeOnly,
         Classify, RI.DiskExact, RI.Alternates, RI.CurrentBounded, First, R.Destination;
    var (buffer, message) := ControlStep(r.controlBuffer, frame);
    var r1 := r.(controlBuffer := buffer);
    if message.Some? {
      match Classify(c.rc.codec, message.value)
      case None =>
        if r.phase == R.WaitFiles && message.value != [] && message.value[0] != OpenBrace {
          assert R.HandleBinaryData(env, r1, message.value).phase == R.WaitFiles;
        }
      case Some((msg, j)) =>
        if r.phase == R.WaitFiles && msg.FileHeader? {
          var t := R.StartReceiving(env, r1, msg.id, msg.token);
          assert t == R.Reject(r1) || (t.phase == R.ReceivingFiles && !t.connected && t.current.value.accepted == []);
        }
    }
  }

  lemma ToReceiverCut(c: Setup, y: System, env: R.Env)
    requires Inv(c, y) && !y.r.connected && y.s.outbox != []
    ensures Inv(c, Next(c, y, ToReceiver(env)))
  {
    var t := R.HandleFrame(c.rc, env, y.r, y.s.outbox[0]);
    RI.MessageInv(c.rc, env, y.r, y.s.outbox[0]);
    RI.MessageContinues(c.rc, env, y.r, y.s.outbox[0]);
    DeliveredStays(y.r, t, Queue(y.s.job), AckedCount(y.s.job));
    CutFrame(c, env, y.r, y.s.outbox[0]);
    CutStep(c.sc, y.s, y.r, t);
    hide R.HandleFrame, RI.Inv, RI.Continues, Cut;
  }

  lemma CutStep(sc: S.Config, s: S.Sender, r: R.Receiver, t: R.Receiver)
    requires Cut(sc, s, r) && s.outbox != [] && r.phase in {R.WaitFiles, R.Done}
    requires R.Silent(r, t)
    requires r.phase == R.Done ==> t.phase == R.Done
    requires r.phase == R.WaitFiles ==>
               t.phase == R.WaitFiles
               || (s.outbox[0].TextFrame? && t.phase == R.ReceivingFiles
                  && t.current.Some? && t.current.value.accepted == [])
    ensures Cut(sc, s.(outbox := s.outbox[1..]), t)
  {
    match s.job
    case AwaitingAck(queue, i) =>
      var n := |s.outbox| - 1;
      if n > 0 {
        assert s.outbox[1..][..n - 1] == s.outbox[..n][1..];
        assert r.phase == R.WaitFiles ==> s.outbox[0] == s.outbox[..n][0];
      }
    case _ =>
  }

  // ---------- The sender reads an acknowledgement ----------

  function AckOf(id: string, ok: bool, e: ErrorText): S.Ack { S.Ack(id, ok, if ok then None else Some(e)) }

  lemma AckClassified(c: Setup, s: S.Sender, id: string, ok: bool, e: ErrorText)
    requires Faithful(c.sc.codec) && id != "" && s.controlBuffer == [] && s.fileResults.None?
    ensures S.HandleFrame(c.sc, s, SendJSON(c.sc.codec, FileResponseMessage(id, ok, e)))
            == s.(fileResults := Some(AckOf(id, ok, e)), errors := s.errors || !ok)
  {
    var j := FileResponseMessage(id, ok, e);
    PeerMessagesClassified();
    assert c.sc.codec.encode(j)[0] == OpenBrace;
    assert s.(controlBuffer := s.controlBuffer) == s;
    assert S.HandleFrame(c.sc, s, SendJSON(c.sc.codec, j)) == S.HandleFileResponse(s, AckOf(id, ok, e));
  }

  /** Where an acknowledgement can be in flight, and what reading it into the slot keeps. */
  lemma SyncAckRead(sc: S.Config, s: S.Sender, r: R.Receiver, ack: S.Ack, errors: bool)
    requires Sync(sc, s, r) && r.outbox != [] && s.job.AwaitingAck?
    requires ack.id == s.job.queue[s.job.index].id && (ack.success ==> Delivered(r, s.job.queue[s.job.index]))
    ensures Sync(sc, s.(fileResults := Some(ack), errors := errors), r.(outbox := []))
  {
    var item := s.job.queue[s.job.index];
    var r1 := r.(outbox := []);
    OneDeliveredStays(r, r1, item);
    assert OneAck(sc, s.(fileResults := Some(ack), errors := errors), r1, item);
  }

  lemma AckInFlight(c: Setup, y: System)
    requires Sync(c.sc, y.s, y.r) && y.r.outbox != []
    ensures y.s.job.AwaitingAck? && y.s.job.index < |y.s.job.queue| && y.s.fileResults.None?
    ensures |y.r.outbox| == 1 && AckFrame(c.sc, y.r, y.s.job.queue[y.s.job.index], y.r.outbox[0])
  {
  }

  lemma OutboxRead(r: R.Receiver, outbox: seq<Frame>)
    requires RI.Inv(r)
    ensures RI.Inv(r.(outbox := outbox)) && RI.Continues(r, r.(outbox := outbox))
  {
  }

  lemma ToSenderResult(c: Setup, y: System) returns (ack: S.Ack)
    requires Inv(c, y) && y.r.outbox != []
    ensures y.s.job.AwaitingAck? && y.s.job.index < |y.s.job.queue|
    ensures ack.id == y.s.job.queue[y.s.job.index].id
    ensures ack.success ==> Delivered(y.r, y.s.job.queue[y.s.job.index])
    ensures Next(c, y, ToSender)
            == System(y.s.(fileResults := Some(ack), errors := y.s.errors || !ack.success), y.r.(outbox := []))
  {
    hide RI.Inv, Delivered, Sync;
    AckInFlight(c, y);
    var item := y.s.job.queue[y.s.job.index];
    var ok, e :| y.r.outbox[0] == SendJSON(c.sc.codec,
                                           FileResponseMessage(item.id, ok, e)) && (ok ==> Delivered(y.r, item));
    AckClassified(c, y.s, item.id, ok, e);
    assert y.r.outbox[1..] == [];
    ack := AckOf(item.id, ok, e);
    hide S.HandleFrame;
  }

  lemma ToSenderStep(c: Setup, y: System)
    requires Inv(c, y) && y.r.outbox != []
    ensures Inv(c, Next(c, y, ToSender))
  {
    var ack := ToSenderResult(c, y);
    hide Sync, RI.Inv, RI.Continues, Delivered, Next;
    SyncAckRead(c.sc, y.s, y.r, ack, y.s.errors || !ack.success);
    OutboxRead(y.r, []);
    DeliveredStays(y.r, y.r.(outbox := []), Queue(y.s.job), AckedCount(y.s.job));
  }

  // ---------- The sending thread moves on ----------

  lemma ConcatSnoc(frames: seq<Frame>, last: Frame)
    ensures Concat(frames + [last]) == Concat(frames) + last.data
  {
    ConcatAppend(frames, [last]);
    assert Concat([last]) == last.data + Concat([last][1..]);
  }

  lemma ChunkSent(sc: S.Config, s: S.Sender, r: R.Receiver, size: nat)
    requires Sync(sc, s, r) && S.CanGo(s, S.Go(size)) && s.job.SendingFrames?
    requires s.job.offset < |s.job.queue[s.job.index].file.content|
    ensures Sync(sc, S.Advance(sc, s, S.Go(size)), r)
  {
    var q, i, offset := s.job.queue, s.job.index, s.job.offset;
    var content := q[i].file.content;
    var frame := BinaryFrame(content[offset..offset + size]);
    if r.connected {
      assert content[..offset] + content[offset..offset + size] == content[..offset + size];
      FrameJoinsFlight(sc, r, q, i, s.outbox, content[..offset], frame);
    }
  }

  lemma FrameJoinsFlight(sc: S.Config, r: R.Receiver, queue: seq<S.Sendable>, i: nat, frames: seq<Frame>, data: Bytes,
                         frame: Frame)
    requires i < |queue| && InFlight(sc, r, queue, i, frames, data)
    requires frame.BinaryFrame? && 1 <= |frame.data| <= ChunkSize
    ensures InFlight(sc, r, queue, i, frames + [frame], data + frame.data)
  {
    if Idle(r) {
      assert (frames + [frame])[1..] == frames[1..] + [frame];
      ConcatSnoc(frames[1..], frame);
    } else {
      ConcatSnoc(frames, frame);
      var a := r.current.value.accepted;
      assert (a + Concat(frames)) + frame.data == a + (Concat(frames) + frame.data);
    }
  }

  lemma BoundarySent(sc: S.Config, s: S.Sender, r: R.Receiver, size: nat)
    requires Sync(sc, s, r) && S.CanGo(s, S.Go(size)) && s.job.SendingFrames?
    requires s.job.offset == |s.job.queue[s.job.index].file.content|
    ensures Sync(sc, S.Advance(sc, s, S.Go(size)), r)
  {
    var q, i, offset := s.job.queue, s.job.index, s.job.offset;
    var content := q[i].file.content;
    assert content[..offset] == content;
    var out := s.outbox + [S.Boundary(sc, q, i)];
    assert out[..|out| - 1] == s.outbox;
  }

  lemma AckWaiting(sc: S.Config, s: S.Sender, r: R.Receiver)
    requires Sync(sc, s, r) && s.job.AwaitingAck? && s.fileResults.Some?
    ensures var q, i := s.job.queue, s.job.index; var ack := s.fileResults.value;
            && i < |q| && s.outbox == [] && r.outbox == []
            && (ack.success ==> Delivered(r, q[i]))
            && (r.connected ==> i + 1 < |q| && Receiving(r, q[i + 1])
                                && r.current.value.accepted == [] && !r.current.value.failed)
            && (!r.connected ==> r.phase in {R.WaitFiles, R.Done})
  {
  }

  lemma AckTaken(sc: S.Config, s: S.Sender, r: R.Receiver, size: nat)
    requires Sync(sc, s, r) && S.CanGo(s, S.Go(size)) && s.job.AwaitingAck?
    ensures Sync(sc, S.Advance(sc, s, S.Go(size)), r)
  {
    AckWaiting(sc, s, r);
    var q, i := s.job.queue, s.job.index;
    var t := S.Advance(sc, s, S.Go(size));
    if t.failed {
      assert t.job == s.job;
    } else if i + 1 < |q| {
      assert t.job == S.SendingFrames(q, i + 1, 0);
      assert q[i + 1].file.content[..0] == [];
    } else {
      assert t.job == S.Flushing(q);
    }
  }

  lemma TransferStarts(sc: S.Config, s: S.Sender, r: R.Receiver, size: nat)
    requires Sync(sc, s, r) && S.CanGo(s, S.Go(size)) && s.job.Starting?
    ensures Sync(sc, S.Advance(sc, s, S.Go(size)), r)
  {
    var q := s.job.queue;
    if q != [] {
      assert q[0].file.content[..0] == [];
      assert [S.Header(sc, q[0])][1..] == [];
    }
  }

  lemma ThreadSync(sc: S.Config, s: S.Sender, r: R.Receiver, choice: S.Choice)
    requires Sync(sc, s, r) && S.CanGo(s, choice) && !s.job.AwaitingAcceptance?
    ensures Sync(sc, S.Advance(sc, s, choice), r)
  {
    match choice
    case Accept(_) =>
    case GiveUp =>
    case Go(size) =>
      match s.job
      case Starting(_) => TransferStarts(sc, s, r, size);
      case SendingFrames(q, i, offset) =>
        if offset < |q[i].file.content| { ChunkSent(sc, s, r, size); } else { BoundarySent(sc, s, r, size); }
      case AwaitingAck(_, _) => AckTaken(sc, s, r, size);
      case Flushing(_) =>
  }

  lemma ThreadFixes(sc: S.Config, s: S.Sender, choice: S.Choice)
    requires S.CanGo(s, choice) && !s.job.AwaitingAcceptance?
    ensures var t := S.Advance(sc, s, choice);
            && (t.phase == s.phase || t.phase == S.Done) && t.controlBuffer == s.controlBuffer && t.dropped == s.dropped
            && !t.job.AwaitingAcceptance? && t.job.queue == s.job.queue
            && (AckedCount(t.job) == AckedCount(s.job) || (s.job.Starting? && s.job.queue == [])
                || (s.job.AwaitingAck? && s.fileResults.Some? && s.fileResults.value.success
                    && AckedCount(t.job) == s.job.index + 1)
                || (s.job.AwaitingAck? && s.fileResults.Some? && s.fileResults.value.success
                    && s.job.index + 1 >= |s.job.queue|))
  {
    match choice
    case GiveUp =>
    case Go(size) =>
      match s.job
      case Starting(_) =>
      case SendingFrames(_, _, _) =>
      case AwaitingAck(_, _) =>
      case _ =>
  }

  /** An acknowledgement is counted only for a file that was delivered. */
  lemma ThreadDelivers(sc: S.Config, s: S.Sender, r: R.Receiver, choice: S.Choice)
    requires Sync(sc, s, r) && S.CanGo(s, choice) && !s.job.AwaitingAcceptance?
    requires DeliveredUpTo(r, s.job.queue, AckedCount(s.job))
    ensures var t := S.Advance(sc, s, choice);
            DeliveredUpTo(r, t.job.queue, AckedCount(t.job))
  {
    if choice.Go? && s.job.AwaitingAck? {
      AckWaiting(sc, s, r);
    }
    ThreadFixes(sc, s, choice);
    hide Sync, Delivered, S.Advance;
  }

  lemma ThreadStep(c: Setup, y: System, choice: S.Choice)
    requires Inv(c, y) && S.CanGo(y.s, choice)
    ensures Inv(c, Next(c, y, Thread(choice)))
  {
    hide RI.Inv, Delivered, DeliveredUpTo, QueueAgreed;
    ThreadSync(c.sc, y.s, y.r, choice);
    ThreadDelivers(c.sc, y.s, y.r, choice);
    ThreadFixes(c.sc, y.s, choice);
    hide Sync, S.Advance;
  }

  // ---------- The receiver closes ----------

  lemma SyncDone(sc: S.Config, s: S.Sender, r: R.Receiver, t: R.Receiver)
    requires Sync(sc, s, r) && RI.Continues(r, t) && t.outbox == r.outbox
    requires t.phase == R.Done && !t.connected
    ensures Sync(sc, s, t)
  {
    if s.job.AwaitingAck? && OneAck(sc, s, r, s.job.queue[s.job.index]) {
      OneAckStays(sc, s, r, t, s.job.queue[s.job.index]);
    }
  }

  lemma EventEnds(c: Setup, r: R.Receiver, e: R.Event, env: R.Env)
    requires (r.phase == R.ReceivingFiles <==> r.current.Some?) && EndEvent(e)
    ensures var t := R.Apply(c.rc, env, r, e);
            t == r || (t.phase == R.Done && !t.connected && t.outbox == r.outbox
                       && t.files == r.files && t.fileTokens == r.fileTokens)
  {
    hide R.HandleFrame;
  }

  lemma AgreedStays(r: R.Receiver, t: R.Receiver, queue: seq<S.Sendable>)
    requires QueueAgreed(r, queue) && t.files == r.files && t.fileTokens == r.fileTokens
    ensures QueueAgreed(t, queue)
  {
    hide First;
  }

  lemma EventStep(c: Setup, y: System, e: R.Event, env: R.Env)
    requires Inv(c, y) && EndEvent(e)
    ensures Inv(c, Next(c, y, ReceiverEvent(e, env)))
  {
    var t := R.Apply(c.rc, env, y.r, e);
    RI.ApplyInv(c.rc, env, y.r, e);
    RI.ApplyContinues(c.rc, env, y.r, e);
    EventEnds(c, y.r, e, env);
    hide R.Apply, RI.Inv, RI.Continues;
    DeliveredStays(y.r, t, Queue(y.s.job), AckedCount(y.s.job));
    AgreedStays(y.r, t, Queue(y.s.job));
    hide DeliveredUpTo, QueueAgreed;
    if t != y.r {
      SyncDone(c.sc, y.s, y.r, t);
    }
    hide Sync;
  }

  lemma StepKeepsInv(c: Setup, y: System, step: Step)
    requires Inv(c, y) && Enabled(c, y, step)
    ensures Inv(c, Next(c, y, step))
  {
    match step
    case StartNonce(_) =>
    case ToReceiver(env) => if y.r.connected { ToReceiverConnected(c, y, env); } else { ToReceiverCut(c, y, env); }
    case ToSender => ToSenderStep(c, y);
    case Thread(choice) => ThreadStep(c, y, choice);
    case ReceiverEvent(e, env) => EventStep(c, y, e, env);
  }

  // ---------- Whole runs ----------

  ghost predicate IsRun(c: Setup, y: System, steps: seq<Step>)
    decreases |steps|
  {
    steps == [] || (Enabled(c, y, steps[0]) && IsRun(c, Next(c, y, steps[0]), steps[1..]))
  }

  function Run(c: Setup, y: System, steps: seq<Step>): System
    requires IsRun(c, y, steps)
    decreases |steps|
  {
    if steps == [] then y else Run(c, Next(c, y, steps[0]), steps[1..])
  }

  /** The token map is agreed and SendFiles is about to start. */
  ghost predicate Ready(c: Setup, y: System) {
    && Faithful(c.sc.codec) && c.rc.codec == c.sc.codec && RI.Inv(y.r)
    && y.s.phase == S.SendingFiles && y.s.job.Starting? && y.s.controlBuffer == [] && y.s.outbox == []
    && y.s.fileResults.None? && y.s.dropped == 0 && !y.s.failed
    && y.r.connected && Idle(y.r) && y.r.outbox == []
    && QueueAgreed(y.r, y.s.job.queue)
  }

  lemma {:induction false} RunKeepsInv(c: Setup, y: System, steps: seq<Step>)
    requires Inv(c, y) && IsRun(c, y, steps)
    ensures Inv(c, Run(c, y, steps)) && Queue(Run(c, y, steps).s.job) == Queue(y.s.job)
    decreases |steps|
  {
    if steps != [] {
      StepKeepsInv(c, y, steps[0]);
      QueueFixed(c, y, steps[0]);
      RunKeepsInv(c, Next(c, y, steps[0]), steps[1..]);
    }
  }

  lemma QueueFixed(c: Setup, y: System, step: Step)
    requires Inv(c, y) && Enabled(c, y, step)
    ensures Queue(Next(c, y, step).s.job) == Queue(y.s.job)
  {
    hide Sync, RI.Inv, Delivered, R.HandleFrame, R.Apply;
    match step
    case StartNonce(_) =>
    case ToReceiver(_) =>
    case ToSender => SenderHandlesKeepJob(c, y.s, y.r.outbox[0]); hide S.HandleFrame;
    case Thread(choice) => ThreadFixes(c.sc, y.s, choice); hide S.Advance;
    case ReceiverEvent(_, _) =>
  }

  lemma SenderHandlesKeepJob(c: Setup, s: S.Sender, frame: Frame)
    ensures S.HandleFrame(c.sc, s, frame).job == s.job
  {
    var (buffer, message) := ControlStep(s.controlBuffer, frame);
    if message.Some? {
      var s1 := s.(controlBuffer := buffer);
      var j := c.sc.codec.decode(message.value);
      if j.Some? && ParseRTCMessage(j.value).Some? {
        var msg := ParseRTCMessage(j.value).value;
        if msg.FileResponse? {
        } else {
          match s.phase
          case WaitNonce =>
          case WaitToken =>
          case WaitPin =>
          case WaitRequiredPIN =>
          case WaitFileAccept =>
          case _ =>
        }
      }
    }
  }

  /** A queue item that is on the receiver's disk under a path of its own. */
  ghost predicate OnDisk(r: R.Receiver, item: S.Sendable, path: string) {
    && path in r.saved && r.saved[path].id == item.id
    && path in r.disk && r.disk[path] == item.file.content && path !in r.base
  }

  ghost predicate Stored(r: R.Receiver, item: S.Sendable) { exists path :: OnDisk(r, item, path) }

  /** Whatever the interleaving, the short reads, the receiver's file system and the moment
      either side gives up: if SendFiles returns nil, every queued file is on the
      receiver's disk byte for byte, no two files share a path, and no file that was there
      before changed. */
  lemma EndToEndDelivery(c: Setup, y: System, steps: seq<Step>)
    requires Ready(c, y) && IsRun(c, y, steps)
    ensures var z := Run(c, y, steps); var q := Queue(y.s.job);
            z.s.job.Finished? ==>
              && (forall k :: 0 <= k < |q| ==> Stored(z.r, q[k]))
              && (forall j, k, p | 0 <= j < |q| && 0 <= k < |q| && OnDisk(z.r, q[j], p) && OnDisk(z.r, q[k], p) ::
                    j == k)
              && (forall p :: p in z.r.base ==> p in z.r.disk && z.r.disk[p] == z.r.base[p])
  {
    RunKeepsInv(c, y, steps);
    var z, q := Run(c, y, steps), Queue(y.s.job);
    if z.s.job.Finished? {
      forall k | 0 <= k < |q| ensures Stored(z.r, q[k]) {
        assert Delivered(z.r, Queue(z.s.job)[k]);
        DeliveredOnDisk(z.r, q[k]);
      }
    }
  }

  lemma DeliveredOnDisk(r: R.Receiver, item: S.Sendable)
    requires RI.Inv(r) && Delivered(r, item)
    ensures Stored(r, item)
  {
    var path :| path in r.saved && r.saved[path] == R.Saved(item.id, item.file.content);
    assert path !in r.base;
    assert OnDisk(r, item, path);
  }

  /** At every moment what the receiver holds of the current file is a prefix of that file. */
  lemma PrefixAlways(c: Setup, y: System, steps: seq<Step>)
    requires Ready(c, y) && IsRun(c, y, steps)
    ensures var z := Run(c, y, steps); var q := Queue(y.s.job);
            z.r.current.Some? ==>
              z.r.current.value.accepted == []
              || exists k :: 0 <= k < |q| && q[k].id == z.r.current.value.id
                             && z.r.current.value.accepted <= q[k].file.content
  {
    RunKeepsInv(c, y, steps);
    var z, q := Run(c, y, steps), Queue(y.s.job);
    if z.r.current.Some? && z.r.connected {
      match z.s.job
      case SendingFrames(_, i, offset) =>
        assert q[i].id == z.r.current.value.id;
        assert z.r.current.value.accepted <= q[i].file.content[..offset] <= q[i].file.content;
      case AwaitingAck(_, i) =>
        if z.s.outbox != [] { assert q[i].id == z.r.current.value.id; }
      case _ =>
    }
  }

  /** At most one acknowledgement is sent and unread, it belongs to the file whose
      acknowledgement the sender waits for, and none is ever dropped. */
  lemma NoAckLost(c: Setup, y: System, steps: seq<Step>)
    requires Ready(c, y) && IsRun(c, y, steps)
    ensures var z := Run(c, y, steps);
            && z.s.dropped == 0
            && |z.r.outbox| + (if z.s.fileResults.Some? then 1 else 0) <= 1
            && (z.r.outbox != [] || z.s.fileResults.Some? ==>
                  && z.s.job.AwaitingAck? && z.s.job.index < |Queue(y.s.job)|
                  && OneAck(c.sc, z.s, z.r, Queue(y.s.job)[z.s.job.index]))
  {
    RunKeepsInv(c, y, steps);
  }
}
