/** What the receiver keeps under any sequence of messages from any peer. */
module ReceiverInvariant {
  import opened Wrappers
  import opened RtcMessages
  import opened DataChannel
  import opened FileIndex
  import opened RtcReceiverSpec
  import Paths

  /** Start and done callbacks strictly alternate, and a transfer is active after an odd number. */
  ghost predicate Alternates(callbacks: seq<Callback>, active: bool) {
    && (forall i :: 0 <= i < |callbacks| ==> callbacks[i] == if i % 2 == 0 then TransferStart else TransferDone)
    && (active <==> |callbacks| % 2 == 1)
  }

  /** The disk holds what it held before, untouched, plus the saved files, plus the file
      being received. */
  ghost predicate DiskExact(r: Receiver) {
    && r.base.Keys !! r.saved.Keys
    && r.disk.Keys == r.base.Keys + r.saved.Keys + (if r.current.Some? then {r.current.value.path} else {})
    && (forall p :: p in r.base ==> r.disk[p] == r.base[p])
    && (forall p :: p in r.saved ==> r.disk[p] == r.saved[p].data)
    && (r.current.Some? ==> r.current.value.path !in r.base && r.current.value.path !in r.saved)
    && (r.current.Some? && !r.current.value.failed ==> r.disk[r.current.value.path] <= r.current.value.accepted)
  }

  /** The current file was offered and never exceeds its declared size. */
  ghost predicate CurrentBounded(r: Receiver) {
    r.current.Some? ==>
      && First(DtoID, r.files, r.current.value.id).Some?
      && (r.current.value.accepted != [] ==>
            |r.current.value.accepted| <= First(DtoID, r.files, r.current.value.id).value.size)
  }

  ghost predicate Inv(r: Receiver) {
    && (r.phase == ReceivingFiles <==> r.current.Some?)
    && Alternates(r.callbacks, r.current.Some?)
    && DiskExact(r)
    && CurrentBounded(r)
    && (r.accepting ==> !r.connected && r.phase == WaitNonce)
    && |r.controlBuffer| <= MaxControlMessageBytes
  }

  lemma FreshInv(disk: map<string, Bytes>)
    ensures Inv(Fresh(disk))
  {
  }

  // ---------- One event ----------

  lemma CleanupInv(r: Receiver)
    requires Inv(r)
    ensures var c := CleanupPartial(r);
            && c.current.None? && Alternates(c.callbacks, false) && DiskExact(c)
            && c.base == r.base && c.saved == r.saved && c.controlBuffer == r.controlBuffer
  {
  }

  lemma OpenInv(r: Receiver, id: string, path: string)
    requires r.current.None? && !r.accepting && Alternates(r.callbacks, false) && DiskExact(r)
    requires |r.controlBuffer| <= MaxControlMessageBytes && First(DtoID, r.files, id).Some? && path !in r.disk
    ensures Inv(OpenAt(r, id, path))
  {
    hide First;
  }

  lemma StartInv(env: Env, r: Receiver, id: string, token: string)
    requires r.current.None? && !r.accepting && Alternates(r.callbacks, false) && DiskExact(r)
    requires |r.controlBuffer| <= MaxControlMessageBytes
    ensures Inv(StartReceiving(env, r, id, token))
  {
    hide Silent, Paths.SanitizePathWithFallback, OpenAt, First;
    match Destination(env, r, id, token)
    case None =>
    case Some(path) => OpenInv(r, id, path);
  }

  lemma BinaryInv(env: Env, r: Receiver, data: Bytes)
    requires Inv(r) && !r.accepting && (r.phase == ReceivingFiles || r.phase == WaitFiles)
    ensures Inv(HandleBinaryData(env, r, data))
  {
    CleanupInv(r);
  }

  lemma SettleInv(r: Receiver, success: bool)
    requires Inv(r) && r.current.Some?
    ensures var f := Settle(r, success);
            f.current.None? && Alternates(f.callbacks, false) && DiskExact(f)
  {
  }

  lemma FinishInv(cfg: Config, env: Env, r: Receiver)
    requires Inv(r) && r.current.Some?
    ensures var f := FinishCurrent(cfg, env, r);
            && f.current.None? && Alternates(f.callbacks, false) && DiskExact(f) && !f.accepting
            && |f.controlBuffer| <= MaxControlMessageBytes
  {
    hide Verdict, FileResponseMessage, First;
    SettleInv(r, Verdict(cfg, env, r).0);
  }

  /** Between files nothing but the disk and the callbacks is owed. */
  lemma IdleInv(r: Receiver, s: Receiver)
    requires r.current.None? && Alternates(r.callbacks, false) && DiskExact(r) && !r.accepting
    requires |r.controlBuffer| <= MaxControlMessageBytes
    requires s == r.(phase := s.phase, connected := s.connected) && s.phase != ReceivingFiles
    ensures Inv(s)
  {
  }

  lemma BoundaryInv(cfg: Config, env: Env, r: Receiver, data: Bytes)
    requires Inv(r) && r.current.Some?
    ensures Inv(HandleBoundary(cfg, env, r, data))
  {
    hide Inv, Silent, StartReceiving, FinishCurrent, DiskExact, Alternates;
    FinishInv(cfg, env, r);
    var f := FinishCurrent(cfg, env, r);
    var j := cfg.codec.decode(data);
    if data == DelimiterText || j.None? || AsString(j.value.id).None? || AsString(j.value.token).None?
       || AsString(j.value.id).value == "" {
      IdleInv(f, f.(phase := Done, connected := false));
    } else {
      StartInv(env, f, AsString(j.value.id).value, AsString(j.value.token).value);
    }
  }

  lemma ControlInv(cfg: Config, env: Env, r: Receiver, data: Bytes)
    requires Inv(r) && r.phase != ReceivingFiles
    ensures Inv(HandleMessage(cfg, env, r, data))
  {
    match Classify(cfg.codec, data)
    case None =>
      if r.phase == WaitFiles && data != [] && data[0] != OpenBrace {
        BinaryInv(env, r, data);
      }
    case Some((msg, j)) =>
      match r.phase
      case WaitNonce =>
      case WaitToken =>
      case WaitPin =>
      case WaitFileList =>
      case WaitPairResponse =>
      case WaitFiles =>
        if msg.FileHeader? { StartInv(env, r, msg.id, msg.token); }
      case _ =>
  }

  lemma MessageInv(cfg: Config, env: Env, r: Receiver, frame: Frame)
    requires Inv(r)
    ensures Inv(HandleFrame(cfg, env, r, frame))
  {
    if r.phase == ReceivingFiles {
      if frame.BinaryFrame? {
        BinaryInv(env, r, frame.data);
      } else {
        BoundaryInv(cfg, env, r, frame.data);
      }
    } else {
      var (buffer, message) := ControlStep(r.controlBuffer, frame);
      var r1 := r.(controlBuffer := buffer);
      assert Inv(r1);
      if message.Some? {
        ControlInv(cfg, env, r1, message.value);
      }
    }
  }

  lemma ApplyInv(cfg: Config, env: Env, r: Receiver, e: Event)
    requires Inv(r)
    ensures Inv(Apply(cfg, env, r, e))
  {
    CleanupInv(r);
    match e
    case Message(frame) => MessageInv(cfg, env, r, frame);
    case PeerClosed =>
    case Close =>
    case WatchdogExpired =>
    case Offer =>
    case OfferFailed =>
    case PeerReady =>
  }

  // ---------- An offer that fails ----------

  /** Failing an offer without looking keeps the invariant exactly while no file is open. */
  lemma FailAcceptExact(r: Receiver)
    requires Inv(r)
    ensures Inv(FailAccept(r)) <==> r.current.None?
  {
  }

  /** An offer is being answered: the receiver is reserved for it, or was closed meanwhile. */
  predicate Pending(r: Receiver) {
    r.current.None? && !r.connected && (r.accepting || r.phase == Done)
  }

  /** While AcceptOffer runs, and no other call of it does, the offer stays pending whatever
      else happens; so failing it then is what the event OfferFailed says. */
  lemma PendingStays(cfg: Config, env: Env, r: Receiver, e: Event)
    requires Inv(r) && Pending(r)
    ensures !e.Offer? && !e.PeerReady? ==> Pending(Apply(cfg, env, r, e))
    ensures FailAccept(r) == Apply(cfg, env, r, OfferFailed)
  {
    match e
    case Message(frame) =>
      if r.phase != ReceivingFiles {
        PendingMessage(cfg, env, r, frame);
        hide HandleFrame;
      }
    case PeerClosed =>
    case Close =>
    case WatchdogExpired =>
    case Offer =>
    case OfferFailed =>
    case PeerReady =>
  }

  lemma PendingMessage(cfg: Config, env: Env, r: Receiver, frame: Frame)
    requires Inv(r) && Pending(r)
    ensures Pending(HandleFrame(cfg, env, r, frame))
  {
    hide DiskExact, Alternates, CurrentBounded;
    var (buffer, message) := ControlStep(r.controlBuffer, frame);
    var r1 := r.(controlBuffer := buffer);
    if message.Some? && r.phase == WaitNonce {
      match Classify(cfg.codec, message.value)
      case None =>
      case Some((msg, j)) => assert HandshakeOnly(r1, HandleNonce(cfg, env, r1, msg));
    }
  }

  // ---------- Any run ----------

  datatype Happening = Happening(event: Event, env: Env)

  /** What was saved stays saved, and the history of the initial disk never changes. */
  ghost predicate Continues(r: Receiver, s: Receiver) {
    && s.base == r.base
    && forall p :: p in r.saved ==> p in s.saved && s.saved[p] == r.saved[p]
  }

  lemma ApplyContinues(cfg: Config, env: Env, r: Receiver, e: Event)
    requires Inv(r)
    ensures Continues(r, Apply(cfg, env, r, e))
  {
    match e
    case Message(frame) => MessageContinues(cfg, env, r, frame);
    case PeerClosed =>
    case Close =>
    case WatchdogExpired =>
    case Offer =>
    case OfferFailed =>
    case PeerReady =>
  }

  lemma MessageContinues(cfg: Config, env: Env, r: Receiver, frame: Frame)
    requires Inv(r)
    ensures Continues(r, HandleFrame(cfg, env, r, frame))
  {
    if r.phase == ReceivingFiles {
      if frame.TextFrame? {
        assert Continues(r, FinishCurrent(cfg, env, r));
      }
    } else {
      var (buffer, message) := ControlStep(r.controlBuffer, frame);
      if message.Some? { ControlContinues(cfg, env, r.(controlBuffer := buffer), message.value); }
    }
  }

  lemma ControlContinues(cfg: Config, env: Env, r: Receiver, data: Bytes)
    requires r.phase != ReceivingFiles && r.current.None?
    ensures Continues(r, HandleMessage(cfg, env, r, data))
  {
    match Classify(cfg.codec, data)
    case None =>
      if r.phase == WaitFiles && data != [] && data[0] != OpenBrace {
      }
    case Some((msg, j)) =>
      match r.phase
      case WaitNonce =>
      case WaitToken =>
      case WaitPin =>
      case WaitFileList =>
      case WaitPairResponse =>
      case WaitFiles =>
        if msg.FileHeader? {
        }
      case _ =>
  }

  /** The state after any sequence of events, whoever the peer is. */
  function Run(cfg: Config, r: Receiver, events: seq<Happening>): (s: Receiver)
    requires Inv(r)
    ensures Inv(s) && Continues(r, s)
    decreases |events|
  {
    if events == [] then r
    else
      ApplyInv(cfg, events[0].env, r, events[0].event);
      ApplyContinues(cfg, events[0].env, r, events[0].event);
      Run(cfg, Apply(cfg, events[0].env, r, events[0].event), events[1..])
  }

  /** The disk without the open file. */
  function Settled(r: Receiver): map<string, Bytes> { r.base + (map p | p in r.saved :: r.saved[p].data) }

  lemma IdleDisk(r: Receiver)
    requires DiskExact(r) && r.current.None?
    ensures r.disk == Settled(r)
  {
  }

  lemma CleanedDisk(r: Receiver)
    requires Inv(r)
    ensures CleanupPartial(r).disk == Settled(r)
  {
    hide Inv, DiskExact, Alternates, CurrentBounded, Settled;
    CleanupInv(r);
    IdleDisk(CleanupPartial(r));
    assert Settled(CleanupPartial(r)) == Settled(r) by { SameSettled(r, CleanupPartial(r)); }
  }

  lemma SameSettled(r: Receiver, s: Receiver)
    requires s.base == r.base && s.saved == r.saved
    ensures Settled(s) == Settled(r)
  {
  }

  /** After any run ended by Close, and after any run that leaves no file open, the disk is
      what it was at the start plus the acknowledged files: no partial file remains. */
  lemma NoPartialFiles(cfg: Config, disk: map<string, Bytes>, events: seq<Happening>, env: Env)
    ensures var r := Run(cfg, Fresh(disk), events); var c := Apply(cfg, env, r, Close);
            && c.disk == disk + (map p | p in r.saved :: r.saved[p].data)
            && (r.current.None? ==> r.disk == c.disk)
            && (r.connected ==> Apply(cfg, env, r, PeerClosed).disk == c.disk)
            && (r.current.Some? ==> Apply(cfg, env, r, WatchdogExpired).disk == c.disk)
  {
    hide DiskExact, Alternates, CurrentBounded, Run, HandleFrame;
    FreshInv(disk);
    CleanedDisk(Run(cfg, Fresh(disk), events));
  }

  // ---------- Responses are sound ----------

  /** The receiver after a sequence of binary frames. */
  function RunFrames(cfg: Config, r: Receiver, frames: seq<Frame>, envs: seq<Env>): (s: Receiver)
    requires Inv(r) && |envs| == |frames|
    ensures Inv(s) && Continues(r, s)
    decreases |frames|
  {
    if frames == [] then r
    else
      ApplyInv(cfg, envs[0], r, Message(frames[0]));
      ApplyContinues(cfg, envs[0], r, Message(frames[0]));
      RunFrames(cfg, Apply(cfg, envs[0], r, Message(frames[0])), frames[1..], envs[1..])
  }

  predicate AllBinary(frames: seq<Frame>) {
    forall i :: 0 <= i < |frames| ==> frames[i].BinaryFrame?
  }

  lemma {:induction false} IdleStaysIdle(cfg: Config, r: Receiver, frames: seq<Frame>, envs: seq<Env>)
    requires Inv(r) && |envs| == |frames| && AllBinary(frames) && r.current.None?
    ensures RunFrames(cfg, r, frames, envs).current.None?
    decreases |frames|
  {
    if frames != [] {
      ApplyInv(cfg, envs[0], r, Message(frames[0]));
      IdleStaysIdle(cfg, Apply(cfg, envs[0], r, Message(frames[0])), frames[1..], envs[1..]);
    }
  }

  predicate AllWritesOk(envs: seq<Env>) {
    forall i :: 0 <= i < |envs| ==> envs[i].writeOk
  }

  /** From r to s the frames were taken into the file that stayed current. */
  ghost predicate Accumulated(r: Receiver, s: Receiver, frames: seq<Frame>, envs: seq<Env>) {
    && r.current.Some? && s.current.Some?
    && s.outbox == r.outbox && s.files == r.files && s.connected == r.connected
    && s.current.value.id == r.current.value.id && s.current.value.path == r.current.value.path
    && (s.current.value.failed <==> r.current.value.failed || !AllWritesOk(envs))
    && (!s.current.value.failed ==> s.current.value.accepted == r.current.value.accepted + Concat(frames))
  }

  lemma BinaryStep(env: Env, r: Receiver, data: Bytes)
    requires Inv(r) && r.current.Some? && HandleBinaryData(env, r, data).current.Some?
    ensures var s := HandleBinaryData(env, r, data);
            && Accumulated(r, s, [BinaryFrame(data)], [env]) && s.phase == r.phase
            && (s.current.value.accepted == r.current.value.accepted
                || s.current.value.accepted == r.current.value.accepted + data)
  {
    assert Concat([BinaryFrame(data)]) == data + Concat([]);
    assert [env][0] == env;
  }

  lemma AccumulateCons(r: Receiver, r1: Receiver, s: Receiver, frames: seq<Frame>, envs: seq<Env>)
    requires frames != [] && |envs| == |frames|
    requires Accumulated(r, r1, [frames[0]], [envs[0]]) && Accumulated(r1, s, frames[1..], envs[1..])
    ensures Accumulated(r, s, frames, envs)
  {
    assert AllWritesOk(envs) <==> envs[0].writeOk && AllWritesOk(envs[1..]);
    assert [envs[0]][0] == envs[0];
    assert [frames[0]] + frames[1..] == frames;
    ConcatAppend([frames[0]], frames[1..]);
  }

  /** Frames of one file: while it stays current its writer holds exactly their
      concatenation, or has failed for good; nothing is sent meanwhile. */
  lemma {:induction false} FramesAccumulate(cfg: Config, r: Receiver, frames: seq<Frame>, envs: seq<Env>)
    requires Inv(r) && |envs| == |frames| && AllBinary(frames) && r.current.Some?
    requires RunFrames(cfg, r, frames, envs).current.Some?
    ensures Accumulated(r, RunFrames(cfg, r, frames, envs), frames, envs)
    decreases |frames|
  {
    if frames != [] {
      ApplyInv(cfg, envs[0], r, Message(frames[0]));
      var r1 := Apply(cfg, envs[0], r, Message(frames[0]));
      if r1.current.None? {
        IdleStaysIdle(cfg, r1, frames[1..], envs[1..]);
      } else {
        BinaryStep(envs[0], r, frames[0].data);
        FramesAccumulate(cfg, r1, frames[1..], envs[1..]);
        AccumulateCons(r, r1, RunFrames(cfg, r1, frames[1..], envs[1..]), frames, envs);
      }
    }
  }

  /** What goes out about a finished file: one response, or nothing once the connection has
      been given up. */
  function Answer(cfg: Config, connected: bool, id: string, success: bool, error: ErrorText): seq<Frame> {
    if connected then [SendJSON(cfg.codec, FileResponseMessage(id, success, error))] else []
  }

  /** What finishing does with the file and tells the sender. */
  lemma FinishSound(cfg: Config, env: Env, s: Receiver)
    requires Inv(s) && s.current.Some?
    ensures var a := s.current.value; var (success, error) := Verdict(cfg, env, s); var f := FinishCurrent(cfg, env, s);
            && f.outbox == s.outbox + Answer(cfg, s.connected, a.id, success, error)
            && (success ==> a.path in f.saved && f.saved[a.path] == Saved(a.id, a.accepted)
                            && a.path in f.disk && f.disk[a.path] == a.accepted)
            && (!success ==> a.path !in f.disk && a.path !in f.saved)
  {
    hide Verdict, FileResponseMessage;
  }

  /** The rest of the boundary touches neither answers nor finished files. */
  lemma AfterFinish(cfg: Config, env: Env, s: Receiver, boundary: Bytes)
    requires s.current.Some?
    ensures var f := FinishCurrent(cfg, env, s); var t := HandleBoundary(cfg, env, s, boundary);
            && t.outbox == f.outbox && t.saved == f.saved
            && (forall p :: p in f.disk ==> p in t.disk && t.disk[p] == f.disk[p])
            && (t.current.None? ==> t.disk.Keys == f.disk.Keys)
  {
    hide FinishCurrent, Verdict;
  }

  /** Everything a success answers for. */
  ghost predicate Succeeds(cfg: Config, meta: FileDto, frames: seq<Frame>, envs: seq<Env>, env: Env) {
    && AllWritesOk(envs) && env.flushOk && env.closeOk && |Concat(frames)| == meta.size
    && (meta.sha256 == "" || cfg.sha256(Concat(frames)) == meta.sha256)
  }

  /** The error named for a failure: a wrong hash before a failed write, flush or close, and the
      size only if nothing else is wrong.  After a failed write the hash is of what was kept. */
  predicate Explains(cfg: Config, meta: FileDto, frames: seq<Frame>, envs: seq<Env>, env: Env, error: ErrorText) {
    if !AllWritesOk(envs) then error in {ChecksumMismatch, SaveFailed}
    else if meta.sha256 != "" && cfg.sha256(Concat(frames)) != meta.sha256 then error == ChecksumMismatch
    else if !env.flushOk || !env.closeOk then error == SaveFailed
    else error == SizeMismatch
  }

  lemma VerdictMeans(cfg: Config, env: Env, r: Receiver, s: Receiver, frames: seq<Frame>, envs: seq<Env>)
    requires Accumulated(r, s, frames, envs) && r.current.value.accepted == [] && !r.current.value.failed
    requires First(DtoID, r.files, r.current.value.id).Some?
    ensures Verdict(cfg, env, s).0 <==>
              Succeeds(cfg, First(DtoID, r.files, r.current.value.id).value, frames, envs, env)
    ensures Verdict(cfg, env, s).0 ==> s.current.value.accepted == Concat(frames)
    ensures Explains(cfg, First(DtoID, r.files, r.current.value.id).value, frames, envs, env, Verdict(cfg, env, s).1)
  {
    assert [] + Concat(frames) == Concat(frames);
    hide First, Concat, AllWritesOk;
  }

  /** A started file that reaches a boundary gets exactly one response while the connection
      is held, and none once it has been given up.  The file is a success exactly when the
      frames since the header were all written, flushed and closed, have the declared length
      and the declared hash (if one was declared), and the response says so, or names what went
      wrong; then the saved file is their concatenation, and otherwise the file is gone. */
  lemma ResponseSound(cfg: Config, r: Receiver, frames: seq<Frame>, envs: seq<Env>, boundary: Bytes, env: Env)
    requires Inv(r) && |envs| == |frames| && AllBinary(frames)
    requires r.current.Some? && r.current.value.accepted == [] && !r.current.value.failed
    requires RunFrames(cfg, r, frames, envs).current.Some?
    ensures var id, path := r.current.value.id, r.current.value.path;
            var meta := First(DtoID, r.files, id).value; var success := Succeeds(cfg, meta, frames, envs, env);
            var after := Apply(cfg, env, RunFrames(cfg, r, frames, envs), Message(TextFrame(boundary)));
            && (exists error :: Explains(cfg, meta, frames, envs, env, error)
                                && after.outbox == r.outbox + Answer(cfg, r.connected, id, success, error))
            && (success ==> path in after.saved && after.saved[path] == Saved(id, Concat(frames))
                            && path in after.disk && after.disk[path] == Concat(frames))
            && (!success ==> path !in after.saved && (after.current.None? ==> path !in after.disk))
  {
    FramesAccumulate(cfg, r, frames, envs);
    var s := RunFrames(cfg, r, frames, envs);
    hide RunFrames;
    VerdictMeans(cfg, env, r, s, frames, envs);
    FinishSound(cfg, env, s);
    AfterFinish(cfg, env, s, boundary);
    assert Apply(cfg, env, s, Message(TextFrame(boundary))) == HandleBoundary(cfg, env, s, boundary);
    hide First, AllWritesOk, Inv, HandleBoundary, FinishCurrent, FileResponseMessage, Verdict, Succeeds, Apply, Concat,
         Answer, Explains;
  }

  /** A header between files asks to start its file. */
  lemma HeaderStarts(cfg: Config, env: Env, r: Receiver, id: string, token: string)
    requires Faithful(cfg.codec) && r.phase == WaitFiles && r.current.None? && id != "" && token != ""
    ensures Apply(cfg, env, r, Message(SendJSON(cfg.codec, FileHeaderMessage(id, token))))
            == StartReceiving(env, r, id, token)
  {
    hide StartReceiving;
    PeerMessagesClassified();
    var j := FileHeaderMessage(id, token);
    assert cfg.codec.encode(j)[0] == OpenBrace && r.(controlBuffer := r.controlBuffer) == r;
    assert Classify(cfg.codec, cfg.codec.encode(j)) == Some((FileHeader(id, token), j));
  }

  /** The receiver gives up its connection over a header with a wrong token, but the right
      one still opens the file, which is then received without a connection: it can be kept,
      and nobody is told. */
  lemma StartedAfterRejection(cfg: Config, env: Env, r: Receiver, id: string, token: string, wrong: string)
    requires Faithful(cfg.codec) && Inv(r) && r.phase == WaitFiles && id != "" && token != "" && wrong != ""
    requires Destination(env, r, id, token).Some? && wrong != token
    ensures var rejected := Apply(cfg, env, r, Message(SendJSON(cfg.codec, FileHeaderMessage(id, wrong))));
            && Inv(rejected) && !rejected.connected && rejected.current.None?
            && var started := Apply(cfg, env, rejected, Message(SendJSON(cfg.codec, FileHeaderMessage(id, token))));
               Inv(started) && !started.connected && started.current.Some? && started.outbox == r.outbox
  {
    HeaderStarts(cfg, env, r, id, wrong);
    var rejected := Reject(r);
    assert StartReceiving(env, r, id, wrong) == rejected;
    HeaderStarts(cfg, env, rejected, id, token);
    assert Destination(env, rejected, id, token) == Destination(env, r, id, token);
    ApplyInv(cfg, env, r, Message(SendJSON(cfg.codec, FileHeaderMessage(id, wrong))));
    ApplyInv(cfg, env, rejected, Message(SendJSON(cfg.codec, FileHeaderMessage(id, token))));
    hide Apply, Inv, Destination, FileHeaderMessage;
  }

  // ---------- Which file is opened, and when none is ----------

  /** Everything a header must have right: the token handed out for its ID, a listed entry with a
      usable name, and a new file that can be created. */
  predicate Opens(env: Env, r: Receiver, id: string, token: string) {
    && id in r.fileTokens && r.fileTokens[id] == token && env.created.Some? && env.created.value !in r.disk
    && exists i :: 0 <= i < |r.files| && r.files[i].id == id && (forall k :: 0 <= k < i ==> r.files[k].id != id)
                   && Paths.SanitizePathWithFallback(r.files[i].fileName).Success?
  }

  lemma {:induction false} FirstIsEarliest(files: seq<FileDto>, id: string)
    ensures First(DtoID, files, id).Some? <==> exists i :: 0 <= i < |files| && files[i].id == id
    ensures forall i :: 0 <= i < |files| && files[i].id == id && (forall k :: 0 <= k < i ==> files[k].id != id) ==>
              First(DtoID, files, id) == Some(files[i])
    ensures First(DtoID, files, id).Some? ==>
              exists i :: 0 <= i < |files| && files[i].id == id && First(DtoID, files, id) == Some(files[i])
                          && forall k :: 0 <= k < i ==> files[k].id != id
  {
    if files != [] && files[0].id != id {
      FirstIsEarliest(files[1..], id);
      assert forall i :: 0 < i < |files| ==> files[i] == files[1..][i - 1];
      if First(DtoID, files[1..], id).Some? {
        var i :| 0 <= i < |files[1..]| && files[1..][i].id == id && First(DtoID, files[1..], id) == Some(files[1..][i])
                 && forall k :: 0 <= k < i ==> files[1..][k].id != id;
        assert files[i + 1].id == id && forall k :: 0 <= k < i + 1 ==> files[k].id != id;
      }
    }
  }

  /** A header opens the file it names exactly if it has all that right, and otherwise costs the
      connection. */
  lemma HeaderOpens(env: Env, r: Receiver, id: string, token: string)
    requires r.current.None?
    ensures var t := StartReceiving(env, r, id, token);
            if Opens(env, r, id, token) then
              && t.phase == ReceivingFiles && t.connected == r.connected && env.created.Some?
              && t.current == Some(Active(id, env.created.value, [], false))
              && t.disk == r.disk[env.created.value := []]
            else t.phase == WaitFiles && !t.connected && t.current.None? && t.disk == r.disk
  {
    FirstIsEarliest(r.files, id);
    hide First, Paths.SanitizePathWithFallback, Silent;
  }

  /** Nothing reaches a session that is over: until the next offer it sends nothing, and what is
      on the disk stays as it is. */
  lemma OverStaysOver(cfg: Config, env: Env, r: Receiver, e: Event)
    requires Inv(r) && r.phase == Done && !e.Offer?
    ensures var s := Apply(cfg, env, r, e);
            s.phase == Done && s.outbox == r.outbox && s.disk == r.disk && s.saved == r.saved && s.current.None?
            && s.callbacks == r.callbacks
  {
    hide DiskExact, CurrentBounded, Alternates;
    match e
    case Message(frame) =>
      var (buffer, message) := ControlStep(r.controlBuffer, frame);
      if message.Some? {
        match Classify(cfg.codec, message.value)
        case None =>
        case Some(_) =>
      }
    case _ =>
  }

  /** Closing ends the session, and so do the loss of a connection that is held and the timeout
      of an open file. */
  lemma EndsAreOver(cfg: Config, env: Env, r: Receiver)
    requires Inv(r)
    ensures var s := Apply(cfg, env, r, Close); s.phase == Done && !s.connected && !s.accepting
    ensures r.connected ==> var s := Apply(cfg, env, r, PeerClosed); s.phase == Done && !s.connected && !s.accepting
    ensures r.current.Some? ==> var s := Apply(cfg, env, r, WatchdogExpired); s.phase == Done && !s.connected
    ensures r.current.None? ==> Apply(cfg, env, r, WatchdogExpired) == r
    ensures !r.connected ==> Apply(cfg, env, r, PeerClosed) == r
  {
    hide DiskExact, CurrentBounded, Alternates;
  }

  /** Between two files: the text "0" ends the session, another text opens the file it names or
      costs the connection, and one that names none ends the session. */
  lemma BoundaryDecides(cfg: Config, env: Env, r: Receiver, data: Bytes)
    requires Inv(r) && r.current.Some?
    ensures var t := Apply(cfg, env, r, Message(TextFrame(data))); var f := FinishCurrent(cfg, env, r);
            var j := cfg.codec.decode(data);
            var named := data != DelimiterText && j.Some? && AsString(j.value.id).Some?
                         && AsString(j.value.id) != Some("") && AsString(j.value.token).Some?;
            if named then
              t.phase == if Opens(env, f, AsString(j.value.id).value, AsString(j.value.token).value) then ReceivingFiles
                         else WaitFiles
            else t.phase == Done && !t.connected && t.current.None?
  {
    hide Inv, FinishCurrent, StartReceiving, Opens;
    assert r.phase == ReceivingFiles by { OpenPhase(r); }
    var j, f := cfg.codec.decode(data), FinishCurrent(cfg, env, r);
    if j.Some? && AsString(j.value.id).Some? && AsString(j.value.token).Some? {
      HeaderOpens(env, f, AsString(j.value.id).value, AsString(j.value.token).value);
    }
  }

  lemma OpenPhase(r: Receiver)
    requires Inv(r)
    ensures r.phase == ReceivingFiles <==> r.current.Some?
  {
  }

  // ---------- What was declared is what is kept ----------

  /** A saved file has the size the list declares for its ID, and the hash if one is declared. */
  predicate Declared(cfg: Config, files: seq<FileDto>, file: Saved) {
    var meta := First(DtoID, files, file.id);
    && meta.Some? && |file.data| == meta.value.size
    && (meta.value.sha256 == "" || cfg.sha256(file.data) == meta.value.sha256)
  }

  /** The list stays, and what is newly saved is as it declares. */
  ghost predicate SavesDeclared(cfg: Config, r: Receiver, s: Receiver) {
    && s.files == r.files
    && forall p :: p in s.saved ==> (p in r.saved && s.saved[p] == r.saved[p]) || Declared(cfg, r.files, s.saved[p])
  }

  lemma BoundaryDeclared(cfg: Config, env: Env, r: Receiver, data: Bytes)
    requires r.current.Some?
    ensures SavesDeclared(cfg, r, HandleBoundary(cfg, env, r, data))
  {
    var f := FinishCurrent(cfg, env, r);
    assert Silent(f, HandleBoundary(cfg, env, r, data));
    assert SavesDeclared(cfg, r, f);
    hide HandleBoundary, FinishCurrent, First;
  }

  lemma IdleDeclared(cfg: Config, env: Env, r: Receiver, data: Bytes)
    requires r.current.None? && r.phase in {WaitFiles, Done}
    ensures SavesDeclared(cfg, r, HandleMessage(cfg, env, r, data))
  {
    hide First, Classify, Declared;
    match Classify(cfg.codec, data)
    case None => assert Silent(r, HandleBinaryData(env, r, data)); hide HandleBinaryData;
    case Some((msg, j)) =>
      if msg.FileHeader? {
        assert Silent(r, StartReceiving(env, r, msg.id, msg.token));
        hide StartReceiving;
      }
  }

  /** Once the files are agreed, a frame from any peer saves only what was declared. */
  lemma FrameDeclared(cfg: Config, env: Env, r: Receiver, frame: Frame)
    requires Inv(r) && r.phase in {WaitFiles, ReceivingFiles, Done}
    ensures SavesDeclared(cfg, r, HandleFrame(cfg, env, r, frame))
  {
    hide DiskExact, Alternates, CurrentBounded, SavesDeclared;
    if r.phase == ReceivingFiles {
      if frame.BinaryFrame? {
        assert Silent(r, HandleBinaryData(env, r, frame.data));
        SilentDeclared(cfg, r, HandleBinaryData(env, r, frame.data));
      } else {
        BoundaryDeclared(cfg, env, r, frame.data);
      }
      hide HandleBinaryData, HandleBoundary;
    } else {
      var (buffer, message) := ControlStep(r.controlBuffer, frame);
      var r1 := r.(controlBuffer := buffer);
      SilentDeclared(cfg, r, r1);
      if message.Some? {
        IdleDeclared(cfg, env, r1, message.value);
        SameStart(cfg, r, r1, HandleMessage(cfg, env, r1, message.value));
      }
      hide HandleMessage;
    }
  }

  lemma SilentDeclared(cfg: Config, r: Receiver, s: Receiver)
    requires s.files == r.files && s.saved == r.saved
    ensures SavesDeclared(cfg, r, s)
  {
    hide Declared;
  }

  lemma SameStart(cfg: Config, r: Receiver, r1: Receiver, s: Receiver)
    requires r1.files == r.files && r1.saved == r.saved && SavesDeclared(cfg, r1, s)
    ensures SavesDeclared(cfg, r, s)
  {
    hide Declared;
  }

  /** A frame of the open file is taken in exactly if it keeps within the declared size, and a
      longer one costs the file and the connection. */
  lemma ExcessGivesUp(env: Env, r: Receiver, data: Bytes)
    requires Inv(r) && r.current.Some?
    ensures var a := r.current.value; var t := HandleBinaryData(env, r, data);
            if |a.accepted| + |data| <= First(DtoID, r.files, a.id).value.size then
              t.current.Some? && t.connected == r.connected && t.phase == ReceivingFiles
              && (t.current.value.accepted == a.accepted + data <==> data == [] || (env.writeOk && !a.failed))
            else
              t.current.None? && !t.connected && t.phase == WaitFiles && a.path !in t.disk && a.path !in t.saved
  {
    hide First;
    assert r.current.value.path in r.disk;
    assert data != [] ==> r.current.value.accepted + data != r.current.value.accepted;
  }
}
