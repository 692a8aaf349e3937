/** The receiving state machine of a WebRTC transfer as a function on values.  One
    application is one data-channel message, or one of the other events that lock the
    receiver.  Outgoing frames are appended to `outbox`, the channel to the sender. */
module RtcReceiverSpec {
  import opened Wrappers
  import opened RtcMessages
  import opened DataChannel
  import opened FileIndex
  import opened Limits
  import Paths

  datatype Phase = WaitNonce | WaitToken | WaitPin | WaitFileList | WaitPairResponse | WaitFiles | ReceivingFiles | Done

  datatype Config = Config(
    codec: Codec,
    crypto: Crypto,
    sha256: Bytes -> string,
    signingKey: string,
    pin: string,
    pinProvider: Option<nat -> string>,
    requirePairing: bool,
    trusted: seq<string>,
    selectFiles: Option<seq<FileDto> -> seq<string>>)

  /** What randomness and the file system answer during one event: the fresh nonce, the
      fresh token of the n-th accepted file, the path an exclusive create succeeds on (if
      any), whether a buffered write, the flush and the close succeed, and how many bytes
      of the file have reached the disk so far. */
  datatype Env = Env(nonce: Bytes, fileToken: nat -> string, created: Option<string>,
                     writeOk: bool, spilled: nat, flushOk: bool, closeOk: bool)

  /** The file being received: the bytes its buffered writer accepted, and whether that
      writer has failed, which is permanent. */
  datatype Active = Active(id: string, path: string, accepted: Bytes, failed: bool)

  datatype Saved = Saved(id: string, data: Bytes)

  datatype Callback = TransferStart | TransferDone

  datatype Receiver = Receiver(
    phase: Phase,
    connected: bool,                 // a peer connection is held
    accepting: bool,
    remoteNonce: Bytes,
    localNonce: Bytes,
    finalNonce: Bytes,
    senderKey: Option<string>,
    senderToken: string,
    pinAttempts: nat,
    providedPINAttempts: nat,
    files: seq<FileDto>,
    fileTokens: map<string, string>,
    acceptedIDs: seq<string>,
    current: Option<Active>,
    controlBuffer: Bytes,
    outbox: seq<Frame>,
    disk: map<string, Bytes>,
    callbacks: seq<Callback>,
    // history
    base: map<string, Bytes>,        // what the disk held before the receiver wrote to it
    saved: map<string, Saved>,       // files acknowledged with success, by path
    unexpected: nat)                 // messages that reached a "parse failed" or "expected X, got Y" branch

  // ---------- Building blocks ----------

  function Unexpected(r: Receiver): Receiver { r.(unexpected := r.unexpected + 1) }

  function Send(cfg: Config, r: Receiver, j: Json): Receiver {
    if r.connected then r.(outbox := r.outbox + [SendJSON(cfg.codec, j)]) else r
  }

  /** sendJSONBinary followed by sendDelimiter */
  function SendBinary(cfg: Config, r: Receiver, j: Json): Receiver {
    if r.connected then r.(outbox := r.outbox + (Chunks(cfg.codec.encode(j)) + [Delimiter])) else r
  }

  function MarkDone(r: Receiver): Receiver { r.(callbacks := r.callbacks + [TransferDone]) }

  /** cleanupPartialFilesLocked; also cleanupCurrentFile, which differs only in touching
      the maps of the current file alone. */
  function CleanupPartial(r: Receiver): (s: Receiver)
    ensures s == r.(current := None, disk := s.disk, callbacks := s.callbacks)
  {
    match r.current
    case None => r
    case Some(a) => r.(disk := r.disk - {a.path}, current := None, callbacks := r.callbacks + [TransferDone])
  }

  function Terminate(r: Receiver): (s: Receiver)
    ensures s.current.None? && s.phase == Done && (r.current.None? ==> s == r.(phase := Done, connected := false))
  {
    CleanupPartial(r).(phase := Done, connected := false)
  }

  function Reject(r: Receiver): Receiver {
    r.(connected := false, current := None, phase := WaitFiles)
  }

  // ---------- Files ----------

  /** A step inside a file sends and acknowledges nothing, and offers stay as they are. */
  ghost predicate Silent(r: Receiver, s: Receiver) {
    && s.outbox == r.outbox && s.saved == r.saved && s.base == r.base
    && s.files == r.files && s.fileTokens == r.fileTokens
  }

  /** The checks before a file is opened, in order: the token, the entry, its name, and
      the exclusive create. */
  function Destination(env: Env, r: Receiver, id: string, token: string): Option<string> {
    if id !in r.fileTokens || r.fileTokens[id] != token then None
    else match First(DtoID, r.files, id)
      case None => None
      case Some(meta) =>
        if Paths.SanitizePathWithFallback(meta.fileName).Failure? then None
        else if env.created.None? || env.created.value in r.disk then None
        else env.created
  }

  function StartReceiving(env: Env, r: Receiver, id: string, token: string): (s: Receiver)
    requires r.current.None?
    ensures Silent(r, s)
    ensures s.disk.Keys == r.disk.Keys + (if s.current.Some? then {s.current.value.path} else {})
  {
    match Destination(env, r, id, token)
    case None => Reject(r)
    case Some(path) => OpenAt(r, id, path)
  }

  function OpenAt(r: Receiver, id: string, path: string): (s: Receiver)
    ensures s.phase == ReceivingFiles && s.current == Some(Active(id, path, [], false))
  {
    r.(phase := ReceivingFiles, current := Some(Active(id, path, [], false)),
       disk := r.disk[path := []], callbacks := r.callbacks + [TransferStart])
  }

  /** Bytes of the file that have left the write buffer after a write. */
  function Spill(before: Bytes, written: Bytes, spilled: nat): Bytes {
    var n := if spilled > |written| then |written| else spilled;
    if n < |before| then before else written[..n]
  }

  function WriteData(env: Env, r: Receiver, data: Bytes): (s: Receiver)
    requires r.current.Some? && r.current.value.path in r.disk
    ensures s == r.(current := s.current, disk := s.disk)
  {
    var a := r.current.value;
    var disk := r.disk[a.path := Spill(r.disk[a.path], a.accepted + data, env.spilled)];
    if a.failed || !env.writeOk then r.(current := Some(a.(failed := true)), disk := disk)
    else r.(current := Some(a.(accepted := a.accepted + data)), disk := disk)
  }

  /** handleBinaryData.  Without a current file the size check runs against the empty ID. */
  function HandleBinaryData(env: Env, r: Receiver, data: Bytes): (s: Receiver)
    ensures Silent(r, s)
  {
    var id, received := if r.current.Some? then r.current.value.id else "",
                        if r.current.Some? then |r.current.value.accepted| else 0;
    var meta := First(DtoID, r.files, id);
    if meta.None? || |data| > meta.value.size - received then Reject(CleanupPartial(r))
    else if r.current.None? || r.current.value.path !in r.disk then r
    else WriteData(env, r, data)
  }

  /** Whether the current file is saved, and the error reported if it is not. */
  function Verdict(cfg: Config, env: Env, r: Receiver): (bool, ErrorText)
    requires r.current.Some?
  {
    var a := r.current.value;
    var meta := First(DtoID, r.files, a.id);
    var sized := meta.Some? && |a.accepted| == meta.value.size;
    var stored := env.flushOk && !a.failed && env.closeOk;
    var matches := meta.None? || meta.value.sha256 == "" || cfg.sha256(a.accepted) == meta.value.sha256;
    (sized && stored && matches,
     if !matches then ChecksumMismatch else if !stored then SaveFailed else SizeMismatch)
  }

  /** Keeps the flushed file, or removes it. */
  function KeepOrRemove(r: Receiver, success: bool): (s: Receiver)
    requires r.current.Some?
    ensures s == r.(disk := s.disk, saved := s.saved)
  {
    var a := r.current.value;
    if success
    then r.(disk := r.disk[a.path := a.accepted], saved := r.saved[a.path := Saved(a.id, a.accepted)])
    else r.(disk := r.disk - {a.path})
  }

  function Settle(r: Receiver, success: bool): (s: Receiver)
    requires r.current.Some?
    ensures s == r.(disk := s.disk, saved := s.saved, current := None, callbacks := r.callbacks + [TransferDone])
  {
    MarkDone(KeepOrRemove(r, success)).(current := None)
  }

  /** finishCurrentFile */
  function FinishCurrent(cfg: Config, env: Env, r: Receiver): (s: Receiver)
    requires r.current.Some?
    ensures s
            == r.(disk := s.disk, saved := s.saved, outbox := s.outbox, current := None,
                  callbacks := r.callbacks + [TransferDone])
  {
    var (success, error) := Verdict(cfg, env, r);
    Send(cfg, Settle(r, success), FileResponseMessage(r.current.value.id, success, error))
  }

  /** A text frame while a file is being received. */
  function HandleBoundary(cfg: Config, env: Env, r: Receiver, data: Bytes): (s: Receiver)
    requires r.current.Some?
    ensures Silent(FinishCurrent(cfg, env, r), s)
    ensures s.disk.Keys == FinishCurrent(cfg, env, r).disk.Keys
                           + (if s.current.Some? then {s.current.value.path} else {})
  {
    var finished := FinishCurrent(cfg, env, r);
    if data == DelimiterText then finished.(phase := Done, connected := false)
    else
      var j := cfg.codec.decode(data);
      if j.None? || AsString(j.value.id).None? || AsString(j.value.token).None? || AsString(j.value.id).value == ""
      then Terminate(finished)
      else StartReceiving(env, finished, AsString(j.value.id).value, AsString(j.value.token).value)
  }

  // ---------- Handshake ----------

  /** A handshake step leaves files, disk and callbacks alone.  It either keeps the
      connection or ends the session, and without a connection it sends nothing and does
      not leave the nonce exchange. */
  ghost predicate HandshakeOnly(r: Receiver, s: Receiver) {
    && s == r.(phase := s.phase, connected := s.connected, remoteNonce := s.remoteNonce, localNonce := s.localNonce,
               finalNonce := s.finalNonce, senderKey := s.senderKey, senderToken := s.senderToken,
               pinAttempts := s.pinAttempts, providedPINAttempts := s.providedPINAttempts, files := s.files,
               fileTokens := s.fileTokens, acceptedIDs := s.acceptedIDs, outbox := s.outbox, unexpected := s.unexpected)
    && r.outbox <= s.outbox && (!r.connected ==> s.outbox == r.outbox)
    && ((s.connected == r.connected && s.phase !in {ReceivingFiles, Done}) || (!s.connected && s.phase == Done))
    && (!r.connected && r.phase == WaitNonce ==> s.phase == WaitNonce)
  }

  function HandleNonce(cfg: Config, env: Env, r: Receiver, msg: Msg): (s: Receiver)
    requires r.phase == WaitNonce
    ensures HandshakeOnly(r, s)
  {
    if !msg.Nonce? then Unexpected(r)
    else match cfg.crypto.decodeNonce(msg.nonce)
      case None => Send(cfg, r, ErrorMessage(InvalidNonce))
      case Some(remote) =>
        var r1 := r.(remoteNonce := remote, localNonce := env.nonce, finalNonce := remote + env.nonce);
        if !r.connected then r1
        else Send(cfg, r1, NonceMessage(cfg.crypto.encodeNonce(env.nonce))).(phase := WaitToken)
  }

  function FindTrusted(cfg: Config, trusted: seq<string>, token: string, nonce: Bytes): Option<string> {
    if trusted == [] then None
    else if cfg.crypto.keyParses(trusted[0]) && cfg.crypto.verify(trusted[0], token, nonce) then Some(trusted[0])
    else FindTrusted(cfg, trusted[1..], token, nonce)
  }

  function HandleToken(cfg: Config, r: Receiver, msg: Msg): (s: Receiver)
    requires r.phase == WaitToken && r.current.None?
    ensures HandshakeOnly(r, s)
  {
    if !msg.TokenRequest? then Unexpected(r)
    else
      var known := if r.senderKey.None? && cfg.requirePairing
                   then FindTrusted(cfg, cfg.trusted, msg.token, r.finalNonce) else r.senderKey;
      var r1 := r.(senderToken := msg.token, senderKey := known);
      if known.Some? && !cfg.crypto.verify(known.value, msg.token, r.finalNonce)
      then RefuseToken(cfg, r1) else AnswerToken(cfg, r1)
  }

  function RefuseToken(cfg: Config, r: Receiver): (s: Receiver)
    requires r.phase == WaitToken && r.current.None?
    ensures HandshakeOnly(r, s)
  {
    Terminate(Send(cfg, r, TokenResponseMessage(INVALID_SIGNATURE, "")))
  }

  function AnswerToken(cfg: Config, r: Receiver): (s: Receiver)
    requires r.phase == WaitToken && r.current.None?
    ensures HandshakeOnly(r, s)
  {
    Send(cfg, r, TokenResponseMessage(if cfg.pin != "" then PIN_REQUIRED else OK,
                                      cfg.crypto.sign(cfg.signingKey, r.finalNonce)))
      .(phase := if cfg.pin != "" then WaitPin else WaitFileList)
  }

  function HandlePin(cfg: Config, r: Receiver, msg: Msg): (s: Receiver)
    requires r.phase == WaitPin && r.current.None?
    ensures HandshakeOnly(r, s)
  {
    if !msg.Pin? then Unexpected(r)
    else if msg.pin == cfg.pin then Send(cfg, r, PinReceivingMessage(OK)).(phase := WaitFileList)
    else CountWrongPin(cfg, r)
  }

  function CountWrongPin(cfg: Config, r: Receiver): (s: Receiver)
    requires r.phase == WaitPin && r.current.None?
    ensures HandshakeOnly(r, s)
  {
    var r1 := r.(pinAttempts := r.pinAttempts + 1);
    if r1.pinAttempts >= MaxPINAttempts then Terminate(Send(cfg, r1, PinReceivingMessage(TOO_MANY_ATTEMPTS)))
    else Send(cfg, r1, PinReceivingMessage(PIN_REQUIRED))
  }

  function AllIDs(files: seq<FileDto>): (ids: seq<string>)
    ensures |ids| == |files| && forall i :: 0 <= i < |ids| ==> ids[i] == files[i].id
  {
    if files == [] then [] else [files[0].id] + AllIDs(files[1..])
  }

  /** The list has an entry for `id`, and its name can be stored. */
  predicate Usable(files: seq<FileDto>, id: string) {
    var meta := First(DtoID, files, id);
    && meta.Some? && '\0' !in meta.value.fileName
    && Paths.SanitizePathWithFallback(meta.value.fileName).Success?
  }

  /** prepareFilesForReceive: the n-th accepted ID gets the n-th fresh token, unless its
      file is unknown or its name unusable; a repeated ID keeps the later token. */
  function PrepareTokens(files: seq<FileDto>, ids: seq<string>, fileToken: nat -> string): map<string, string> {
    if ids == [] then map[]
    else
      var n := |ids| - 1;
      var tokens := PrepareTokens(files, ids[..n], fileToken);
      if Usable(files, ids[n]) then tokens[ids[n] := fileToken(n)] else tokens
  }

  /** `n` is the last place of `id`. */
  ghost predicate LastAt(ids: seq<string>, id: string, n: nat) {
    n < |ids| && ids[n] == id && forall k :: n < k < |ids| ==> ids[k] != id
  }

  /** A token for every accepted ID with a usable entry and for no other, and it is the
      one made for the last place of that ID. */
  lemma {:induction false} PrepareTokensExact(files: seq<FileDto>, ids: seq<string>, fileToken: nat -> string)
    ensures var tokens := PrepareTokens(files, ids, fileToken);
            && (forall id :: id in tokens <==> id in ids && Usable(files, id))
            && forall id, n :: LastAt(ids, id, n) && id in tokens ==> tokens[id] == fileToken(n)
    decreases |ids|
  {
    hide Usable;
    if ids != [] {
      var n := |ids| - 1;
      PrepareTokensExact(files, ids[..n], fileToken);
      assert ids == ids[..n] + [ids[n]];
      forall id, k | LastAt(ids, id, k) && id != ids[n] ensures LastAt(ids[..n], id, k) {
      }
    }
  }

  /** Sends the acceptance; without a connection the tokens are kept but the phase stays. */
  function AcceptFiles(cfg: Config, env: Env, r: Receiver): (s: Receiver)
    requires r.phase in {WaitFileList, WaitPairResponse}
    ensures HandshakeOnly(r, s)
  {
    var tokens := PrepareTokens(r.files, r.acceptedIDs, env.fileToken);
    var r1 := r.(fileTokens := r.fileTokens + tokens);
    if !r.connected then r1
    else SendBinary(cfg, r1, FileListResponseMessage(OK, tokens, "")).(phase := WaitFiles)
  }

  /** The sender's PIN challenge. */
  function AnswerChallenge(cfg: Config, r: Receiver): (s: Receiver)
    requires r.phase == WaitFileList && r.current.None?
    ensures HandshakeOnly(r, s)
  {
    var attempt := r.providedPINAttempts + 1;
    var pin := if cfg.pinProvider.Some? then (cfg.pinProvider.value)(attempt) else cfg.pin;
    var r1 := r.(providedPINAttempts := attempt);
    if r.connected then Send(cfg, r1, PinMessage(pin)) else Terminate(r1)
  }

  function HandleFileList(cfg: Config, env: Env, r: Receiver, msg: Msg, j: Json): (s: Receiver)
    requires r.phase == WaitFileList && r.current.None?
    ensures HandshakeOnly(r, s)
  {
    if msg == Status(PIN_REQUIRED) then AnswerChallenge(cfg, r)
    else if msg == Status(TOO_MANY_ATTEMPTS) then Terminate(r)
    else if !msg.FileList? && msg != Status(OK) then Unexpected(r)
    else if AsFiles(j.files).None? then Unexpected(r)
    else ReceiveFileList(cfg, env, r, AsFiles(j.files).value)
  }

  function ReceiveFileList(cfg: Config, env: Env, r: Receiver, files: seq<FileDto>): (s: Receiver)
    requires r.phase == WaitFileList && r.current.None?
    ensures HandshakeOnly(r, s)
  {
    if |files| > MaxFilesPerSession then SendBinary(cfg, r, FileListResponseMessage(DECLINED, map[], ""))
    else
      var ids := if cfg.selectFiles.Some? then (cfg.selectFiles.value)(files) else AllIDs(files);
      AnswerOffer(cfg, env, r.(files := files, acceptedIDs := ids))
  }

  function AnswerOffer(cfg: Config, env: Env, r: Receiver): (s: Receiver)
    requires r.phase == WaitFileList && r.current.None?
    ensures HandshakeOnly(r, s)
  {
    if !r.connected then r
    else if r.acceptedIDs == [] then SendBinary(cfg, r, FileListResponseMessage(DECLINED, map[], ""))
    else if cfg.requirePairing && r.senderKey.None? then
      SendBinary(cfg, r, FileListResponseMessage(PAIR, map[], cfg.signingKey)).(phase := WaitPairResponse)
    else AcceptFiles(cfg, env, r)
  }

  function HandlePairResponse(cfg: Config, env: Env, r: Receiver, msg: Msg, j: Json): (s: Receiver)
    requires r.phase == WaitPairResponse && r.current.None?
    ensures HandshakeOnly(r, s)
  {
    if !msg.PairResponse? && msg !in [Status(OK), Status(PAIR_DECLINED), Status(INVALID_SIGNATURE)]
    then Unexpected(r)
    else if AsString(j.publicKey).None? then Unexpected(r)
    else if msg.status == OK then AcceptPair(cfg, env, r, AsString(j.publicKey).value)
    else if msg.status == PAIR_DECLINED then
      if cfg.requirePairing then Terminate(r) else AcceptFiles(cfg, env, r)
    else r
  }

  /** A key is kept only if it parses and signed the token of the exchange. */
  function AcceptPair(cfg: Config, env: Env, r: Receiver, key: string): (s: Receiver)
    requires r.phase == WaitPairResponse && r.current.None?
    ensures HandshakeOnly(r, s)
  {
    if key == "" then AcceptFiles(cfg, env, r)
    else if !cfg.crypto.keyParses(key) then r
    else if r.senderToken != "" && !cfg.crypto.verify(key, r.senderToken, r.finalNonce) then r
    else AcceptFiles(cfg, env, r.(senderKey := Some(key)))
  }

  function HandleFileHeader(env: Env, r: Receiver, msg: Msg): Receiver
    requires r.current.None?
  {
    if msg.FileHeader? then StartReceiving(env, r, msg.id, msg.token) else Unexpected(r)
  }

  function HandleMessage(cfg: Config, env: Env, r: Receiver, data: Bytes): Receiver
    requires r.current.None?
  {
    match Classify(cfg.codec, data)
    case None =>
      if r.phase == WaitFiles && data != [] && data[0] != OpenBrace then HandleBinaryData(env, r, data)
      else Unexpected(r)
    case Some((msg, j)) =>
      match r.phase
      case WaitNonce => HandleNonce(cfg, env, r, msg)
      case WaitToken => HandleToken(cfg, r, msg)
      case WaitPin => HandlePin(cfg, r, msg)
      case WaitFileList => HandleFileList(cfg, env, r, msg, j)
      case WaitPairResponse => HandlePairResponse(cfg, env, r, msg, j)
      case WaitFiles => HandleFileHeader(env, r, msg)
      case _ => r
  }

  /** handleDataMessage */
  function HandleFrame(cfg: Config, env: Env, r: Receiver, frame: Frame): Receiver
    requires r.phase == ReceivingFiles <==> r.current.Some?
  {
    if r.phase == ReceivingFiles then
      if frame.BinaryFrame? then HandleBinaryData(env, r, frame.data) else HandleBoundary(cfg, env, r, frame.data)
    else
      var (buffer, message) := ControlStep(r.controlBuffer, frame);
      var r1 := r.(controlBuffer := buffer);
      if message.None? then r1 else HandleMessage(cfg, env, r1, message.value)
  }

  // ---------- Every event ----------

  datatype Event =
    | Message(frame: Frame)
    | PeerClosed
    | Close
    | WatchdogExpired                // no progress for the idle timeout
    | Offer                          // AcceptOffer up to the reset
    | OfferFailed                    // AcceptOffer cannot answer the offer it reserved for
    | PeerReady                      // AcceptOffer installs the new peer

  /** A new session, waiting for its connection. */
  function Reset(r: Receiver): Receiver {
    r.(phase := WaitNonce, connected := false, accepting := true, remoteNonce := [], localNonce := [],
       finalNonce := [], senderKey := None, senderToken := "", pinAttempts := 0, providedPINAttempts := 0,
       files := [], fileTokens := map[], acceptedIDs := [], controlBuffer := [])
  }

  /** AcceptOffer's failure path, which looks at nothing. */
  function FailAccept(r: Receiver): Receiver { r.(accepting := false, phase := Done) }

  function Apply(cfg: Config, env: Env, r: Receiver, e: Event): Receiver
    requires r.phase == ReceivingFiles <==> r.current.Some?
  {
    match e
    case Message(frame) => HandleFrame(cfg, env, r, frame)
    case PeerClosed =>
      if r.connected then CleanupPartial(r).(connected := false, accepting := false, phase := Done) else r
    case Close => CleanupPartial(r).(connected := false, accepting := false, phase := Done)
    case WatchdogExpired => if r.current.Some? then Terminate(r) else r
    case Offer =>
      if r.accepting || (r.connected && r.phase != Done) then r
      else Reset(CleanupPartial(r))
    case OfferFailed => if r.accepting then FailAccept(r) else r
    case PeerReady => if r.accepting then r.(accepting := false, connected := true) else r
  }

  function Fresh(disk: map<string, Bytes>): Receiver {
    Receiver(WaitNonce, false, false, [], [], [], None, "", 0, 0, [], map[], [], None, [], [], disk, [],
             disk, map[], 0)
  }
}
