/** The sending state machine of a WebRTC transfer as functions on values: the message
    handler, and the thread that runs Send and SendFiles, one data-channel operation at a
    time.  Outgoing frames are appended to `outbox`, the channel to the receiver. */
module RtcSenderSpec {
  import opened Wrappers
  import opened RtcMessages
  import opened DataChannel
  import opened FileIndex

  datatype Phase = Init | WaitNonce | WaitToken | WaitPin | WaitRequiredPIN | WaitFileAccept | SendingFiles | Done

  datatype FileMeta = FileMeta(id: string, fileName: string, size: int, sha256: string, content: Bytes)

  datatype Config = Config(
    codec: Codec,
    crypto: Crypto,
    signingKey: string,
    pin: string,
    pinProvider: Option<nat -> string>,
    requiredPIN: Option<string>,
    acceptPair: bool,               // what the PAIR confirmation answers
    files: seq<FileMeta>)

  datatype Sendable = Sendable(id: string, token: string, file: FileMeta)

  datatype Ack = Ack(id: string, success: bool, error: Option<ErrorText>)

  /** Where the thread running Send and then SendFiles stands. */
  datatype Job =
    | AwaitingAcceptance
    | Starting(queue: seq<Sendable>)
    | SendingFrames(queue: seq<Sendable>, index: nat, offset: nat)
    | AwaitingAck(queue: seq<Sendable>, index: nat)
    | Flushing(queue: seq<Sendable>)
    | Finished(queue: seq<Sendable>)

  datatype Sender = Sender(
    phase: Phase,
    localNonce: Bytes,
    remoteNonce: Bytes,
    finalNonce: Bytes,
    receiverKey: Option<string>,
    receiverToken: string,
    pinAttempts: nat,
    requiredPINAttempts: nat,
    controlBuffer: Bytes,
    outbox: seq<Frame>,
    accepted: Option<map<string, string>>,   // channels of capacity one
    declined: bool,
    errors: bool,
    fileResults: Option<Ack>,
    job: Job,
    failed: bool,                            // Send or SendFiles has returned an error
    // history
    fileTokens: map<string, string>,
    dropped: nat,                            // acknowledgements lost to a full channel
    unexpected: nat)

  function Unexpected(s: Sender): Sender { s.(unexpected := s.unexpected + 1) }

  function Send(cfg: Config, s: Sender, j: Json): Sender {
    s.(outbox := s.outbox + [SendJSON(cfg.codec, j)])
  }

  function SendBinary(cfg: Config, s: Sender, j: Json): Sender {
    s.(outbox := s.outbox + (Chunks(cfg.codec.encode(j)) + [Delimiter]))
  }

  /** failLocked */
  function Fail(s: Sender): Sender { s.(phase := Done, errors := true) }

  /** A handler touches neither the file loop nor its acknowledgements. */
  ghost predicate HandshakeOnly(s: Sender, t: Sender) {
    && t.job == s.job && t.failed == s.failed && t.fileResults == s.fileResults && t.dropped == s.dropped
    && t.controlBuffer == s.controlBuffer && s.outbox <= t.outbox
  }

  function Dto(f: FileMeta): FileDto { FileDto(f.id, f.fileName, f.size, f.sha256) }

  /** What the offer says of a file. */
  predicate Describes(dto: FileDto, f: FileMeta) {
    dto.id == f.id && dto.fileName == f.fileName && dto.size == f.size && dto.sha256 == f.sha256
  }

  function Dtos(files: seq<FileMeta>): (dtos: seq<FileDto>)
    ensures |dtos| == |files| && forall i :: 0 <= i < |dtos| ==>
              dtos[i] == Dto(files[i]) && Describes(dtos[i], files[i])
  {
    if files == [] then [] else [Dto(files[0])] + Dtos(files[1..])
  }

  function StartNonceExchange(cfg: Config, nonce: Bytes, s: Sender): Sender {
    Send(cfg, s.(localNonce := nonce), NonceMessage(cfg.crypto.encodeNonce(nonce))).(phase := WaitNonce)
  }

  function HandleNonceResponse(cfg: Config, s: Sender, msg: Msg): (t: Sender)
    ensures HandshakeOnly(s, t)
  {
    if !msg.Nonce? then Unexpected(s)
    else match cfg.crypto.decodeNonce(msg.nonce)
      case None => s
      case Some(remote) =>
        var final := s.localNonce + remote;
        Send(cfg, s.(remoteNonce := remote, finalNonce := final),
             TokenRequestMessage(cfg.crypto.sign(cfg.signingKey, final))).(phase := WaitToken)
  }

  function SendFileList(cfg: Config, s: Sender): Sender {
    SendBinary(cfg, s, PinSendingMessage(OK, Dtos(cfg.files))).(phase := WaitFileAccept)
  }

  function BeginFileListPhase(cfg: Config, s: Sender): Sender {
    if cfg.requiredPIN.None? then SendFileList(cfg, s)
    else SendBinary(cfg, s, PinSendingMessage(PIN_REQUIRED, [])).(phase := WaitRequiredPIN)
  }

  function Continue(cfg: Config, s: Sender, msg: Msg): Sender {
    if msg == Status(PIN_REQUIRED) then
      var attempt := s.pinAttempts + 1;
      var pin := if cfg.pinProvider.Some? then (cfg.pinProvider.value)(attempt) else cfg.pin;
      Send(cfg, s.(pinAttempts := attempt), PinMessage(pin)).(phase := WaitPin)
    else BeginFileListPhase(cfg, s)
  }

  function HandleTokenResponse(cfg: Config, s: Sender, msg: Msg, j: Json): (t: Sender)
    ensures HandshakeOnly(s, t)
  {
    if msg == Status(TOO_MANY_ATTEMPTS) || msg == Status(INVALID_SIGNATURE) then Fail(s)
    else if msg != Status(OK) && msg != Status(PIN_REQUIRED) then Unexpected(s)
    else if AsString(j.token).None? then Unexpected(s)
    else TakeToken(cfg, s, msg, AsString(j.token).value)
  }

  /** An expected key must verify the token, even an empty one. */
  function TakeToken(cfg: Config, s: Sender, msg: Msg, token: string): Sender {
    var s1 := s.(receiverToken := token);
    if s.receiverKey.Some? && !cfg.crypto.verify(s.receiverKey.value, token, s.finalNonce) then Fail(s1)
    else Continue(cfg, s1, msg)
  }

  function HandleRequiredPIN(cfg: Config, s: Sender, msg: Msg): (t: Sender)
    ensures HandshakeOnly(s, t)
  {
    if !msg.Pin? then Unexpected(s)
    else if cfg.requiredPIN == Some(msg.pin) then SendFileList(cfg, s)
    else
      var s1 := s.(requiredPINAttempts := s.requiredPINAttempts + 1);
      if s1.requiredPINAttempts >= MaxPINAttempts
      then Fail(SendBinary(cfg, s1, PinSendingMessage(TOO_MANY_ATTEMPTS, [])))
      else SendBinary(cfg, s1, PinSendingMessage(PIN_REQUIRED, []))
  }

  function HandlePairRequest(cfg: Config, s: Sender, key: string): (t: Sender)
    ensures HandshakeOnly(s, t)
  {
    if key != "" && (!cfg.crypto.keyParses(key)
                     || (s.receiverToken != "" && !cfg.crypto.verify(key, s.receiverToken, s.finalNonce)))
    then Fail(Send(cfg, s, PairResponseMessage(INVALID_SIGNATURE, "")))
    else if !cfg.acceptPair then Send(cfg, s.(receiverKey := None), PairResponseMessage(PAIR_DECLINED, ""))
    else Send(cfg, s.(receiverKey := if key == "" then s.receiverKey else Some(key)),
              PairResponseMessage(OK, cfg.signingKey))
  }

  function HandleFileAcceptance(cfg: Config, s: Sender, msg: Msg, j: Json): (t: Sender)
    ensures HandshakeOnly(s, t)
  {
    if msg != Status(OK) && msg != Status(DECLINED) && msg != Status(PAIR) then Unexpected(s)
    else if AsTokens(j.files).None? || AsString(j.publicKey).None? then Unexpected(s)
    else if msg == Status(DECLINED) then s.(declined := true)
    else if msg == Status(PAIR) then HandlePairRequest(cfg, s, AsString(j.publicKey).value)
    else
      var tokens := AsTokens(j.files).value;
      s.(accepted := if s.accepted.None? then Some(tokens) else s.accepted, phase := SendingFiles)
  }

  function HandleFileResponse(s: Sender, ack: Ack): Sender {
    var s1 := if s.fileResults.None? then s.(fileResults := Some(ack)) else s.(dropped := s.dropped + 1);
    if ack.success then s1 else s1.(errors := true)
  }

  // ---------- What the handlers promise, whoever the receiver is ----------

  /** What is said is read as it is meant: the codec works and signatures are sound, and
      every message of the sender fits the peer's control buffer. */
  ghost predicate Understood(cfg: Config) {
    && Faithful(cfg.codec) && IdealCrypto(cfg.crypto)
    && Small(cfg.codec, PinSendingMessage(OK, Dtos(cfg.files)))
    && Small(cfg.codec, PinSendingMessage(PIN_REQUIRED, []))
    && Small(cfg.codec, PinSendingMessage(TOO_MANY_ATTEMPTS, []))
  }

  lemma SendSays(cfg: Config, s: Sender, j: Json, msg: Msg)
    requires Faithful(cfg.codec) && ParseRTCMessage(j) == Some(msg)
    ensures Says(cfg.codec, s.outbox, Send(cfg, s, j).outbox, msg)
  {
    TextSays(cfg.codec, s.outbox, j, msg);
    SaysInSays(cfg.codec, s.outbox, Send(cfg, s, j).outbox, msg, j);
  }

  lemma SendBinarySays(cfg: Config, s: Sender, j: Json, msg: Msg)
    requires Faithful(cfg.codec) && Small(cfg.codec, j) && ParseRTCMessage(j) == Some(msg)
    ensures Says(cfg.codec, s.outbox, SendBinary(cfg, s, j).outbox, msg)
  {
    BinarySays(cfg.codec, s.outbox, j, msg);
    SaysInSays(cfg.codec, s.outbox, SendBinary(cfg, s, j).outbox, msg, j);
  }

  /** The nonce the other side reads is the one kept. */
  ghost predicate NonceSaid(cfg: Config, s: Sender, t: Sender) {
    Understood(cfg) && |t.localNonce| == 32 ==>
      exists text :: Says(cfg.codec, s.outbox, t.outbox, Nonce(text))
                     && cfg.crypto.decodeNonce(text) == Some(t.localNonce)
  }

  lemma NonceExchangeSays(cfg: Config, nonce: Bytes, s: Sender)
    ensures NonceSaid(cfg, s, StartNonceExchange(cfg, nonce, s))
    ensures StartNonceExchange(cfg, nonce, s).localNonce == nonce
  {
    if Understood(cfg) && |nonce| == 32 {
      PeerMessagesClassified();
      var text := cfg.crypto.encodeNonce(nonce);
      SendSays(cfg, s.(localNonce := nonce), NonceMessage(text), Nonce(text));
    }
  }

  /** A readable nonce, and nothing else, is answered; the answer is a token that verifies
      under the own key for the sender's nonce followed by the receiver's. */
  ghost predicate NonceAnswered(cfg: Config, s: Sender, t: Sender, msg: Msg) {
    var readable := msg.Nonce? && cfg.crypto.decodeNonce(msg.nonce).Some?;
    && (readable <==> t.outbox != s.outbox)
    && (!readable ==> t == s || t == Unexpected(s))
    && (readable ==> t.phase == WaitToken && t.finalNonce == s.localNonce + cfg.crypto.decodeNonce(msg.nonce).value)
    && (readable && Understood(cfg) ==>
          exists token :: Says(cfg.codec, s.outbox, t.outbox, TokenRequest(token))
                          && cfg.crypto.verify(cfg.signingKey, token, t.finalNonce))
  }

  lemma NonceResponseAnswered(cfg: Config, s: Sender, msg: Msg)
    ensures NonceAnswered(cfg, s, HandleNonceResponse(cfg, s, msg), msg)
  {
    var t := HandleNonceResponse(cfg, s, msg);
    if msg.Nonce? && cfg.crypto.decodeNonce(msg.nonce).Some? {
      assert |t.outbox| == |s.outbox| + 1;
      if Understood(cfg) {
        PeerMessagesClassified();
        var token := cfg.crypto.sign(cfg.signingKey, t.finalNonce);
        SendSays(cfg, s, TokenRequestMessage(token), TokenRequest(token));
      }
    }
  }

  /** An expected receiver has signed the exchange. */
  predicate Verified(cfg: Config, s: Sender) {
    s.receiverKey.Some? ==> cfg.crypto.verify(s.receiverKey.value, s.receiverToken, s.finalNonce)
  }

  /** A positive token response is believed exactly if its token field is absent or text and
      the token verifies under the expected key, if one is expected; an absent token is the
      empty one.  Otherwise nothing is sent, and a token of somebody else ends the session. */
  ghost predicate TokenJudged(cfg: Config, s: Sender, t: Sender, msg: Msg, j: Json) {
    var token := AsString(j.token);
    var positive := (msg == Status(OK) || msg == Status(PIN_REQUIRED)) && token.Some?;
    var refused := msg == Status(TOO_MANY_ATTEMPTS) || msg == Status(INVALID_SIGNATURE);
    && t.finalNonce == s.finalNonce && t.receiverKey == s.receiverKey
    && (positive ==> t.receiverToken == token.value)
    && (t.outbox != s.outbox <==> positive && Verified(cfg, t))
    && (refused || (positive && !Verified(cfg, t)) ==> t.phase == Done && t.errors)
    && (positive && Verified(cfg, t) ==>
          t.phase == if msg == Status(PIN_REQUIRED) then WaitPin
                     else if cfg.requiredPIN.Some? then WaitRequiredPIN else WaitFileAccept)
    && (!positive && !refused ==> t == Unexpected(s))
  }

  lemma FileListPhaseSends(cfg: Config, s: Sender)
    ensures var t := BeginFileListPhase(cfg, s);
            && t == s.(outbox := t.outbox, phase := t.phase) && |t.outbox| > |s.outbox|
            && t.phase == if cfg.requiredPIN.Some? then WaitRequiredPIN else WaitFileAccept
  {
    hide PinSendingMessage, Dtos, Chunks;
  }

  lemma TokenResponseJudged(cfg: Config, s: Sender, msg: Msg, j: Json)
    ensures TokenJudged(cfg, s, HandleTokenResponse(cfg, s, msg, j), msg, j)
  {
    hide PinMessage, HandshakeOnly, BeginFileListPhase;
    if AsString(j.token).Some? {
      FileListPhaseSends(cfg, s.(receiverToken := AsString(j.token).value));
    }
    var t := HandleTokenResponse(cfg, s, msg, j);
    assert msg == Status(PIN_REQUIRED) ==> t.outbox == s.outbox || |t.outbox| == |s.outbox| + 1;
  }

  /** Without an expected key a positive response that carries no token at all is believed,
      and the empty token replaces the one received before. */
  lemma TokenlessBelieved(cfg: Config, s: Sender, status: StatusText)
    requires s.receiverKey.None? && status in {OK, PIN_REQUIRED}
    ensures var j := TokenResponseMessage(status, ""); var t := HandleTokenResponse(cfg, s, Status(status), j);
            j.token.Missing? && t.outbox != s.outbox && t.receiverToken == "" && t.phase != Done
  {
    TokenResponseJudged(cfg, s, Status(status), TokenResponseMessage(status, ""));
    hide HandleTokenResponse;
  }

  /** Only the right PIN gets the file list.  A wrong one is counted and challenged again,
      and the third ends the session. */
  ghost predicate PinJudged(cfg: Config, s: Sender, t: Sender, msg: Msg) {
    if !msg.Pin? then t == Unexpected(s)
    else if cfg.requiredPIN == Some(msg.pin) then
      && t.requiredPINAttempts == s.requiredPINAttempts && t.phase == WaitFileAccept
      && (Understood(cfg) ==> Says(cfg.codec, s.outbox, t.outbox,
                                   if cfg.files == [] then Status(OK) else FileList(Dtos(cfg.files))))
    else
      && t.requiredPINAttempts == s.requiredPINAttempts + 1
      && t.phase == (if t.requiredPINAttempts >= MaxPINAttempts then Done else s.phase)
      && (Understood(cfg) ==> Says(cfg.codec, s.outbox, t.outbox,
                                   Status(if t.requiredPINAttempts >= MaxPINAttempts then TOO_MANY_ATTEMPTS
                                          else PIN_REQUIRED)))
  }

  lemma RequiredPINJudged(cfg: Config, s: Sender, msg: Msg)
    ensures PinJudged(cfg, s, HandleRequiredPIN(cfg, s, msg), msg)
  {
    if msg.Pin? && Understood(cfg) {
      PeerMessagesClassified();
      if cfg.requiredPIN == Some(msg.pin) {
        SendBinarySays(cfg, s, PinSendingMessage(OK, Dtos(cfg.files)),
                       if cfg.files == [] then Status(OK) else FileList(Dtos(cfg.files)));
      } else {
        var status := if s.requiredPINAttempts + 1 >= MaxPINAttempts then TOO_MANY_ATTEMPTS else PIN_REQUIRED;
        SendBinarySays(cfg, s.(requiredPINAttempts := s.requiredPINAttempts + 1), PinSendingMessage(status, []),
                       Status(status));
      }
      hide PinSendingMessage, Small, Says, Faithful, IdealCrypto;
    }
  }

  /** A key made the last token received; an empty token is nobody's. */
  predicate Signed(cfg: Config, s: Sender, key: string) {
    s.receiverToken != "" && cfg.crypto.verify(key, s.receiverToken, s.finalNonce)
  }

  /** A key that does not parse, or that did not sign the last token received, ends the
      session and is never kept.  Any other is kept if the user agrees: it signed that token
      exactly if there was one, for the empty token is not checked. */
  ghost predicate PairJudged(cfg: Config, s: Sender, t: Sender, key: string) {
    var bad := key != "" && !(cfg.crypto.keyParses(key) && (s.receiverToken == "" || Signed(cfg, s, key)));
    && t.receiverToken == s.receiverToken && t.finalNonce == s.finalNonce
    && (bad ==> t.phase == Done && t.errors && t.receiverKey == s.receiverKey)
    && (!bad ==> t.phase == s.phase && t.errors == s.errors)
    && (!bad && !cfg.acceptPair ==> t.receiverKey == None)
    && (!bad && cfg.acceptPair && key == "" ==> t.receiverKey == s.receiverKey)
    && (!bad && cfg.acceptPair && key != "" ==>
          t.receiverKey == Some(key) && (Signed(cfg, t, key) <==> t.receiverToken != ""))
    && (Faithful(cfg.codec) && cfg.signingKey != "" ==>
          Says(cfg.codec, s.outbox, t.outbox,
               if bad then Status(INVALID_SIGNATURE) else if !cfg.acceptPair then Status(PAIR_DECLINED)
               else PairResponse(OK, cfg.signingKey)))
  }

  lemma PairRequestJudged(cfg: Config, s: Sender, key: string)
    ensures PairJudged(cfg, s, HandlePairRequest(cfg, s, key), key)
  {
    if Faithful(cfg.codec) && cfg.signingKey != "" {
      PeerMessagesClassified();
      SendSays(cfg, s, PairResponseMessage(INVALID_SIGNATURE, ""), Status(INVALID_SIGNATURE));
      SendSays(cfg, s, PairResponseMessage(PAIR_DECLINED, ""), Status(PAIR_DECLINED));
      SendSays(cfg, s, PairResponseMessage(OK, cfg.signingKey), PairResponse(OK, cfg.signingKey));
    }
    hide PairResponseMessage, Says, ParseRTCMessage;
  }

  /** The files are sent exactly after a well-formed OK, with the tokens of the first one. */
  ghost predicate AcceptanceJudged(cfg: Config, s: Sender, t: Sender, msg: Msg, j: Json) {
    var readable := AsTokens(j.files).Some? && AsString(j.publicKey).Some?;
    && (s.phase != SendingFiles ==> (t.phase == SendingFiles <==> msg == Status(OK) && readable))
    && (msg == Status(OK) && readable ==>
          t.accepted == if s.accepted.Some? then s.accepted else AsTokens(j.files))
    && (msg != Status(OK) || !readable ==> t.accepted == s.accepted)
    && (t.declined <==> s.declined || (msg == Status(DECLINED) && readable))
    && (t.outbox != s.outbox ==> msg == Status(PAIR))
  }

  lemma FileAcceptanceJudged(cfg: Config, s: Sender, msg: Msg, j: Json)
    ensures AcceptanceJudged(cfg, s, HandleFileAcceptance(cfg, s, msg, j), msg, j)
  {
    hide HandlePairRequest, HandshakeOnly;
    if AsString(j.publicKey).Some? {
      PairChanges(cfg, s, AsString(j.publicKey).value);
    }
  }

  /** The fields a pair request leaves alone. */
  lemma PairChanges(cfg: Config, s: Sender, key: string)
    ensures var t := HandlePairRequest(cfg, s, key);
            && t == s.(receiverKey := t.receiverKey, phase := t.phase, errors := t.errors, outbox := t.outbox)
            && (t.phase == s.phase || t.phase == Done)
  {
    hide PairResponseMessage, HandshakeOnly;
  }

  /** Acknowledgements that arrive before the slot is read. */
  function HandleFileResponses(s: Sender, acks: seq<Ack>): Sender
    decreases |acks|
  {
    if acks == [] then s else HandleFileResponses(HandleFileResponse(s, acks[0]), acks[1..])
  }

  /** The slot keeps the first one, every later one is lost, and each failure is noticed. */
  lemma {:induction false} SlotKeepsFirst(s: Sender, acks: seq<Ack>)
    ensures var t := HandleFileResponses(s, acks);
            && t.fileResults == (if s.fileResults.Some? || acks == [] then s.fileResults else Some(acks[0]))
            && t.dropped == s.dropped + |acks| - (if s.fileResults.Some? || acks == [] then 0 else 1)
            && (t.errors <==> s.errors || exists i :: 0 <= i < |acks| && !acks[i].success)
            && t == s.(fileResults := t.fileResults, dropped := t.dropped, errors := t.errors)
    decreases |acks|
  {
    if acks != [] {
      SlotKeepsFirst(HandleFileResponse(s, acks[0]), acks[1..]);
    }
  }

  function HandleMessage(cfg: Config, s: Sender, data: Bytes): Sender {
    match cfg.codec.decode(data)
    case None => Unexpected(s)
    case Some(j) =>
      match ParseRTCMessage(j)
      case None => Unexpected(s)
      case Some(msg) =>
        if msg.FileResponse? then HandleFileResponse(s, Ack(msg.id, msg.success, msg.error))
        else match s.phase
          case WaitNonce => HandleNonceResponse(cfg, s, msg)
          case WaitToken => HandleTokenResponse(cfg, s, msg, j)
          case WaitPin => HandleTokenResponse(cfg, s, msg, j)
          case WaitRequiredPIN => HandleRequiredPIN(cfg, s, msg)
          case WaitFileAccept => HandleFileAcceptance(cfg, s, msg, j)
          case _ => s
  }

  /** handleDataMessage */
  function HandleFrame(cfg: Config, s: Sender, frame: Frame): Sender {
    var (buffer, message) := ControlStep(s.controlBuffer, frame);
    var s1 := s.(controlBuffer := buffer);
    if message.None? then s1 else HandleMessage(cfg, s1, message.value)
  }

  // ---------- Send and SendFiles ----------

  const FileID: FileMeta -> string := (file: FileMeta) => file.id

  /** The accepted IDs that have a token and a local file, in order. */
  function SendQueue(files: seq<FileMeta>, tokens: map<string, string>, acceptedIDs: seq<string>): seq<Sendable> {
    if acceptedIDs == [] then []
    else
      var n := |acceptedIDs| - 1;
      var id := acceptedIDs[n];
      var queue := SendQueue(files, tokens, acceptedIDs[..n]);
      if id !in tokens || First(FileID, files, id).None? then queue
      else queue + [Sendable(id, tokens[id], First(FileID, files, id).value)]
  }

  /** One step of the thread.  `order` is the order the token map is iterated in, `size`
      the length of the next frame, which a short read can make shorter than a chunk. */
  datatype Choice = Accept(order: seq<string>) | Go(size: nat) | GiveUp

  ghost predicate IsOrder(order: seq<string>, tokens: map<string, string>) {
    && (forall id :: id in order <==> id in tokens)
    && (forall i, j :: 0 <= i < j < |order| ==> order[i] != order[j])
  }

  function Header(cfg: Config, item: Sendable): Frame { SendJSON(cfg.codec, FileHeaderMessage(item.id, item.token)) }

  /** What ends file `index`: the next header, or the final delimiter. */
  function Boundary(cfg: Config, queue: seq<Sendable>, index: nat): Frame {
    if index + 1 < |queue| then Header(cfg, queue[index + 1]) else Delimiter
  }

  ghost predicate CanGo(s: Sender, c: Choice) {
    && !s.failed
    && match c
       case Accept(order) => s.job == AwaitingAcceptance && s.accepted.Some? && IsOrder(order, s.accepted.value)
       case GiveUp => !s.job.Finished?
       case Go(size) =>
         match s.job
         case Starting(queue) => true
         case SendingFrames(queue, i, offset) =>
           i < |queue| && offset <= |queue[i].file.content|
           && (offset < |queue[i].file.content| ==> 1 <= size <= ChunkSize && offset + size <= |queue[i].file.content|)
         case AwaitingAck(queue, i) => i < |queue| && s.fileResults.Some?
         case Flushing(_) => true
         case _ => false
  }

  function Advance(cfg: Config, s: Sender, c: Choice): Sender
    requires CanGo(s, c)
  {
    match c
    case Accept(order) =>
      s.(accepted := None, fileTokens := s.accepted.value,
         job := Starting(SendQueue(cfg.files, s.accepted.value, order)))
    case GiveUp => s.(failed := true)
    case Go(size) =>
      match s.job
      case Starting(queue) =>
        if queue == [] then s.(outbox := s.outbox + [Delimiter], job := Flushing(queue))
        else s.(outbox := s.outbox + [Header(cfg, queue[0])], job := SendingFrames(queue, 0, 0))
      case SendingFrames(queue, i, offset) =>
        var content := queue[i].file.content;
        if offset < |content|
        then s.(outbox := s.outbox + [BinaryFrame(content[offset..offset + size])],
                job := SendingFrames(queue, i, offset + size))
        else s.(outbox := s.outbox + [Boundary(cfg, queue, i)], job := AwaitingAck(queue, i))
      case AwaitingAck(queue, i) =>
        var ack := s.fileResults.value;
        var s1 := s.(fileResults := None);
        if ack.id != queue[i].id || !ack.success then s1.(failed := true)
        else if i + 1 < |queue| then s1.(job := SendingFrames(queue, i + 1, 0))
        else s1.(job := Flushing(queue))
      case Flushing(queue) => s.(phase := Done, job := Finished(queue))
  }

  function Fresh(receiverKey: Option<string>): Sender {
    Sender(Init, [], [], [], receiverKey, "", 0, 0, [], [], None, false, false, None, AwaitingAcceptance, false,
           map[], 0, 0)
  }
}
