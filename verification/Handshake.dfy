/** The handshake of two honest peers: nonces, tokens, PINs in either direction, the file
    list and pairing, up to the agreed token map. */
module Handshake {
  import opened Wrappers
  import opened RtcMessages
  import opened DataChannel
  import opened FileIndex
  import opened Limits
  import opened Transfer
  import S = RtcSenderSpec
  import R = RtcReceiverSpec
  import RI = ReceiverInvariant

  // ---------- Honest peers ----------

  function OfferedFiles(c: Setup): seq<FileDto> { S.Dtos(c.sc.files) }

  function SelectedIDs(c: Setup): seq<string> {
    if c.rc.selectFiles.Some? then (c.rc.selectFiles.value)(OfferedFiles(c)) else R.AllIDs(OfferedFiles(c))
  }

  function OfferTokens(c: Setup, env: R.Env): map<string, string> {
    R.PrepareTokens(OfferedFiles(c), SelectedIDs(c), env.fileToken)
  }

  ghost predicate HonestPeers(c: Setup) {
    && Faithful(c.sc.codec) && c.rc.codec == c.sc.codec
    && IdealCrypto(c.sc.crypto) && c.rc.crypto == c.sc.crypto
    && c.sc.signingKey != "" && c.sc.crypto.keyParses(c.sc.signingKey)
    && c.rc.signingKey != "" && c.sc.crypto.keyParses(c.rc.signingKey)
    && (forall i :: 0 <= i < |c.sc.files| ==> c.sc.files[i].id != "")
    && Small(c.sc.codec, PinSendingMessage(OK, OfferedFiles(c)))
    && Small(c.sc.codec, PinSendingMessage(PIN_REQUIRED, []))
    && Small(c.sc.codec, PinSendingMessage(TOO_MANY_ATTEMPTS, []))
    && Small(c.sc.codec, FileListResponseMessage(DECLINED, map[], ""))
    && Small(c.sc.codec, FileListResponseMessage(PAIR, map[], c.rc.signingKey))
  }

  /** Fresh nonces have 32 bytes, fresh tokens are not empty, the token map fits a control
      message, and the receiver is not closed from outside. */
  ghost predicate HonestStep(c: Setup, step: Step) {
    match step
    case StartNonce(nonce) => |nonce| == 32
    case ToReceiver(env) =>
      && |env.nonce| == 32 && (forall n :: env.fileToken(n) != "")
      && Small(c.sc.codec, FileListResponseMessage(OK, OfferTokens(c, env), ""))
    case ReceiverEvent(_, _) => false
    case _ => true
  }

  /** The PIN the sender gives at its k-th attempt, and the one the receiver gives. */
  function SenderGives(c: Setup, k: nat): string {
    if c.sc.pinProvider.Some? then (c.sc.pinProvider.value)(k) else c.sc.pin
  }

  function ReceiverGives(c: Setup, k: nat): string {
    if c.rc.pinProvider.Some? then (c.rc.pinProvider.value)(k) else c.rc.pin
  }

  // ---------- What is on the wire ----------

  datatype Talk = Quiet | ToR(j: Json) | ToS(j: Json)

  /** The channel, with what the other side has buffered, carries exactly one message. */
  predicate Carries(codec: Codec, channel: seq<Frame>, buffer: Bytes, j: Json) {
    || (channel == [SendJSON(codec, j)] && buffer == [])
    || (channel != [] && channel[|channel| - 1] == Delimiter && ChunkFrames(channel[..|channel| - 1])
        && buffer + Concat(channel[..|channel| - 1]) == codec.encode(j) && Small(codec, j))
  }

  ghost predicate Wires(c: Setup, y: System, talk: Talk) {
    match talk
    case Quiet => y.s.outbox == [] && y.r.outbox == [] && y.s.controlBuffer == [] && y.r.controlBuffer == []
    case ToR(j) => Carries(c.sc.codec, y.s.outbox, y.r.controlBuffer, j) && y.r.outbox == [] && y.s.controlBuffer == []
    case ToS(j) => Carries(c.sc.codec, y.r.outbox, y.s.controlBuffer, j) && y.s.outbox == [] && y.r.controlBuffer == []
  }

  /** Who the message on the wire is for. */
  datatype Turn = Nobody | Receiver | Sender

  function TurnOf(talk: Talk): Turn {
    match talk
    case Quiet => Nobody
    case ToR(_) => Receiver
    case ToS(_) => Sender
  }

  function TurnAt(y: System): Turn {
    if y.s.outbox != [] then Receiver else if y.r.outbox != [] then Sender else Nobody
  }

  lemma CarryStep(codec: Codec, channel: seq<Frame>, buffer: Bytes, j: Json)
    requires Faithful(codec) && Carries(codec, channel, buffer, j)
    ensures channel != []
    ensures var (next, message) := ControlStep(buffer, channel[0]);
            || (message == None && Carries(codec, channel[1..], next, j))
            || (message == Some(codec.encode(j)) && next == [] && channel[1..] == [])
  {
    assert codec.encode(j)[0] == OpenBrace;
    if channel != [SendJSON(codec, j)] {
      var chunks := channel[..|channel| - 1];
      if chunks == [] {
        assert buffer + Concat(chunks) == buffer;
      } else {
        assert channel[0] == chunks[0];
        assert channel[1..][..|channel| - 2] == chunks[1..];
        assert buffer + (chunks[0].data + Concat(chunks[1..])) == (buffer + chunks[0].data) + Concat(chunks[1..]);
      }
    }
  }

  lemma SentCarries(codec: Codec, j: Json)
    ensures Carries(codec, [SendJSON(codec, j)], [], j)
    ensures Small(codec, j) ==> Carries(codec, Chunks(codec.encode(j)) + [Delimiter], [], j)
  {
    ChunksConcat(codec.encode(j));
    var channel := Chunks(codec.encode(j)) + [Delimiter];
    assert channel[..|channel| - 1] == Chunks(codec.encode(j));
    assert [] + Concat(Chunks(codec.encode(j))) == codec.encode(j);
  }

  // ---------- Where the conversation stands ----------

  ghost predicate Calm(s: S.Sender, r: R.Receiver) {
    && s.unexpected == 0 && s.dropped == 0 && s.fileResults.None? && s.job == S.AwaitingAcceptance
    && (s.accepted.Some? <==> s.phase == S.SendingFiles)
    && r.unexpected == 0 && !r.accepting && (r.connected <==> r.phase != R.Done)
    && r.pinAttempts <= MaxPINAttempts && s.requiredPINAttempts <= MaxPINAttempts
    && (r.phase != R.Done ==> r.pinAttempts < MaxPINAttempts)
    && (s.phase != S.Done ==> s.requiredPINAttempts < MaxPINAttempts)
  }

  /** Both sides have combined the same nonces, and the receiver knows the sender's token. */
  predicate SameNonce(s: S.Sender, r: R.Receiver) {
    s.finalNonce == r.finalNonce && r.finalNonce == s.localNonce + r.localNonce
  }

  ghost predicate TokensKnown(c: Setup, s: S.Sender, r: R.Receiver) {
    && SameNonce(s, r) && r.senderToken == c.sc.crypto.sign(c.sc.signingKey, s.finalNonce)
    && (s.receiverToken == "" || s.receiverToken == c.sc.crypto.sign(c.rc.signingKey, s.finalNonce))
  }

  ghost predicate Offered(c: Setup, r: R.Receiver) {
    r.files == OfferedFiles(c) && r.acceptedIDs == SelectedIDs(c)
  }

  /** The receiver wants the file and can store it. */
  predicate Wanted(c: Setup, id: string) { id in SelectedIDs(c) && R.Usable(OfferedFiles(c), id) }

  /** Exactly the wanted files have a token. */
  ghost predicate Agreed(c: Setup, r: R.Receiver) {
    && r.files == OfferedFiles(c)
    && (forall id :: id in r.fileTokens <==> Wanted(c, id))
    && (forall id :: id in r.fileTokens ==> r.fileTokens[id] != "")
  }

  // One predicate per phase of the sender, one clause per point of the conversation.

  ghost predicate AtNonce(c: Setup, s: S.Sender, r: R.Receiver, talk: Talk) {
    && s.receiverKey.None? && s.receiverToken == "" && r.fileTokens == map[] && |s.localNonce| == 32
    && ((r.phase == R.WaitNonce && talk == ToR(NonceMessage(c.sc.crypto.encodeNonce(s.localNonce))))
        || (r.phase == R.WaitToken && talk == ToS(NonceMessage(c.sc.crypto.encodeNonce(r.localNonce)))
            && |r.localNonce| == 32 && r.finalNonce == s.localNonce + r.localNonce))
  }

  ghost predicate AtToken(c: Setup, s: S.Sender, r: R.Receiver, talk: Talk) {
    && s.receiverKey.None? && r.fileTokens == map[] && SameNonce(s, r)
    && ((r.phase == R.WaitToken && s.receiverToken == ""
         && talk == ToR(TokenRequestMessage(c.sc.crypto.sign(c.sc.signingKey, s.finalNonce))))
        || (TokensKnown(c, s, r)
            && var token := c.sc.crypto.sign(c.rc.signingKey, r.finalNonce);
               || (r.phase == R.Done && talk == ToS(TokenResponseMessage(INVALID_SIGNATURE, "")))
               || (r.phase == R.WaitPin && talk == ToS(TokenResponseMessage(PIN_REQUIRED, token)))
               || (r.phase == R.WaitFileList && talk == ToS(TokenResponseMessage(OK, token)))))
  }

  ghost predicate AtPin(c: Setup, s: S.Sender, r: R.Receiver, talk: Talk) {
    && s.receiverKey.None? && r.fileTokens == map[] && TokensKnown(c, s, r)
    && ((r.phase == R.WaitPin && talk == ToR(PinMessage(SenderGives(c, s.pinAttempts))))
        || (r.phase == R.WaitPin && talk == ToS(PinReceivingMessage(PIN_REQUIRED)))
        || (r.phase == R.WaitFileList && talk == ToS(PinReceivingMessage(OK)))
        || (r.phase == R.Done && talk == ToS(PinReceivingMessage(TOO_MANY_ATTEMPTS))))
  }

  ghost predicate AtRequiredPin(c: Setup, s: S.Sender, r: R.Receiver, talk: Talk) {
    && r.phase == R.WaitFileList && r.fileTokens == map[] && TokensKnown(c, s, r)
    && (talk == ToR(PinSendingMessage(PIN_REQUIRED, []))
        || talk == ToS(PinMessage(ReceiverGives(c, r.providedPINAttempts))))
  }

  ghost predicate AtOffer(c: Setup, s: S.Sender, r: R.Receiver, talk: Talk) {
    && r.phase == R.WaitFileList && r.fileTokens == map[]
    && (talk == ToR(PinSendingMessage(OK, OfferedFiles(c)))
        || talk == ToS(FileListResponseMessage(DECLINED, map[], ""))
        || (talk == Quiet && s.declined))
  }

  ghost predicate AtPair(c: Setup, r: R.Receiver, talk: Talk) {
    && r.phase == R.WaitPairResponse && r.fileTokens == map[] && Offered(c, r)
    && (talk == ToS(FileListResponseMessage(PAIR, map[], c.rc.signingKey))
        || talk == ToR(if c.sc.acceptPair then PairResponseMessage(OK, c.sc.signingKey)
                       else PairResponseMessage(PAIR_DECLINED, "")))
  }

  ghost predicate AtAccepted(c: Setup, r: R.Receiver, talk: Talk) {
    r.phase == R.WaitFiles && Agreed(c, r) && talk == ToS(FileListResponseMessage(OK, r.fileTokens, ""))
  }

  ghost predicate At(c: Setup, s: S.Sender, r: R.Receiver, talk: Talk) {
    && Calm(s, r)
    && match s.phase
       case Init =>
         r.phase == R.WaitNonce && talk == Quiet
         && s.receiverKey.None? && s.receiverToken == "" && r.fileTokens == map[]
       case WaitNonce => AtNonce(c, s, r, talk)
       case WaitToken => AtToken(c, s, r, talk)
       case WaitPin => AtPin(c, s, r, talk)
       case WaitRequiredPIN => AtRequiredPin(c, s, r, talk)
       case WaitFileAccept =>
         && TokensKnown(c, s, r)
         && (AtOffer(c, s, r, talk) || AtPair(c, r, talk) || AtAccepted(c, r, talk)
             || (r.phase == R.Done && talk == Quiet))
       case SendingFiles =>
         r.phase == R.WaitFiles && talk == Quiet && Agreed(c, r) && SameNonce(s, r) && s.accepted == Some(r.fileTokens)
       case Done =>
         || (talk == Quiet && r.phase == R.Done)
         || (r.phase == R.WaitFileList && talk == ToR(PinSendingMessage(TOO_MANY_ATTEMPTS, [])))
  }

  // ---------- How many messages can still come ----------

  /** Wrong PINs that will be answered with another challenge. */
  function PinsLeft(judged: nat): nat { if judged < MaxPINAttempts then MaxPINAttempts - 1 - judged else 0 }

  function TokenRank(r: R.Receiver): nat {
    match r.phase
    case WaitPin => 13 + 2 * PinsLeft(r.pinAttempts)
    case WaitFileList => 11
    case _ => 1
  }

  /** A bound on the messages still to be handled, from the point of the conversation. */
  function Rank(s: S.Sender, r: R.Receiver, turn: Turn): nat {
    match s.phase
    case Init => 21
    case WaitNonce => if turn.Receiver? then 20 else 19
    case WaitToken => if turn.Receiver? then 18 else TokenRank(r)
    case WaitPin => if turn.Receiver? then 12 + 2 * PinsLeft(r.pinAttempts) else TokenRank(r)
    case WaitRequiredPIN => (if turn.Receiver? then 6 else 5) + 2 * PinsLeft(s.requiredPINAttempts)
    case WaitFileAccept => AcceptRank(r, turn)
    case SendingFiles => 0
    case Done => if turn.Nobody? then 0 else 1
  }

  function AcceptRank(r: R.Receiver, turn: Turn): nat {
    match r.phase
    case WaitFileList => if turn.Receiver? then 4 else if turn.Sender? then 1 else 0
    case WaitPairResponse => if turn.Sender? then 3 else 2
    case WaitFiles => 1
    case _ => 0
  }

  /** More frames than any one control message has. */
  const FramesPerMessage := MaxControlMessageBytes + 2

  function Measure(y: System): nat {
    FramesPerMessage * Rank(y.s, y.r, TurnAt(y)) + |y.s.outbox| + |y.r.outbox| + if y.s.failed then 0 else 1
  }

  function Frames(y: System): nat { |y.s.outbox| + |y.r.outbox| }

  /** A frame of a message is taken, or a whole message is handled and at most one sent. */
  ghost predicate Moves(y: System, z: System) {
    && z.s.failed == y.s.failed
    && var before, after := Rank(y.s, y.r, TurnAt(y)), Rank(z.s, z.r, TurnAt(z));
       (after == before && Frames(z) < Frames(y)) || (after < before && Frames(z) < FramesPerMessage)
  }

  lemma MovesLower(y: System, z: System)
    requires Moves(y, z)
    ensures Measure(z) < Measure(y)
  {
    var before, after := Rank(y.s, y.r, TurnAt(y)), Rank(z.s, z.r, TurnAt(z));
    hide Rank, TurnAt;
    if after < before {
      assert FramesPerMessage * before >= FramesPerMessage * after + FramesPerMessage;
    }
  }

  lemma WiresTurn(c: Setup, y: System, talk: Talk)
    requires Wires(c, y, talk)
    ensures TurnAt(y) == TurnOf(talk)
  {
  }

  lemma {:induction false} FramesBounded(frames: seq<Frame>)
    requires ChunkFrames(frames)
    ensures |frames| <= |Concat(frames)|
  {
    if frames != [] {
      FramesBounded(frames[1..]);
    }
  }

  lemma SentBounded(c: Setup, outbox: seq<Frame>, reply: Option<Json>)
    requires Sent(c, outbox, reply)
    ensures |outbox| < FramesPerMessage
  {
    if reply.Some? && outbox != [SendJSON(c.sc.codec, reply.value)] {
      FramesBounded(outbox[..|outbox| - 1]);
      assert [] + Concat(outbox[..|outbox| - 1]) == Concat(outbox[..|outbox| - 1]);
    }
  }

  ghost predicate Inv(c: Setup, y: System) {
    HonestPeers(c) && RI.Inv(y.r) && exists talk :: Wires(c, y, talk) && At(c, y.s, y.r, talk)
  }

  // ---------- The receiver handles a whole message ----------

  /** What a peer has just put on its empty channel. */
  ghost predicate Sent(c: Setup, outbox: seq<Frame>, reply: Option<Json>) {
    match reply
    case None => outbox == []
    case Some(j) => Carries(c.sc.codec, outbox, [], j)
  }

  function Reply(toReceiver: bool, j: Option<Json>): Talk {
    if j.None? then Quiet else if toReceiver then ToR(j.value) else ToS(j.value)
  }

  predicate Cleared(r: R.Receiver) { r.outbox == [] && r.controlBuffer == [] && r.current.None? }

  lemma NonceKnown(c: Setup, s: S.Sender, r: R.Receiver, j: Json)
    requires At(c, s, r, ToR(j)) && r.phase == R.WaitNonce
    ensures j == NonceMessage(c.sc.crypto.encodeNonce(s.localNonce)) && |s.localNonce| == 32 && s.phase == S.WaitNonce
    ensures Calm(s, r) && s.receiverKey.None? && s.receiverToken == "" && r.fileTokens == map[] && r.connected
  {
    hide NonceMessage, TokenRequestMessage, TokenResponseMessage, PinMessage, PinReceivingMessage, PinSendingMessage,
         FileListResponseMessage, PairResponseMessage, TokensKnown, Agreed, Offered;
  }

  lemma NonceHandled(c: Setup, env: R.Env, r: R.Receiver, text: string)
    requires Faithful(c.rc.codec) && text != "" && r.current.None? && r.phase == R.WaitNonce
    ensures R.HandleMessage(c.rc, env, r, c.rc.codec.encode(NonceMessage(text)))
            == R.HandleNonce(c.rc, env, r, Nonce(text))
  {
    hide R.HandleToken, R.HandlePin, R.HandleFileList, R.HandlePairResponse, R.HandleFileHeader, R.HandleBinaryData,
         R.HandshakeOnly, R.HandleNonce;
    PeerMessagesClassified();
    assert Classify(c.rc.codec, c.rc.codec.encode(NonceMessage(text))) == Some((Nonce(text), NonceMessage(text)));
  }

  lemma NonceText(c: Setup, nonce: Bytes)
    requires HonestPeers(c) && |nonce| == 32
    ensures Faithful(c.rc.codec) && c.rc.codec == c.sc.codec && c.rc.crypto == c.sc.crypto
    ensures var text := c.sc.crypto.encodeNonce(nonce); text != "" && c.sc.crypto.decodeNonce(text) == Some(nonce)
  {
    hide Faithful, Small;
  }

  /** The receiver's nonce is on its way. */
  lemma NonceAnswered(c: Setup, s: S.Sender, r: R.Receiver, t: R.Receiver, nonce: Bytes)
    requires Calm(s, r) && s.phase == S.WaitNonce && s.receiverKey.None? && s.receiverToken == ""
    requires |s.localNonce| == 32 && |nonce| == 32 && r.fileTokens == map[] && r.connected && r.phase == R.WaitNonce
    requires t == r.(remoteNonce := s.localNonce, localNonce := nonce, finalNonce := s.localNonce + nonce,
                     outbox := t.outbox, phase := R.WaitToken)
    ensures At(c, s, t, ToS(NonceMessage(c.sc.crypto.encodeNonce(nonce)))) && Rank(s, t, Sender) < Rank(s, r, Receiver)
  {
    hide NonceMessage, AtToken, AtPin, AtRequiredPin, AtOffer, AtPair, AtAccepted, TokensKnown;
  }

  lemma RNonce(c: Setup, env: R.Env, s: S.Sender, r: R.Receiver, j: Json) returns (reply: Option<Json>)
    requires HonestPeers(c) && HonestStep(c, ToReceiver(env)) && At(c, s, r, ToR(j)) && Cleared(r)
    requires r.phase == R.WaitNonce
    ensures var t := R.HandleMessage(c.rc, env, r, c.rc.codec.encode(j));
            && At(c, s, t, Reply(false, reply)) && Sent(c, t.outbox, reply)
            && Rank(s, t, TurnOf(Reply(false, reply))) < Rank(s, r, Receiver)
  {
    hide R.HandleMessage, NonceMessage, R.HandshakeOnly, HonestPeers, At, Calm, Rank, Small;
    NonceKnown(c, s, r, j);
    NonceText(c, s.localNonce);
    NonceText(c, env.nonce);
    NonceHandled(c, env, r, c.sc.crypto.encodeNonce(s.localNonce));
    reply := Some(NonceMessage(c.sc.crypto.encodeNonce(env.nonce)));
    SentCarries(c.sc.codec, reply.value);
    var t := R.HandleNonce(c.rc, env, r, Nonce(c.sc.crypto.encodeNonce(s.localNonce)));
    assert t.outbox == [SendJSON(c.sc.codec, reply.value)];
    NonceAnswered(c, s, r, t, env.nonce);
  }

  /** What is known when a token request is under way. */
  lemma TokenRequestKnown(c: Setup, s: S.Sender, r: R.Receiver, j: Json)
    requires At(c, s, r, ToR(j)) && r.phase == R.WaitToken
    ensures j == TokenRequestMessage(c.sc.crypto.sign(c.sc.signingKey, s.finalNonce))
    ensures Calm(s, r) && s.phase == S.WaitToken && s.receiverKey.None? && s.receiverToken == ""
    ensures r.fileTokens == map[]
    ensures SameNonce(s, r) && r.connected
  {
    hide NonceMessage, TokenResponseMessage, PinMessage, PinReceivingMessage, PinSendingMessage,
         FileListResponseMessage, PairResponseMessage, TokenRequestMessage, TokensKnown, Agreed, Offered;
  }

  lemma TokenRequestHandled(c: Setup, env: R.Env, r: R.Receiver, token: string)
    requires Faithful(c.rc.codec) && token != "" && r.current.None? && r.phase == R.WaitToken
    ensures R.HandleMessage(c.rc, env, r, c.rc.codec.encode(TokenRequestMessage(token)))
            == R.HandleToken(c.rc, r, TokenRequest(token))
  {
    hide R.HandleNonce, R.HandlePin, R.HandleFileList, R.HandlePairResponse, R.HandleFileHeader, R.HandleBinaryData,
         R.HandshakeOnly, R.HandleToken;
    PeerMessagesClassified();
    var j := TokenRequestMessage(token);
    assert Classify(c.rc.codec, c.rc.codec.encode(j)) == Some((TokenRequest(token), j));
  }

  /** A bad token: the receiver says so and is done. */
  lemma TokenRefused(c: Setup, s: S.Sender, r: R.Receiver)
    requires Calm(s, r) && s.phase == S.WaitToken && s.accepted.None? && s.receiverKey.None? && r.fileTokens == map[]
    requires TokensKnown(c, s, r) && r.connected && Cleared(r) && r.phase == R.WaitToken && c.rc.codec == c.sc.codec
    ensures var t := R.RefuseToken(c.rc, r); var j := TokenResponseMessage(INVALID_SIGNATURE, "");
            At(c, s, t, ToS(j)) && t.outbox == [SendJSON(c.sc.codec, j)] && Rank(s, t, Sender) < Rank(s, r, Receiver)
  {
    hide TokenResponseMessage;
    TokensIgnore(c, s, r, R.RefuseToken(c.rc, r));
    assert SameNonce(s, R.RefuseToken(c.rc, r));
    hide TokensKnown;
  }

  lemma TokenAnswered(c: Setup, s: S.Sender, r: R.Receiver)
    requires Calm(s, r) && s.phase == S.WaitToken && s.accepted.None? && s.receiverKey.None? && r.fileTokens == map[]
    requires TokensKnown(c, s, r) && r.connected && Cleared(r) && r.phase == R.WaitToken
    requires c.rc.codec == c.sc.codec && c.rc.crypto == c.sc.crypto
    ensures var t := R.AnswerToken(c.rc, r);
            var j := TokenResponseMessage(if c.rc.pin != "" then PIN_REQUIRED else OK,
                                          c.rc.crypto.sign(c.rc.signingKey, r.finalNonce));
            At(c, s, t, ToS(j)) && t.outbox == [SendJSON(c.sc.codec, j)] && Rank(s, t, Sender) < Rank(s, r, Receiver)
  {
    hide TokenResponseMessage;
    TokensIgnore(c, s, r, R.AnswerToken(c.rc, r));
    assert SameNonce(s, R.AnswerToken(c.rc, r));
    hide TokensKnown;
  }

  /** What the receiver makes of the token, and which of the two answers follows. */
  lemma TokenDecided(c: Setup, env: R.Env, s: S.Sender, r: R.Receiver, j: Json) returns (bad: bool, t: R.Receiver)
    requires HonestPeers(c) && At(c, s, r, ToR(j)) && Cleared(r) && r.phase == R.WaitToken
    ensures t.phase == R.WaitToken && Cleared(t) && t.connected && t.fileTokens == map[]
    ensures s.phase == S.WaitToken && s.accepted.None? && s.receiverKey.None?
    ensures Calm(s, t) && TokensKnown(c, s, t)
    ensures R.HandleMessage(c.rc, env, r, c.rc.codec.encode(j))
            == if bad then R.RefuseToken(c.rc, t) else R.AnswerToken(c.rc, t)
  {
    hide R.HandleMessage, At, R.FindTrusted, R.RefuseToken, R.AnswerToken, R.HandshakeOnly;
    TokenRequestKnown(c, s, r, j);
    var token := c.sc.crypto.sign(c.sc.signingKey, s.finalNonce);
    TokenRequestHandled(c, env, r, token);
    var known := if r.senderKey.None? && c.rc.requirePairing
                 then R.FindTrusted(c.rc, c.rc.trusted, token, r.finalNonce) else r.senderKey;
    t := r.(senderToken := token, senderKey := known);
    bad := known.Some? && !c.rc.crypto.verify(known.value, token, r.finalNonce);
    assert R.HandleToken(c.rc, r, TokenRequest(token)) == if bad then R.RefuseToken(c.rc, t) else R.AnswerToken(c.rc,
                         t);
    hide R.HandleToken;
  }

  lemma RToken(c: Setup, env: R.Env, s: S.Sender, r: R.Receiver, j: Json) returns (reply: Option<Json>)
    requires HonestPeers(c) && At(c, s, r, ToR(j)) && Cleared(r) && r.phase == R.WaitToken
    ensures var t := R.HandleMessage(c.rc, env, r, c.rc.codec.encode(j));
            && At(c, s, t, Reply(false, reply)) && Sent(c, t.outbox, reply)
            && Rank(s, t, TurnOf(Reply(false, reply))) < Rank(s, r, Receiver)
  {
    var bad, t := TokenDecided(c, env, s, r, j);
    assert c.rc.codec == c.sc.codec && c.rc.crypto == c.sc.crypto;
    assert Rank(s, t, Receiver) == Rank(s, r, Receiver);
    hide R.HandleMessage, At, HonestPeers, TokenResponseMessage, R.RefuseToken, R.AnswerToken, Calm, TokensKnown, Rank;
    if bad {
      reply := Some(TokenResponseMessage(INVALID_SIGNATURE, ""));
      TokenRefused(c, s, t);
    } else {
      var mine := c.sc.crypto.sign(c.rc.signingKey, t.finalNonce);
      reply := Some(TokenResponseMessage(if c.rc.pin != "" then PIN_REQUIRED else OK, mine));
      TokenAnswered(c, s, t);
    }
    SentCarries(c.sc.codec, reply.value);
  }

  lemma PinHandled(c: Setup, env: R.Env, s: S.Sender, r: R.Receiver, j: Json) returns (p: string)
    requires HonestPeers(c) && At(c, s, r, ToR(j)) && r.current.None? && r.phase == R.WaitPin
    ensures p == SenderGives(c, s.pinAttempts)
    ensures R.HandleMessage(c.rc, env, r, c.rc.codec.encode(j)) == R.HandlePin(c.rc, r, Pin(p))
    ensures Calm(s, r) && s.phase == S.WaitPin && s.receiverKey.None? && r.fileTokens == map[]
    ensures TokensKnown(c, s, r) && r.connected
  {
    PeerMessagesClassified();
    p := SenderGives(c, s.pinAttempts);
    assert Classify(c.rc.codec, c.rc.codec.encode(j)) == Some((Pin(p), j));
    hide R.HandlePin;
  }

  lemma RPin(c: Setup, env: R.Env, s: S.Sender, r: R.Receiver, j: Json) returns (reply: Option<Json>)
    requires HonestPeers(c) && At(c, s, r, ToR(j)) && Cleared(r) && r.phase == R.WaitPin
    ensures var t := R.HandleMessage(c.rc, env, r, c.rc.codec.encode(j));
            && At(c, s, t, Reply(false, reply)) && Sent(c, t.outbox, reply)
            && Rank(s, t, TurnOf(Reply(false, reply))) < Rank(s, r, Receiver)
  {
    hide R.HandleMessage, PinReceivingMessage, PinMessage, TokensKnown, AtToken, AtRequiredPin, AtNonce, AtOffer,
         AtPair, AtAccepted, R.HandshakeOnly, Faithful, Small;
    var p := PinHandled(c, env, s, r, j);
    var status := if p == c.rc.pin then OK
                  else if r.pinAttempts + 1 >= MaxPINAttempts then TOO_MANY_ATTEMPTS else PIN_REQUIRED;
    reply := Some(PinReceivingMessage(status));
    SentCarries(c.sc.codec, reply.value);
    var t := R.HandlePin(c.rc, r, Pin(p));
    assert t.outbox == [SendJSON(c.sc.codec, reply.value)];
    assert TokensKnown(c, s, t) by {
      assert t == r.(phase := t.phase, connected := t.connected, outbox := t.outbox, pinAttempts := t.pinAttempts);
      TokensIgnore(c, s, r, t);
    }
  }

  /** What is known of the tokens depends on nonces and tokens alone. */
  lemma TokensIgnore(c: Setup, s: S.Sender, r: R.Receiver, t: R.Receiver)
    requires TokensKnown(c, s, r) && t.finalNonce == r.finalNonce && t.localNonce == r.localNonce
    requires t.senderToken == r.senderToken
    ensures TokensKnown(c, s, t)
  {
  }

  lemma {:induction false} TokensNonEmpty(files: seq<FileDto>, ids: seq<string>, fileToken: nat -> string)
    requires forall n :: fileToken(n) != ""
    ensures var tokens := R.PrepareTokens(files, ids, fileToken);
            forall id :: id in tokens ==> tokens[id] != "" && First(DtoID, files, id).Some?
    decreases |ids|
  {
    if ids != [] {
      TokensNonEmpty(files, ids[..|ids| - 1], fileToken);
    }
  }

  /** The token map of an acceptance is as agreed. */
  lemma TokensAgreed(c: Setup, env: R.Env)
    requires forall n :: env.fileToken(n) != ""
    ensures var tokens := OfferTokens(c, env);
            && (forall id :: id in tokens <==> Wanted(c, id))
            && (forall id :: id in tokens ==> tokens[id] != "")
  {
    hide R.Usable, R.LastAt, First, R.PrepareTokens;
    TokensNonEmpty(OfferedFiles(c), SelectedIDs(c), env.fileToken);
    R.PrepareTokensExact(OfferedFiles(c), SelectedIDs(c), env.fileToken);
  }

  lemma AcceptMeans(c: Setup, env: R.Env, r: R.Receiver)
    requires r.connected && r.phase in {R.WaitFileList, R.WaitPairResponse} && r.fileTokens == map[] && Offered(c, r)
    ensures var tokens := OfferTokens(c, env);
            R.AcceptFiles(c.rc, env, r)
            == R.SendBinary(c.rc, r.(fileTokens := tokens), FileListResponseMessage(OK, tokens, ""))
               .(phase := R.WaitFiles)
  {
    hide FileListResponseMessage, R.PrepareTokens, R.SendBinary, R.HandshakeOnly;
    assert map[] + OfferTokens(c, env) == OfferTokens(c, env);
  }

  /** Accepting sends the token map the receiver keeps. */
  lemma RAccept(c: Setup, env: R.Env, s: S.Sender, r: R.Receiver) returns (reply: Option<Json>)
    requires HonestPeers(c) && HonestStep(c, ToReceiver(env)) && Calm(s, r) && r.connected && r.outbox == []
    requires s.phase == S.WaitFileAccept && TokensKnown(c, s, r)
    requires r.phase in {R.WaitFileList, R.WaitPairResponse} && r.fileTokens == map[] && Offered(c, r)
    ensures var t := R.AcceptFiles(c.rc, env, r);
            && At(c, s, t, Reply(false, reply)) && Sent(c, t.outbox, reply)
            && Rank(s, t, Sender) <= 1 && reply.Some?
  {
    var tokens := OfferTokens(c, env);
    TokensAgreed(c, env);
    AcceptMeans(c, env, r);
    hide R.AcceptFiles, OfferTokens, FileListResponseMessage;
    reply := Some(FileListResponseMessage(OK, tokens, ""));
    assert Small(c.sc.codec, reply.value);
    BinaryAnswer(c, r.(fileTokens := tokens), reply.value);
    hide HonestPeers, HonestStep, Small, Sent, SelectedIDs, Wanted;
    AcceptedAt(c, s, r, R.SendBinary(c.rc, r.(fileTokens := tokens), reply.value).(phase := R.WaitFiles));
    hide *;
  }

  lemma AcceptedAt(c: Setup, s: S.Sender, r: R.Receiver, t: R.Receiver)
    requires Calm(s, r) && r.connected && s.phase == S.WaitFileAccept && TokensKnown(c, s, r) && Offered(c, r)
    requires r.phase in {R.WaitFileList, R.WaitPairResponse}
    requires t == r.(fileTokens := t.fileTokens, outbox := t.outbox, phase := R.WaitFiles)
    requires (forall id :: id in t.fileTokens <==> Wanted(c, id))
    requires (forall id :: id in t.fileTokens ==> t.fileTokens[id] != "")
    ensures At(c, s, t, ToS(FileListResponseMessage(OK, t.fileTokens, ""))) && Rank(s, t, Sender) <= 1
  {
    hide SelectedIDs, Wanted, FileListResponseMessage;
    assert AtAccepted(c, t, ToS(FileListResponseMessage(OK, t.fileTokens, "")));
    TokensIgnore(c, s, r, t);
    hide TokensKnown, AtAccepted, AtOffer, AtPair, Offered;
  }

  /** A one-message answer that leaves the conversation at `t`. */
  lemma BinaryAnswer(c: Setup, r: R.Receiver, j: Json)
    requires HonestPeers(c) && r.connected && r.outbox == [] && Small(c.sc.codec, j)
    ensures Sent(c, R.SendBinary(c.rc, r, j).outbox, Some(j))
  {
    SentCarries(c.sc.codec, j);
    assert R.SendBinary(c.rc, r, j).outbox == Chunks(c.sc.codec.encode(j)) + [Delimiter];
  }

  lemma RDeclines(c: Setup, s: S.Sender, r: R.Receiver) returns (reply: Option<Json>)
    requires HonestPeers(c) && Calm(s, r) && r.connected && r.outbox == [] && TokensKnown(c, s, r)
    requires s.phase == S.WaitFileAccept && r.phase == R.WaitFileList && r.fileTokens == map[]
    ensures var t := R.SendBinary(c.rc, r, FileListResponseMessage(DECLINED, map[], ""));
            && At(c, s, t, Reply(false, reply)) && Sent(c, t.outbox, reply)
            && Rank(s, t, TurnOf(Reply(false, reply))) < Rank(s, r, Receiver)
  {
    hide FileListResponseMessage;
    reply := Some(FileListResponseMessage(DECLINED, map[], ""));
    BinaryAnswer(c, r, reply.value);
    hide Small, HonestPeers, Sent;
  }

  lemma RAsksPair(c: Setup, s: S.Sender, r: R.Receiver) returns (reply: Option<Json>)
    requires HonestPeers(c) && Calm(s, r) && r.connected && r.outbox == [] && TokensKnown(c, s, r)
    requires s.phase == S.WaitFileAccept && r.phase == R.WaitFileList && r.fileTokens == map[] && Offered(c, r)
    ensures var t := R.SendBinary(c.rc, r,
                                  FileListResponseMessage(PAIR, map[], c.rc.signingKey)).(phase := R.WaitPairResponse);
            && At(c, s, t, Reply(false, reply)) && Sent(c, t.outbox, reply)
            && Rank(s, t, TurnOf(Reply(false, reply))) < Rank(s, r, Receiver)
  {
    hide FileListResponseMessage;
    reply := Some(FileListResponseMessage(PAIR, map[], c.rc.signingKey));
    BinaryAnswer(c, r, reply.value);
    hide Small, HonestPeers, Sent;
  }

  /** The offer is stored, and what was known is still known. */
  lemma OfferStored(c: Setup, s: S.Sender, r: R.Receiver)
    requires At(c, s, r, ToR(PinSendingMessage(OK, OfferedFiles(c))))
    requires s.phase == S.WaitFileAccept && r.phase == R.WaitFileList
    ensures var r1 := r.(files := OfferedFiles(c), acceptedIDs := SelectedIDs(c));
            && r.fileTokens == map[] && r.connected && Calm(s, r) && TokensKnown(c, s, r)
            && Offered(c, r1) && Calm(s, r1) && TokensKnown(c, s, r1)
            && Rank(s, r, Receiver) == Rank(s, r1, Receiver) == 4
  {
    hide PinSendingMessage, FileListResponseMessage, OfferedFiles, SelectedIDs;
    RFilesTokens(c, s, r);
    TokensIgnore(c, s, r, r.(files := OfferedFiles(c), acceptedIDs := SelectedIDs(c)));
  }

  lemma RFiles(c: Setup, env: R.Env, s: S.Sender, r: R.Receiver) returns (reply: Option<Json>)
    requires HonestPeers(c) && HonestStep(c, ToReceiver(env)) && Cleared(r)
    requires At(c, s, r, ToR(PinSendingMessage(OK, OfferedFiles(c)))) && s.phase == S.WaitFileAccept
    requires r.phase == R.WaitFileList
    ensures var t := R.ReceiveFileList(c.rc, env, r, OfferedFiles(c));
            && At(c, s, t, Reply(false, reply)) && Sent(c, t.outbox, reply)
            && Rank(s, t, TurnOf(Reply(false, reply))) < Rank(s, r, Receiver)
  {
    hide PinSendingMessage, FileListResponseMessage, At, Sent, HonestPeers, HonestStep, Offered, Calm, TokensKnown,
         R.HandshakeOnly, R.AcceptFiles, R.SendBinary, Rank;
    OfferStored(c, s, r);
    var files, ids := OfferedFiles(c), SelectedIDs(c);
    var r1 := r.(files := files, acceptedIDs := ids);
    if |files| > MaxFilesPerSession {
      reply := RDeclines(c, s, r);
    } else if ids == [] {
      reply := RDeclines(c, s, r1);
    } else if c.rc.requirePairing && r.senderKey.None? {
      reply := RAsksPair(c, s, r1);
    } else {
      reply := RAccept(c, env, s, r1);
    }
  }

  lemma RFilesTokens(c: Setup, s: S.Sender, r: R.Receiver)
    requires At(c, s, r, ToR(PinSendingMessage(OK, OfferedFiles(c)))) && s.phase == S.WaitFileAccept
    requires r.phase == R.WaitFileList
    ensures r.fileTokens == map[]
  {
  }

  lemma ChallengeHandled(c: Setup, env: R.Env, r: R.Receiver)
    requires Faithful(c.rc.codec) && r.current.None? && r.phase == R.WaitFileList && r.connected
    ensures var attempt := r.providedPINAttempts + 1;
            var pin := if c.rc.pinProvider.Some? then (c.rc.pinProvider.value)(attempt) else c.rc.pin;
            R.HandleMessage(c.rc, env, r, c.rc.codec.encode(PinSendingMessage(PIN_REQUIRED, [])))
            == R.Send(c.rc, r.(providedPINAttempts := attempt), PinMessage(pin))
  {
    hide PinMessage;
    PeerMessagesClassified();
    var j := PinSendingMessage(PIN_REQUIRED, []);
    assert Classify(c.rc.codec, c.rc.codec.encode(j)) == Some((Status(PIN_REQUIRED), j));
    hide Classify, PinSendingMessage;
  }

  lemma RPinChallenge(c: Setup, env: R.Env, s: S.Sender, r: R.Receiver) returns (reply: Option<Json>)
    requires HonestPeers(c) && Cleared(r) && s.phase == S.WaitRequiredPIN
    requires At(c, s, r, ToR(PinSendingMessage(PIN_REQUIRED, [])))
    ensures var t := R.HandleMessage(c.rc, env, r, c.rc.codec.encode(PinSendingMessage(PIN_REQUIRED, [])));
            && At(c, s, t, Reply(false, reply)) && Sent(c, t.outbox, reply)
            && Rank(s, t, TurnOf(Reply(false, reply))) < Rank(s, r, Receiver)
  {
    hide PinSendingMessage, R.HandleMessage;
    ChallengeHandled(c, env, r);
    var attempt := r.providedPINAttempts + 1;
    reply := Some(PinMessage(if c.rc.pinProvider.Some? then (c.rc.pinProvider.value)(attempt) else c.rc.pin));
    SentCarries(c.sc.codec, reply.value);
    hide HonestPeers, PinMessage, FileListResponseMessage;
  }

  lemma OfferHandled(c: Setup, env: R.Env, r: R.Receiver)
    requires Faithful(c.rc.codec) && r.current.None? && r.phase == R.WaitFileList
    ensures R.HandleMessage(c.rc, env, r, c.rc.codec.encode(PinSendingMessage(OK, OfferedFiles(c))))
            == R.ReceiveFileList(c.rc, env, r, OfferedFiles(c))
  {
    hide R.ReceiveFileList, OfferedFiles;
    PeerMessagesClassified();
    var files := OfferedFiles(c);
    var j := PinSendingMessage(OK, files);
    var msg := if files == [] then Status(OK) else FileList(files);
    assert Classify(c.rc.codec, c.rc.codec.encode(j)) == Some((msg, j));
    assert AsFiles(j.files) == Some(files);
    assert R.HandleFileList(c.rc, env, r, msg, j) == R.ReceiveFileList(c.rc, env, r, files);
  }

  lemma ROffer(c: Setup, env: R.Env, s: S.Sender, r: R.Receiver) returns (reply: Option<Json>)
    requires HonestPeers(c) && HonestStep(c, ToReceiver(env)) && Cleared(r)
    requires At(c, s, r, ToR(PinSendingMessage(OK, OfferedFiles(c)))) && s.phase == S.WaitFileAccept
    requires r.phase == R.WaitFileList
    ensures var t := R.HandleMessage(c.rc, env, r, c.rc.codec.encode(PinSendingMessage(OK, OfferedFiles(c))));
            && At(c, s, t, Reply(false, reply)) && Sent(c, t.outbox, reply)
            && Rank(s, t, TurnOf(Reply(false, reply))) < Rank(s, r, Receiver)
  {
    OfferHandled(c, env, r);
    reply := RFiles(c, env, s, r);
    hide *;
  }

  lemma RLockedOut(c: Setup, env: R.Env, s: S.Sender, r: R.Receiver)
    requires HonestPeers(c) && Cleared(r) && s.phase == S.Done && r.phase == R.WaitFileList
    requires At(c, s, r, ToR(PinSendingMessage(TOO_MANY_ATTEMPTS, [])))
    ensures var t := R.HandleMessage(c.rc, env, r, c.rc.codec.encode(PinSendingMessage(TOO_MANY_ATTEMPTS, [])));
            At(c, s, t, Quiet) && t.outbox == []
  {
    PeerMessagesClassified();
    var j := PinSendingMessage(TOO_MANY_ATTEMPTS, []);
    assert Classify(c.rc.codec, c.rc.codec.encode(j)) == Some((Status(TOO_MANY_ATTEMPTS), j));
    assert R.HandleFileList(c.rc, env, r, Status(TOO_MANY_ATTEMPTS), j) == R.Terminate(r);
  }

  /** What the sender can have sent to a receiver that waits for the file list. */
  lemma ToFileList(c: Setup, s: S.Sender, r: R.Receiver, j: Json)
    requires At(c, s, r, ToR(j)) && r.phase == R.WaitFileList
    ensures || (s.phase == S.WaitRequiredPIN && j == PinSendingMessage(PIN_REQUIRED, []))
            || (s.phase == S.WaitFileAccept && j == PinSendingMessage(OK, OfferedFiles(c)))
            || (s.phase == S.Done && j == PinSendingMessage(TOO_MANY_ATTEMPTS, []))
  {
  }

  lemma RFileList(c: Setup, env: R.Env, s: S.Sender, r: R.Receiver, j: Json) returns (reply: Option<Json>)
    requires HonestPeers(c) && HonestStep(c, ToReceiver(env)) && At(c, s, r, ToR(j)) && Cleared(r)
    requires r.phase == R.WaitFileList
    ensures var t := R.HandleMessage(c.rc, env, r, c.rc.codec.encode(j));
            && At(c, s, t, Reply(false, reply)) && Sent(c, t.outbox, reply)
            && Rank(s, t, TurnOf(Reply(false, reply))) < Rank(s, r, Receiver)
  {
    hide R.HandleMessage, At, HonestPeers, HonestStep, PinSendingMessage;
    ToFileList(c, s, r, j);
    if s.phase == S.WaitRequiredPIN {
      reply := RPinChallenge(c, env, s, r);
    } else if s.phase == S.WaitFileAccept {
      reply := ROffer(c, env, s, r);
    } else {
      RLockedOut(c, env, s, r);
      reply := None;
    }
  }

  /** What the sender can have sent to a receiver that waits for its key. */
  lemma ToPair(c: Setup, s: S.Sender, r: R.Receiver, j: Json)
    requires At(c, s, r, ToR(j)) && r.phase == R.WaitPairResponse && s.phase == S.WaitFileAccept
    ensures j == if c.sc.acceptPair then PairResponseMessage(OK, c.sc.signingKey)
                 else PairResponseMessage(PAIR_DECLINED, "")
    ensures Calm(s, r) && r.connected && TokensKnown(c, s, r) && r.fileTokens == map[] && Offered(c, r)
  {
    hide FileListResponseMessage, PairResponseMessage, PinSendingMessage;
  }

  lemma PairHandled(c: Setup, env: R.Env, s: S.Sender, r: R.Receiver, j: Json)
    requires HonestPeers(c) && r.current.None? && r.phase == R.WaitPairResponse && TokensKnown(c, s, r)
    requires j == PairResponseMessage(PAIR_DECLINED, "") || j == PairResponseMessage(OK, c.sc.signingKey)
    ensures R.HandleMessage(c.rc, env, r, c.rc.codec.encode(j))
            == if j == PairResponseMessage(OK, c.sc.signingKey)
               then R.AcceptFiles(c.rc, env, r.(senderKey := Some(c.sc.signingKey)))
               else if c.rc.requirePairing then R.Terminate(r) else R.AcceptFiles(c.rc, env, r)
  {
    hide R.AcceptFiles;
    PeerMessagesClassified();
    if j == PairResponseMessage(PAIR_DECLINED, "") {
      assert Classify(c.rc.codec, c.rc.codec.encode(j)) == Some((Status(PAIR_DECLINED), j));
    } else {
      assert Classify(c.rc.codec, c.rc.codec.encode(j)) == Some((PairResponse(OK, c.sc.signingKey), j));
    }
  }

  lemma RPair(c: Setup, env: R.Env, s: S.Sender, r: R.Receiver, j: Json) returns (reply: Option<Json>)
    requires HonestPeers(c) && HonestStep(c, ToReceiver(env)) && At(c, s, r, ToR(j)) && Cleared(r)
    requires r.phase == R.WaitPairResponse && s.phase == S.WaitFileAccept
    ensures var t := R.HandleMessage(c.rc, env, r, c.rc.codec.encode(j));
            && At(c, s, t, Reply(false, reply)) && Sent(c, t.outbox, reply)
            && Rank(s, t, TurnOf(Reply(false, reply))) < Rank(s, r, Receiver)
  {
    hide R.HandleMessage, PairResponseMessage, AtAccepted, AtOffer, AtPair, HonestPeers, HonestStep,
         R.AcceptFiles, R.HandshakeOnly, FileListResponseMessage;
    ToPair(c, s, r, j);
    PairHandled(c, env, s, r, j);
    if j == PairResponseMessage(OK, c.sc.signingKey) {
      hide At;
      reply := RAccept(c, env, s, r.(senderKey := Some(c.sc.signingKey)));
    } else if c.rc.requirePairing {
      reply := None;
    } else {
      hide At;
      reply := RAccept(c, env, s, r);
    }
  }

  // ---------- The sender handles a whole message ----------

  lemma SBinaryAnswer(c: Setup, s: S.Sender, j: Json)
    requires HonestPeers(c) && s.outbox == [] && Small(c.sc.codec, j)
    ensures Sent(c, S.SendBinary(c.sc, s, j).outbox, Some(j))
  {
    SentCarries(c.sc.codec, j);
    assert S.SendBinary(c.sc, s, j).outbox == Chunks(c.sc.codec.encode(j)) + [Delimiter];
  }

  lemma STextAnswer(c: Setup, s: S.Sender, j: Json)
    requires s.outbox == []
    ensures Sent(c, S.Send(c.sc, s, j).outbox, Some(j))
  {
    SentCarries(c.sc.codec, j);
    assert S.Send(c.sc, s, j).outbox == [SendJSON(c.sc.codec, j)];
  }

  lemma SNonce(c: Setup, s: S.Sender, r: R.Receiver, j: Json) returns (reply: Option<Json>)
    requires HonestPeers(c) && At(c, s, r, ToS(j)) && s.phase == S.WaitNonce && s.outbox == []
    ensures var t := S.HandleMessage(c.sc, s, c.sc.codec.encode(j));
            && At(c, t, r, Reply(true, reply)) && Sent(c, t.outbox, reply)
            && Rank(t, r, TurnOf(Reply(true, reply))) < Rank(s, r, Sender)
  {
    PeerMessagesClassified();
    var msg := Nonce(c.sc.crypto.encodeNonce(r.localNonce));
    assert ParseRTCMessage(j) == Some(msg);
    var final := s.localNonce + r.localNonce;
    reply := Some(TokenRequestMessage(c.sc.crypto.sign(c.sc.signingKey, final)));
    STextAnswer(c, s.(remoteNonce := r.localNonce, finalNonce := final), reply.value);
    assert S.HandleMessage(c.sc, s, c.sc.codec.encode(j)) == S.HandleNonceResponse(c.sc, s, msg);
  }

  lemma SSendsList(c: Setup, s: S.Sender, r: R.Receiver)
    requires HonestPeers(c) && Calm(s, r) && s.outbox == [] && s.accepted.None?
    requires s.phase in {S.WaitToken, S.WaitPin, S.WaitRequiredPIN}
    requires TokensKnown(c, s, r) && r.phase == R.WaitFileList && r.fileTokens == map[]
    ensures var t := S.SendFileList(c.sc, s); var j := PinSendingMessage(OK, OfferedFiles(c));
            At(c, t, r, ToR(j)) && Sent(c, t.outbox, Some(j))
  {
    hide PinSendingMessage, FileListResponseMessage;
    SBinaryAnswer(c, s, PinSendingMessage(OK, OfferedFiles(c)));
    hide HonestPeers, Sent, Small;
  }

  lemma SChallenges(c: Setup, s: S.Sender, r: R.Receiver)
    requires HonestPeers(c) && Calm(s, r) && s.outbox == [] && s.accepted.None?
    requires s.phase in {S.WaitToken, S.WaitPin, S.WaitRequiredPIN}
    requires TokensKnown(c, s, r) && r.phase == R.WaitFileList && r.fileTokens == map[]
    ensures var j := PinSendingMessage(PIN_REQUIRED, []);
            var t := S.SendBinary(c.sc, s, j).(phase := S.WaitRequiredPIN);
            At(c, t, r, ToR(j)) && Sent(c, t.outbox, Some(j))
  {
    hide PinSendingMessage, PinMessage;
    SBinaryAnswer(c, s, PinSendingMessage(PIN_REQUIRED, []));
    hide HonestPeers, Sent, Small;
  }

  /** Starting the file list phase: the list itself, or a PIN challenge first. */
  lemma SBegin(c: Setup, s: S.Sender, r: R.Receiver) returns (reply: Option<Json>)
    requires HonestPeers(c) && Calm(s, r) && s.outbox == [] && s.accepted.None? && s.phase in {S.WaitToken, S.WaitPin}
    requires TokensKnown(c, s, r) && r.phase == R.WaitFileList && r.fileTokens == map[]
    ensures var t := S.BeginFileListPhase(c.sc, s);
            && At(c, t, r, Reply(true, reply)) && Sent(c, t.outbox, reply)
            && Rank(t, r, TurnOf(Reply(true, reply))) < Rank(s, r, Sender)
  {
    if c.sc.requiredPIN.None? {
      reply := Some(PinSendingMessage(OK, OfferedFiles(c)));
      SSendsList(c, s, r);
    } else {
      reply := Some(PinSendingMessage(PIN_REQUIRED, []));
      SChallenges(c, s, r);
    }
    hide At, HonestPeers, Sent, PinSendingMessage;
  }

  lemma SAnswersPin(c: Setup, s: S.Sender, r: R.Receiver) returns (reply: Option<Json>)
    requires Calm(s, r) && s.outbox == [] && s.receiverKey.None? && s.accepted.None?
    requires s.phase in {S.WaitToken, S.WaitPin}
    requires TokensKnown(c, s, r) && r.phase == R.WaitPin && r.fileTokens == map[]
    ensures var attempt := s.pinAttempts + 1;
            var pin := if c.sc.pinProvider.Some? then (c.sc.pinProvider.value)(attempt) else c.sc.pin;
            var t := S.Send(c.sc, s.(pinAttempts := attempt), PinMessage(pin)).(phase := S.WaitPin);
            && At(c, t, r, Reply(true, reply)) && Sent(c, t.outbox, reply)
            && Rank(t, r, TurnOf(Reply(true, reply))) < Rank(s, r, Sender)
  {
    var attempt := s.pinAttempts + 1;
    reply := Some(PinMessage(if c.sc.pinProvider.Some? then (c.sc.pinProvider.value)(attempt) else c.sc.pin));
    STextAnswer(c, s.(pinAttempts := attempt), reply.value);
  }

  lemma TokenStatus(c: Setup, s: S.Sender, r: R.Receiver, j: Json) returns (status: StatusText)
    requires At(c, s, r, ToS(j)) && s.phase in {S.WaitToken, S.WaitPin} && Faithful(c.sc.codec)
    ensures ParseRTCMessage(j) == Some(Status(status)) && c.sc.codec.decode(c.sc.codec.encode(j)) == Some(j)
    ensures AsString(j.token).Some? && s.receiverKey.None?
    ensures var token := AsString(j.token).value;
            token == "" || (SameNonce(s, r) && token == c.sc.crypto.sign(c.rc.signingKey, s.finalNonce))
    ensures TokensKnown(c, s, r) && r.fileTokens == map[]
    ensures || (status == INVALID_SIGNATURE && r.phase == R.Done) || (status == TOO_MANY_ATTEMPTS && r.phase == R.Done)
            || (status == PIN_REQUIRED && r.phase == R.WaitPin) || (status == OK && r.phase == R.WaitFileList)
  {
    PeerMessagesClassified();
    status := j.status.text;
  }

  lemma TokenHandled(c: Setup, s: S.Sender, r: R.Receiver, j: Json) returns (status: StatusText)
    requires HonestPeers(c) && At(c, s, r, ToS(j)) && s.phase in {S.WaitToken, S.WaitPin}
    ensures AsString(j.token).Some? && s.receiverKey.None? && s.accepted.None? && Calm(s, r)
    ensures S.HandleMessage(c.sc, s, c.sc.codec.encode(j))
            == if status in {INVALID_SIGNATURE, TOO_MANY_ATTEMPTS} then S.Fail(s)
               else S.Continue(c.sc, s.(receiverToken := AsString(j.token).value), Status(status))
    ensures var s1 := s.(receiverToken := AsString(j.token).value);
            TokensKnown(c, s, r) && TokensKnown(c, s1, r) && r.fileTokens == map[]
    ensures || (status in {INVALID_SIGNATURE, TOO_MANY_ATTEMPTS} && r.phase == R.Done)
            || (status == PIN_REQUIRED && r.phase == R.WaitPin) || (status == OK && r.phase == R.WaitFileList)
  {
    hide AtNonce, AtToken, AtPin, AtRequiredPin, AtOffer, AtPair, AtAccepted, ParseRTCMessage,
         S.Continue, S.HandshakeOnly,
         S.HandleNonceResponse, S.HandleRequiredPIN, S.HandleFileAcceptance, S.HandleFileResponse;
    status := TokenStatus(c, s, r, j);
    assert S.HandleMessage(c.sc, s, c.sc.codec.encode(j)) == S.HandleTokenResponse(c.sc, s, Status(status), j);
  }

  lemma CalmIgnoresToken(s: S.Sender, r: R.Receiver, token: string)
    requires Calm(s, r)
    ensures Calm(s.(receiverToken := token), r) && Rank(s.(receiverToken := token), r, Sender) == Rank(s, r, Sender)
  {
  }

  lemma STokenResponse(c: Setup, s: S.Sender, r: R.Receiver, j: Json) returns (reply: Option<Json>)
    requires HonestPeers(c) && At(c, s, r, ToS(j)) && s.phase in {S.WaitToken, S.WaitPin} && s.outbox == []
    ensures var t := S.HandleMessage(c.sc, s, c.sc.codec.encode(j));
            && At(c, t, r, Reply(true, reply)) && Sent(c, t.outbox, reply)
            && Rank(t, r, TurnOf(Reply(true, reply))) < Rank(s, r, Sender)
  {
    hide S.HandleMessage, At, HonestPeers, Calm, TokensKnown, S.BeginFileListPhase, Rank, Sent;
    var status := TokenHandled(c, s, r, j);
    var s1 := s.(receiverToken := AsString(j.token).value);
    CalmIgnoresToken(s, r, s1.receiverToken);
    if status == INVALID_SIGNATURE || status == TOO_MANY_ATTEMPTS {
      reply := None;
      SRefused(c, s, r);
    } else if status == PIN_REQUIRED {
      reply := SAnswersPin(c, s1, r);
    } else {
      reply := SBegin(c, s1, r);
    }
  }

  lemma SRefused(c: Setup, s: S.Sender, r: R.Receiver)
    requires Calm(s, r) && s.accepted.None? && r.phase == R.Done && s.outbox == []
    requires s.phase in {S.WaitToken, S.WaitPin}
    ensures At(c, S.Fail(s), r, Quiet) && Sent(c, S.Fail(s).outbox, None)
    ensures Rank(S.Fail(s), r, Nobody) < Rank(s, r, Sender)
  {
  }

  lemma SLocksOut(c: Setup, s: S.Sender, r: R.Receiver)
    requires HonestPeers(c) && Calm(s.(requiredPINAttempts := 0), r) && s.outbox == [] && s.accepted.None?
    requires s.phase == S.WaitRequiredPIN
    requires s.requiredPINAttempts == MaxPINAttempts && r.phase == R.WaitFileList
    ensures var j := PinSendingMessage(TOO_MANY_ATTEMPTS, []); var t := S.Fail(S.SendBinary(c.sc, s, j));
            At(c, t, r, ToR(j)) && Sent(c, t.outbox, Some(j))
  {
    hide PinSendingMessage;
    SBinaryAnswer(c, s, PinSendingMessage(TOO_MANY_ATTEMPTS, []));
    hide HonestPeers, Sent, Small;
  }

  lemma RequiredPinHandled(c: Setup, s: S.Sender, r: R.Receiver, j: Json) returns (p: string)
    requires HonestPeers(c) && At(c, s, r, ToS(j)) && s.phase == S.WaitRequiredPIN
    ensures p == ReceiverGives(c, r.providedPINAttempts)
    ensures S.HandleMessage(c.sc, s, c.sc.codec.encode(j)) == S.HandleRequiredPIN(c.sc, s, Pin(p))
    ensures TokensKnown(c, s, r) && r.phase == R.WaitFileList && r.fileTokens == map[] && Calm(s, r)
  {
    PeerMessagesClassified();
    p := ReceiverGives(c, r.providedPINAttempts);
    assert ParseRTCMessage(j) == Some(Pin(p));
  }

  lemma PinCounted(c: Setup, s: S.Sender, r: R.Receiver)
    requires Calm(s, r) && TokensKnown(c, s, r) && s.phase == S.WaitRequiredPIN
    ensures var s1 := s.(requiredPINAttempts := s.requiredPINAttempts + 1);
            && s.accepted.None? && TokensKnown(c, s1, r) && Calm(s1.(requiredPINAttempts := 0), r)
            && s1.requiredPINAttempts <= MaxPINAttempts && (s1.requiredPINAttempts < MaxPINAttempts ==> Calm(s1, r))
  {
  }

  lemma SRequiredPin(c: Setup, s: S.Sender, r: R.Receiver, j: Json) returns (reply: Option<Json>)
    requires HonestPeers(c) && At(c, s, r, ToS(j)) && s.phase == S.WaitRequiredPIN && s.outbox == []
    ensures var t := S.HandleMessage(c.sc, s, c.sc.codec.encode(j));
            && At(c, t, r, Reply(true, reply)) && Sent(c, t.outbox, reply)
            && Rank(t, r, TurnOf(Reply(true, reply))) < Rank(s, r, Sender)
  {
    hide S.HandleMessage, PinMessage, PinSendingMessage, At, HonestPeers, Sent, S.HandshakeOnly, Small, Calm,
         TokensKnown;
    var p := RequiredPinHandled(c, s, r, j);
    var s1 := s.(requiredPINAttempts := s.requiredPINAttempts + 1);
    PinCounted(c, s, r);
    if c.sc.requiredPIN == Some(p) {
      reply := Some(PinSendingMessage(OK, OfferedFiles(c)));
      SSendsList(c, s, r);
    } else if s1.requiredPINAttempts >= MaxPINAttempts {
      reply := Some(PinSendingMessage(TOO_MANY_ATTEMPTS, []));
      SLocksOut(c, s1, r);
    } else {
      reply := Some(PinSendingMessage(PIN_REQUIRED, []));
      SChallenges(c, s1, r);
      assert S.SendBinary(c.sc, s1, reply.value).(phase := S.WaitRequiredPIN) == S.SendBinary(c.sc, s1, reply.value);
    }
  }

  /** What is known when a pair request has arrived. */
  lemma PairRequestKnown(c: Setup, s: S.Sender, r: R.Receiver)
    requires s.phase == S.WaitFileAccept && r.phase == R.WaitPairResponse
    requires At(c, s, r, ToS(FileListResponseMessage(PAIR, map[], c.rc.signingKey)))
    ensures Calm(s, r) && TokensKnown(c, s, r) && r.fileTokens == map[] && Offered(c, r)
  {
    hide FileListResponseMessage, PairResponseMessage, PinSendingMessage, Offered, TokensKnown;
  }

  /** The receiver's own key is never refused: it made the receiver's token. */
  lemma PairRequestHandled(c: Setup, s: S.Sender, r: R.Receiver)
    requires HonestPeers(c) && TokensKnown(c, s, r)
    ensures S.HandlePairRequest(c.sc, s, c.rc.signingKey)
            == if c.sc.acceptPair
               then S.Send(c.sc, s.(receiverKey := Some(c.rc.signingKey)), PairResponseMessage(OK, c.sc.signingKey))
               else S.Send(c.sc, s.(receiverKey := None), PairResponseMessage(PAIR_DECLINED, ""))
  {
    hide S.HandshakeOnly, PairResponseMessage, Small, Faithful;
  }

  lemma PairRequestAnswered(c: Setup, s: S.Sender, r: R.Receiver, t: S.Sender)
    requires s.phase == S.WaitFileAccept && r.phase == R.WaitPairResponse
    requires Calm(s, r) && TokensKnown(c, s, r) && r.fileTokens == map[] && Offered(c, r)
    requires t == s.(receiverKey := t.receiverKey, outbox := t.outbox)
    ensures var j := if c.sc.acceptPair then PairResponseMessage(OK, c.sc.signingKey)
                     else PairResponseMessage(PAIR_DECLINED, "");
            At(c, t, r, ToR(j)) && Rank(t, r, Receiver) < Rank(s, r, Sender)
  {
    hide PairResponseMessage, Offered, AtOffer, AtAccepted;
  }

  lemma SPairRequest(c: Setup, s: S.Sender, r: R.Receiver) returns (reply: Option<Json>)
    requires HonestPeers(c) && s.phase == S.WaitFileAccept && s.outbox == [] && r.phase == R.WaitPairResponse
    requires At(c, s, r, ToS(FileListResponseMessage(PAIR, map[], c.rc.signingKey)))
    ensures var t := S.HandlePairRequest(c.sc, s, c.rc.signingKey);
            && At(c, t, r, Reply(true, reply)) && Sent(c, t.outbox, reply)
            && Rank(t, r, TurnOf(Reply(true, reply))) < Rank(s, r, Sender)
  {
    hide At, Sent, HonestPeers, Calm, TokensKnown, Offered, FileListResponseMessage, PairResponseMessage, Rank,
         S.HandlePairRequest;
    PairRequestKnown(c, s, r);
    PairRequestHandled(c, s, r);
    reply := Some(if c.sc.acceptPair then PairResponseMessage(OK, c.sc.signingKey)
                  else PairResponseMessage(PAIR_DECLINED, ""));
    STextAnswer(c, s.(receiverKey := if c.sc.acceptPair then Some(c.rc.signingKey) else None), reply.value);
    PairRequestAnswered(c, s, r, S.HandlePairRequest(c.sc, s, c.rc.signingKey));
  }

  /** What the receiver can have answered to the file list. */
  lemma ToAcceptance(c: Setup, s: S.Sender, r: R.Receiver, j: Json)
    requires At(c, s, r, ToS(j)) && s.phase == S.WaitFileAccept
    ensures || (r.phase == R.WaitFileList && j == FileListResponseMessage(DECLINED, map[], ""))
            || (r.phase == R.WaitPairResponse && j == FileListResponseMessage(PAIR, map[], c.rc.signingKey))
            || (r.phase == R.WaitFiles && j == FileListResponseMessage(OK, r.fileTokens, ""))
  {
  }

  lemma SDeclined(c: Setup, s: S.Sender, r: R.Receiver)
    requires s.phase == S.WaitFileAccept && r.phase == R.WaitFileList
    requires At(c, s, r, ToS(FileListResponseMessage(DECLINED, map[], "")))
    ensures At(c, s.(declined := true), r, Quiet)
  {
    hide FileListResponseMessage, PairResponseMessage, PinSendingMessage, Agreed, Offered;
  }

  lemma SAccepts(c: Setup, s: S.Sender, r: R.Receiver)
    requires s.phase == S.WaitFileAccept && r.phase == R.WaitFiles
    requires At(c, s, r, ToS(FileListResponseMessage(OK, r.fileTokens, "")))
    ensures At(c, s.(accepted := Some(r.fileTokens), phase := S.SendingFiles), r, Quiet)
  {
    hide FileListResponseMessage, PairResponseMessage, PinSendingMessage;
  }

  lemma AcceptanceHandled(c: Setup, s: S.Sender, status: StatusText, tokens: map<string, string>, key: string)
    requires Faithful(c.sc.codec) && s.phase == S.WaitFileAccept && s.accepted.None?
    requires (status == DECLINED && tokens == map[] && key == "") || (status == PAIR && tokens == map[] && key != "")
             || (status == OK && key == "")
    ensures S.HandleMessage(c.sc, s, c.sc.codec.encode(FileListResponseMessage(status, tokens, key)))
            == if status == DECLINED then s.(declined := true)
               else if status == PAIR then S.HandlePairRequest(c.sc, s, key)
               else s.(accepted := Some(tokens), phase := S.SendingFiles)
  {
    PeerMessagesClassified();
    var j := FileListResponseMessage(status, tokens, key);
    assert ParseRTCMessage(j) == Some(Status(status));
    assert AsTokens(j.files) == Some(tokens) && AsString(j.publicKey) == Some(key);
    hide S.HandlePairRequest;
    assert S.HandleMessage(c.sc, s, c.sc.codec.encode(j)) == S.HandleFileAcceptance(c.sc, s, Status(status), j);
  }

  lemma SAcceptance(c: Setup, s: S.Sender, r: R.Receiver, j: Json) returns (reply: Option<Json>)
    requires HonestPeers(c) && At(c, s, r, ToS(j)) && s.phase == S.WaitFileAccept && s.outbox == []
    ensures var t := S.HandleMessage(c.sc, s, c.sc.codec.encode(j));
            && At(c, t, r, Reply(true, reply)) && Sent(c, t.outbox, reply)
            && Rank(t, r, TurnOf(Reply(true, reply))) < Rank(s, r, Sender)
  {
    hide S.HandleMessage, FileListResponseMessage, AtOffer, AtPair, AtAccepted, AtNonce, AtToken, AtPin, AtRequiredPin,
         TokensKnown, Agreed, Faithful, Small;
    ToAcceptance(c, s, r, j);
    if r.phase == R.WaitFileList {
      AcceptanceHandled(c, s, DECLINED, map[], "");
      SDeclined(c, s, r);
      reply := None;
    } else if r.phase == R.WaitPairResponse {
      AcceptanceHandled(c, s, PAIR, map[], c.rc.signingKey);
      reply := SPairRequest(c, s, r);
    } else {
      AcceptanceHandled(c, s, OK, r.fileTokens, "");
      SAccepts(c, s, r);
      reply := None;
    }
  }

  // ---------- Steps ----------

  lemma AgreedIgnores(c: Setup, r: R.Receiver, t: R.Receiver)
    requires Agreed(c, r) && t.files == r.files && t.fileTokens == r.fileTokens
    ensures Agreed(c, t)
  {
    hide Wanted;
  }

  /** Taking a frame off a channel or into a buffer does not move the conversation. */
  lemma AtIgnoresWires(c: Setup, s: S.Sender, r: R.Receiver, talk: Talk, so: seq<Frame>, sb: Bytes, ro: seq<Frame>,
                       rb: Bytes)
    requires At(c, s, r, talk)
    ensures At(c, s.(outbox := so, controlBuffer := sb), r.(outbox := ro, controlBuffer := rb), talk)
    ensures Rank(s.(outbox := so, controlBuffer := sb), r.(outbox := ro, controlBuffer := rb), TurnOf(talk))
            == Rank(s, r, TurnOf(talk))
  {
    hide NonceMessage, TokenRequestMessage, TokenResponseMessage, PinMessage, PinReceivingMessage, PinSendingMessage,
         FileListResponseMessage, PairResponseMessage, OfferedFiles, SelectedIDs, Agreed;
    if Agreed(c, r) {
      AgreedIgnores(c, r, r.(outbox := ro, controlBuffer := rb));
    }
  }

  lemma RHandles(c: Setup, env: R.Env, s: S.Sender, r: R.Receiver, j: Json) returns (reply: Option<Json>)
    requires HonestPeers(c) && HonestStep(c, ToReceiver(env)) && At(c, s, r, ToR(j)) && Cleared(r)
    ensures var t := R.HandleMessage(c.rc, env, r, c.rc.codec.encode(j));
            && At(c, s, t, Reply(false, reply)) && Sent(c, t.outbox, reply)
            && Rank(s, t, TurnOf(Reply(false, reply))) < Rank(s, r, Receiver)
  {
    RPhases(c, s, r, j);
    hide R.HandleMessage, At, Sent, HonestPeers, HonestStep;
    match r.phase
    case WaitNonce => reply := RNonce(c, env, s, r, j);
    case WaitToken => reply := RToken(c, env, s, r, j);
    case WaitPin => reply := RPin(c, env, s, r, j);
    case WaitFileList => reply := RFileList(c, env, s, r, j);
    case _ => reply := RPair(c, env, s, r, j);
  }

  lemma RPhases(c: Setup, s: S.Sender, r: R.Receiver, j: Json)
    requires At(c, s, r, ToR(j))
    ensures r.phase in {R.WaitNonce, R.WaitToken, R.WaitPin, R.WaitFileList, R.WaitPairResponse}
    ensures r.phase == R.WaitPairResponse ==> s.phase == S.WaitFileAccept
  {
  }

  lemma SHandles(c: Setup, s: S.Sender, r: R.Receiver, j: Json) returns (reply: Option<Json>)
    requires HonestPeers(c) && At(c, s, r, ToS(j)) && s.outbox == []
    ensures var t := S.HandleMessage(c.sc, s, c.sc.codec.encode(j));
            && At(c, t, r, Reply(true, reply)) && Sent(c, t.outbox, reply)
            && Rank(t, r, TurnOf(Reply(true, reply))) < Rank(s, r, Sender)
  {
    SPhases(c, s, r, j);
    hide S.HandleMessage, At, Sent, HonestPeers;
    match s.phase
    case WaitNonce => reply := SNonce(c, s, r, j);
    case WaitRequiredPIN => reply := SRequiredPin(c, s, r, j);
    case WaitFileAccept => reply := SAcceptance(c, s, r, j);
    case _ => reply := STokenResponse(c, s, r, j);
  }

  lemma SPhases(c: Setup, s: S.Sender, r: R.Receiver, j: Json)
    requires At(c, s, r, ToS(j))
    ensures s.phase in {S.WaitNonce, S.WaitToken, S.WaitPin, S.WaitRequiredPIN, S.WaitFileAccept}
  {
  }

  /** Handlers leave the control buffer to the framing, and the thread to itself. */
  lemma SBufferKept(c: Setup, s: S.Sender, data: Bytes)
    ensures S.HandleMessage(c.sc, s, data).controlBuffer == s.controlBuffer
    ensures S.HandleMessage(c.sc, s, data).failed == s.failed
  {
    var j := c.sc.codec.decode(data);
    if j.Some? && ParseRTCMessage(j.value).Some? {
      match s.phase
      case WaitNonce =>
      case WaitToken =>
      case WaitPin =>
      case WaitRequiredPIN =>
      case WaitFileAccept =>
      case _ =>
    }
  }

  lemma RBufferKept(c: Setup, env: R.Env, r: R.Receiver, data: Bytes)
    requires r.current.None? && r.phase in {R.WaitNonce, R.WaitToken, R.WaitPin, R.WaitFileList, R.WaitPairResponse}
    ensures R.HandleMessage(c.rc, env, r, data).controlBuffer == r.controlBuffer
  {
    match Classify(c.rc.codec, data)
    case None =>
    case Some((msg, j)) =>
      match r.phase
      case WaitNonce =>
      case WaitToken =>
      case WaitPin =>
      case WaitFileList =>
      case _ =>
  }

  /** The conversation after a step, with `talk` on the wire. */
  ghost predicate Standing(c: Setup, y: System, talk: Talk) {
    RI.Inv(y.r) && Wires(c, y, talk) && At(c, y.s, y.r, talk)
  }

  lemma MessageMoves(c: Setup, y: System, z: System, before: Talk, after: Talk)
    requires Wires(c, y, before) && Wires(c, z, after) && z.s.failed == y.s.failed && Frames(z) < FramesPerMessage
    requires Rank(z.s, z.r, TurnOf(after)) < Rank(y.s, y.r, TurnOf(before))
    ensures Moves(y, z)
  {
    WiresTurn(c, y, before);
    WiresTurn(c, z, after);
    hide Wires, Rank;
  }

  lemma ToReceiverChunk(c: Setup, y: System, env: R.Env, j: Json)
    requires Standing(c, y, ToR(j)) && y.s.outbox != [] && Enabled(c, y, ToReceiver(env))
    requires var (next, message) := ControlStep(y.r.controlBuffer, y.s.outbox[0]);
             message == None && Carries(c.sc.codec, y.s.outbox[1..], next, j)
    ensures var z := Next(c, y, ToReceiver(env)); Standing(c, z, ToR(j)) && Moves(y, z)
  {
    RI.MessageInv(c.rc, env, y.r, y.s.outbox[0]);
    RPhases(c, y.s, y.r, j);
    hide RI.Inv;
    var next := ControlStep(y.r.controlBuffer, y.s.outbox[0]).0;
    AtIgnoresWires(c, y.s, y.r, ToR(j), y.s.outbox[1..], [], [], next);
    hide At, Carries;
    var z := Next(c, y, ToReceiver(env));
    assert z == System(y.s.(outbox := y.s.outbox[1..], controlBuffer := []), y.r.(outbox := [], controlBuffer := next));
    assert Wires(c, z, ToR(j));
    WiresTurn(c, y, ToR(j));
    WiresTurn(c, z, ToR(j));
    assert Rank(z.s, z.r, Receiver) == Rank(y.s, y.r, Receiver);
    hide Rank, Wires, TurnAt, R.HandleFrame;
  }

  /** A receiver that a message is on its way to has no file open. */
  lemma ReceiverReady(c: Setup, y: System, j: Json)
    requires HonestPeers(c) && Standing(c, y, ToR(j))
    ensures y.r.current.None? && c.rc.codec == c.sc.codec
    ensures y.r.phase in {R.WaitNonce, R.WaitToken, R.WaitPin, R.WaitFileList, R.WaitPairResponse}
  {
    hide At, RI.DiskExact, RI.CurrentBounded, RI.Alternates;
    RPhases(c, y.s, y.r, j);
  }

  /** The last frame of a message: the receiver handles the whole. */
  lemma ReceiverTakes(c: Setup, y: System, env: R.Env, data: Bytes)
    requires y.s.outbox != [] && Enabled(c, y, ToReceiver(env)) && y.s.outbox[1..] == [] && y.r.current.None?
    requires ControlStep(y.r.controlBuffer, y.s.outbox[0]) == ([], Some(data))
    ensures R.HandleFrame(c.rc, env, y.r, y.s.outbox[0]) == R.HandleMessage(c.rc, env, y.r.(controlBuffer := []), data)
    ensures Next(c, y, ToReceiver(env))
            == System(y.s.(outbox := []), R.HandleMessage(c.rc, env, y.r.(controlBuffer := []), data))
  {
    hide R.HandleMessage;
  }

  lemma ToReceiverMessage(c: Setup, y: System, env: R.Env, j: Json) returns (talk: Talk)
    requires HonestPeers(c) && HonestStep(c, ToReceiver(env)) && Standing(c, y, ToR(j)) && y.s.outbox != []
    requires Enabled(c, y, ToReceiver(env)) && y.s.outbox[1..] == []
    requires ControlStep(y.r.controlBuffer, y.s.outbox[0]) == ([], Some(c.sc.codec.encode(j)))
    ensures var z := Next(c, y, ToReceiver(env)); Standing(c, z, talk) && Moves(y, z)
  {
    hide R.HandleFrame, R.HandleMessage, RI.Inv, At, Carries, HonestPeers, HonestStep, Small, Next, Rank, Moves;
    ReceiverReady(c, y, j);
    RI.MessageInv(c.rc, env, y.r, y.s.outbox[0]);
    ReceiverTakes(c, y, env, c.sc.codec.encode(j));
    AtIgnoresWires(c, y.s, y.r, ToR(j), [], [], [], []);
    var s1, r1 := y.s.(outbox := [], controlBuffer := []), y.r.(outbox := [], controlBuffer := []);
    var z := Next(c, y, ToReceiver(env));
    assert z == System(s1, R.HandleMessage(c.rc, env, r1, c.rc.codec.encode(j)));
    var reply := RHandles(c, env, s1, r1, j);
    RBufferKept(c, env, r1, c.rc.codec.encode(j));
    SentBounded(c, z.r.outbox, reply);
    talk := Reply(false, reply);
    assert Wires(c, z, talk);
    MessageMoves(c, y, z, ToR(j), talk);
  }

  lemma ToReceiverStep(c: Setup, y: System, env: R.Env, j: Json)
    requires HonestPeers(c) && Standing(c, y, ToR(j)) && HonestStep(c, ToReceiver(env)) && y.s.outbox != []
    ensures var z := Next(c, y, ToReceiver(env)); Inv(c, z) && Measure(z) < Measure(y)
  {
    CarryStep(c.sc.codec, y.s.outbox, y.r.controlBuffer, j);
    assert Enabled(c, y, ToReceiver(env));
    if ControlStep(y.r.controlBuffer, y.s.outbox[0]).1 == None {
      ToReceiverChunk(c, y, env, j);
    } else {
      var _ := ToReceiverMessage(c, y, env, j);
    }
    hide Next, HonestPeers, HonestStep, RI.Inv, At, Wires, Moves, Measure;
    MovesLower(y, Next(c, y, ToReceiver(env)));
  }

  lemma ToSenderChunk(c: Setup, y: System, j: Json)
    requires Standing(c, y, ToS(j)) && y.r.outbox != [] && Enabled(c, y, ToSender)
    requires var (next, message) := ControlStep(y.s.controlBuffer, y.r.outbox[0]);
             message == None && Carries(c.sc.codec, y.r.outbox[1..], next, j)
    ensures var z := Next(c, y, ToSender); Standing(c, z, ToS(j)) && Moves(y, z)
  {
    OutboxRead(y.r, y.r.outbox[1..]);
    hide RI.Inv;
    var next := ControlStep(y.s.controlBuffer, y.r.outbox[0]).0;
    AtIgnoresWires(c, y.s, y.r, ToS(j), [], next, y.r.outbox[1..], []);
    hide At, Carries;
    var z := Next(c, y, ToSender);
    assert z == System(y.s.(outbox := [], controlBuffer := next), y.r.(outbox := y.r.outbox[1..], controlBuffer := []));
    assert Wires(c, z, ToS(j));
    WiresTurn(c, y, ToS(j));
    WiresTurn(c, z, ToS(j));
    assert Rank(z.s, z.r, Sender) == Rank(y.s, y.r, Sender);
    hide Rank, Wires, TurnAt, S.HandleFrame;
  }

  /** The last frame of a message: the sender handles the whole. */
  lemma SenderTakes(c: Setup, y: System, data: Bytes)
    requires y.r.outbox != [] && Enabled(c, y, ToSender) && y.r.outbox[1..] == []
    requires ControlStep(y.s.controlBuffer, y.r.outbox[0]) == ([], Some(data))
    ensures Next(c, y, ToSender)
            == System(S.HandleMessage(c.sc, y.s.(controlBuffer := []), data), y.r.(outbox := []))
  {
    hide S.HandleMessage;
  }

  lemma ToSenderMessage(c: Setup, y: System, j: Json) returns (talk: Talk)
    requires HonestPeers(c) && Standing(c, y, ToS(j)) && y.r.outbox != [] && Enabled(c, y, ToSender)
    requires y.r.outbox[1..] == []
    requires ControlStep(y.s.controlBuffer, y.r.outbox[0]) == ([], Some(c.sc.codec.encode(j)))
    ensures var z := Next(c, y, ToSender); Standing(c, z, talk) && Moves(y, z)
  {
    hide S.HandleFrame, S.HandleMessage, RI.Inv, RI.Continues, At, Carries, HonestPeers, Small, Next, Rank, Moves;
    OutboxRead(y.r, []);
    SenderTakes(c, y, c.sc.codec.encode(j));
    AtIgnoresWires(c, y.s, y.r, ToS(j), [], [], [], []);
    var s1, r1 := y.s.(outbox := [], controlBuffer := []), y.r.(outbox := [], controlBuffer := []);
    var z := Next(c, y, ToSender);
    assert z == System(S.HandleMessage(c.sc, s1, c.sc.codec.encode(j)), r1);
    var reply := SHandles(c, s1, r1, j);
    SBufferKept(c, s1, c.sc.codec.encode(j));
    SentBounded(c, z.s.outbox, reply);
    talk := Reply(true, reply);
    assert Wires(c, z, talk);
    MessageMoves(c, y, z, ToS(j), talk);
  }

  lemma ToSenderStep(c: Setup, y: System, j: Json)
    requires HonestPeers(c) && Standing(c, y, ToS(j)) && y.r.outbox != []
    ensures var z := Next(c, y, ToSender); Inv(c, z) && Measure(z) < Measure(y)
  {
    CarryStep(c.sc.codec, y.r.outbox, y.s.controlBuffer, j);
    assert Enabled(c, y, ToSender);
    if ControlStep(y.s.controlBuffer, y.r.outbox[0]).1 == None {
      ToSenderChunk(c, y, j);
    } else {
      var _ := ToSenderMessage(c, y, j);
    }
    hide Next, HonestPeers, RI.Inv, At, Wires, Moves, Measure;
    MovesLower(y, Next(c, y, ToSender));
  }

  lemma StartStep(c: Setup, y: System, nonce: Bytes)
    requires HonestPeers(c) && Standing(c, y, Quiet) && y.s.phase == S.Init && |nonce| == 32
    requires Enabled(c, y, StartNonce(nonce))
    ensures var z := Next(c, y, StartNonce(nonce)); Inv(c, z) && Measure(z) < Measure(y)
  {
    var j := NonceMessage(c.sc.crypto.encodeNonce(nonce));
    SentCarries(c.sc.codec, j);
    var z := Next(c, y, StartNonce(nonce));
    assert z.s.outbox == [SendJSON(c.sc.codec, j)];
    assert Standing(c, z, ToR(j)) by { hide RI.Inv, Rank; }
    hide RI.Inv, At, Wires, Carries, HonestPeers;
    MovesLower(y, z);
  }

  lemma AtIgnoresGivingUp(c: Setup, s: S.Sender, r: R.Receiver, talk: Talk)
    requires At(c, s, r, talk)
    ensures At(c, s.(failed := true), r, talk)
  {
    hide NonceMessage, TokenRequestMessage, TokenResponseMessage, PinMessage, PinReceivingMessage, PinSendingMessage,
         FileListResponseMessage, PairResponseMessage, OfferedFiles, SelectedIDs, Agreed, Offered;
  }

  lemma GiveUpStep(c: Setup, y: System, talk: Talk)
    requires HonestPeers(c) && Standing(c, y, talk) && S.CanGo(y.s, S.GiveUp) && Enabled(c, y, Thread(S.GiveUp))
    ensures var z := Next(c, y, Thread(S.GiveUp)); Inv(c, z) && Measure(z) < Measure(y)
  {
    hide RI.Inv, HonestPeers, At, Carries;
    var z := Next(c, y, Thread(S.GiveUp));
    AtIgnoresGivingUp(c, y.s, y.r, talk);
    assert z == y.(s := y.s.(failed := true));
    assert Standing(c, z, talk);
  }

  lemma StepKeepsInv(c: Setup, y: System, step: Step)
    requires Inv(c, y) && Enabled(c, y, step) && HonestStep(c, step)
    requires !(step.Thread? && step.choice.Accept?)
    ensures Inv(c, Next(c, y, step)) && Measure(Next(c, y, step)) < Measure(y)
  {
    var talk :| Wires(c, y, talk) && At(c, y.s, y.r, talk);
    match step
    case StartNonce(nonce) => StartStep(c, y, nonce); hide *;
    case ToReceiver(env) => ToReceiverStep(c, y, env, talk.j); hide *;
    case ToSender => ToSenderStep(c, y, talk.j); hide *;
    case Thread(choice) => GiveUpStep(c, y, talk); hide *;
  }

  // ---------- Whole handshakes ----------

  /** The data channel is open, and nothing has been sent.  The sender holds no key of the
      receiver; the receiver may already hold one of the sender. */
  ghost predicate Opened(c: Setup, y: System) {
    && HonestPeers(c) && y.s == S.Fresh(None)
    && RI.Inv(y.r) && y.r == R.Fresh(y.r.base).(connected := true, senderKey := y.r.senderKey)
  }

  /** The receiver with its history counted from here, and a channel to a new peer. */
  function FromHere(r: R.Receiver): R.Receiver {
    r.(outbox := [], callbacks := [], base := r.disk, saved := map[], unexpected := 0)
  }

  /** An offer to a receiver that is free takes the new connection and leaves nothing of the
      session before: no nonce, key, token, PIN attempt, file list or half a message, and no
      partial file.  From there the handshake with an honest sender begins. */
  lemma OfferOpens(c: Setup, r: R.Receiver, offered: R.Env, ready: R.Env)
    requires HonestPeers(c) && RI.Inv(r) && !r.accepting && (!r.connected || r.phase == R.Done)
    ensures var t := R.Apply(c.rc, ready, R.Apply(c.rc, offered, r, R.Offer), R.PeerReady);
            && t.phase == R.WaitNonce && t.connected && !t.accepting && t.current.None?
            && t.remoteNonce == t.localNonce == t.finalNonce == [] && t.senderKey.None? && t.senderToken == ""
            && t.pinAttempts == t.providedPINAttempts == 0
            && t.files == [] && t.fileTokens == map[] && t.acceptedIDs == [] && t.controlBuffer == []
            && t.outbox == r.outbox && t.saved == r.saved && t.base == r.base && t.disk == RI.Settled(r)
            && Opened(c, System(S.Fresh(None), FromHere(t)))
  {
    hide HonestPeers, RI.Settled, RI.Alternates, RI.CurrentBounded, RI.DiskExact;
    RI.CleanedDisk(r);
    var t := R.Apply(c.rc, ready, R.Apply(c.rc, offered, r, R.Offer), R.PeerReady);
    FreshConnected(t.disk);
    assert FromHere(t) == R.Fresh(t.disk).(connected := true);
  }

  lemma FreshConnected(disk: map<string, Bytes>)
    ensures RI.Inv(R.Fresh(disk).(connected := true))
  {
  }

  lemma OpenedInv(c: Setup, y: System)
    requires Opened(c, y)
    ensures Inv(c, y)
  {
    assert Wires(c, y, Quiet) && At(c, y.s, y.r, Quiet);
  }

  /** Every step is honest, and the sending thread still waits for the acceptance. */
  ghost predicate HandshakeRun(c: Setup, y: System, steps: seq<Step>)
    decreases |steps|
  {
    steps == []
    || (Enabled(c, y, steps[0]) && HonestStep(c, steps[0]) && !(steps[0].Thread? && steps[0].choice.Accept?)
        && HandshakeRun(c, Next(c, y, steps[0]), steps[1..]))
  }

  function RunHandshake(c: Setup, y: System, steps: seq<Step>): System
    requires HandshakeRun(c, y, steps)
    decreases |steps|
  {
    if steps == [] then y else RunHandshake(c, Next(c, y, steps[0]), steps[1..])
  }

  lemma {:induction false} HandshakeKeepsInv(c: Setup, y: System, steps: seq<Step>)
    requires Inv(c, y) && HandshakeRun(c, y, steps)
    ensures Inv(c, RunHandshake(c, y, steps))
    decreases |steps|
  {
    if steps != [] {
      StepKeepsInv(c, y, steps[0]);
      HandshakeKeepsInv(c, Next(c, y, steps[0]), steps[1..]);
    }
  }

  /** Between honest peers, in every interleaving: no message reaches a branch that did not
      expect it, each side judges at most three wrong PINs, and once the sender is in
      SendingFiles the receiver is in WaitFiles with the same combined nonce and exactly
      the token map the sender was given, which has a token for every file the receiver
      wants and for no other. */
  lemma HandshakeAgreement(c: Setup, y: System, steps: seq<Step>)
    requires Opened(c, y) && HandshakeRun(c, y, steps)
    ensures var z := RunHandshake(c, y, steps);
            && z.s.unexpected == 0 && z.r.unexpected == 0
            && z.r.pinAttempts <= MaxPINAttempts && z.s.requiredPINAttempts <= MaxPINAttempts
            && (z.s.phase == S.SendingFiles ==>
                  && z.r.phase == R.WaitFiles && z.r.connected
                  && z.s.finalNonce == z.r.finalNonce == z.s.localNonce + z.r.localNonce
                  && z.s.accepted == Some(z.r.fileTokens)
                  && z.r.files == OfferedFiles(c)
                  && forall id :: id in z.r.fileTokens <==> Wanted(c, id))
  {
    OpenedInv(c, y);
    HandshakeKeepsInv(c, y, steps);
  }

  // ---------- From the handshake into the transfer ----------

  lemma {:induction false} FirstFileIsFirstEntry(files: seq<S.FileMeta>, id: string)
    ensures First(DtoID, S.Dtos(files), id)
            == if First(S.FileID, files, id).None? then None else Some(S.Dto(First(S.FileID, files, id).value))
    ensures First(S.FileID, files, id).Some? ==>
              S.Describes(First(DtoID, S.Dtos(files), id).value, First(S.FileID, files, id).value)
    decreases |files|
  {
    if files != [] {
      FirstFileIsFirstEntry(files[1..], id);
      assert S.Dtos(files)[1..] == S.Dtos(files[1..]);
    }
  }

  /** The queue holds every accepted ID once, in the order given, with its token and the
      first local file of that ID. */
  lemma {:induction false} QueueExact(files: seq<S.FileMeta>, tokens: map<string, string>, order: seq<string>)
    requires forall i :: 0 <= i < |order| ==> order[i] in tokens && First(S.FileID, files, order[i]).Some?
    ensures var queue := S.SendQueue(files, tokens, order);
            |queue| == |order| && forall i :: 0 <= i < |order| ==>
              queue[i] == S.Sendable(order[i], tokens[order[i]], First(S.FileID, files, order[i]).value)
    decreases |order|
  {
    hide First;
    if order != [] {
      QueueExact(files, tokens, order[..|order| - 1]);
    }
  }

  /** What the sender's phase says once the acceptance has arrived. */
  lemma AcceptedState(c: Setup, y: System)
    requires Inv(c, y) && y.s.accepted.Some?
    ensures y.s.phase == S.SendingFiles && y.r.phase == R.WaitFiles && y.r.connected && Agreed(c, y.r)
    ensures y.s.accepted == Some(y.r.fileTokens) && y.s.fileResults.None? && y.s.dropped == 0
    ensures y.s.outbox == [] && y.r.outbox == [] && y.s.controlBuffer == [] && y.r.controlBuffer == []
    ensures y.r.current.None?
  {
    var talk :| Wires(c, y, talk) && At(c, y.s, y.r, talk);
    assert y.s.phase == S.SendingFiles;
  }

  lemma AcceptedIsListed(c: Setup, r: R.Receiver, id: string)
    requires HonestPeers(c) && Agreed(c, r) && id in r.fileTokens
    ensures First(S.FileID, c.sc.files, id).Some? && id != "" && r.fileTokens[id] != ""
    ensures First(DtoID, r.files, id) == Some(S.Dto(First(S.FileID, c.sc.files, id).value))
  {
    FirstFileIsFirstEntry(c.sc.files, id);
    hide First;
  }

  lemma OrderListed(c: Setup, r: R.Receiver, order: seq<string>)
    requires HonestPeers(c) && Agreed(c, r) && S.IsOrder(order, r.fileTokens)
    ensures forall i :: 0 <= i < |order| ==>
              order[i] in r.fileTokens && First(S.FileID, c.sc.files, order[i]).Some?
  {
    forall i | 0 <= i < |order| ensures order[i] in r.fileTokens && First(S.FileID, c.sc.files, order[i]).Some? {
      assert order[i] in order;
      AcceptedIsListed(c, r, order[i]);
    }
  }

  lemma QueueAgrees(c: Setup, r: R.Receiver, order: seq<string>)
    requires HonestPeers(c) && Agreed(c, r) && S.IsOrder(order, r.fileTokens)
    ensures QueueAgreed(r, S.SendQueue(c.sc.files, r.fileTokens, order))
  {
    OrderListed(c, r, order);
    assert forall i, j :: 0 <= i < j < |order| ==> order[i] != order[j];
    hide S.IsOrder, First, S.Dto, S.SendQueue, HonestPeers, Agreed;
    QueueExact(c.sc.files, r.fileTokens, order);
    var queue := S.SendQueue(c.sc.files, r.fileTokens, order);
    forall i | 0 <= i < |queue|
      ensures queue[i].id != "" && queue[i].token != "" && queue[i].id in r.fileTokens
      ensures r.fileTokens[queue[i].id] == queue[i].token
      ensures First(DtoID, r.files, queue[i].id) == Some(S.Dto(queue[i].file))
    {
      AcceptedIsListed(c, r, order[i]);
    }
  }

  /** The queue covers exactly the accepted files, even if the list repeats IDs. */
  ghost predicate Covers(c: Setup, r: R.Receiver, order: seq<string>, queue: seq<S.Sendable>) {
    |queue| == |order|
    && forall i :: 0 <= i < |order| ==>
         && order[i] in r.fileTokens && First(S.FileID, c.sc.files, order[i]).Some?
         && queue[i] == S.Sendable(order[i], r.fileTokens[order[i]], First(S.FileID, c.sc.files, order[i]).value)
  }

  lemma QueueCovers(c: Setup, r: R.Receiver, order: seq<string>)
    requires HonestPeers(c) && Agreed(c, r) && S.IsOrder(order, r.fileTokens)
    ensures Covers(c, r, order, S.SendQueue(c.sc.files, r.fileTokens, order))
  {
    OrderListed(c, r, order);
    hide First, S.SendQueue, Agreed, HonestPeers, S.IsOrder;
    QueueExact(c.sc.files, r.fileTokens, order);
  }

  /** When Send returns, the transfer starts from agreed tokens, with nothing in flight,
      and its queue covers the accepted files. */
  lemma AcceptanceStartsTransfer(c: Setup, y: System, order: seq<string>)
    requires Inv(c, y) && S.CanGo(y.s, S.Accept(order))
    ensures var z := Next(c, y, Thread(S.Accept(order)));
            Ready(c, z) && Covers(c, y.r, order, z.s.job.queue)
  {
    AcceptedState(c, y);
    QueueAgrees(c, y.r, order);
    QueueCovers(c, y.r, order);
    hide At, Wires, First, S.SendQueue, QueueAgreed, Agreed, Covers;
  }

  lemma WantedIsQueued(c: Setup, y: System, order: seq<string>, id: string) returns (i: nat)
    requires Inv(c, y) && S.CanGo(y.s, S.Accept(order)) && Wanted(c, id)
    ensures i < |order| && order[i] == id && id in y.r.fileTokens
  {
    AcceptedState(c, y);
    hide Inv, Wanted;
    assert id in order;
    i :| 0 <= i < |order| && order[i] == id;
  }

  /** The whole transfer, from the open channel to SendFiles returning nil: every selected
      file with a usable name is on the receiver's disk byte for byte. */
  lemma TransferDelivers(c: Setup, y: System, handshake: seq<Step>, order: seq<string>, transfer: seq<Step>)
    requires Opened(c, y) && HandshakeRun(c, y, handshake)
    requires Enabled(c, RunHandshake(c, y, handshake), Thread(S.Accept(order)))
    requires IsRun(c, Next(c, RunHandshake(c, y, handshake), Thread(S.Accept(order))), transfer)
    ensures var tokens := RunHandshake(c, y, handshake).r.fileTokens;
            var z := Run(c, Next(c, RunHandshake(c, y, handshake), Thread(S.Accept(order))), transfer);
            z.s.job.Finished? ==>
              forall id :: Wanted(c, id) ==>
                && id in tokens && First(S.FileID, c.sc.files, id).Some?
                && Stored(z.r, S.Sendable(id, tokens[id], First(S.FileID, c.sc.files, id).value))
  {
    OpenedInv(c, y);
    HandshakeKeepsInv(c, y, handshake);
    var a := RunHandshake(c, y, handshake);
    AcceptanceStartsTransfer(c, a, order);
    var b := Next(c, a, Thread(S.Accept(order)));
    EndToEndDelivery(c, b, transfer);
    var z := Run(c, b, transfer);
    assert Queue(b.s.job) == b.s.job.queue;
    hide Inv, Next, Run, IsRun, RunHandshake, HandshakeRun, Opened, Wanted, Stored, Ready, Enabled, S.CanGo;
    if z.s.job.Finished? {
      forall id | Wanted(c, id)
        ensures id in a.r.fileTokens && First(S.FileID, c.sc.files, id).Some?
        ensures Stored(z.r, S.Sendable(id, a.r.fileTokens[id], First(S.FileID, c.sc.files, id).value))
      {
        var i := WantedIsQueued(c, a, order, id);
        assert Stored(z.r, b.s.job.queue[i]);
      }
    }
  }
}
