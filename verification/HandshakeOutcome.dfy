/** How a handshake of honest peers ends, and that nothing but the two configurations, the PINs
    and the keys decides it. */
module HandshakeOutcome {
  import opened Wrappers
  import opened RtcMessages
  import opened DataChannel
  import opened Transfer
  import opened Handshake
  import opened HandshakeProgress
  import A = ReceiverAnswers
  import H = Handshake
  import S = RtcSenderSpec
  import R = RtcReceiverSpec
  import RI = ReceiverInvariant

  // ---------- What decides ----------

  /** The key the receiver judged the sender by did not make the sender's token. */
  predicate KeyFails(c: Setup, r: R.Receiver) {
    r.senderKey.Some? && !c.rc.crypto.verify(r.senderKey.value, r.senderToken, r.finalNonce)
  }

  predicate SenderWrong(c: Setup, n: nat) { forall k :: 1 <= k <= n ==> SenderGives(c, k) != c.rc.pin }

  predicate ReceiverWrong(c: Setup, n: nat) {
    forall k :: 1 <= k <= n ==> Some(ReceiverGives(c, k)) != c.sc.requiredPIN
  }

  /** The receiver asks for no PIN, or one of the sender's first three is right. */
  predicate SenderGetsIn(c: Setup) { c.rc.pin == "" || !SenderWrong(c, 3) }

  predicate ReceiverGetsIn(c: Setup) { c.sc.requiredPIN.None? || !ReceiverWrong(c, 3) }

  /** Token and PINs of both sides are good. */
  predicate Passed(c: Setup, r: R.Receiver) { !KeyFails(c, r) && SenderGetsIn(c) && ReceiverGetsIn(c) }

  /** The receiver wants some of at most 10000 files. */
  predicate Selects(c: Setup) { SelectedIDs(c) != [] && |c.sc.files| <= 10000 }

  /** A pairing is required, the sender is not known, and its user declines. */
  predicate PairingFails(c: Setup, r: R.Receiver) {
    c.rc.requirePairing && r.senderKey.None? && !c.sc.acceptPair
  }

  // ---------- What is settled at each point ----------

  predicate NoPINs(s: S.Sender, r: R.Receiver) {
    s.pinAttempts == r.pinAttempts == s.requiredPINAttempts == r.providedPINAttempts == 0
  }

  predicate ToldToken(c: Setup, s: S.Sender, r: R.Receiver, turn: Turn) {
    && NoPINs(s, r)
    && (turn.Sender? ==>
          match r.phase
          case Done => KeyFails(c, r)
          case WaitPin => !KeyFails(c, r) && c.rc.pin != ""
          case WaitFileList => !KeyFails(c, r) && c.rc.pin == ""
          case _ => false)
  }

  predicate ToldPin(c: Setup, s: S.Sender, r: R.Receiver, turn: Turn) {
    && s.requiredPINAttempts == r.providedPINAttempts == 0
    && !KeyFails(c, r) && c.rc.pin != "" && SenderWrong(c, r.pinAttempts)
    && if turn.Receiver? then s.pinAttempts == r.pinAttempts + 1 && r.pinAttempts < 3
       else match r.phase
         case WaitPin => s.pinAttempts == r.pinAttempts < 3
         case WaitFileList => SenderGetsIn(c)
         case _ => r.pinAttempts >= 3
  }

  predicate ToldRequiredPin(c: Setup, s: S.Sender, r: R.Receiver, turn: Turn) {
    && !KeyFails(c, r) && SenderGetsIn(c) && c.sc.requiredPIN.Some?
    && ReceiverWrong(c, s.requiredPINAttempts) && s.requiredPINAttempts < 3
    && r.providedPINAttempts == s.requiredPINAttempts + if turn.Sender? then 1 else 0
  }

  predicate ToldOffer(c: Setup, s: S.Sender, r: R.Receiver, turn: Turn) {
    && Passed(c, r)
    && match r.phase
       case WaitFileList => (turn.Sender? || s.declined ==> !Selects(c)) && (turn.Receiver? ==> !s.declined)
       case WaitPairResponse => !s.declined && Selects(c) && c.rc.requirePairing && r.senderKey.None?
       case WaitFiles => !s.declined && Selects(c) && !PairingFails(c, r)
       case Done => !s.declined && Selects(c) && PairingFails(c, r)
       case _ => false
  }

  predicate Told(c: Setup, s: S.Sender, r: R.Receiver, turn: Turn) {
    && (s.phase != S.WaitFileAccept ==> !s.declined)
    && match s.phase
       case Init => NoPINs(s, r)
       case WaitNonce => NoPINs(s, r)
       case WaitToken => ToldToken(c, s, r, turn)
       case WaitPin => ToldPin(c, s, r, turn)
       case WaitRequiredPIN => ToldRequiredPin(c, s, r, turn)
       case WaitFileAccept => ToldOffer(c, s, r, turn)
       case SendingFiles => Passed(c, r) && Selects(c) && !PairingFails(c, r)
       case Done => !Passed(c, r)
  }

  // ---------- The receiver handles a message ----------

  /** Whose turn it is after the receiver has put `outbox` on its empty channel. */
  function AfterReceiver(outbox: seq<Frame>): Turn { if outbox == [] then Nobody else Turn.Sender }

  function AfterSender(outbox: seq<Frame>): Turn { if outbox == [] then Nobody else Turn.Receiver }

  lemma TellsNonce(c: Setup, env: R.Env, s: S.Sender, r: R.Receiver, j: Json)
    requires HonestPeers(c) && At(c, s, r, ToR(j)) && Cleared(r) && r.phase == R.WaitNonce
    requires Told(c, s, r, Turn.Receiver)
    ensures var t := R.HandleMessage(c.rc, env, r, c.rc.codec.encode(j)); Told(c, s, t, AfterReceiver(t.outbox))
  {
    hide R.HandleMessage, At, HonestPeers, R.HandshakeOnly;
    NonceKnown(c, s, r, j);
    NonceText(c, s.localNonce);
    NonceHandled(c, env, r, c.sc.crypto.encodeNonce(s.localNonce));
    hide NonceMessage;
  }

  lemma TellsToken(c: Setup, env: R.Env, s: S.Sender, r: R.Receiver, j: Json)
    requires HonestPeers(c) && At(c, s, r, ToR(j)) && Cleared(r) && r.phase == R.WaitToken
    requires Told(c, s, r, Turn.Receiver)
    ensures var t := R.HandleMessage(c.rc, env, r, c.rc.codec.encode(j)); Told(c, s, t, AfterReceiver(t.outbox))
  {
    hide R.HandleMessage, At, R.HandshakeOnly, R.HandleToken, A.JudgingKey, TokenRequestMessage,
         TokenResponseMessage;
    TokenRequestKnown(c, s, r, j);
    var token := c.sc.crypto.sign(c.sc.signingKey, s.finalNonce);
    TokenRequestHandled(c, env, r, token);
    A.TokenCases(c.rc, r, token);
  }

  lemma TellsPin(c: Setup, env: R.Env, s: S.Sender, r: R.Receiver, j: Json)
    requires HonestPeers(c) && At(c, s, r, ToR(j)) && Cleared(r) && r.phase == R.WaitPin
    requires Told(c, s, r, Turn.Receiver)
    ensures var t := R.HandleMessage(c.rc, env, r, c.rc.codec.encode(j)); Told(c, s, t, AfterReceiver(t.outbox))
  {
    hide R.HandleMessage, At, HonestPeers, TokensKnown, Told, R.HandlePin;
    var p := PinHandled(c, env, s, r, j);
    Listening(c, s, r, ToR(j));
    PinTold(c, s, r);
  }

  lemma PinCases(c: Setup, r: R.Receiver, p: string)
    requires Cleared(r) && r.phase == R.WaitPin && r.connected
    ensures var t := R.HandlePin(c.rc, r, Pin(p));
            && t == r.(phase := t.phase, connected := t.connected, outbox := t.outbox, pinAttempts := t.pinAttempts)
            && t.outbox != [] && t.pinAttempts == (if p == c.rc.pin then r.pinAttempts else r.pinAttempts + 1)
            && t.phase == if p == c.rc.pin then R.WaitFileList
                          else if t.pinAttempts >= 3 then R.Done else R.WaitPin
  {
    hide R.HandshakeOnly, PinReceivingMessage;
    var r1 := r.(pinAttempts := r.pinAttempts + 1);
    assert R.Terminate(R.Send(c.rc, r1, PinReceivingMessage(TOO_MANY_ATTEMPTS)))
           == R.Send(c.rc, r1, PinReceivingMessage(TOO_MANY_ATTEMPTS)).(phase := R.Done, connected := false);
    hide R.Terminate;
  }

  lemma PinTold(c: Setup, s: S.Sender, r: R.Receiver)
    requires Cleared(r) && r.phase == R.WaitPin && r.connected && s.phase == S.WaitPin && Told(c, s, r, Turn.Receiver)
    ensures var t := R.HandlePin(c.rc, r, Pin(SenderGives(c, s.pinAttempts))); Told(c, s, t, AfterReceiver(t.outbox))
  {
    hide SenderGives, R.HandlePin;
    PinCases(c, r, SenderGives(c, s.pinAttempts));
  }

  lemma SelectedIsChosen(c: Setup)
    ensures SelectedIDs(c) == A.Chosen(c.rc, OfferedFiles(c)) && |OfferedFiles(c)| == |c.sc.files|
  {
    A.AllIDsAre(OfferedFiles(c));
  }

  lemma TellsOffer(c: Setup, env: R.Env, s: S.Sender, r: R.Receiver)
    requires HonestPeers(c) && Cleared(r) && r.phase == R.WaitFileList && r.connected
    requires s.phase == S.WaitFileAccept && Told(c, s, r, Turn.Receiver)
    ensures var j := PinSendingMessage(OK, OfferedFiles(c));
            var t := R.HandleMessage(c.rc, env, r, c.rc.codec.encode(j)); Told(c, s, t, AfterReceiver(t.outbox))
  {
    hide R.HandleMessage, R.HandshakeOnly, R.ReceiveFileList, OfferedFiles, SelectedIDs, A.Chosen, PinSendingMessage,
         FileListResponseMessage, SenderGetsIn, ReceiverGetsIn, R.PrepareTokens, Chunks;
    OfferHandled(c, env, r);
    SelectedIsChosen(c);
    A.OfferCases(c.rc, env, r, OfferedFiles(c));
    var t := R.ReceiveFileList(c.rc, env, r, OfferedFiles(c));
    assert A.AnswerTo(c.rc, r, OfferedFiles(c)) == DECLINED <==> !Selects(c);
    assert KeyFails(c, t) == KeyFails(c, r);
    hide HonestPeers;
  }

  lemma TellsChallenge(c: Setup, env: R.Env, s: S.Sender, r: R.Receiver)
    requires HonestPeers(c) && Cleared(r) && r.phase == R.WaitFileList && r.connected
    requires s.phase == S.WaitRequiredPIN && Told(c, s, r, Turn.Receiver)
    ensures var j := PinSendingMessage(PIN_REQUIRED, []);
            var t := R.HandleMessage(c.rc, env, r, c.rc.codec.encode(j)); Told(c, s, t, AfterReceiver(t.outbox))
  {
    hide R.HandleMessage, PinSendingMessage, PinMessage, SenderGetsIn, ReceiverWrong, R.HandshakeOnly;
    ChallengeHandled(c, env, r);
    hide HonestPeers;
  }

  lemma TellsLockOut(c: Setup, env: R.Env, s: S.Sender, r: R.Receiver)
    requires HonestPeers(c) && Cleared(r) && r.phase == R.WaitFileList
    requires s.phase == S.Done && Told(c, s, r, Turn.Receiver)
    requires At(c, s, r, ToR(PinSendingMessage(TOO_MANY_ATTEMPTS, [])))
    ensures var j := PinSendingMessage(TOO_MANY_ATTEMPTS, []);
            var t := R.HandleMessage(c.rc, env, r, c.rc.codec.encode(j)); Told(c, s, t, AfterReceiver(t.outbox))
  {
    PeerMessagesClassified();
    var j := PinSendingMessage(TOO_MANY_ATTEMPTS, []);
    assert Classify(c.rc.codec, c.rc.codec.encode(j)) == Some((Status(TOO_MANY_ATTEMPTS), j));
    assert R.HandleFileList(c.rc, env, r, Status(TOO_MANY_ATTEMPTS), j) == R.Terminate(r);
    hide At, HonestPeers, SenderGetsIn, ReceiverGetsIn;
  }

  lemma TellsFileList(c: Setup, env: R.Env, s: S.Sender, r: R.Receiver, j: Json)
    requires HonestPeers(c) && At(c, s, r, ToR(j)) && Cleared(r) && r.phase == R.WaitFileList
    requires Told(c, s, r, Turn.Receiver)
    ensures var t := R.HandleMessage(c.rc, env, r, c.rc.codec.encode(j)); Told(c, s, t, AfterReceiver(t.outbox))
  {
    hide R.HandleMessage, HonestPeers, PinSendingMessage, Told, At;
    ToFileList(c, s, r, j);
    Listening(c, s, r, ToR(j));
    if s.phase == S.WaitRequiredPIN {
      TellsChallenge(c, env, s, r);
    } else if s.phase == S.WaitFileAccept {
      TellsOffer(c, env, s, r);
    } else {
      TellsLockOut(c, env, s, r);
    }
  }

  lemma Listening(c: Setup, s: S.Sender, r: R.Receiver, talk: Talk)
    requires At(c, s, r, talk)
    ensures r.connected <==> r.phase != R.Done
  {
  }

  lemma AcceptTells(c: Setup, env: R.Env, s: S.Sender, r: R.Receiver)
    requires Cleared(r) && r.phase == R.WaitPairResponse && r.connected
    requires s.phase == S.WaitFileAccept && !s.declined && Passed(c, r) && Selects(c) && !PairingFails(c, r)
    ensures var t := R.AcceptFiles(c.rc, env, r); Told(c, s, t, AfterReceiver(t.outbox))
  {
    hide R.HandshakeOnly, R.PrepareTokens, FileListResponseMessage, SenderGetsIn, ReceiverGetsIn, Chunks;
    assert KeyFails(c, R.AcceptFiles(c.rc, env, r)) == KeyFails(c, r);
  }

  lemma KeyHolds(c: Setup, s: S.Sender, r: R.Receiver)
    requires HonestPeers(c) && TokensKnown(c, s, r)
    ensures !KeyFails(c, r.(senderKey := Some(c.sc.signingKey)))
  {
    hide Small, Faithful;
  }

  lemma TellsPair(c: Setup, env: R.Env, s: S.Sender, r: R.Receiver, j: Json)
    requires HonestPeers(c) && At(c, s, r, ToR(j)) && Cleared(r) && r.phase == R.WaitPairResponse
    requires Told(c, s, r, Turn.Receiver) && s.phase == S.WaitFileAccept
    ensures var t := R.HandleMessage(c.rc, env, r, c.rc.codec.encode(j)); Told(c, s, t, AfterReceiver(t.outbox))
  {
    hide R.HandleMessage, At, HonestPeers, R.HandshakeOnly, R.AcceptFiles, PairResponseMessage, SenderGetsIn,
         ReceiverGetsIn, TokensKnown, Calm;
    ToPair(c, s, r, j);
    PairHandled(c, env, s, r, j);
    PairTexts(c);
    if c.sc.acceptPair {
      KeyHolds(c, s, r);
      AcceptTells(c, env, s, r.(senderKey := Some(c.sc.signingKey)));
    } else {
      assert R.HandleMessage(c.rc, env, r, c.rc.codec.encode(j)) == R.Terminate(r);
    }
  }

  lemma PairTexts(c: Setup)
    ensures PairResponseMessage(PAIR_DECLINED, "") != PairResponseMessage(OK, c.sc.signingKey)
  {
  }

  lemma ReceiverTells(c: Setup, env: R.Env, s: S.Sender, r: R.Receiver, j: Json)
    requires HonestPeers(c) && At(c, s, r, ToR(j)) && Cleared(r) && Told(c, s, r, Turn.Receiver)
    ensures var t := R.HandleMessage(c.rc, env, r, c.rc.codec.encode(j)); Told(c, s, t, AfterReceiver(t.outbox))
  {
    hide R.HandleMessage, At, HonestPeers, Told;
    RPhases(c, s, r, j);
    match r.phase
    case WaitNonce => TellsNonce(c, env, s, r, j);
    case WaitToken => TellsToken(c, env, s, r, j);
    case WaitPin => TellsPin(c, env, s, r, j);
    case WaitFileList => TellsFileList(c, env, s, r, j);
    case _ => TellsPair(c, env, s, r, j);
  }

  // ---------- The sender handles a message ----------

  lemma HearsNonce(c: Setup, s: S.Sender, r: R.Receiver, j: Json)
    requires HonestPeers(c) && At(c, s, r, ToS(j)) && s.phase == S.WaitNonce && s.outbox == []
    requires Told(c, s, r, Turn.Sender)
    ensures var t := S.HandleMessage(c.sc, s, c.sc.codec.encode(j)); Told(c, t, r, AfterSender(t.outbox))
  {
    PeerMessagesClassified();
    var msg := Nonce(c.sc.crypto.encodeNonce(r.localNonce));
    assert ParseRTCMessage(j) == Some(msg);
    assert S.HandleMessage(c.sc, s, c.sc.codec.encode(j)) == S.HandleNonceResponse(c.sc, s, msg);
    hide At, HonestPeers, S.HandleMessage, ParseRTCMessage, TokenRequestMessage;
  }

  lemma HearsToken(c: Setup, s: S.Sender, r: R.Receiver, j: Json)
    requires HonestPeers(c) && At(c, s, r, ToS(j)) && s.phase in {S.WaitToken, S.WaitPin} && s.outbox == []
    requires Told(c, s, r, Turn.Sender)
    ensures var t := S.HandleMessage(c.sc, s, c.sc.codec.encode(j)); Told(c, t, r, AfterSender(t.outbox))
  {
    hide S.HandleMessage, At, HonestPeers, Calm, TokensKnown, S.Continue, Told;
    var status := TokenHandled(c, s, r, j);
    if status in {INVALID_SIGNATURE, TOO_MANY_ATTEMPTS} {
      RefusalTold(c, s, r);
    } else {
      AnswerTold(c, s.(receiverToken := AsString(j.token).value), r, status, s.receiverToken);
    }
  }

  lemma RefusalTold(c: Setup, s: S.Sender, r: R.Receiver)
    requires s.phase in {S.WaitToken, S.WaitPin} && r.phase == R.Done && s.outbox == [] && Told(c, s, r, Turn.Sender)
    ensures Told(c, S.Fail(s), r, Nobody)
  {
    hide ReceiverGetsIn;
  }

  lemma AnswerTold(c: Setup, s: S.Sender, r: R.Receiver, status: StatusText, before: string)
    requires s.phase in {S.WaitToken, S.WaitPin} && s.outbox == []
    requires Told(c, s.(receiverToken := before), r, Turn.Sender)
    requires (status == PIN_REQUIRED && r.phase == R.WaitPin) || (status == OK && r.phase == R.WaitFileList)
    ensures var t := S.Continue(c.sc, s, Status(status)); Told(c, t, r, AfterSender(t.outbox))
  {
    hide PinSendingMessage, PinMessage, S.Dtos, Chunks, SenderGives, SelectedIDs;
  }

  lemma HearsPin(c: Setup, s: S.Sender, r: R.Receiver, j: Json)
    requires HonestPeers(c) && At(c, s, r, ToS(j)) && s.phase == S.WaitRequiredPIN && s.outbox == []
    requires Told(c, s, r, Turn.Sender)
    ensures var t := S.HandleMessage(c.sc, s, c.sc.codec.encode(j)); Told(c, t, r, AfterSender(t.outbox))
  {
    hide S.HandleMessage, At, HonestPeers, Calm, TokensKnown, Told, S.HandleRequiredPIN;
    var p := RequiredPinHandled(c, s, r, j);
    RequiredPinTold(c, s, r);
  }

  lemma RequiredPinTold(c: Setup, s: S.Sender, r: R.Receiver)
    requires s.phase == S.WaitRequiredPIN && s.outbox == [] && Told(c, s, r, Turn.Sender) && r.phase == R.WaitFileList
    ensures var t := S.HandleRequiredPIN(c.sc, s, Pin(ReceiverGives(c, r.providedPINAttempts)));
            Told(c, t, r, AfterSender(t.outbox))
  {
    hide PinSendingMessage, S.Dtos, Chunks, ReceiverGives, SenderGetsIn, S.HandshakeOnly;
  }

  lemma HearsAnswer(c: Setup, s: S.Sender, r: R.Receiver, j: Json)
    requires HonestPeers(c) && At(c, s, r, ToS(j)) && s.phase == S.WaitFileAccept && s.outbox == []
    requires Told(c, s, r, Turn.Sender)
    ensures var t := S.HandleMessage(c.sc, s, c.sc.codec.encode(j)); Told(c, t, r, AfterSender(t.outbox))
  {
    hide S.HandleMessage, FileListResponseMessage, PairResponseMessage, SenderGetsIn, ReceiverGetsIn, S.HandshakeOnly,
         AtOffer, AtPair, AtAccepted, AtNonce, AtToken, AtPin, AtRequiredPin, Agreed, Faithful, Small;
    ToAcceptance(c, s, r, j);
    if r.phase == R.WaitFileList {
      AcceptanceHandled(c, s, DECLINED, map[], "");
    } else if r.phase == R.WaitPairResponse {
      AcceptanceHandled(c, s, PAIR, map[], c.rc.signingKey);
    } else {
      AcceptanceHandled(c, s, OK, r.fileTokens, "");
    }
  }

  lemma SenderHears(c: Setup, s: S.Sender, r: R.Receiver, j: Json)
    requires HonestPeers(c) && At(c, s, r, ToS(j)) && s.outbox == [] && Told(c, s, r, Turn.Sender)
    ensures var t := S.HandleMessage(c.sc, s, c.sc.codec.encode(j)); Told(c, t, r, AfterSender(t.outbox))
  {
    hide S.HandleMessage, At, HonestPeers, Told;
    SPhases(c, s, r, j);
    match s.phase
    case WaitNonce => HearsNonce(c, s, r, j);
    case WaitRequiredPIN => HearsPin(c, s, r, j);
    case WaitFileAccept => HearsAnswer(c, s, r, j);
    case _ => HearsToken(c, s, r, j);
  }

  // ---------- Steps ----------

  ghost predicate Standing(c: Setup, y: System, talk: Talk) {
    H.Standing(c, y, talk) && Told(c, y.s, y.r, TurnOf(talk))
  }

  ghost predicate Inv(c: Setup, y: System) { HonestPeers(c) && exists talk :: Standing(c, y, talk) }

  lemma InvMeans(c: Setup, y: System)
    requires Inv(c, y)
    ensures H.Inv(c, y)
  {
    hide HonestPeers, RI.Inv, Wires, At;
    var talk :| Standing(c, y, talk);
    assert Wires(c, y, talk) && At(c, y.s, y.r, talk);
  }

  /** What is settled does not depend on the channels. */
  lemma ToldIgnoresWires(c: Setup, s: S.Sender, r: R.Receiver, t: S.Sender, q: R.Receiver, turn: Turn)
    requires Told(c, s, r, turn)
    requires t == s.(outbox := t.outbox, controlBuffer := t.controlBuffer, failed := t.failed)
    requires q == r.(outbox := q.outbox, controlBuffer := q.controlBuffer)
    ensures Told(c, t, q, turn)
  {
    hide SenderGetsIn, ReceiverGetsIn, SenderWrong, ReceiverWrong, SelectedIDs;
    assert KeyFails(c, q) == KeyFails(c, r);
  }

  lemma ReceiverChunkTold(c: Setup, y: System, env: R.Env, j: Json)
    requires Standing(c, y, ToR(j)) && HonestPeers(c) && y.s.outbox != [] && Enabled(c, y, ToReceiver(env))
    requires ControlStep(y.r.controlBuffer, y.s.outbox[0]).1 == None
    ensures Standing(c, Next(c, y, ToReceiver(env)), ToR(j))
  {
    hide HonestPeers, At, RI.Inv, Told, Carries;
    assert Faithful(c.sc.codec) by { CodecGood(c); }
    WiresToReceiver(c, y, j);
    ReceiverReady(c, y, j);
    CarryStep(c.sc.codec, y.s.outbox, y.r.controlBuffer, j);
    ToReceiverChunk(c, y, env, j);
    var z := Next(c, y, ToReceiver(env));
    ToldIgnoresWires(c, y.s, y.r, z.s, z.r, Turn.Receiver);
  }

  lemma CodecGood(c: Setup)
    requires HonestPeers(c)
    ensures Faithful(c.sc.codec)
  {
  }

  lemma WiresToReceiver(c: Setup, y: System, j: Json)
    requires Wires(c, y, ToR(j))
    ensures Carries(c.sc.codec, y.s.outbox, y.r.controlBuffer, j) && y.r.outbox == [] && y.s.controlBuffer == []
  {
  }

  lemma WiresToSender(c: Setup, y: System, j: Json)
    requires Wires(c, y, ToS(j))
    ensures Carries(c.sc.codec, y.r.outbox, y.s.controlBuffer, j) && y.s.outbox == [] && y.r.controlBuffer == []
  {
  }

  lemma ReceiverMessageTold(c: Setup, y: System, env: R.Env, j: Json) returns (talk: Talk)
    requires Standing(c, y, ToR(j)) && HonestPeers(c) && HonestStep(c, ToReceiver(env)) && y.s.outbox != []
    requires Enabled(c, y, ToReceiver(env)) && y.s.outbox[1..] == []
    requires ControlStep(y.r.controlBuffer, y.s.outbox[0]) == ([], Some(c.sc.codec.encode(j)))
    ensures Standing(c, Next(c, y, ToReceiver(env)), talk)
  {
    hide HonestPeers, HonestStep, At, RI.Inv, Told, Carries, Next, R.HandleMessage, Enabled, Moves;
    WiresToReceiver(c, y, j);
    ReceiverReady(c, y, j);
    talk := ToReceiverMessage(c, y, env, j);
    ReceiverTakes(c, y, env, c.sc.codec.encode(j));
    var s1, r1 := y.s.(outbox := [], controlBuffer := []), y.r.(outbox := [], controlBuffer := []);
    AtIgnoresWires(c, y.s, y.r, ToR(j), [], [], [], []);
    ToldIgnoresWires(c, y.s, y.r, s1, r1, Turn.Receiver);
    ReceiverTells(c, env, s1, r1, j);
    WiresTurn(c, Next(c, y, ToReceiver(env)), talk);
  }

  lemma ToReceiverTold(c: Setup, y: System, env: R.Env, j: Json)
    requires Standing(c, y, ToR(j)) && HonestPeers(c) && HonestStep(c, ToReceiver(env))
    requires Enabled(c, y, ToReceiver(env))
    ensures Inv(c, Next(c, y, ToReceiver(env)))
  {
    hide HonestStep, At, RI.Inv, Told, Carries, Next;
    WiresToReceiver(c, y, j);
    CarryStep(c.sc.codec, y.s.outbox, y.r.controlBuffer, j);
    if ControlStep(y.r.controlBuffer, y.s.outbox[0]).1 == None {
      ReceiverChunkTold(c, y, env, j);
    } else {
      var talk := ReceiverMessageTold(c, y, env, j);
    }
    hide Standing, HonestPeers;
  }

  lemma SenderChunkTold(c: Setup, y: System, j: Json)
    requires Standing(c, y, ToS(j)) && HonestPeers(c) && y.r.outbox != [] && Enabled(c, y, ToSender)
    requires ControlStep(y.s.controlBuffer, y.r.outbox[0]).1 == None
    ensures Standing(c, Next(c, y, ToSender), ToS(j))
  {
    hide HonestPeers, At, RI.Inv, Told, Carries;
    assert Faithful(c.sc.codec) by { CodecGood(c); }
    WiresToSender(c, y, j);
    CarryStep(c.sc.codec, y.r.outbox, y.s.controlBuffer, j);
    ToSenderChunk(c, y, j);
    var z := Next(c, y, ToSender);
    ToldIgnoresWires(c, y.s, y.r, z.s, z.r, Turn.Sender);
  }

  lemma SenderMessageTold(c: Setup, y: System, j: Json) returns (talk: Talk)
    requires Standing(c, y, ToS(j)) && HonestPeers(c) && y.r.outbox != [] && Enabled(c, y, ToSender)
    requires y.r.outbox[1..] == []
    requires ControlStep(y.s.controlBuffer, y.r.outbox[0]) == ([], Some(c.sc.codec.encode(j)))
    ensures Standing(c, Next(c, y, ToSender), talk)
  {
    hide HonestPeers, At, RI.Inv, Told, Carries, Next, S.HandleMessage, Enabled, Moves;
    WiresToSender(c, y, j);
    talk := ToSenderMessage(c, y, j);
    SenderTakes(c, y, c.sc.codec.encode(j));
    var s1, r1 := y.s.(outbox := [], controlBuffer := []), y.r.(outbox := [], controlBuffer := []);
    AtIgnoresWires(c, y.s, y.r, ToS(j), [], [], [], []);
    ToldIgnoresWires(c, y.s, y.r, s1, r1, Turn.Sender);
    SenderHears(c, s1, r1, j);
    WiresTurn(c, Next(c, y, ToSender), talk);
  }

  lemma ToSenderTold(c: Setup, y: System, j: Json)
    requires Standing(c, y, ToS(j)) && HonestPeers(c) && Enabled(c, y, ToSender)
    ensures Inv(c, Next(c, y, ToSender))
  {
    hide At, RI.Inv, Told, Carries, Next;
    WiresToSender(c, y, j);
    CarryStep(c.sc.codec, y.r.outbox, y.s.controlBuffer, j);
    if ControlStep(y.s.controlBuffer, y.r.outbox[0]).1 == None {
      SenderChunkTold(c, y, j);
    } else {
      var talk := SenderMessageTold(c, y, j);
    }
    hide Standing, HonestPeers;
  }

  lemma StartTold(c: Setup, y: System, nonce: Bytes)
    requires Standing(c, y, Quiet) && HonestPeers(c) && Enabled(c, y, StartNonce(nonce)) && |nonce| == 32
    ensures Inv(c, Next(c, y, StartNonce(nonce)))
  {
    hide HonestPeers, At, RI.Inv, Wires;
    StartStep(c, y, nonce);
    var z := Next(c, y, StartNonce(nonce));
    var talk :| Wires(c, z, talk) && At(c, z.s, z.r, talk);
    assert Told(c, z.s, z.r, TurnOf(talk)) by { hide SelectedIDs; }
    assert Standing(c, z, talk);
  }

  lemma GiveUpTold(c: Setup, y: System, talk: Talk)
    requires Standing(c, y, talk) && HonestPeers(c) && S.CanGo(y.s, S.GiveUp) && Enabled(c, y, Thread(S.GiveUp))
    ensures Inv(c, Next(c, y, Thread(S.GiveUp)))
  {
    hide HonestPeers, At, RI.Inv, Carries, Told;
    var z := Next(c, y, Thread(S.GiveUp));
    AtIgnoresGivingUp(c, y.s, y.r, talk);
    assert z == y.(s := y.s.(failed := true));
    ToldIgnoresWires(c, y.s, y.r, z.s, z.r, TurnOf(talk));
    assert Standing(c, z, talk);
  }

  lemma StepTold(c: Setup, y: System, step: Step)
    requires Inv(c, y) && Enabled(c, y, step) && HonestStep(c, step)
    requires !(step.Thread? && step.choice.Accept?)
    ensures Inv(c, Next(c, y, step))
  {
    hide HonestPeers, RI.Inv, Told;
    var talk :| Standing(c, y, talk);
    match step
    case StartNonce(nonce) => assert talk == Quiet; StartTold(c, y, nonce); hide *;
    case ToReceiver(env) => assert talk.ToR?; ToReceiverTold(c, y, env, talk.j); hide *;
    case ToSender => assert talk.ToS?; ToSenderTold(c, y, talk.j); hide *;
    case Thread(choice) => GiveUpTold(c, y, talk); hide *;
  }

  lemma {:induction false} RunTold(c: Setup, y: System, steps: seq<Step>)
    requires Inv(c, y) && HandshakeRun(c, y, steps)
    ensures Inv(c, RunHandshake(c, y, steps))
    decreases |steps|
  {
    if steps != [] {
      StepTold(c, y, steps[0]);
      hide Inv, Next, Enabled;
      RunTold(c, Next(c, y, steps[0]), steps[1..]);
    }
  }

  lemma OpenedTold(c: Setup, y: System)
    requires Opened(c, y)
    ensures Inv(c, y)
  {
    assert Wires(c, y, Quiet) && At(c, y.s, y.r, Quiet);
    hide RI.Inv, HonestPeers, At, Wires;
    assert Told(c, y.s, y.r, Nobody);
    assert Standing(c, y, Quiet);
  }

  // ---------- The end ----------

  /** Silence after the beginning: what was settled decides which end it is. */
  lemma SilenceTells(c: Setup, s: S.Sender, r: R.Receiver)
    requires At(c, s, r, Quiet) && Told(c, s, r, Nobody) && s.phase != S.Init
    ensures s.accepted.Some? <==> Passed(c, r) && Selects(c) && !PairingFails(c, r)
    ensures s.declined <==> Passed(c, r) && !Selects(c)
    ensures r.phase == R.Done <==> !Passed(c, r) || (Selects(c) && PairingFails(c, r))
  {
    hide SenderGetsIn, ReceiverGetsIn, SelectedIDs, KeyFails, TokensKnown, Agreed;
  }

  lemma EndsQuiet(c: Setup, y: System, env: R.Env, nonce: Bytes)
    requires Inv(c, y) && HonestStep(c, ToReceiver(env)) && HonestStep(c, StartNonce(nonce))
    requires !CanStep(c, y, env, nonce)
    ensures At(c, y.s, y.r, Quiet) && Told(c, y.s, y.r, Nobody) && y.s.phase != S.Init
    ensures y.s.accepted.Some? ==> y.s.job == S.AwaitingAcceptance
  {
    assert HonestStep(c, ToSender);
    hide HonestStep, HonestPeers, Told, Carries;
    var talk :| Standing(c, y, talk);
    assert RI.Inv(y.r);
    assert Enabled(c, y, ToReceiver(env)) <==> y.s.outbox != [];
    assert Enabled(c, y, ToSender) <==> y.r.outbox != [];
    assert Enabled(c, y, StartNonce(nonce)) <==> y.s.phase == S.Init;
    hide RI.Inv, Enabled;
    WiresTurn(c, y, talk);
    assert talk == Quiet;
  }

  /** Between honest peers, in every interleaving: when nothing can move any more and the sender
      has not given up, Send returns the accepted files exactly if token and PINs were good, some
      of at most 10000 files are selected, and the pairing, if one was needed, was agreed to; the
      offer is declined exactly if token and PINs were good and nothing is selected or too much
      offered; and the receiver has closed the session in all other cases. */
  lemma HandshakeOutcome(c: Setup, y: System, steps: seq<Step>, env: R.Env, nonce: Bytes)
    requires Opened(c, y) && HandshakeRun(c, y, steps)
    requires HonestStep(c, ToReceiver(env)) && HonestStep(c, StartNonce(nonce))
    requires var z := RunHandshake(c, y, steps); !CanStep(c, z, env, nonce) && !z.s.failed
    ensures var z := RunHandshake(c, y, steps);
            && (CanAccept(z.s) <==> Passed(c, z.r) && Selects(c) && !PairingFails(c, z.r))
            && (z.s.declined <==> Passed(c, z.r) && !Selects(c))
            && (z.r.phase == R.Done <==> !Passed(c, z.r) || (Selects(c) && PairingFails(c, z.r)))
  {
    hide Inv, Opened, HonestStep, CanStep, Passed, Selects, PairingFails, Told, At;
    OpenedTold(c, y);
    RunTold(c, y, steps);
    var z := RunHandshake(c, y, steps);
    hide RunHandshake, HandshakeRun;
    EndsQuiet(c, z, env, nonce);
    SilenceTells(c, z.s, z.r);
    if z.s.accepted.Some? {
      var order := OrderExists(z.s.accepted.value);
      assert S.CanGo(z.s, S.Accept(order));
    }
  }
}
