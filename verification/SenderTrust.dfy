/** Whom the sender sends its files to and whose key it keeps, whatever the receiver sends. */
module SenderTrust {
  import opened Wrappers
  import opened RtcMessages
  import opened DataChannel
  import opened RtcSenderSpec

  // ---------- Runs against any receiver ----------

  datatype Event =
    | Open(nonce: Bytes)                 // the data channel opens
    | Message(frame: Frame)
    | Thread(choice: Choice)
    | PeerClosed

  ghost predicate Possible(s: Sender, e: Event) {
    && (e.Open? ==> s.phase == Init)
    && (e.Thread? ==> CanGo(s, e.choice))
  }

  /** Nothing is taken off `outbox` here: it holds all that was ever sent. */
  function Apply(cfg: Config, s: Sender, e: Event): Sender
    requires Possible(s, e)
  {
    match e
    case Open(nonce) => StartNonceExchange(cfg, nonce, s)
    case Message(frame) => HandleFrame(cfg, s, frame)
    case Thread(choice) => Advance(cfg, s, choice)
    case PeerClosed => if s.phase == Done then s else Fail(s)
  }

  ghost predicate IsRun(cfg: Config, s: Sender, events: seq<Event>)
    decreases |events|
  {
    events == [] || (Possible(s, events[0]) && IsRun(cfg, Apply(cfg, s, events[0]), events[1..]))
  }

  function Run(cfg: Config, s: Sender, events: seq<Event>): Sender
    requires IsRun(cfg, s, events)
    decreases |events|
  {
    if events == [] then s else Run(cfg, Apply(cfg, s, events[0]), events[1..])
  }

  // ---------- What the receiver has shown ----------

  /** The message that event `e` completes. */
  function Heard(cfg: Config, s: Sender, e: Event): Option<(Msg, Json)> {
    if !e.Message? then None
    else
      var message := ControlStep(s.controlBuffer, e.frame).1;
      if message.None? then None else Classify(cfg.codec, message.value)
  }

  /** The token of a positive token response. */
  function TokenIn(msg: Msg, j: Json): Option<string> {
    if msg == Status(OK) || msg == Status(PIN_REQUIRED) then AsString(j.token) else None
  }

  /** The token that event `e` delivers while the sender waits for one. */
  function TokenHeard(cfg: Config, s: Sender, e: Event): Option<string> {
    var heard := Heard(cfg, s, e);
    if s.phase !in {WaitToken, WaitPin} || heard.None? then None else TokenIn(heard.value.0, heard.value.1)
  }

  /** A token of the receiver with key `key` arrives. */
  predicate Proves(cfg: Config, s: Sender, e: Event, key: string) {
    TokenHeard(cfg, s, e).Some? && cfg.crypto.verify(key, TokenHeard(cfg, s, e).value, s.finalNonce)
  }

  /** The required PIN arrives while the sender waits for it. */
  predicate GivesPin(cfg: Config, s: Sender, e: Event) {
    && s.phase == WaitRequiredPIN && Heard(cfg, s, e).Some?
    && RightPin(cfg, Heard(cfg, s, e).value.0)
  }

  predicate RightPin(cfg: Config, msg: Msg) { msg.Pin? && cfg.requiredPIN == Some(msg.pin) }

  /** What a run has shown: the token of the last positive token response, whether some token
      was the expected receiver's, and whether the required PIN was given. */
  datatype Shown = Shown(token: Option<string>, proved: bool, pin: bool)

  const Nothing := Shown(None, false, false)

  function ShownAfter(cfg: Config, expected: Option<string>, s: Sender, h: Shown, e: Event): Shown {
    Shown(if TokenHeard(cfg, s, e).Some? then TokenHeard(cfg, s, e) else h.token,
          h.proved || (expected.Some? && Proves(cfg, s, e, expected.value)),
          h.pin || GivesPin(cfg, s, e))
  }

  function ShownBy(cfg: Config, expected: Option<string>, s: Sender, h: Shown, events: seq<Event>): Shown
    requires IsRun(cfg, s, events)
    decreases |events|
  {
    if events == [] then h
    else ShownBy(cfg, expected, Apply(cfg, s, events[0]), ShownAfter(cfg, expected, s, h, events[0]), events[1..])
  }

  // ---------- What every state owes to it ----------

  predicate BeforeList(p: Phase) { p in {Init, WaitNonce, WaitToken, WaitPin, WaitRequiredPIN} }

  /** The file list is out, as every later step presupposes. */
  predicate Listed(s: Sender) {
    s.phase in {WaitFileAccept, SendingFiles} || s.accepted.Some? || s.job != AwaitingAcceptance
  }

  /** The last token received is the expected receiver's. */
  predicate Trusted(cfg: Config, expected: Option<string>, s: Sender) {
    expected.Some? ==> cfg.crypto.verify(expected.value, s.receiverToken, s.finalNonce)
  }

  /** A key that came with a pair request signed the last token received, if there was one. */
  predicate KeyFits(cfg: Config, expected: Option<string>, s: Sender) {
    s.receiverKey.Some? && s.receiverKey != expected ==>
      && cfg.acceptPair && cfg.crypto.keyParses(s.receiverKey.value)
      && (s.receiverToken == "" || Signed(cfg, s, s.receiverKey.value))
  }

  /** Frames sent before any token of the receiver is known: the nonce and the own token. */
  function Opening(p: Phase): nat { if p == Init then 0 else if p == WaitNonce then 1 else 2 }

  predicate Earned(cfg: Config, expected: Option<string>, s: Sender, h: Shown) {
    && (if h.token.Some? then s.receiverToken == h.token.value
        else s.receiverToken == "" && !Listed(s) && s.phase !in {WaitPin, WaitRequiredPIN})
    && (BeforeList(s.phase) ==> s.receiverKey == expected && !Listed(s))
    && (s.phase in {WaitPin, WaitRequiredPIN} || Listed(s) ==>
          Trusted(cfg, expected, s) && (expected.None? || h.proved))
    && (Listed(s) ==> cfg.requiredPIN.None? || h.pin)
    && (|s.outbox| <= Opening(s.phase) || expected.None? || h.proved)
    && (s.phase in {Init, WaitNonce} ==> h.token.None? && |s.outbox| <= Opening(s.phase))
    && KeyFits(cfg, expected, s)
  }

  // ---------- One event ----------

  lemma NonceEarned(cfg: Config, expected: Option<string>, s: Sender, h: Shown, msg: Msg)
    requires Earned(cfg, expected, s, h) && s.phase == WaitNonce
    ensures Earned(cfg, expected, HandleNonceResponse(cfg, s, msg), h)
  {
    hide HandshakeOnly, TokenRequestMessage;
  }

  lemma TokenEarned(cfg: Config, expected: Option<string>, s: Sender, h: Shown, g: Shown, msg: Msg, j: Json)
    requires Earned(cfg, expected, s, h) && s.phase in {WaitToken, WaitPin}
    requires g.token == (if TokenIn(msg, j).Some? then TokenIn(msg, j) else h.token) && g.pin == h.pin
    requires g.proved <==> h.proved || (expected.Some? && TokenIn(msg, j).Some?
                                        && cfg.crypto.verify(expected.value, TokenIn(msg, j).value, s.finalNonce))
    ensures Earned(cfg, expected, HandleTokenResponse(cfg, s, msg, j), g)
  {
    hide HandshakeOnly, HandleTokenResponse, Continue;
    TokenResponseJudged(cfg, s, msg, j);
    TokenChanges(cfg, s, msg, j);
  }

  /** The fields a token response leaves alone. */
  lemma TokenChanges(cfg: Config, s: Sender, msg: Msg, j: Json)
    ensures var t := HandleTokenResponse(cfg, s, msg, j);
            && t.accepted == s.accepted && t.job == s.job && t.receiverKey == s.receiverKey
            && (TokenIn(msg, j).None? ==> t.receiverToken == s.receiverToken)
  {
    hide HandshakeOnly, PinMessage, PinSendingMessage, BeginFileListPhase;
    if AsString(j.token).Some? {
      FileListPhaseSends(cfg, s.(receiverToken := AsString(j.token).value));
    }
  }

  lemma PinEarned(cfg: Config, expected: Option<string>, s: Sender, h: Shown, g: Shown, msg: Msg)
    requires Earned(cfg, expected, s, h) && s.phase == WaitRequiredPIN
    requires g.token == h.token && g.proved == h.proved && (g.pin <==> h.pin || RightPin(cfg, msg))
    ensures Earned(cfg, expected, HandleRequiredPIN(cfg, s, msg), g)
  {
    hide HandshakeOnly, PinSendingMessage, Dtos, Chunks;
  }

  lemma AcceptanceEarned(cfg: Config, expected: Option<string>, s: Sender, h: Shown, msg: Msg, j: Json)
    requires Earned(cfg, expected, s, h) && s.phase == WaitFileAccept
    ensures Earned(cfg, expected, HandleFileAcceptance(cfg, s, msg, j), h)
  {
    hide HandshakeOnly, PairResponseMessage, HandlePairRequest;
    if AsString(j.publicKey).Some? {
      PairEarned(cfg, expected, s, h, AsString(j.publicKey).value);
    }
  }

  lemma PairEarned(cfg: Config, expected: Option<string>, s: Sender, h: Shown, key: string)
    requires Earned(cfg, expected, s, h) && s.phase == WaitFileAccept
    ensures Earned(cfg, expected, HandlePairRequest(cfg, s, key), h)
  {
    hide HandshakeOnly, PairResponseMessage;
  }

  /** Nothing trust depends on has moved; or the session has failed, or the file loop has
      gone on. */
  predicate SameTrust(s: Sender, t: Sender) {
    && t.receiverToken == s.receiverToken && t.finalNonce == s.finalNonce && t.receiverKey == s.receiverKey
    && (t.phase == s.phase || t.phase == Done)
    && (Listed(t) ==> Listed(s)) && (t.outbox == s.outbox || Listed(s))
  }

  lemma SameTrustEarned(cfg: Config, expected: Option<string>, s: Sender, h: Shown, t: Sender)
    requires Earned(cfg, expected, s, h) && SameTrust(s, t)
    ensures Earned(cfg, expected, t, h)
  {
  }

  lemma AckSame(s: Sender, ack: Ack)
    ensures SameTrust(s, HandleFileResponse(s, ack))
  {
  }

  lemma ThreadSame(cfg: Config, s: Sender, choice: Choice)
    requires CanGo(s, choice)
    ensures SameTrust(s, Advance(cfg, s, choice))
  {
    hide Header, Boundary, SendQueue, IsOrder;
    match choice
    case Accept(_) =>
    case GiveUp =>
    case Go(size) =>
      match s.job
      case Starting(_) =>
      case SendingFrames(_, _, _) =>
      case AwaitingAck(_, _) =>
      case Flushing(_) =>
  }

  lemma MessageEarned(cfg: Config, expected: Option<string>, s: Sender, h: Shown, g: Shown, msg: Msg, j: Json)
    requires Earned(cfg, expected, s, h)
    requires var token := if s.phase in {WaitToken, WaitPin} then TokenIn(msg, j) else None;
             && g.token == (if token.Some? then token else h.token)
             && (g.proved <==> h.proved || (expected.Some? && token.Some?
                                            && cfg.crypto.verify(expected.value, token.value, s.finalNonce)))
             && (g.pin <==> h.pin || (s.phase == WaitRequiredPIN && RightPin(cfg, msg)))
    requires !msg.FileResponse?
    ensures Earned(cfg, expected, Dispatch(cfg, s, msg, j), g)
  {
    hide Earned, HandleNonceResponse, HandleTokenResponse, HandleRequiredPIN, HandleFileAcceptance, RightPin, TokenIn;
    assert s.phase !in {WaitToken, WaitPin, WaitRequiredPIN} ==> g == h;
    match s.phase
    case WaitNonce => NonceEarned(cfg, expected, s, h, msg);
    case WaitToken => TokenEarned(cfg, expected, s, h, g, msg, j);
    case WaitPin => TokenEarned(cfg, expected, s, h, g, msg, j);
    case WaitRequiredPIN => PinEarned(cfg, expected, s, h, g, msg);
    case WaitFileAccept => AcceptanceEarned(cfg, expected, s, h, msg, j);
    case _ =>
  }

  /** What a message other than an acknowledgement does. */
  function Dispatch(cfg: Config, s: Sender, msg: Msg, j: Json): Sender {
    match s.phase
    case WaitNonce => HandleNonceResponse(cfg, s, msg)
    case WaitToken => HandleTokenResponse(cfg, s, msg, j)
    case WaitPin => HandleTokenResponse(cfg, s, msg, j)
    case WaitRequiredPIN => HandleRequiredPIN(cfg, s, msg)
    case WaitFileAccept => HandleFileAcceptance(cfg, s, msg, j)
    case _ => s
  }

  lemma MessageHandled(cfg: Config, s: Sender, data: Bytes)
    ensures HandleMessage(cfg, s, data)
            == match Classify(cfg.codec, data)
               case None => Unexpected(s)
               case Some((msg, j)) =>
                 if msg.FileResponse? then HandleFileResponse(s, Ack(msg.id, msg.success, msg.error))
                 else Dispatch(cfg, s, msg, j)
  {
    hide HandleNonceResponse, HandleTokenResponse, HandleRequiredPIN, HandleFileAcceptance, HandleFileResponse,
         ParseRTCMessage;
  }

  lemma FrameEarned(cfg: Config, expected: Option<string>, s: Sender, h: Shown, frame: Frame)
    requires Earned(cfg, expected, s, h)
    ensures Earned(cfg, expected, HandleFrame(cfg, s, frame), ShownAfter(cfg, expected, s, h, Message(frame)))
  {
    hide Earned, HandleMessage, Dispatch, Classify, SameTrust, TokenIn, RightPin, HandleFileResponse;
    var (buffer, message) := ControlStep(s.controlBuffer, frame);
    var s1, g := s.(controlBuffer := buffer), ShownAfter(cfg, expected, s, h, Message(frame));
    assert SameTrust(s, s1) by { BufferSame(s, buffer); }
    SameTrustEarned(cfg, expected, s, h, s1);
    if message.Some? {
      MessageHandled(cfg, s1, message.value);
      match Classify(cfg.codec, message.value) {
        case None =>
          UnexpectedSame(s1);
          SameTrustEarned(cfg, expected, s1, h, Unexpected(s1));
          assert g == h;
        case Some((msg, j)) =>
          if msg.FileResponse? {
            var ack := Ack(msg.id, msg.success, msg.error);
            AckSame(s1, ack);
            SameTrustEarned(cfg, expected, s1, h, HandleFileResponse(s1, ack));
            AckShowsNothing(cfg, msg, j);
            assert g == h;
          } else {
            MessageEarned(cfg, expected, s1, h, g, msg, j);
          }
      }
    } else {
      assert g == h;
    }
  }

  lemma BufferSame(s: Sender, buffer: Bytes)
    ensures SameTrust(s, s.(controlBuffer := buffer))
  {
  }

  lemma UnexpectedSame(s: Sender)
    ensures SameTrust(s, Unexpected(s))
  {
  }

  lemma AckShowsNothing(cfg: Config, msg: Msg, j: Json)
    requires msg.FileResponse?
    ensures TokenIn(msg, j).None? && !RightPin(cfg, msg)
  {
  }

  lemma OpenEarned(cfg: Config, expected: Option<string>, s: Sender, h: Shown, nonce: Bytes)
    requires Earned(cfg, expected, s, h) && s.phase == Init
    ensures Earned(cfg, expected, StartNonceExchange(cfg, nonce, s), h)
  {
  }

  lemma EventEarned(cfg: Config, expected: Option<string>, s: Sender, h: Shown, e: Event)
    requires Earned(cfg, expected, s, h) && Possible(s, e)
    ensures Earned(cfg, expected, Apply(cfg, s, e), ShownAfter(cfg, expected, s, h, e))
  {
    hide Earned, HandleFrame, Advance, CanGo, StartNonceExchange;
    match e
    case Open(nonce) => OpenEarned(cfg, expected, s, h, nonce);
    case Message(frame) => FrameEarned(cfg, expected, s, h, frame);
    case Thread(choice) =>
      ThreadSame(cfg, s, choice);
      SameTrustEarned(cfg, expected, s, h, Advance(cfg, s, choice));
    case PeerClosed =>
      if s.phase != Done {
        SameTrustEarned(cfg, expected, s, h, Fail(s));
      }
  }

  // ---------- Whole runs ----------

  lemma {:induction false} RunEarned(cfg: Config, expected: Option<string>, s: Sender, h: Shown, events: seq<Event>)
    requires Earned(cfg, expected, s, h) && IsRun(cfg, s, events)
    ensures Earned(cfg, expected, Run(cfg, s, events), ShownBy(cfg, expected, s, h, events))
    decreases |events|
  {
    hide Earned, Apply, ShownAfter, Possible;
    if events != [] {
      EventEarned(cfg, expected, s, h, events[0]);
      RunEarned(cfg, expected, Apply(cfg, s, events[0]), ShownAfter(cfg, expected, s, h, events[0]), events[1..]);
    }
  }

  /** At event `k` of the run the property `shows` holds of the state and the event. */
  ghost predicate At(cfg: Config, s: Sender, events: seq<Event>, k: nat, shows: (Sender, Event) -> bool)
    requires IsRun(cfg, s, events)
    decreases |events|
  {
    k < |events|
    && if k == 0 then shows(s, events[0]) else At(cfg, Apply(cfg, s, events[0]), events[1..], k - 1, shows)
  }

  function Proving(cfg: Config, key: string): (Sender, Event) -> bool {
    (s: Sender, e: Event) => Proves(cfg, s, e, key)
  }

  function Pinning(cfg: Config): (Sender, Event) -> bool { (s: Sender, e: Event) => GivesPin(cfg, s, e) }

  /** Something that holds at an event of the rest of a run holds at an event of the run. */
  lemma AtLater(cfg: Config, s: Sender, events: seq<Event>, shows: (Sender, Event) -> bool)
    requires IsRun(cfg, s, events) && events != []
    requires shows(s, events[0]) || exists k :: At(cfg, Apply(cfg, s, events[0]), events[1..], k, shows)
    ensures exists k :: At(cfg, s, events, k, shows)
  {
    hide Apply;
    if shows(s, events[0]) {
      assert At(cfg, s, events, 0, shows);
    } else {
      var k: nat :| At(cfg, Apply(cfg, s, events[0]), events[1..], k, shows);
      assert At(cfg, s, events, k + 1, shows);
    }
  }

  /** What has been shown was shown at some event of the run, or before. */
  lemma {:induction false} PinShown(cfg: Config, expected: Option<string>, s: Sender, h: Shown, events: seq<Event>)
    requires IsRun(cfg, s, events) && ShownBy(cfg, expected, s, h, events).pin && !h.pin
    ensures exists k :: At(cfg, s, events, k, Pinning(cfg))
    decreases |events|
  {
    hide Apply, GivesPin, Proves, TokenHeard, At;
    var t, g := Apply(cfg, s, events[0]), ShownAfter(cfg, expected, s, h, events[0]);
    assert Pinning(cfg)(s, events[0]) == GivesPin(cfg, s, events[0]);
    if !g.pin {
      PinShown(cfg, expected, t, g, events[1..]);
    }
    AtLater(cfg, s, events, Pinning(cfg));
  }

  lemma {:induction false} ProofShown(cfg: Config, key: string, s: Sender, h: Shown, events: seq<Event>)
    requires IsRun(cfg, s, events) && ShownBy(cfg, Some(key), s, h, events).proved && !h.proved
    ensures exists k :: At(cfg, s, events, k, Proving(cfg, key))
    decreases |events|
  {
    hide Apply, GivesPin, Proves, TokenHeard, At;
    var t, g := Apply(cfg, s, events[0]), ShownAfter(cfg, Some(key), s, h, events[0]);
    assert Proving(cfg, key)(s, events[0]) == Proves(cfg, s, events[0], key);
    if !g.proved {
      ProofShown(cfg, key, t, g, events[1..]);
    }
    AtLater(cfg, s, events, Proving(cfg, key));
  }

  /** Whoever the receiver is and whatever it sends: the file list is out, and files go,
      only after the required PIN, if there is one; with an expected key, only while the last
      token received is that receiver's, and beyond the own nonce and token nothing at all is
      sent before one of its tokens has come. */
  lemma FilesNeedTrust(cfg: Config, expected: Option<string>, events: seq<Event>)
    requires IsRun(cfg, Fresh(expected), events)
    ensures var z := Run(cfg, Fresh(expected), events);
            && (Listed(z) && cfg.requiredPIN.Some? ==> exists k :: At(cfg, Fresh(expected), events, k, Pinning(cfg)))
            && (Listed(z) && expected.Some? ==> cfg.crypto.verify(expected.value, z.receiverToken, z.finalNonce))
            && (|z.outbox| > 2 && expected.Some? ==>
                  exists k :: At(cfg, Fresh(expected), events, k, Proving(cfg, expected.value)))
  {
    hide IsRun, Run, ShownBy, At, Proving, Pinning;
    FreshEarned(cfg, expected);
    RunEarned(cfg, expected, Fresh(expected), Nothing, events);
    var h := ShownBy(cfg, expected, Fresh(expected), Nothing, events);
    if h.pin {
      PinShown(cfg, expected, Fresh(expected), Nothing, events);
    }
    if h.proved && expected.Some? {
      ProofShown(cfg, expected.value, Fresh(expected), Nothing, events);
    }
  }

  lemma FreshEarned(cfg: Config, expected: Option<string>)
    ensures Earned(cfg, expected, Fresh(expected), Nothing)
  {
  }

  /** A key kept from a pair request signed the exchange if and only if the last positive
      token response carried a token. */
  lemma PairedKeyExactly(cfg: Config, expected: Option<string>, events: seq<Event>)
    requires IsRun(cfg, Fresh(expected), events)
    ensures var z := Run(cfg, Fresh(expected), events);
            var token := ShownBy(cfg, expected, Fresh(expected), Nothing, events).token;
            z.receiverKey.Some? && z.receiverKey != expected ==>
              && cfg.acceptPair && cfg.crypto.keyParses(z.receiverKey.value)
              && (Signed(cfg, z, z.receiverKey.value) <==> token.Some? && token.value != "")
              && (token.Some? ==> z.receiverToken == token.value)
  {
    hide IsRun, Run, ShownBy;
    FreshEarned(cfg, expected);
    RunEarned(cfg, expected, Fresh(expected), Nothing, events);
  }

  // ---------- A key that signed nothing ----------

  /** A nonce, a token with a PIN request, an OK without a token, and a pair request. */
  function Unproven(cfg: Config, nonce: Bytes, reply: string, token: string, key: string): seq<Event> {
    [Open(nonce),
     Message(SendJSON(cfg.codec, NonceMessage(reply))),
     Message(SendJSON(cfg.codec, TokenResponseMessage(PIN_REQUIRED, token))),
     Message(SendJSON(cfg.codec, PinReceivingMessage(OK))),
     Message(SendJSON(cfg.codec, FileListResponseMessage(PAIR, map[], key)))]
  }

  /** A text frame is handled as the message it carries. */
  lemma TextHandled(cfg: Config, s: Sender, j: Json, msg: Msg)
    requires Faithful(cfg.codec) && ParseRTCMessage(j) == Some(msg) && !msg.FileResponse?
    ensures Apply(cfg, s, Message(SendJSON(cfg.codec, j))) == Dispatch(cfg, s, msg, j)
  {
    hide Dispatch;
    assert cfg.codec.encode(j)[0] == OpenBrace && s.(controlBuffer := s.controlBuffer) == s;
    MessageHandled(cfg, s, cfg.codec.encode(j));
    assert Classify(cfg.codec, cfg.codec.encode(j)) == Some((msg, j));
  }

  /** The token is taken with the PIN request, and forgotten with the OK. */
  lemma TokenTaken(cfg: Config, s: Sender, status: StatusText, token: string)
    requires cfg.requiredPIN.None? && s.receiverKey.None? && s.phase in {WaitToken, WaitPin}
    requires status in {OK, PIN_REQUIRED}
    ensures var t := Dispatch(cfg, s, Status(status), TokenResponseMessage(status, token));
            && t.receiverKey.None? && t.receiverToken == token
            && t.phase == if status == PIN_REQUIRED then WaitPin else WaitFileAccept
  {
    hide HandshakeOnly, PinMessage, PinSendingMessage, Dtos, Chunks;
  }

  lemma KeyTaken(cfg: Config, s: Sender, key: string)
    requires cfg.acceptPair && cfg.crypto.keyParses(key) && key != "" && s.phase == WaitFileAccept
    requires s.receiverToken == ""
    ensures var t := Dispatch(cfg, s, Status(PAIR), FileListResponseMessage(PAIR, map[], key));
            t.receiverKey == Some(key) && t.receiverToken == "" && t.phase == WaitFileAccept
  {
    hide HandshakeOnly, PairResponseMessage;
  }

  /** Where the sender stands before each of those events. */
  lemma UnprovenStep(cfg: Config, s: Sender, k: nat, nonce: Bytes, reply: string, token: string, key: string)
    requires Faithful(cfg.codec) && cfg.requiredPIN.None? && cfg.acceptPair && cfg.crypto.keyParses(key)
    requires reply != "" && cfg.crypto.decodeNonce(reply).Some? && token != "" && key != ""
    requires k < 5 && UnprovenAt(s, k)
    ensures var e := Unproven(cfg, nonce, reply, token, key)[k];
            && Possible(s, e)
            && var t := Apply(cfg, s, e);
               UnprovenAt(t, k + 1) && (k == 4 ==> t.receiverKey == Some(key))
  {
    hide HandleFrame, ParseRTCMessage, HandshakeOnly, HandleTokenResponse, HandleFileAcceptance;
    PeerMessagesClassified();
    match k
    case 0 =>
    case 1 => TextHandled(cfg, s, NonceMessage(reply), Nonce(reply));
    case 2 =>
      TextHandled(cfg, s, TokenResponseMessage(PIN_REQUIRED, token), Status(PIN_REQUIRED));
      TokenTaken(cfg, s, PIN_REQUIRED, token);
    case 3 =>
      assert PinReceivingMessage(OK) == TokenResponseMessage(OK, "");
      TextHandled(cfg, s, PinReceivingMessage(OK), Status(OK));
      TokenTaken(cfg, s, OK, "");
    case _ =>
      TextHandled(cfg, s, FileListResponseMessage(PAIR, map[], key), Status(PAIR));
      KeyTaken(cfg, s, key);
  }

  /** The states of that run. */
  ghost predicate UnprovenAt(s: Sender, k: nat)
    requires k <= 5
  {
    && s.phase == [Init, WaitNonce, WaitToken, WaitPin, WaitFileAccept, WaitFileAccept][k]
    && (k < 5 ==> s.receiverKey.None?) && (k >= 4 ==> s.receiverToken == "")
  }

  lemma {:induction false} UnprovenRuns(cfg: Config, s: Sender, k: nat, nonce: Bytes, reply: string, token: string,
                                        key: string)
    requires Faithful(cfg.codec) && cfg.requiredPIN.None? && cfg.acceptPair && cfg.crypto.keyParses(key)
    requires reply != "" && cfg.crypto.decodeNonce(reply).Some? && token != "" && key != "" && k < 5 && UnprovenAt(s, k)
    ensures var rest := Unproven(cfg, nonce, reply, token, key)[k..];
            IsRun(cfg, s, rest) && Run(cfg, s, rest).receiverKey == Some(key) && Run(cfg, s, rest).receiverToken == ""
    decreases 5 - k
  {
    var events := Unproven(cfg, nonce, reply, token, key);
    UnprovenStep(cfg, s, k, nonce, reply, token, key);
    var t := Apply(cfg, s, events[k]);
    assert events[k..][0] == events[k] && events[k..][1..] == events[k + 1..];
    hide Apply, Possible, Unproven;
    if k < 4 {
      UnprovenRuns(cfg, t, k + 1, nonce, reply, token, key);
    } else {
      assert events[k + 1..] == [];
    }
  }

  /** The answer to a PIN carries no token and forgets the one received before it; a pair
      request that follows is granted to any key that parses, whoever signed the exchange. */
  lemma UnprovenKeyKept(cfg: Config, nonce: Bytes, reply: string, token: string, key: string)
    requires Faithful(cfg.codec) && cfg.requiredPIN.None? && cfg.acceptPair && cfg.crypto.keyParses(key)
    requires reply != "" && cfg.crypto.decodeNonce(reply).Some? && token != "" && key != ""
    ensures var events := Unproven(cfg, nonce, reply, token, key);
            && IsRun(cfg, Fresh(None), events)
            && var z := Run(cfg, Fresh(None), events);
               z.receiverKey == Some(key) && !Signed(cfg, z, key)
  {
    var events := Unproven(cfg, nonce, reply, token, key);
    assert events[0..] == events;
    UnprovenRuns(cfg, Fresh(None), 0, nonce, reply, token, key);
    hide Run, IsRun, Unproven;
  }
}
