/** What the receiver answers to each message of the handshake, whoever the sender is. */
module ReceiverAnswers {
  import opened Wrappers
  import opened RtcMessages
  import opened DataChannel
  import opened FileIndex
  import opened RtcReceiverSpec

  lemma SendSays(cfg: Config, r: Receiver, j: Json, msg: Msg)
    requires Faithful(cfg.codec) && ParseRTCMessage(j) == Some(msg) && r.connected
    ensures SaysIn(cfg.codec, r.outbox, Send(cfg, r, j).outbox, msg, j)
    ensures Says(cfg.codec, r.outbox, Send(cfg, r, j).outbox, msg)
  {
    TextSays(cfg.codec, r.outbox, j, msg);
    SaysInSays(cfg.codec, r.outbox, Send(cfg, r, j).outbox, msg, j);
    hide ParseRTCMessage, SaysIn, Says;
  }

  lemma SendBinarySays(cfg: Config, r: Receiver, j: Json, msg: Msg)
    requires Faithful(cfg.codec) && Small(cfg.codec, j) && ParseRTCMessage(j) == Some(msg) && r.connected
    ensures SaysIn(cfg.codec, r.outbox, SendBinary(cfg, r, j).outbox, msg, j)
    ensures Says(cfg.codec, r.outbox, SendBinary(cfg, r, j).outbox, msg)
  {
    BinarySays(cfg.codec, r.outbox, j, msg);
    SaysInSays(cfg.codec, r.outbox, SendBinary(cfg, r, j).outbox, msg, j);
    hide ParseRTCMessage, SaysIn, Says, Small;
  }

  // ---------- Nonces ----------

  /** A readable nonce is combined with the fresh one, the sender's first, and the fresh one is
      what the sender reads.  An unreadable one is answered with an error and changes nothing. */
  ghost predicate NonceJudged(cfg: Config, env: Env, r: Receiver, s: Receiver, msg: Msg) {
    if !msg.Nonce? then s == Unexpected(r)
    else
      match cfg.crypto.decodeNonce(msg.nonce)
      case None =>
        var refusal := SendJSON(cfg.codec, ErrorMessage(InvalidNonce));
        s == r.(outbox := if r.connected then r.outbox + [refusal] else r.outbox)
      case Some(remote) =>
        && s.remoteNonce == remote && s.localNonce == env.nonce && s.finalNonce == remote + env.nonce
        && s.phase == (if r.connected then WaitToken else WaitNonce)
        && (r.connected && Faithful(cfg.codec) && IdealCrypto(cfg.crypto) && |env.nonce| == 32 ==>
              exists text :: Says(cfg.codec, r.outbox, s.outbox, Nonce(text))
                             && cfg.crypto.decodeNonce(text) == Some(env.nonce))
  }

  lemma NonceAnswered(cfg: Config, env: Env, r: Receiver, msg: Msg)
    requires r.phase == WaitNonce
    ensures NonceJudged(cfg, env, r, HandleNonce(cfg, env, r, msg), msg)
  {
    hide HandshakeOnly, Says, NonceMessage, ErrorMessage, ParseRTCMessage, Faithful;
    if msg.Nonce? && cfg.crypto.decodeNonce(msg.nonce).Some? && r.connected && Faithful(cfg.codec)
       && IdealCrypto(cfg.crypto) && |env.nonce| == 32 {
      PeerMessagesClassified();
      var text := cfg.crypto.encodeNonce(env.nonce);
      var remote := cfg.crypto.decodeNonce(msg.nonce).value;
      SendSays(cfg, r.(remoteNonce := remote, localNonce := env.nonce, finalNonce := remote + env.nonce),
               NonceMessage(text), Nonce(text));
    }
  }

  // ---------- Tokens ----------

  /** A stored key that parses and made the token. */
  predicate Made(cfg: Config, key: string, token: string, nonce: Bytes) {
    cfg.crypto.keyParses(key) && cfg.crypto.verify(key, token, nonce)
  }

  /** Key `i` is the first stored one that made the token. */
  ghost predicate FirstMaker(cfg: Config, trusted: seq<string>, token: string, nonce: Bytes, i: nat) {
    && i < |trusted| && Made(cfg, trusted[i], token, nonce)
    && forall k :: 0 <= k < i ==> !Made(cfg, trusted[k], token, nonce)
  }

  /** The sender is recognized by the first stored key that made its token, and by none exactly if
      no stored key did. */
  lemma {:induction false} FindTrustedExact(cfg: Config, trusted: seq<string>, token: string, nonce: Bytes)
    ensures var key := FindTrusted(cfg, trusted, token, nonce);
            if key.None? then forall i :: 0 <= i < |trusted| ==> !Made(cfg, trusted[i], token, nonce)
            else exists i: nat :: FirstMaker(cfg, trusted, token, nonce, i) && trusted[i] == key.value
  {
    if trusted != [] {
      var rest := trusted[1..];
      if Made(cfg, trusted[0], token, nonce) {
        assert FirstMaker(cfg, trusted, token, nonce, 0);
      } else {
        FindTrustedExact(cfg, rest, token, nonce);
        assert forall k :: 0 < k < |trusted| ==> trusted[k] == rest[k - 1];
        var key := FindTrusted(cfg, rest, token, nonce);
        if key.Some? {
          var i: nat :| FirstMaker(cfg, rest, token, nonce, i) && rest[i] == key.value;
          assert FirstMaker(cfg, trusted, token, nonce, i + 1) && trusted[i + 1] == key.value;
        }
      }
    }
  }

  /** A token is stored, and judged by the key held or, with pairing required, by the stored key
      that made it.  A key that did not make it ends the session.  Otherwise a token made with the
      own key is answered, and the PIN is next exactly if there is one. */
  ghost predicate TokenJudged(cfg: Config, r: Receiver, s: Receiver, msg: Msg) {
    if !msg.TokenRequest? then s == Unexpected(r)
    else
      var refused := s.senderKey.Some? && !cfg.crypto.verify(s.senderKey.value, msg.token, r.finalNonce);
      && s.senderToken == msg.token && s.finalNonce == r.finalNonce
      && s.senderKey == JudgingKey(cfg, r, msg.token)
      && (if refused then s.phase == Done && !s.connected
          else s.phase == (if cfg.pin != "" then WaitPin else WaitFileList) && s.connected == r.connected)
      && (r.connected && Faithful(cfg.codec) && IdealCrypto(cfg.crypto) ==>
            if refused then Says(cfg.codec, r.outbox, s.outbox, Status(INVALID_SIGNATURE)) else TokenSaid(cfg, r, s))
  }

  lemma RefusalSaid(cfg: Config, r: Receiver)
    requires r.phase == WaitToken && r.current.None?
    ensures var t := RefuseToken(cfg, r);
            && t == r.(phase := Done, connected := false, outbox := t.outbox)
            && (r.connected && Faithful(cfg.codec) ==>
                  Says(cfg.codec, r.outbox, t.outbox, Status(INVALID_SIGNATURE)))
  {
    hide HandshakeOnly, Says, SaysIn, ParseRTCMessage, TokenResponseMessage, Faithful;
    if r.connected && Faithful(cfg.codec) {
      PeerMessagesClassified();
      SendSays(cfg, r, TokenResponseMessage(INVALID_SIGNATURE, ""), Status(INVALID_SIGNATURE));
    }
  }

  /** The answer to a token is positive and carries one of the receiver's own. */
  ghost predicate TokenSaid(cfg: Config, r: Receiver, s: Receiver) {
    exists j :: SaysIn(cfg.codec, r.outbox, s.outbox, Status(if cfg.pin != "" then PIN_REQUIRED else OK), j)
                && j.token.Str? && cfg.crypto.verify(cfg.signingKey, j.token.s, r.finalNonce)
  }

  lemma AnswerSaid(cfg: Config, r: Receiver)
    requires r.phase == WaitToken && r.current.None?
    ensures var t := AnswerToken(cfg, r);
            && t == r.(phase := if cfg.pin != "" then WaitPin else WaitFileList, outbox := t.outbox)
            && (r.connected && Faithful(cfg.codec) && IdealCrypto(cfg.crypto) ==> TokenSaid(cfg, r, t))
  {
    hide HandshakeOnly, Says, SaysIn, ParseRTCMessage, Faithful;
    if r.connected && Faithful(cfg.codec) && IdealCrypto(cfg.crypto) {
      PeerMessagesClassified();
      var status := if cfg.pin != "" then PIN_REQUIRED else OK;
      var j := TokenResponseMessage(status, cfg.crypto.sign(cfg.signingKey, r.finalNonce));
      SendSays(cfg, r, j, Status(status));
      assert j.token.Str?;
    }
  }

  /** The key a token is judged by. */
  function JudgingKey(cfg: Config, r: Receiver, token: string): Option<string> {
    if r.senderKey.None? && cfg.requirePairing then FindTrusted(cfg, cfg.trusted, token, r.finalNonce) else r.senderKey
  }

  lemma TokenCases(cfg: Config, r: Receiver, token: string)
    requires r.phase == WaitToken && r.current.None?
    ensures var key := JudgingKey(cfg, r, token); var r1 := r.(senderToken := token, senderKey := key);
            HandleToken(cfg, r, TokenRequest(token))
            == if key.Some? && !cfg.crypto.verify(key.value, token, r.finalNonce) then RefuseToken(cfg, r1)
               else AnswerToken(cfg, r1)
  {
    hide HandshakeOnly, FindTrusted, RefuseToken, AnswerToken;
  }

  lemma TokenAnswered(cfg: Config, r: Receiver, msg: Msg)
    requires r.phase == WaitToken && r.current.None?
    ensures TokenJudged(cfg, r, HandleToken(cfg, r, msg), msg)
  {
    hide TokenJudged, RefuseToken, AnswerToken, FindTrusted;
    if msg.TokenRequest? {
      TokenRequestAnswered(cfg, r, msg.token);
    } else {
      TokenIgnored(cfg, r, msg);
    }
  }

  lemma TokenIgnored(cfg: Config, r: Receiver, msg: Msg)
    requires !msg.TokenRequest?
    ensures TokenJudged(cfg, r, Unexpected(r), msg)
  {
  }

  lemma TokenRequestAnswered(cfg: Config, r: Receiver, token: string)
    requires r.phase == WaitToken && r.current.None?
    ensures TokenJudged(cfg, r, HandleToken(cfg, r, TokenRequest(token)), TokenRequest(token))
  {
    hide HandshakeOnly, Says, TokenSaid, FindTrusted, RefuseToken, AnswerToken, Faithful, IdealCrypto, HandleToken;
    TokenCases(cfg, r, token);
    var r1 := r.(senderToken := token, senderKey := JudgingKey(cfg, r, token));
    RefusalSaid(cfg, r1);
    AnswerSaid(cfg, r1);
    SameTokenSaid(cfg, r1, r, AnswerToken(cfg, r1));
  }

  lemma SameTokenSaid(cfg: Config, r: Receiver, q: Receiver, s: Receiver)
    requires q.outbox == r.outbox && q.finalNonce == r.finalNonce
    ensures TokenSaid(cfg, r, s) == TokenSaid(cfg, q, s)
  {
  }

  // ---------- PINs ----------

  /** Only the right PIN leads to the file list.  A wrong one is counted and asked for again, and
      the third ends the session. */
  ghost predicate PinJudged(cfg: Config, r: Receiver, s: Receiver, msg: Msg) {
    if !msg.Pin? then s == Unexpected(r)
    else
      var right := msg.pin == cfg.pin;
      var out := !right && r.pinAttempts + 1 >= MaxPINAttempts;
      && s.pinAttempts == (if right then r.pinAttempts else r.pinAttempts + 1)
      && s.phase == (if right then WaitFileList else if out then Done else WaitPin)
      && s.connected == (r.connected && !out)
      && (r.connected && Faithful(cfg.codec) ==>
            Says(cfg.codec, r.outbox, s.outbox,
                 Status(if right then OK else if out then TOO_MANY_ATTEMPTS else PIN_REQUIRED)))
  }

  lemma PinAnswered(cfg: Config, r: Receiver, msg: Msg)
    requires r.phase == WaitPin && r.current.None?
    ensures PinJudged(cfg, r, HandlePin(cfg, r, msg), msg)
  {
    hide HandshakeOnly, Says, SaysIn, ParseRTCMessage, PinReceivingMessage;
    if msg.Pin? && r.connected && Faithful(cfg.codec) {
      PeerMessagesClassified();
      SendSays(cfg, r, PinReceivingMessage(OK), Status(OK));
      var r1 := r.(pinAttempts := r.pinAttempts + 1);
      SendSays(cfg, r1, PinReceivingMessage(PIN_REQUIRED), Status(PIN_REQUIRED));
      SendSays(cfg, r1, PinReceivingMessage(TOO_MANY_ATTEMPTS), Status(TOO_MANY_ATTEMPTS));
    }
  }

  /** The sender's own challenge is answered with the next PIN of the provider, or the one PIN. */
  lemma ChallengeAnswered(cfg: Config, r: Receiver)
    requires r.phase == WaitFileList && r.current.None?
    ensures var s := AnswerChallenge(cfg, r); var pins := cfg.pinProvider;
            && s.providedPINAttempts == r.providedPINAttempts + 1
            && s.phase == (if r.connected then WaitFileList else Done) && s.connected == r.connected
            && (r.connected && Faithful(cfg.codec) ==>
                  Says(cfg.codec, r.outbox, s.outbox,
                       Pin(if pins.Some? then (pins.value)(r.providedPINAttempts + 1) else cfg.pin)))
  {
    hide HandshakeOnly, Says, SaysIn, ParseRTCMessage, PinMessage;
    if r.connected && Faithful(cfg.codec) {
      PeerMessagesClassified();
      var pin := if cfg.pinProvider.Some? then (cfg.pinProvider.value)(r.providedPINAttempts + 1) else cfg.pin;
      SendSays(cfg, r.(providedPINAttempts := r.providedPINAttempts + 1), PinMessage(pin), Pin(pin));
    }
  }

  // ---------- The offer ----------

  /** The IDs the user selects, or all of them in order. */
  function Chosen(cfg: Config, files: seq<FileDto>): seq<string> {
    if cfg.selectFiles.Some? then (cfg.selectFiles.value)(files)
    else seq(|files|, i requires 0 <= i < |files| => files[i].id)
  }

  /** The acceptance names a token for exactly the wanted files that can be stored, and the
      receiver keeps those tokens. */
  ghost predicate TokensSaid(cfg: Config, r: Receiver, s: Receiver, files: seq<FileDto>, ids: seq<string>) {
    exists j :: SaysIn(cfg.codec, r.outbox, s.outbox, Status(OK), j) && AsTokens(j.files).Some?
                && var tokens := AsTokens(j.files).value;
                   && (forall id :: id in tokens <==> id in ids && Usable(files, id))
                   && s.fileTokens == r.fileTokens + tokens
  }

  /** Every answer to an offer can be reassembled. */
  predicate AnswersFit(cfg: Config, env: Env, files: seq<FileDto>, ids: seq<string>) {
    && Small(cfg.codec, FileListResponseMessage(DECLINED, map[], ""))
    && Small(cfg.codec, FileListResponseMessage(PAIR, map[], cfg.signingKey))
    && Small(cfg.codec, FileListResponseMessage(OK, PrepareTokens(files, ids, env.fileToken), ""))
  }

  /** This status is said, and no other. */
  ghost predicate SaysJust(codec: Codec, before: seq<Frame>, after: seq<Frame>, said: StatusText) {
    forall status: StatusText :: Says(codec, before, after, Status(status)) <==> status == said
  }

  /** An offer is declined exactly if nothing is selected or it lists more than 10000 files, a
      pairing is asked for exactly if otherwise one is required and no key is held, and all else
      is accepted. */
  function AnswerTo(cfg: Config, r: Receiver, files: seq<FileDto>): StatusText {
    if |files| > 10000 || Chosen(cfg, files) == [] then DECLINED
    else if cfg.requirePairing && r.senderKey.None? then PAIR else OK
  }

  /** The answer is said and no other, the request to pair with the own key, and the receiver
      waits for what the answer asks for. */
  ghost predicate OfferJudged(cfg: Config, env: Env, r: Receiver, s: Receiver, files: seq<FileDto>) {
    var answer := AnswerTo(cfg, r, files);
    && s.phase == (match answer case DECLINED => WaitFileList case PAIR => WaitPairResponse case _ => WaitFiles)
    && s.connected && s.senderKey == r.senderKey
    && (Faithful(cfg.codec) && AnswersFit(cfg, env, files, Chosen(cfg, files)) ==> OfferSaid(cfg, r, s, files, answer))
  }

  ghost predicate OfferSaid(cfg: Config, r: Receiver, s: Receiver, files: seq<FileDto>, answer: StatusText) {
    && SaysJust(cfg.codec, r.outbox, s.outbox, answer)
    && (answer == PAIR ==> KeySaid(cfg, r.outbox, s.outbox))
    && (answer == OK ==> TokensSaid(cfg, r, s, files, Chosen(cfg, files)))
  }

  lemma {:induction false} AllIDsAre(files: seq<FileDto>)
    ensures AllIDs(files) == seq(|files|, i requires 0 <= i < |files| => files[i].id)
  {
    assert |AllIDs(files)| == |files|;
  }

  lemma AcceptanceSaid(cfg: Config, env: Env, r: Receiver)
    requires r.phase in {WaitFileList, WaitPairResponse} && r.connected
    ensures AcceptFiles(cfg, env, r).phase == WaitFiles && AcceptFiles(cfg, env, r).connected
    ensures AcceptFiles(cfg, env, r).senderKey == r.senderKey
    ensures Faithful(cfg.codec) && AnswersFit(cfg, env, r.files, r.acceptedIDs) ==>
              && Says(cfg.codec, r.outbox, AcceptFiles(cfg, env, r).outbox, Status(OK))
              && TokensSaid(cfg, r, AcceptFiles(cfg, env, r), r.files, r.acceptedIDs)
  {
    hide HandshakeOnly, Says, SaysIn, ParseRTCMessage, PrepareTokens, Usable, Faithful, Small, LastAt;
    var tokens := PrepareTokens(r.files, r.acceptedIDs, env.fileToken);
    if Faithful(cfg.codec) && AnswersFit(cfg, env, r.files, r.acceptedIDs) {
      PrepareTokensExact(r.files, r.acceptedIDs, env.fileToken);
      PeerMessagesClassified();
      var j := FileListResponseMessage(OK, tokens, "");
      SendBinarySays(cfg, r.(fileTokens := r.fileTokens + tokens), j, Status(OK));
      assert AsTokens(j.files) == Some(tokens);
    }
  }

  /** The three possible answers, each said only where it is sent. */
  lemma AnswersSaid(cfg: Config, env: Env, r: Receiver)
    requires r.phase == WaitFileList && r.current.None? && r.connected
    requires Faithful(cfg.codec) && AnswersFit(cfg, env, r.files, r.acceptedIDs)
    ensures var t := SendBinary(cfg, r, FileListResponseMessage(DECLINED, map[], ""));
            Says(cfg.codec, r.outbox, t.outbox, Status(DECLINED))
    ensures var t := SendBinary(cfg, r, FileListResponseMessage(PAIR, map[], cfg.signingKey));
            Says(cfg.codec, r.outbox, t.outbox, Status(PAIR)) && KeySaid(cfg, r.outbox, t.outbox)
  {
    hide SaysIn, ParseRTCMessage, Small, Faithful, PrepareTokens;
    PeerMessagesClassified();
    SendBinarySays(cfg, r, FileListResponseMessage(DECLINED, map[], ""), Status(DECLINED));
    var j := FileListResponseMessage(PAIR, map[], cfg.signingKey);
    SendBinarySays(cfg, r, j, Status(PAIR));
    assert AsString(j.publicKey) == Some(cfg.signingKey);
  }

  /** A pair request carries the receiver's own key. */
  ghost predicate KeySaid(cfg: Config, before: seq<Frame>, after: seq<Frame>) {
    exists j :: SaysIn(cfg.codec, before, after, Status(PAIR), j) && AsString(j.publicKey) == Some(cfg.signingKey)
  }

  /** What the receiver does with an offer, by the answer it is owed. */
  lemma OfferCases(cfg: Config, env: Env, r: Receiver, files: seq<FileDto>)
    requires r.phase == WaitFileList && r.current.None? && r.connected
    ensures var r1 := r.(files := files, acceptedIDs := Chosen(cfg, files));
            var t := ReceiveFileList(cfg, env, r, files);
            match AnswerTo(cfg, r, files)
            case DECLINED =>
              && t.outbox == SendBinary(cfg, r1, FileListResponseMessage(DECLINED, map[], "")).outbox
              && t.phase == WaitFileList && t.connected
            case PAIR =>
              && t.outbox == SendBinary(cfg, r1, FileListResponseMessage(PAIR, map[], cfg.signingKey)).outbox
              && t.phase == WaitPairResponse && t.connected
            case _ => t == AcceptFiles(cfg, env, r1)
    ensures var t := ReceiveFileList(cfg, env, r, files);
            t.senderKey == r.senderKey && t.senderToken == r.senderToken && t.finalNonce == r.finalNonce
  {
    hide HandshakeOnly, PrepareTokens, AllIDs, FileListResponseMessage, Chunks;
    AllIDsAre(files);
  }

  lemma OfferAnswered(cfg: Config, env: Env, r: Receiver, files: seq<FileDto>)
    requires r.phase == WaitFileList && r.current.None? && r.connected
    ensures OfferJudged(cfg, env, r, ReceiveFileList(cfg, env, r, files), files)
  {
    hide HandshakeOnly, Says, SaysJust, AnswersFit, AcceptFiles, TokensSaid, KeySaid, Faithful, Chosen, ReceiveFileList,
         SendBinary;
    OfferCases(cfg, env, r, files);
    var r1, t := r.(files := files, acceptedIDs := Chosen(cfg, files)), ReceiveFileList(cfg, env, r, files);
    AcceptanceSaid(cfg, env, r1);
    if Faithful(cfg.codec) && AnswersFit(cfg, env, files, r1.acceptedIDs) {
      AnswersSaid(cfg, env, r1);
      JustSaid(cfg.codec, r.outbox, t.outbox, AnswerTo(cfg, r, files));
      SameSaid(cfg, r1, r, t, files, r1.acceptedIDs);
    }
  }

  lemma JustSaid(codec: Codec, before: seq<Frame>, after: seq<Frame>, said: StatusText)
    requires Says(codec, before, after, Status(said))
    ensures SaysJust(codec, before, after, said)
  {
    forall status: StatusText | Says(codec, before, after, Status(status)) ensures status == said {
      SaysOne(codec, before, after, Status(status), Status(said));
    }
  }

  lemma SameSaid(cfg: Config, r: Receiver, q: Receiver, s: Receiver, files: seq<FileDto>, ids: seq<string>)
    requires q.outbox == r.outbox && q.fileTokens == r.fileTokens
    ensures TokensSaid(cfg, r, s, files, ids) == TokensSaid(cfg, q, s, files, ids)
  {
  }

  /** Only a list of files, which may be empty, is an offer. */
  lemma ListAnswered(cfg: Config, env: Env, r: Receiver, msg: Msg, j: Json)
    requires r.phase == WaitFileList && r.current.None? && r.connected
    ensures var s := HandleFileList(cfg, env, r, msg, j);
            if msg == Status(PIN_REQUIRED) then s == AnswerChallenge(cfg, r)
            else if msg == Status(TOO_MANY_ATTEMPTS) then s == r.(phase := Done, connected := false)
            else if (msg.FileList? || msg == Status(OK)) && AsFiles(j.files).Some? then
              OfferJudged(cfg, env, r, s, AsFiles(j.files).value)
            else s == Unexpected(r)
  {
    hide HandshakeOnly, ReceiveFileList, AnswerChallenge, OfferJudged;
    if AsFiles(j.files).Some? {
      OfferAnswered(cfg, env, r, AsFiles(j.files).value);
    }
  }

  // ---------- Pairing ----------

  /** A positive answer with a key is believed if the key parses and made the sender's token, and
      is then held; one without a key is believed as it is.  Believed answers, and refusals where
      pairing is not required, are followed by the acceptance; a refusal where it is ends the
      session; nothing else is answered. */
  ghost predicate PairJudged(cfg: Config, env: Env, r: Receiver, s: Receiver, msg: Msg, j: Json) {
    var status := if msg.PairResponse? || msg.Status? then Some(msg.status) else None;
    var key := AsString(j.publicKey);
    var positive := status == Some(OK) && key.Some?;
    var made := key.Some? && cfg.crypto.keyParses(key.value)
                && (r.senderToken == "" || cfg.crypto.verify(key.value, r.senderToken, r.finalNonce));
    var believed := positive && (key.value == "" || made);
    var refused := status == Some(PAIR_DECLINED) && key.Some?;
    var accepted := believed || (refused && !cfg.requirePairing);
    && (accepted <==> s.phase == WaitFiles)
    && (refused && cfg.requirePairing <==> s.phase == Done)
    && s.senderKey == (if believed && key.value != "" then Some(key.value) else r.senderKey)
    && (s.outbox != r.outbox <==> accepted)
    && (accepted && Faithful(cfg.codec) && AnswersFit(cfg, env, r.files, r.acceptedIDs) ==>
          TokensSaid(cfg, r, s, r.files, r.acceptedIDs))
  }

  /** What every acceptance does here. */
  ghost predicate Accepts(cfg: Config, env: Env, r: Receiver, s: Receiver, key: Option<string>) {
    && s.phase == WaitFiles && s.senderKey == key && s.outbox != r.outbox
    && (Faithful(cfg.codec) && AnswersFit(cfg, env, r.files, r.acceptedIDs) ==>
          TokensSaid(cfg, r, s, r.files, r.acceptedIDs))
  }

  lemma AcceptanceAccepts(cfg: Config, env: Env, r: Receiver, key: Option<string>)
    requires r.phase == WaitPairResponse && r.connected
    ensures Accepts(cfg, env, r, AcceptFiles(cfg, env, r.(senderKey := key)), key)
  {
    hide HandshakeOnly, AcceptFiles, TokensSaid, AnswersFit, Faithful, Says;
    var r1 := r.(senderKey := key);
    AcceptanceSaid(cfg, env, r1);
    AcceptanceSends(cfg, env, r1);
    SameSaid(cfg, r1, r, AcceptFiles(cfg, env, r1), r.files, r.acceptedIDs);
  }

  lemma PairAnswered(cfg: Config, env: Env, r: Receiver, msg: Msg, j: Json)
    requires r.phase == WaitPairResponse && r.current.None? && r.connected
    ensures PairJudged(cfg, env, r, HandlePairResponse(cfg, env, r, msg, j), msg, j)
  {
    if (msg.PairResponse? || msg.Status?) && msg.status == OK && AsString(j.publicKey).Some? {
      OKJudged(cfg, env, r, msg, j);
    } else {
      NotOKJudged(cfg, env, r, msg, j);
    }
    hide *;
  }

  lemma OKJudged(cfg: Config, env: Env, r: Receiver, msg: Msg, j: Json)
    requires r.phase == WaitPairResponse && r.current.None? && r.connected
    requires (msg.PairResponse? || msg.Status?) && msg.status == OK && AsString(j.publicKey).Some?
    ensures PairJudged(cfg, env, r, HandlePairResponse(cfg, env, r, msg, j), msg, j)
  {
    hide HandshakeOnly, AcceptFiles, AcceptPair, Faithful, AnswersFit, TokensSaid;
    KeyJudged(cfg, env, r, AsString(j.publicKey).value);
    assert HandlePairResponse(cfg, env, r, msg, j) == AcceptPair(cfg, env, r, AsString(j.publicKey).value);
    hide HandlePairResponse;
  }

  lemma NotOKJudged(cfg: Config, env: Env, r: Receiver, msg: Msg, j: Json)
    requires r.phase == WaitPairResponse && r.current.None? && r.connected
    requires !((msg.PairResponse? || msg.Status?) && msg.status == OK && AsString(j.publicKey).Some?)
    ensures PairJudged(cfg, env, r, HandlePairResponse(cfg, env, r, msg, j), msg, j)
  {
    hide HandshakeOnly, AcceptFiles, AcceptPair, Faithful, AnswersFit, TokensSaid;
    assert r.(senderKey := r.senderKey) == r;
    AcceptanceAccepts(cfg, env, r, r.senderKey);
  }

  /** A positive answer, by its key. */
  lemma KeyJudged(cfg: Config, env: Env, r: Receiver, key: string)
    requires r.phase == WaitPairResponse && r.current.None? && r.connected
    ensures var s := AcceptPair(cfg, env, r, key);
            if key == "" then Accepts(cfg, env, r, s, r.senderKey)
            else if cfg.crypto.keyParses(key)
                    && (r.senderToken == "" || cfg.crypto.verify(key, r.senderToken, r.finalNonce))
            then Accepts(cfg, env, r, s, Some(key))
            else s == r
  {
    hide HandshakeOnly, AcceptFiles, Accepts;
    assert r.(senderKey := r.senderKey) == r;
    AcceptanceAccepts(cfg, env, r, r.senderKey);
    AcceptanceAccepts(cfg, env, r, Some(key));
  }

  lemma AcceptanceSends(cfg: Config, env: Env, r: Receiver)
    requires r.phase in {WaitFileList, WaitPairResponse} && r.connected
    ensures AcceptFiles(cfg, env, r).outbox != r.outbox
  {
    hide HandshakeOnly, PrepareTokens, FileListResponseMessage, Chunks;
    assert |AcceptFiles(cfg, env, r).outbox| > |r.outbox|;
  }
}
