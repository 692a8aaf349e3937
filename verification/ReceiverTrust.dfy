/** Whom the receiver takes files from, whatever the peer sends. */
module ReceiverTrust {
  import opened Wrappers
  import opened RtcMessages
  import opened DataChannel
  import opened FileIndex
  import opened Limits
  import opened RtcReceiverSpec
  import opened ReceiverInvariant

  // ---------- What the peer has shown ----------

  /** The control message that event `e` completes, as it is classified. */
  function Heard(cfg: Config, r: Receiver, e: Event): Option<(Msg, Json)> {
    if !e.Message? || r.phase == ReceivingFiles then None
    else
      var message := ControlStep(r.controlBuffer, e.frame).1;
      if message.None? then None else Classify(cfg.codec, message.value)
  }

  /** The right PIN arrives while the receiver waits for one. */
  predicate JudgesPin(cfg: Config, r: Receiver, e: Event) {
    r.phase == WaitPin && Heard(cfg, r, e).Some? && Heard(cfg, r, e).value.0 == Pin(cfg.pin)
  }

  /** A pair request is answered with OK and no key. */
  predicate PairsWithoutKey(cfg: Config, r: Receiver, e: Event) {
    && r.phase == WaitPairResponse && Heard(cfg, r, e).Some?
    && KeylessOK(Heard(cfg, r, e).value.0, Heard(cfg, r, e).value.1)
  }

  predicate KeylessOK(msg: Msg, j: Json) {
    && (msg.PairResponse? || msg.Status?) && msg.status == OK && AsString(j.publicKey) == Some("")
  }

  /** A new session begins. */
  predicate Restarts(r: Receiver, e: Event) { e.Offer? && !r.accepting && (!r.connected || r.phase == Done) }

  /** What this session has seen. */
  datatype Shown = Shown(pin: bool, keyless: bool)

  function ShownAfter(cfg: Config, r: Receiver, h: Shown, e: Event): Shown {
    if Restarts(r, e) then Shown(false, false)
    else Shown(h.pin || JudgesPin(cfg, r, e), h.keyless || PairsWithoutKey(cfg, r, e))
  }

  // ---------- What every state owes to it ----------

  predicate KeyVerified(cfg: Config, r: Receiver) {
    r.senderKey.Some? && cfg.crypto.verify(r.senderKey.value, r.senderToken, r.finalNonce)
  }

  predicate PastToken(p: Phase) { p in {WaitPin, WaitFileList, WaitPairResponse, WaitFiles, ReceivingFiles} }

  predicate PastPin(p: Phase) { p in {WaitFileList, WaitPairResponse, WaitFiles, ReceivingFiles} }

  predicate PastPairing(p: Phase) { p in {WaitFiles, ReceivingFiles} }

  /** A key is only held for a peer that signed the exchange; beyond the PIN the right one was
      judged; beyond pairing a key is held, if one is required and the answer carried one. */
  predicate Earned(cfg: Config, r: Receiver, h: Shown) {
    && (PastToken(r.phase) ==> r.senderToken != "" && (r.senderKey.Some? ==> KeyVerified(cfg, r)))
    && (PastPin(r.phase) ==> cfg.pin == "" || h.pin)
    && (PastPairing(r.phase) ==> !cfg.requirePairing || KeyVerified(cfg, r) || h.keyless)
  }

  /** Nothing trust depends on has moved, or the session is over. */
  predicate SameTrust(r: Receiver, s: Receiver) {
    s.phase == Done
    || (s.senderToken == r.senderToken && s.senderKey == r.senderKey && s.finalNonce == r.finalNonce
        && (s.phase == r.phase || (PastPairing(r.phase) && PastPairing(s.phase))))
  }

  lemma SameTrustEarned(cfg: Config, r: Receiver, s: Receiver, h: Shown, g: Shown)
    requires Earned(cfg, r, h) && SameTrust(r, s) && (h.pin ==> g.pin) && (h.keyless ==> g.keyless)
    ensures Earned(cfg, s, g)
  {
  }

  // ---------- One event ----------

  lemma {:induction false} TrustedVerifies(cfg: Config, trusted: seq<string>, token: string, nonce: Bytes)
    ensures var key := FindTrusted(cfg, trusted, token, nonce);
            key.Some? ==>
              key.value in trusted && cfg.crypto.keyParses(key.value) && cfg.crypto.verify(key.value, token, nonce)
  {
    if trusted != [] {
      TrustedVerifies(cfg, trusted[1..], token, nonce);
    }
  }

  lemma NonceEarned(cfg: Config, env: Env, r: Receiver, h: Shown, msg: Msg)
    requires r.phase == WaitNonce
    ensures Earned(cfg, HandleNonce(cfg, env, r, msg), h)
  {
    hide HandshakeOnly;
  }

  lemma TokenEarned(cfg: Config, r: Receiver, h: Shown, msg: Msg)
    requires r.phase == WaitToken && r.current.None? && (msg.TokenRequest? ==> msg.token != "")
    ensures Earned(cfg, HandleToken(cfg, r, msg), h)
  {
    hide HandshakeOnly, FindTrusted;
    if msg.TokenRequest? {
      TrustedVerifies(cfg, cfg.trusted, msg.token, r.finalNonce);
    }
  }

  lemma KeySame(cfg: Config, r: Receiver, s: Receiver)
    requires s.senderToken == r.senderToken && s.senderKey == r.senderKey && s.finalNonce == r.finalNonce
    ensures KeyVerified(cfg, s) == KeyVerified(cfg, r)
  {
  }

  lemma PinEarned(cfg: Config, r: Receiver, h: Shown, msg: Msg)
    requires Earned(cfg, r, h) && r.phase == WaitPin && r.current.None? && (msg == Pin(cfg.pin) ==> h.pin)
    ensures Earned(cfg, HandlePin(cfg, r, msg), h)
  {
    hide HandshakeOnly, PinReceivingMessage, Chunks, KeyVerified;
    var t := HandlePin(cfg, r, msg);
    if t.phase == WaitFileList {
      assert msg == Pin(cfg.pin);
    } else {
      assert SameTrust(r, t);
    }
    assert t.senderToken == r.senderToken && t.senderKey == r.senderKey && t.finalNonce == r.finalNonce;
    assert KeyVerified(cfg, t) == KeyVerified(cfg, r) by { KeySame(cfg, r, t); }
    hide HandlePin;
  }

  lemma AcceptEarned(cfg: Config, env: Env, r: Receiver, h: Shown)
    requires Earned(cfg, r, h) && r.phase in {WaitFileList, WaitPairResponse}
    requires !cfg.requirePairing || KeyVerified(cfg, r) || h.keyless
    ensures Earned(cfg, AcceptFiles(cfg, env, r), h)
  {
    hide HandshakeOnly, PrepareTokens, FileListResponseMessage;
  }

  lemma ListCases(cfg: Config, env: Env, r: Receiver, msg: Msg, j: Json)
    requires r.phase == WaitFileList && r.current.None?
    ensures var t := HandleFileList(cfg, env, r, msg, j);
            SameTrust(r, t) || (AsFiles(j.files).Some? && t == ReceiveFileList(cfg, env, r, AsFiles(j.files).value))
  {
    hide HandshakeOnly, ReceiveFileList, PinMessage;
  }

  lemma ListEarned(cfg: Config, env: Env, r: Receiver, h: Shown, msg: Msg, j: Json)
    requires Earned(cfg, r, h) && r.phase == WaitFileList && r.current.None?
    ensures Earned(cfg, HandleFileList(cfg, env, r, msg, j), h)
  {
    ListCases(cfg, env, r, msg, j);
    hide HandleFileList, ReceiveFileList, HandshakeOnly, SameTrust, Earned;
    if SameTrust(r, HandleFileList(cfg, env, r, msg, j)) {
      SameTrustEarned(cfg, r, HandleFileList(cfg, env, r, msg, j), h, h);
    } else {
      OfferEarned(cfg, env, r, h, AsFiles(j.files).value);
    }
  }

  lemma OfferCases(cfg: Config, env: Env, r: Receiver, files: seq<FileDto>) returns (r1: Receiver)
    requires r.phase == WaitFileList && r.current.None?
    ensures SameTrust(r, r1) && r1.phase == WaitFileList
    ensures var t := ReceiveFileList(cfg, env, r, files);
            || SameTrust(r, t)
            || (t.phase == WaitPairResponse && t == r1.(outbox := t.outbox, phase := WaitPairResponse))
            || ((!cfg.requirePairing || r.senderKey.Some?) && t == AcceptFiles(cfg, env, r1))
  {
    hide HandshakeOnly, FileListResponseMessage, AllIDs, AcceptFiles, Chunks;
    var ids := if cfg.selectFiles.Some? then (cfg.selectFiles.value)(files) else AllIDs(files);
    r1 := r.(files := files, acceptedIDs := ids);
  }

  lemma OfferEarned(cfg: Config, env: Env, r: Receiver, h: Shown, files: seq<FileDto>)
    requires Earned(cfg, r, h) && r.phase == WaitFileList && r.current.None?
    ensures Earned(cfg, ReceiveFileList(cfg, env, r, files), h)
  {
    hide HandshakeOnly, AcceptFiles, ReceiveFileList;
    var r1 := OfferCases(cfg, env, r, files);
    SameTrustEarned(cfg, r, r1, h, h);
    var t := ReceiveFileList(cfg, env, r, files);
    if SameTrust(r, t) {
      SameTrustEarned(cfg, r, t, h, h);
    } else if t != r1.(outbox := t.outbox, phase := WaitPairResponse) {
      AcceptEarned(cfg, env, r1, h);
    }
  }

  lemma PairCases(cfg: Config, env: Env, r: Receiver, msg: Msg, j: Json)
    requires r.phase == WaitPairResponse && r.current.None?
    ensures var t := HandlePairResponse(cfg, env, r, msg, j);
            || SameTrust(r, t)
            || (!cfg.requirePairing && t == AcceptFiles(cfg, env, r))
            || ((msg.PairResponse? || msg.Status?) && msg.status == OK && AsString(j.publicKey).Some?
                && t == AcceptPair(cfg, env, r, AsString(j.publicKey).value))
  {
    hide HandshakeOnly, AcceptFiles, AcceptPair;
  }

  lemma PairEarned(cfg: Config, env: Env, r: Receiver, h: Shown, msg: Msg, j: Json)
    requires Earned(cfg, r, h) && r.phase == WaitPairResponse && r.current.None? && (KeylessOK(msg, j) ==> h.keyless)
    ensures Earned(cfg, HandlePairResponse(cfg, env, r, msg, j), h)
  {
    PairCases(cfg, env, r, msg, j);
    var t := HandlePairResponse(cfg, env, r, msg, j);
    hide HandlePairResponse, HandshakeOnly, AcceptFiles, AcceptPair, SameTrust, Earned, KeyVerified;
    if SameTrust(r, t) {
      SameTrustEarned(cfg, r, t, h, h);
    } else if !cfg.requirePairing && t == AcceptFiles(cfg, env, r) {
      AcceptEarned(cfg, env, r, h);
    } else {
      KeyEarned(cfg, env, r, h, AsString(j.publicKey).value);
    }
  }

  lemma KeyEarned(cfg: Config, env: Env, r: Receiver, h: Shown, key: string)
    requires Earned(cfg, r, h) && r.phase == WaitPairResponse && r.current.None? && (key == "" ==> h.keyless)
    ensures Earned(cfg, AcceptPair(cfg, env, r, key), h)
  {
    hide HandshakeOnly, AcceptFiles;
    if key == "" {
      AcceptEarned(cfg, env, r, h);
    } else if cfg.crypto.verify(key, r.senderToken, r.finalNonce) {
      AcceptEarned(cfg, env, r.(senderKey := Some(key)), h);
    }
  }

  lemma FileStepSame(cfg: Config, env: Env, r: Receiver, frame: Frame)
    requires Inv(r) && r.phase == ReceivingFiles
    ensures SameTrust(r, HandleFrame(cfg, env, r, frame))
  {
    hide HandleBoundary, HandleBinaryData, SameTrust, DiskExact, CurrentBounded, Alternates;
    if frame.TextFrame? {
      BoundarySame(cfg, env, r, frame.data);
    } else {
      BinarySame(env, r, frame.data);
    }
  }

  lemma BinarySame(env: Env, r: Receiver, data: Bytes)
    requires Inv(r) && r.phase == ReceivingFiles
    ensures SameTrust(r, HandleBinaryData(env, r, data))
  {
    hide First, Silent, DiskExact, CurrentBounded, Alternates;
  }

  lemma BoundarySame(cfg: Config, env: Env, r: Receiver, data: Bytes)
    requires Inv(r) && r.phase == ReceivingFiles
    ensures SameTrust(r, HandleBoundary(cfg, env, r, data))
  {
    hide FinishCurrent, Silent, Destination, Inv;
  }

  lemma IdleStepSame(env: Env, r: Receiver, msg: Msg, data: Bytes)
    requires Inv(r) && r.phase == WaitFiles
    ensures SameTrust(r, HandleFileHeader(env, r, msg)) && SameTrust(r, HandleBinaryData(env, r, data))
  {
    hide First;
  }

  /** What the classification itself guarantees. */
  lemma TokenNonEmpty(cfg: Config, data: Bytes)
    ensures Classify(cfg.codec, data).Some? && Classify(cfg.codec, data).value.0.TokenRequest? ==>
              Classify(cfg.codec, data).value.0.token != ""
  {
  }

  lemma MessageEarned(cfg: Config, env: Env, r: Receiver, h: Shown, data: Bytes)
    requires Inv(r) && Earned(cfg, r, h) && r.phase != ReceivingFiles
    requires Classify(cfg.codec, data).Some? ==>
               var (msg, j) := Classify(cfg.codec, data).value;
               (r.phase == WaitPin && msg == Pin(cfg.pin) ==> h.pin)
               && (r.phase == WaitPairResponse && KeylessOK(msg, j) ==> h.keyless)
    ensures Earned(cfg, HandleMessage(cfg, env, r, data), h)
  {
    TokenNonEmpty(cfg, data);
    hide Classify, KeylessOK, HandleNonce, HandleToken, HandlePin, HandleFileList, HandlePairResponse,
         HandleFileHeader, HandleBinaryData;
    assert r.current.None?;
    match Classify(cfg.codec, data) {
      case None =>
        if r.phase == WaitFiles {
          IdleStepSame(env, r, Pin(""), data);
          if data != [] && data[0] != OpenBrace {
            SameTrustEarned(cfg, r, HandleBinaryData(env, r, data), h, h);
          }
        }
      case Some((msg, j)) =>
        match r.phase {
          case WaitNonce => NonceEarned(cfg, env, r, h, msg);
          case WaitToken => TokenEarned(cfg, r, h, msg);
          case WaitPin => PinEarned(cfg, r, h, msg);
          case WaitFileList => ListEarned(cfg, env, r, h, msg, j);
          case WaitPairResponse => PairEarned(cfg, env, r, h, msg, j);
          case WaitFiles =>
            IdleStepSame(env, r, msg, data);
            SameTrustEarned(cfg, r, HandleFileHeader(env, r, msg), h, h);
          case _ =>
        }
    }
    hide Inv;
  }

  lemma FrameEarned(cfg: Config, env: Env, r: Receiver, h: Shown, frame: Frame)
    requires Inv(r) && Earned(cfg, r, h)
    ensures Earned(cfg, HandleFrame(cfg, env, r, frame), ShownAfter(cfg, r, h, Message(frame)))
  {
    var g := ShownAfter(cfg, r, h, Message(frame));
    if r.phase == ReceivingFiles {
      FileStepSame(cfg, env, r, frame);
      hide HandleFrame, Inv;
      SameTrustEarned(cfg, r, HandleFrame(cfg, env, r, frame), h, g);
    } else {
      var (buffer, message) := ControlStep(r.controlBuffer, frame);
      var r1 := r.(controlBuffer := buffer);
      assert Inv(r1) && Earned(cfg, r1, g);
      hide Inv, Classify, KeylessOK;
      if message.Some? {
        MessageEarned(cfg, env, r1, g, message.value);
      }
      hide HandleMessage, Earned;
    }
  }

  lemma EventEarned(cfg: Config, env: Env, r: Receiver, h: Shown, e: Event)
    requires Inv(r) && Earned(cfg, r, h)
    ensures Earned(cfg, Apply(cfg, env, r, e), ShownAfter(cfg, r, h, e))
  {
    match e
    case Message(frame) => FrameEarned(cfg, env, r, h, frame); hide *;
    case PeerClosed =>
    case Close =>
    case WatchdogExpired =>
    case Offer =>
    case OfferFailed =>
    case PeerReady =>
  }

  // ---------- Whole runs ----------

  /** What the session that is under way after the events has seen. */
  function ShownBy(cfg: Config, r: Receiver, h: Shown, events: seq<Happening>): Shown
    requires Inv(r)
    decreases |events|
  {
    if events == [] then h
    else
      ApplyInv(cfg, events[0].env, r, events[0].event);
      ShownBy(cfg, Apply(cfg, events[0].env, r, events[0].event), ShownAfter(cfg, r, h, events[0].event), events[1..])
  }

  lemma {:induction false} RunEarned(cfg: Config, r: Receiver, h: Shown, events: seq<Happening>)
    requires Inv(r) && Earned(cfg, r, h)
    ensures Earned(cfg, ReceiverInvariant.Run(cfg, r, events), ShownBy(cfg, r, h, events))
    decreases |events|
  {
    if events != [] {
      ApplyInv(cfg, events[0].env, r, events[0].event);
      EventEarned(cfg, events[0].env, r, h, events[0].event);
      RunEarned(cfg, Apply(cfg, events[0].env, r, events[0].event), ShownAfter(cfg, r, h, events[0].event),
                events[1..]);
    }
  }

  /** The state before event `k`. */
  function Before(cfg: Config, r: Receiver, events: seq<Happening>, k: nat): Receiver
    requires Inv(r) && k <= |events|
  {
    ReceiverInvariant.Run(cfg, r, events[..k])
  }

  /** No new session begins at event `k` or later. */
  ghost predicate NoRestartFrom(cfg: Config, r: Receiver, events: seq<Happening>, k: nat)
    requires Inv(r)
  {
    forall m :: k <= m < |events| ==> !Restarts(Before(cfg, r, events, m), events[m].event)
  }

  ghost predicate PinJudgedAt(cfg: Config, r: Receiver, events: seq<Happening>, k: nat)
    requires Inv(r)
  {
    && k < |events| && JudgesPin(cfg, Before(cfg, r, events, k), events[k].event)
    && NoRestartFrom(cfg, r, events, k)
  }

  ghost predicate KeylessAt(cfg: Config, r: Receiver, events: seq<Happening>, k: nat)
    requires Inv(r)
  {
    && k < |events| && PairsWithoutKey(cfg, Before(cfg, r, events, k), events[k].event)
    && NoRestartFrom(cfg, r, events, k)
  }

  lemma BeforeTail(cfg: Config, r: Receiver, events: seq<Happening>, k: nat)
    requires Inv(r) && 0 < k <= |events| && Inv(Apply(cfg, events[0].env, r, events[0].event))
    ensures Before(cfg, r, events, k) == Before(cfg, Apply(cfg, events[0].env, r, events[0].event), events[1..], k - 1)
  {
    assert events[..k][1..] == events[1..][..k - 1];
  }

  lemma RestartTail(cfg: Config, r: Receiver, events: seq<Happening>, k: nat)
    requires Inv(r) && events != [] && Inv(Apply(cfg, events[0].env, r, events[0].event))
    requires NoRestartFrom(cfg, Apply(cfg, events[0].env, r, events[0].event), events[1..], k)
    ensures NoRestartFrom(cfg, r, events, k + 1)
  {
    var s := Apply(cfg, events[0].env, r, events[0].event);
    hide Inv, Apply, Before, Restarts;
    forall m | k + 1 <= m < |events| ensures !Restarts(Before(cfg, r, events, m), events[m].event) {
      BeforeTail(cfg, r, events, m);
      assert events[m] == events[1..][m - 1];
      assert !Restarts(Before(cfg, s, events[1..], m - 1), events[1..][m - 1].event);
    }
  }

  lemma ShownTail(cfg: Config, r: Receiver, events: seq<Happening>, k: nat)
    requires Inv(r) && events != [] && Inv(Apply(cfg, events[0].env, r, events[0].event)) && k < |events| - 1
    ensures var s := Apply(cfg, events[0].env, r, events[0].event);
            && (PinJudgedAt(cfg, s, events[1..], k) ==> PinJudgedAt(cfg, r, events, k + 1))
            && (KeylessAt(cfg, s, events[1..], k) ==> KeylessAt(cfg, r, events, k + 1))
  {
    var s := Apply(cfg, events[0].env, r, events[0].event);
    hide Inv, Apply, Before, JudgesPin, PairsWithoutKey;
    BeforeTail(cfg, r, events, k + 1);
    if NoRestartFrom(cfg, s, events[1..], k) {
      RestartTail(cfg, r, events, k);
    }
    hide NoRestartFrom;
  }

  /** The first event, when no session begins later. */
  lemma ShownFirst(cfg: Config, r: Receiver, h: Shown, events: seq<Happening>)
    requires Inv(r) && events != [] && Inv(Apply(cfg, events[0].env, r, events[0].event))
    requires NoRestartFrom(cfg, Apply(cfg, events[0].env, r, events[0].event), events[1..], 0)
    ensures ShownAfter(cfg, r, h, events[0].event).pin ==>
              (h.pin && NoRestartFrom(cfg, r, events, 0)) || PinJudgedAt(cfg, r, events, 0)
    ensures ShownAfter(cfg, r, h, events[0].event).keyless ==>
              (h.keyless && NoRestartFrom(cfg, r, events, 0)) || KeylessAt(cfg, r, events, 0)
  {
    RestartTail(cfg, r, events, 0);
    assert events[..0] == [] && Before(cfg, r, events, 0) == r;
    hide Inv, Apply, Before, JudgesPin, PairsWithoutKey, Restarts;
    if !Restarts(r, events[0].event) {
      assert NoRestartFrom(cfg, r, events, 0);
    }
  }

  /** What has been shown was shown at some event of the session under way, or before. */
  lemma {:induction false} ShownMeans(cfg: Config, r: Receiver, h: Shown, events: seq<Happening>)
    requires Inv(r)
    ensures ShownBy(cfg, r, h, events).pin ==>
              (h.pin && NoRestartFrom(cfg, r, events, 0)) || exists k :: PinJudgedAt(cfg, r, events, k)
    ensures ShownBy(cfg, r, h, events).keyless ==>
              (h.keyless && NoRestartFrom(cfg, r, events, 0)) || exists k :: KeylessAt(cfg, r, events, k)
    decreases |events|
  {
    if events != [] {
      ApplyInv(cfg, events[0].env, r, events[0].event);
      var s, g := Apply(cfg, events[0].env, r, events[0].event), ShownAfter(cfg, r, h, events[0].event);
      assert ShownBy(cfg, r, h, events) == ShownBy(cfg, s, g, events[1..]);
      ShownMeans(cfg, s, g, events[1..]);
      hide Inv, Apply, ShownBy, ShownAfter;
      if NoRestartFrom(cfg, s, events[1..], 0) {
        ShownFirst(cfg, r, h, events);
      }
      hide NoRestartFrom;
      forall k: nat | k < |events| - 1
        ensures PinJudgedAt(cfg, s, events[1..], k) ==> PinJudgedAt(cfg, r, events, k + 1)
        ensures KeylessAt(cfg, s, events[1..], k) ==> KeylessAt(cfg, r, events, k + 1)
      {
        ShownTail(cfg, r, events, k);
      }
      assert forall k: nat :: PinJudgedAt(cfg, s, events[1..], k) ==> PinJudgedAt(cfg, r, events, k + 1);
      assert forall k: nat :: KeylessAt(cfg, s, events[1..], k) ==> KeylessAt(cfg, r, events, k + 1);
    }
  }

  /** Whoever the peer is and whatever it sends: while a file is open, the receiver's PIN, if
      it has one, was given in this session; and if pairing is required, the peer's key is
      known and signed this exchange, unless the pair request was answered without a key. */
  lemma FilesNeedTrust(cfg: Config, disk: map<string, Bytes>, events: seq<Happening>)
    ensures var r := ReceiverInvariant.Run(cfg, Fresh(disk), events);
            r.current.Some? ==>
              && (cfg.pin != "" ==> exists k :: PinJudgedAt(cfg, Fresh(disk), events, k))
              && (cfg.requirePairing ==> KeyVerified(cfg, r) || exists k :: KeylessAt(cfg, Fresh(disk), events, k))
  {
    FreshInv(disk);
    RunEarned(cfg, Fresh(disk), Shown(false, false), events);
    ShownMeans(cfg, Fresh(disk), Shown(false, false), events);
    hide Before, NoRestartFrom, PinJudgedAt, KeylessAt, KeyVerified;
  }

  lemma AcceptKeeps(cfg: Config, env: Env, r: Receiver)
    requires r.phase == WaitPairResponse && r.connected
    ensures var t := AcceptFiles(cfg, env, r);
            && t.phase == WaitFiles && t.senderKey == r.senderKey && t.senderToken == r.senderToken
            && t.finalNonce == r.finalNonce
  {
    hide HandshakeOnly, PrepareTokens, FileListResponseMessage;
  }

  lemma AcceptedKey(cfg: Config, env: Env, r: Receiver, key: string)
    requires r.phase == WaitPairResponse && r.current.None? && r.senderKey.None? && r.senderToken != "" && r.connected
    ensures var t := AcceptPair(cfg, env, r, key);
            && (t.phase == WaitFiles ==> (KeyVerified(cfg, t) <==> key != ""))
            && (key == "" ==> t.phase == WaitFiles && t.senderKey.None?)
  {
    AcceptKeeps(cfg, env, r);
    AcceptKeeps(cfg, env, r.(senderKey := Some(key)));
    hide HandshakeOnly, AcceptFiles;
  }

  /** A pairing that leads to the files leaves a verified key exactly if the answer carried
      one: the answer without a key is accepted. */
  lemma PairLeavesKeyExactly(cfg: Config, env: Env, r: Receiver, h: Shown, msg: Msg, j: Json)
    requires Earned(cfg, r, h) && r.phase == WaitPairResponse && r.current.None? && r.senderKey.None? && r.connected
    requires cfg.requirePairing
    ensures var t := HandlePairResponse(cfg, env, r, msg, j);
            && (t.phase == WaitFiles ==> (KeyVerified(cfg, t) <==> !KeylessOK(msg, j)))
            && (KeylessOK(msg, j) ==> t.phase == WaitFiles && t.senderKey.None?)
  {
    hide HandshakeOnly, AcceptPair, AcceptFiles, KeyVerified;
    if AsString(j.publicKey).Some? {
      AcceptedKey(cfg, env, r, AsString(j.publicKey).value);
    }
  }
}
