/** The sender as the program runs it: one mutable object whose message handlers are proved
    against the functions of the same name in RtcSenderSpec, the queue it builds through an
    index, and the loop that writes the files to the channel. */
module RtcSender {
  import opened Wrappers
  import opened RtcMessages
  import opened DataChannel
  import opened FileIndex
  import Spec = RtcSenderSpec

  class RTCSender {
    const cfg: Spec.Config

    var state: Spec.Phase
    var localNonce: Bytes
    var remoteNonce: Bytes
    var finalNonce: Bytes
    var receiverPublicKey: Option<string>
    var receiverToken: string
    var pinAttempts: nat
    var requiredPINAttempts: nat
    var controlBuffer: Bytes
    var outbox: seq<Frame>
    var accepted: Option<map<string, string>>
    var declined: bool
    var errors: bool
    var fileResults: Option<Spec.Ack>
    var fileTokens: map<string, string>
    var acceptedIDs: seq<string>
    ghost var job: Spec.Job
    ghost var failed: bool
    ghost var dropped: nat
    ghost var unexpected: nat

    ghost function Abs(): Spec.Sender
      reads this
    {
      Spec.Sender(state, localNonce, remoteNonce, finalNonce, receiverPublicKey, receiverToken, pinAttempts,
                  requiredPINAttempts, controlBuffer, outbox, accepted, declined, errors, fileResults, job, failed,
                  fileTokens, dropped, unexpected)
    }

    constructor (cfg: Spec.Config, receiverKey: Option<string>)
      ensures Abs() == Spec.Fresh(receiverKey) && this.cfg == cfg
    {
      this.cfg := cfg;
      state := Spec.Init;
      localNonce, remoteNonce, finalNonce := [], [], [];
      receiverPublicKey, receiverToken := receiverKey, "";
      pinAttempts, requiredPINAttempts := 0, 0;
      controlBuffer, outbox := [], [];
      accepted, declined, errors, fileResults := None, false, false, None;
      fileTokens, acceptedIDs := map[], [];
      job, failed, dropped, unexpected := Spec.AwaitingAcceptance, false, 0, 0;
    }

    // ---------- Handshake ----------

    method SendJSON(j: Json)
      modifies this`outbox
      ensures Abs() == Spec.Send(cfg, old(Abs()), j)
    {
      outbox := outbox + [RtcMessages.SendJSON(cfg.codec, j)];
    }

    method SendBinary(j: Json)
      modifies this`outbox
      ensures Abs() == Spec.SendBinary(cfg, old(Abs()), j)
    {
      outbox := outbox + (Chunks(cfg.codec.encode(j)) + [Delimiter]);
    }

    method MoveTo(phase: Spec.Phase)
      modifies this`state
      ensures Abs() == old(Abs()).(phase := phase)
    {
      state := phase;
    }

    method StartNonceExchange(nonce: Bytes)
      modifies this
      ensures Abs() == Spec.StartNonceExchange(cfg, nonce, old(Abs()))
      ensures localNonce == nonce && Spec.NonceSaid(cfg, old(Abs()), Abs())
    {
      Spec.NonceExchangeSays(cfg, nonce, Abs());
      hide Spec.NonceSaid, NonceMessage;
      localNonce := nonce;
      SendJSON(NonceMessage(cfg.crypto.encodeNonce(nonce)));
      MoveTo(Spec.WaitNonce);
    }

    /** failLocked: the error channel keeps its first error. */
    method Fail()
      modifies this`state, this`errors
      ensures Abs() == Spec.Fail(old(Abs()))
    {
      state := Spec.Done;
      if !errors {
        errors := true;
      }
    }

    method CombineNonces(remote: Bytes)
      modifies this`remoteNonce, this`finalNonce
      ensures Abs() == old(Abs()).(remoteNonce := remote, finalNonce := localNonce + remote)
    {
      remoteNonce := remote;
      finalNonce := localNonce + remoteNonce;
    }

    method HandleNonceResponse(msg: Msg)
      modifies this
      ensures Abs() == Spec.HandleNonceResponse(cfg, old(Abs()), msg)
      ensures Spec.NonceAnswered(cfg, old(Abs()), Abs(), msg)
    {
      Spec.NonceResponseAnswered(cfg, Abs(), msg);
      hide Spec.NonceAnswered, TokenRequestMessage, Spec.HandshakeOnly;
      if !msg.Nonce? {
        unexpected := unexpected + 1;
        return;
      }
      var remote := cfg.crypto.decodeNonce(msg.nonce);
      if remote.None? {
        return;
      }
      CombineNonces(remote.value);
      SendJSON(TokenRequestMessage(cfg.crypto.sign(cfg.signingKey, finalNonce)));
      MoveTo(Spec.WaitToken);
    }

    method FileDTOs() returns (dtos: seq<FileDto>)
      ensures dtos == Spec.Dtos(cfg.files)
      ensures |dtos| == |cfg.files| && forall i :: 0 <= i < |dtos| ==> Spec.Describes(dtos[i], cfg.files[i])
    {
      dtos := [];
      for i := 0 to |cfg.files|
        invariant |dtos| == i && forall k :: 0 <= k < i ==> dtos[k] == Spec.Dto(cfg.files[k])
      {
        var f := cfg.files[i];
        dtos := dtos + [FileDto(f.id, f.fileName, f.size, f.sha256)];
      }
    }

    method SendFileList()
      modifies this`outbox, this`state
      ensures Abs() == Spec.SendFileList(cfg, old(Abs()))
    {
      var dtos := FileDTOs();
      hide Spec.Dtos, PinSendingMessage;
      SendBinary(PinSendingMessage(OK, dtos));
      state := Spec.WaitFileAccept;
    }

    method BeginFileListPhase()
      modifies this`outbox, this`state
      ensures Abs() == Spec.BeginFileListPhase(cfg, old(Abs()))
    {
      hide Spec.SendFileList;
      if cfg.requiredPIN.None? {
        SendFileList();
        return;
      }
      SendBinary(PinSendingMessage(PIN_REQUIRED, []));
      state := Spec.WaitRequiredPIN;
    }

    method HandleTokenResponse(msg: Msg, j: Json)
      modifies this
      ensures Abs() == Spec.HandleTokenResponse(cfg, old(Abs()), msg, j)
      ensures Spec.TokenJudged(cfg, old(Abs()), Abs(), msg, j)
    {
      hide Spec.TokenJudged, Spec.TakeToken, Spec.HandshakeOnly, Spec.Fail;
      Spec.TokenResponseJudged(cfg, Abs(), msg, j);
      if msg == Status(TOO_MANY_ATTEMPTS) || msg == Status(INVALID_SIGNATURE) {
        Fail();
        return;
      }
      if msg != Status(OK) && msg != Status(PIN_REQUIRED) {
        unexpected := unexpected + 1;
        return;
      }
      if AsString(j.token).None? {
        unexpected := unexpected + 1;
        return;
      }
      TakeToken(msg, AsString(j.token).value);
    }

    /** An expected key must verify the token, even an empty one. */
    method TakeToken(msg: Msg, token: string)
      modifies this
      ensures Abs() == Spec.TakeToken(cfg, old(Abs()), msg, token)
    {
      hide Spec.Continue, Spec.Fail;
      receiverToken := token;
      if receiverPublicKey.Some? && !cfg.crypto.verify(receiverPublicKey.value, receiverToken, finalNonce) {
        Fail();
        return;
      }
      Continue(msg);
    }

    /** The receiver is believed, and asks for a PIN or for the files. */
    method Continue(msg: Msg)
      modifies this`pinAttempts, this`outbox, this`state
      ensures Abs() == Spec.Continue(cfg, old(Abs()), msg)
    {
      hide Spec.BeginFileListPhase, PinMessage;
      if msg == Status(PIN_REQUIRED) {
        AnswerPIN();
        return;
      }
      BeginFileListPhase();
    }

    method AnswerPIN()
      modifies this`pinAttempts, this`outbox, this`state
      ensures var attempt := old(pinAttempts) + 1;
              var pin := if cfg.pinProvider.Some? then (cfg.pinProvider.value)(attempt) else cfg.pin;
              Abs() == Spec.Send(cfg, old(Abs()).(pinAttempts := attempt), PinMessage(pin)).(phase := Spec.WaitPin)
    {
      hide PinMessage;
      pinAttempts := pinAttempts + 1;
      var pin := if cfg.pinProvider.Some? then (cfg.pinProvider.value)(pinAttempts) else cfg.pin;
      SendJSON(PinMessage(pin));
      MoveTo(Spec.WaitPin);
    }

    method HandleRequiredPIN(msg: Msg)
      modifies this
      ensures Abs() == Spec.HandleRequiredPIN(cfg, old(Abs()), msg)
      ensures Spec.PinJudged(cfg, old(Abs()), Abs(), msg)
    {
      Spec.RequiredPINJudged(cfg, Abs(), msg);
      hide Spec.PinJudged, Spec.SendFileList, PinSendingMessage;
      if !msg.Pin? {
        unexpected := unexpected + 1;
        return;
      }
      if cfg.requiredPIN == Some(msg.pin) {
        SendFileList();
        return;
      }
      requiredPINAttempts := requiredPINAttempts + 1;
      var status := PIN_REQUIRED;
      if requiredPINAttempts >= MaxPINAttempts {
        status := TOO_MANY_ATTEMPTS;
      }
      SendBinary(PinSendingMessage(status, []));
      if status == TOO_MANY_ATTEMPTS {
        Fail();
      }
    }

    /** A key that does not parse, or did not sign the token of the exchange. */
    method RefuseKey()
      modifies this`outbox, this`state, this`errors
      ensures Abs() == Spec.Fail(Spec.Send(cfg, old(Abs()), PairResponseMessage(INVALID_SIGNATURE, "")))
    {
      hide PairResponseMessage;
      SendJSON(PairResponseMessage(INVALID_SIGNATURE, ""));
      Fail();
    }

    method HandlePairRequest(key: string)
      modifies this
      ensures Abs() == Spec.HandlePairRequest(cfg, old(Abs()), key)
      ensures Spec.PairJudged(cfg, old(Abs()), Abs(), key)
    {
      Spec.PairRequestJudged(cfg, Abs(), key);
      hide Spec.PairJudged, PairResponseMessage, Spec.Fail;
      if key != "" {
        if !cfg.crypto.keyParses(key) {
          RefuseKey();
          return;
        }
        if receiverToken != "" && !cfg.crypto.verify(key, receiverToken, finalNonce) {
          RefuseKey();
          return;
        }
        receiverPublicKey := Some(key);
      }
      if !cfg.acceptPair {
        receiverPublicKey := None;
        SendJSON(PairResponseMessage(PAIR_DECLINED, ""));
        return;
      }
      SendJSON(PairResponseMessage(OK, cfg.signingKey));
    }

    method HandleFileAcceptance(msg: Msg, j: Json)
      modifies this
      ensures Abs() == Spec.HandleFileAcceptance(cfg, old(Abs()), msg, j)
      ensures Spec.AcceptanceJudged(cfg, old(Abs()), Abs(), msg, j)
    {
      Spec.FileAcceptanceJudged(cfg, Abs(), msg, j);
      hide Spec.AcceptanceJudged, Spec.HandlePairRequest;
      if msg != Status(OK) && msg != Status(DECLINED) && msg != Status(PAIR) {
        unexpected := unexpected + 1;
        return;
      }
      if AsTokens(j.files).None? || AsString(j.publicKey).None? {
        unexpected := unexpected + 1;
        return;
      }
      if msg == Status(DECLINED) {
        declined := true;
        return;
      }
      if msg == Status(PAIR) {
        HandlePairRequest(AsString(j.publicKey).value);
        return;
      }
      if accepted.None? {
        accepted := Some(AsTokens(j.files).value);
      }
      state := Spec.SendingFiles;
    }

    /** A full slot keeps its acknowledgement, and the new one is lost. */
    method HandleFileResponse(ack: Spec.Ack)
      modifies this`fileResults, this`dropped, this`errors
      ensures Abs() == Spec.HandleFileResponse(old(Abs()), ack)
      ensures fileResults == if old(fileResults).Some? then old(fileResults) else Some(ack)
      ensures dropped == old(dropped) + if old(fileResults).Some? then 1 else 0
      ensures errors <==> old(errors) || !ack.success
    {
      if fileResults.None? {
        fileResults := Some(ack);
      } else {
        dropped := dropped + 1;
      }
      if !ack.success && !errors {
        errors := true;
      }
    }

    /** Waits for a file's acknowledgement while `acks` arrive; None if the wait ends without one. */
    method AwaitResult(acks: seq<Spec.Ack>) returns (result: Option<Spec.Ack>)
      modifies this`fileResults, this`dropped, this`errors
      ensures Abs() == Spec.HandleFileResponses(old(Abs()), acks).(fileResults := None)
      ensures result == FirstIn(old(fileResults), acks)
    {
      Spec.SlotKeepsFirst(Abs(), acks);
      for i := 0 to |acks|
        invariant Spec.HandleFileResponses(old(Abs()), acks) == Spec.HandleFileResponses(Abs(), acks[i..])
      {
        HandleFileResponse(acks[i]);
        assert acks[i..][1..] == acks[i + 1..];
      }
      hide Spec.HandleFileResponse;
      assert Abs() == Spec.HandleFileResponses(old(Abs()), acks);
      result := fileResults;
      fileResults := None;
    }

    method HandleMessage(data: Bytes)
      modifies this
      ensures Abs() == Spec.HandleMessage(cfg, old(Abs()), data)
    {
      hide ParseRTCMessage, Spec.HandleNonceResponse, Spec.HandleTokenResponse, Spec.HandleRequiredPIN,
           Spec.HandleFileAcceptance, Spec.HandleFileResponse;
      var decoded := cfg.codec.decode(data);
      var parsed := if decoded.Some? then ParseRTCMessage(decoded.value) else None;
      if parsed.None? {
        unexpected := unexpected + 1;
        return;
      }
      var msg, j := parsed.value, decoded.value;
      if msg.FileResponse? {
        HandleFileResponse(Spec.Ack(msg.id, msg.success, msg.error));
        return;
      }
      match state {
        case WaitNonce => HandleNonceResponse(msg);
        case WaitToken => HandleTokenResponse(msg, j);
        case WaitPin => HandleTokenResponse(msg, j);
        case WaitRequiredPIN => HandleRequiredPIN(msg);
        case WaitFileAccept => HandleFileAcceptance(msg, j);
        case _ =>
      }
    }

    /** handleDataMessage */
    method HandleDataMessage(frame: Frame)
      modifies this
      ensures Abs() == Spec.HandleFrame(cfg, old(Abs()), frame)
    {
      hide Spec.HandleMessage;
      var data := frame.data;
      if frame.TextFrame? && data == DelimiterText {
        if |controlBuffer| == 0 {
          return;
        }
        data := controlBuffer;
        controlBuffer := [];
      } else if frame.BinaryFrame? {
        if |controlBuffer| + |data| > MaxControlMessageBytes {
          controlBuffer := [];
          return;
        }
        controlBuffer := controlBuffer + data;
        return;
      }
      HandleMessage(data);
    }

    // ---------- Files ----------

    method PrepareSendQueue() returns (queue: seq<Spec.Sendable>)
      ensures queue == Spec.SendQueue(cfg.files, fileTokens, acceptedIDs)
    {
      var fileByID := BuildIndex(Spec.FileID, cfg.files);
      queue := [];
      for i := 0 to |acceptedIDs|
        invariant queue == Spec.SendQueue(cfg.files, fileTokens, acceptedIDs[..i])
      {
        var id := acceptedIDs[i];
        assert acceptedIDs[..i + 1][..i] == acceptedIDs[..i];
        assert First(Spec.FileID, cfg.files, id) == if id in fileByID then Some(fileByID[id]) else None;
        if id !in fileTokens {
          continue;
        }
        if id !in fileByID {
          continue;
        }
        queue := queue + [Spec.Sendable(id, fileTokens[id], fileByID[id])];
      }
      assert acceptedIDs[..|acceptedIDs|] == acceptedIDs;
    }

    /** One file: its header unless that is already out, its data, and what ends it. */
    method SendFile(peer: PeerConnection, queue: seq<Spec.Sendable>, index: nat, headerAlreadySent: bool)
      returns (ok: bool, ghost frames: seq<Frame>)
      requires index < |queue|
      modifies peer
      ensures ok ==> ChunkFrames(frames) && Concat(frames) == queue[index].file.content
      ensures ok ==> peer.sent == old(peer.sent) + (if headerAlreadySent then [] else [Spec.Header(cfg, queue[index])])
                                  + frames + [Spec.Boundary(cfg, queue, index)]
    {
      frames := [];
      if !headerAlreadySent {
        ok := peer.SendFrame(Spec.Header(cfg, queue[index]));
        if !ok {
          return;
        }
      }
      ok, frames := DataChannel.SendFrames(peer, queue[index].file.content);
      if !ok {
        return;
      }
      if index + 1 < |queue| {
        ok := peer.SendFrame(Spec.Header(cfg, queue[index + 1]));
      } else {
        ok := peer.SendDelimiter();
      }
    }

    /** One round of the loop in SendFiles: a file, and the wait for its acknowledgement. */
    method SendNext(peer: PeerConnection, queue: seq<Spec.Sendable>, index: nat, headerAlreadySent: bool,
                    acks: seq<Spec.Ack>, ghost before: seq<Frame>, ghost parts: seq<seq<Frame>>)
      returns (ok: bool, ghost frames: seq<Frame>)
      requires index == |parts| < |queue| && (headerAlreadySent <==> index > 0)
      requires Progress(cfg, before, peer.sent, queue, parts)
      modifies peer, this`fileResults, this`dropped, this`errors
      ensures ok ==> Progress(cfg, before, peer.sent, queue, parts + [frames]) && fileResults.None?
      ensures ok ==> Confirms(FirstIn(old(fileResults), acks), queue[index])
    {
      ok, frames := SendFile(peer, queue, index, headerAlreadySent);
      if !ok {
        return;
      }
      ProgressGrows(cfg, before, old(peer.sent), queue, parts, frames);
      hide Progress;
      var result := AwaitResult(acks);
      ok := result.Some? && result.value.id == queue[index].id && result.value.success;
    }

    /** Without a file there is only the delimiter to send. */
    method SendNothing(peer: PeerConnection, queue: seq<Spec.Sendable>) returns (ok: bool)
      modifies peer
      ensures ok ==> Progress(cfg, old(peer.sent), peer.sent, queue, [])
    {
      ok := true;
      if queue == [] {
        ok := peer.SendDelimiter();
      }
    }

    /** SendFiles.  `arrivals(i)` are the acknowledgements handled during the i-th file, up
        to the moment its wait ends.  When it returns without error, the channel has carried
        exactly the pipelined frames of the queue, and each wait found in the slot the
        success of its own file. */
    method SendFiles(peer: PeerConnection, arrivals: nat -> seq<Spec.Ack>)
      returns (ok: bool, queue: seq<Spec.Sendable>, ghost parts: seq<seq<Frame>>)
      modifies peer, this
      ensures queue == Spec.SendQueue(cfg.files, old(fileTokens), old(acceptedIDs))
      ensures ok ==> FileParts(queue, parts) && peer.sent == old(peer.sent) + Pipelined(cfg, queue, parts)
      ensures ok ==> Acknowledged(queue, old(fileResults), arrivals, |queue|)
      ensures ok ==> state == Spec.Done && (queue != [] ==> fileResults == None)
    {
      hide Spec.SendQueue, Progress, Confirms, FirstIn, Pipelined, FileParts;
      parts := [];
      queue := PrepareSendQueue();
      ghost var before := peer.sent;
      ok := SendNothing(peer, queue);
      if !ok {
        return;
      }
      var headerAlreadySent := false;
      for index := 0 to |queue|
        invariant ok && |parts| == index && (headerAlreadySent <==> 0 < index < |queue|)
        invariant Progress(cfg, before, peer.sent, queue, parts)
        invariant Acknowledged(queue, old(fileResults), arrivals, index)
        invariant fileResults == if index == 0 then old(fileResults) else None
      {
        ghost var frames;
        ok, frames := SendNext(peer, queue, index, headerAlreadySent, arrivals(index), before, parts);
        if !ok {
          return;
        }
        headerAlreadySent := index + 1 < |queue|;
        parts := parts + [frames];
      }
      ProgressEnds(cfg, before, peer.sent, queue, parts);
      state := Spec.Done;
    }
  }

  // ---------- The frames of a transfer ----------

  /** Each part is a chunking of its file. */
  ghost predicate FileParts(queue: seq<Spec.Sendable>, parts: seq<seq<Frame>>) {
    |parts| == |queue|
    && forall i :: 0 <= i < |queue| ==> ChunkFrames(parts[i]) && Concat(parts[i]) == queue[i].file.content
  }

  /** What the channel has carried once `n` files are through: the first header, and per
      file its part and the boundary that ends it. */
  ghost function Sent(cfg: Spec.Config, queue: seq<Spec.Sendable>, parts: seq<seq<Frame>>, n: nat): seq<Frame>
    requires n <= |parts| <= |queue|
  {
    if n == 0 then []
    else (if n == 1 then [Spec.Header(cfg, queue[0])] else Sent(cfg, queue, parts, n - 1))
         + parts[n - 1] + [Spec.Boundary(cfg, queue, n - 1)]
  }

  ghost function Pipelined(cfg: Spec.Config, queue: seq<Spec.Sendable>, parts: seq<seq<Frame>>): seq<Frame>
    requires |parts| == |queue|
  {
    if queue == [] then [Delimiter] else Sent(cfg, queue, parts, |queue|)
  }

  ghost predicate Progress(cfg: Spec.Config, before: seq<Frame>, sent: seq<Frame>, queue: seq<Spec.Sendable>,
                           parts: seq<seq<Frame>>) {
    && |parts| <= |queue| && FileParts(queue[..|parts|], parts)
    && sent == before + if queue == [] then [Delimiter] else Sent(cfg, queue, parts, |parts|)
  }

  /** What the i-th wait finds in the slot. */
  function Answer(slot: Option<Spec.Ack>, arrivals: nat -> seq<Spec.Ack>, i: nat): Option<Spec.Ack> {
    FirstIn(if i == 0 then slot else None, arrivals(i))
  }

  function FirstIn(slot: Option<Spec.Ack>, acks: seq<Spec.Ack>): Option<Spec.Ack> {
    if slot.Some? then slot else if acks == [] then None else Some(acks[0])
  }

  predicate Confirms(answer: Option<Spec.Ack>, item: Spec.Sendable) {
    answer.Some? && answer.value.id == item.id && answer.value.success
  }

  /** The first `n` files were acknowledged with success, in queue order. */
  ghost predicate Acknowledged(queue: seq<Spec.Sendable>, slot: Option<Spec.Ack>, arrivals: nat -> seq<Spec.Ack>,
                               n: nat)
    requires n <= |queue|
  {
    forall i :: 0 <= i < n ==> Confirms(Answer(slot, arrivals, i), queue[i])
  }

  lemma PartsGrow(queue: seq<Spec.Sendable>, parts: seq<seq<Frame>>, frames: seq<Frame>)
    requires |parts| < |queue| && FileParts(queue[..|parts|], parts)
    requires ChunkFrames(frames) && Concat(frames) == queue[|parts|].file.content
    ensures FileParts(queue[..|parts| + 1], parts + [frames])
  {
    hide Concat, ChunkFrames;
    assert queue[..|parts| + 1] == queue[..|parts|] + [queue[|parts|]];
  }

  lemma ProgressEnds(cfg: Spec.Config, before: seq<Frame>, sent: seq<Frame>, queue: seq<Spec.Sendable>,
                     parts: seq<seq<Frame>>)
    requires Progress(cfg, before, sent, queue, parts) && |parts| == |queue|
    ensures FileParts(queue, parts) && sent == before + Pipelined(cfg, queue, parts)
  {
    hide FileParts, Sent;
    assert queue[..|queue|] == queue;
  }

  lemma ProgressGrows(cfg: Spec.Config, before: seq<Frame>, sent: seq<Frame>, queue: seq<Spec.Sendable>,
                      parts: seq<seq<Frame>>, frames: seq<Frame>)
    requires Progress(cfg, before, sent, queue, parts) && |parts| < |queue|
    requires ChunkFrames(frames) && Concat(frames) == queue[|parts|].file.content
    ensures Progress(cfg, before, sent + (if |parts| == 0 then [Spec.Header(cfg, queue[0])] else []) + frames
                                  + [Spec.Boundary(cfg, queue, |parts|)], queue, parts + [frames])
  {
    PartsGrow(queue, parts, frames);
    SentGrows(cfg, queue, parts, frames);
    hide FileParts, Concat, ChunkFrames, Spec.Boundary, Spec.Header;
    var n, boundary := |parts|, [Spec.Boundary(cfg, queue, |parts|)];
    if n == 0 {
      var header := [Spec.Header(cfg, queue[0])];
      assert sent == before + [];
      hide Sent;
      assert before + header + frames + boundary == before + (header + frames + boundary);
    } else {
      hide Sent;
      var carried := Sent(cfg, queue, parts, n);
      assert before + carried + [] + frames + boundary == before + (carried + frames + boundary);
    }
  }

  lemma {:induction false} SentIgnoresLater(cfg: Spec.Config, queue: seq<Spec.Sendable>, parts: seq<seq<Frame>>,
                                            frames: seq<Frame>, n: nat)
    requires n <= |parts| < |queue|
    ensures Sent(cfg, queue, parts + [frames], n) == Sent(cfg, queue, parts, n)
  {
    if n > 1 {
      SentIgnoresLater(cfg, queue, parts, frames, n - 1);
    }
  }

  lemma SentGrows(cfg: Spec.Config, queue: seq<Spec.Sendable>, parts: seq<seq<Frame>>, frames: seq<Frame>)
    requires |parts| < |queue|
    ensures var n := |parts|;
            Sent(cfg, queue, parts + [frames], n + 1)
            == (if n == 0 then [Spec.Header(cfg, queue[0])] else Sent(cfg, queue, parts, n))
               + frames + [Spec.Boundary(cfg, queue, n)]
  {
    SentIgnoresLater(cfg, queue, parts, frames, |parts|);
  }

}
