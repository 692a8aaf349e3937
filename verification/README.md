# Verified model of LocalSend transfers

This project models the parts of a LocalSend command-line peer whose correctness depends on
several functions, threads or peers at once, and proves what they promise.

- **WebRTC transfer.** `RtcReceiverSpec` and `RtcSenderSpec` give both state machines as
  functions on values; `RtcReceiver` and `RtcSender` are the objects with their fields, maps and
  loops, proved equal to those functions method by method. `Transfer` joins the two machines by
  two FIFO channels; `Handshake` runs nonces, tokens, PINs, the file list and pairing, and hands
  over to the pipelined transfer; `HandshakeProgress` and `TransferProgress` show that both end,
  and the transfer ends well when nothing fails. `SenderThread` shows that the sending loop is a
  run of the step model, `HandshakeOutcome` which end a handshake has, and `DeclaredFiles` that
  what is kept is what was offered. `ReceiverInvariant`, `ReceiverAnswers`, `ReceiverTrust` and
  `SenderTrust` make no assumption about the peer at all.
- **HTTP upload.** `UploadSession` interleaves any number of upload requests at their atomic
  actions (lock regions, atomic counter operations, file-system calls), with cancels and with
  other programs creating files. `RecvSession` is the session object; its methods are those
  actions, and `SaveFile` composes them. `UploadDisk`, `UploadTargets` and
  `UploadAuthority` say what uploads leave on the disk, where retries go and who may upload;
  `UploadRetry` adds the sender's retry loops and the vacuum task, and `SessionTable` the
  admission of sessions.
- **Names and paths.** `Paths`, `FolderRemap`, `UniqueNames`, `ConcurrentNames`.
- **Fast forms against simple ones.** `NonceCache` (map and recency list against the history of
  puts and hits), `PinLimiter` (over timed runs, against a list of strikes), `Discovery` (channel choice under every map
  order), `Subnets` (interleaved targets against the plain set), `FileIndex`.

Conventions. A data-channel message is handled in one step; callbacks run inside it. SHA-256,
signatures and JSON text are function-valued parameters: decoding undoes encoding, and a
signature verifies under its own key. Randomness and the file system are inputs of each step.
Time is an integer number of seconds that never goes back. Map iteration is an arbitrary choice,
so what is proved holds for every order. One call of AcceptOffer runs at a time, as the receive
command makes them. Byte slices that the program copies defensively are values.

Where the code and its promises part, the code is followed:

- At most one tabled session is active only while no expired session is read from; `SessionTable`
  gives the exact steps that break the rule, the exact runs that keep it, and one that does not.
- With pairing required, a pair request answered with OK and no key is accepted, and no key is
  kept; `ReceiverTrust` says when a key is.
- The sender takes a token response without a token, such as the answer to a PIN, for one with
  the empty token, which forgets the token received before; a pair request that follows is then
  granted to any key that parses. `SenderTrust` says when a kept key signed the exchange.
- A file started after a rejection is received and kept, but nobody is told: the rejection has
  given up the connection (`ReceiverInvariant.StartedAfterRejection`).
- `DiscoveredSince` depends on map order exactly when two devices share their best host and
  differ, which two announcements bring about; `bestDiscoveryChannel` never does.
- The PIN window bound needs a limit of at least one.
- `AcceptFile` keeps counter and table in step only for new IDs; sessions are created from a map,
  so their IDs are distinct.
- A control message survives the channel only from 1 byte to 2 MiB.

## Model

| member | source | states |
|---|---|---|
| `Transfer.EndToEndDelivery` | internal/webrtc/transfer/sender.go:860-969 | if SendFiles returns nil, every queued file is on the receiver's disk byte for byte under a path of its own, and no file that was there before changed; for every interleaving, chunking, fault and moment of giving up |
| `Transfer.PrefixAlways` | internal/webrtc/transfer/receiver.go:698-727 | in every reachable state, what the receiver has written of the current file is a prefix of that file |
| `Transfer.NoAckLost` | internal/webrtc/transfer/sender.go:421-443 | at most one acknowledgement is sent and unread, it belongs to the file the sender waits for, and the drop branch of the one-slot channel is never taken |
| `Transfer.StepKeepsInv` | internal/webrtc/transfer/sender.go:923-950 | every step of the joined system keeps sender, receiver and both channels in step, whichever of them moves |
| `TransferProgress.SmoothStep` | internal/webrtc/transfer/sender.go:883-950 | without faults every step keeps the transfer healthy and lowers a measure of frames, bytes and files left |
| `TransferProgress.NeverStuck` | internal/webrtc/transfer/sender.go:883-969 | before SendFiles has returned, a frame is waiting on some channel or the sending thread can move |
| `TransferProgress.FaultlessRunCompletes` | internal/webrtc/transfer/sender.go:860-969 | a faultless run has a bounded length, never fails, is never stuck early, and when it has ended every queued file is stored |
| `Handshake.HandshakeAgreement` | internal/webrtc/transfer/sender.go:446-456 | between honest peers no message reaches a branch that did not expect it, at most three wrong PINs are judged in each direction, and in SendingFiles both sides hold the same combined nonce and exactly the same token map, with a token for every selected file with a usable entry and for no other |
| `Handshake.StepKeepsInv` | internal/webrtc/transfer/receiver.go:767-781 | the conversation stays at a point where exactly one message, or none, is under way and both sides know the same; and a measure of messages and frames left falls |
| `Handshake.FirstFileIsFirstEntry` | internal/webrtc/transfer/sender.go:819-830 | looking an ID up in the offered list and in the local files finds the same entry, the first, even when IDs repeat, with the file's ID, name, size and hash |
| `Handshake.QueueExact` | internal/webrtc/transfer/sender.go:819-845 | the queue holds every accepted ID once, in order, with its token and the first local file of that ID |
| `Handshake.AcceptanceStartsTransfer` | internal/webrtc/transfer/sender.go:860-876 | when Send returns, nothing is in flight and the queue is exactly the accepted files, each with its token and first local file, so the transfer starts as its delivery proof assumes |
| `Handshake.TransferDelivers` | internal/webrtc/transfer/sender.go:248-352 | from the open channel to SendFiles returning nil: every file the receiver selected and can store has a token and is on its disk byte for byte |
| `DeclaredFiles.KeptAsOffered` | internal/webrtc/transfer/sender.go:611-632 | from the open channel, whatever the files have become since the offer: everything the receiver keeps has the size and, if one was offered, the hash that the sender's first file of that ID declares; so has every file whose success the sender has read, and it is on disk under a path that was not there before |
| `Handshake.OfferOpens` | internal/webrtc/transfer/receiver.go:589-666 | an offer to a free receiver and the connection that follows leave it waiting for a nonce with that connection, and with no nonce, key, token, PIN attempt, list or partial file of the session before; from there the handshake theorems start, with the history counted anew |
| `HandshakeProgress.HandshakeCompletes` | internal/webrtc/transfer/sender.go:248-352 | every handshake of honest peers has a bounded length, and when nothing can move any more the sender's thread has given up, or Send can return the accepted files, or the receiver has declined or closed the session |
| `HandshakeOutcome.HandshakeOutcome` | internal/webrtc/transfer/receiver.go:1020-1075 | when nothing can move any more and the sender has not given up: Send returns the accepted files if and only if token and PINs were good, some of at most 10000 files are selected and no required pairing was declined; the offer is declined if and only if token and PINs were good and nothing is selected or too much offered; and the receiver has closed the session in exactly the other cases |
| `HandshakeOutcome.StepTold` | internal/webrtc/transfer/sender.go:530-600 | at every point of the conversation what has been settled is known: which PINs were wrong so far, which is given next, and what the offer was answered |
| `HandshakeProgress.NeverStuck` | internal/webrtc/transfer/sender.go:446-456 | in every reachable state short of that some message can be handled or the nonce exchange begun |
| `Handshake.TokensNonEmpty` | internal/webrtc/transfer/receiver.go:470-500 | every token handed out is non-empty and belongs to a file of the offered list |
| `ReceiverInvariant.ApplyInv` | internal/webrtc/transfer/receiver.go:321-358 | every message and every other event keeps: receiving exactly while one file is open, callbacks alternate, the disk is what it was plus saved files plus the open one, and the open one is within its declared size |
| `ReceiverInvariant.Run` | internal/webrtc/transfer/receiver.go:689-782 | the same for every sequence of events from any peer; and what was saved stays saved |
| `ReceiverInvariant.NoPartialFiles` | internal/webrtc/transfer/receiver.go:321-358 | after closing, losing the peer or timing out, the disk is exactly what it was at the start plus the acknowledged files |
| `ReceiverTrust.FilesNeedTrust` | internal/webrtc/transfer/receiver.go:829-938 | whoever the peer is and whatever it sends: while a file is open, a configured PIN was given in this session, and with pairing required the key held signed this exchange, unless the pair request was answered without a key |
| `ReceiverTrust.EventEarned` | internal/webrtc/transfer/receiver.go:1079-1156 | every event keeps what each phase owes to the token, the PIN and the key |
| `ReceiverTrust.ShownMeans` | internal/webrtc/transfer/receiver.go:602-624 | what a session has been shown was shown at one of its own events, after its reset |
| `ReceiverTrust.PairLeavesKeyExactly` | internal/webrtc/transfer/receiver.go:1079-1156 | a required pairing that leads to the files leaves a verified key if and only if the answer carried one |
| `ReceiverInvariant.FramesAccumulate` | internal/webrtc/transfer/receiver.go:1281-1314 | while a file stays open its writer holds exactly the concatenation of its binary frames or has failed for good, and nothing is sent |
| `ReceiverInvariant.ResponseSound` | internal/webrtc/transfer/receiver.go:1334-1409 | a started file that reaches a boundary gets exactly one response while the connection is held, and none once it was given up; it is a success if and only if every frame was written, flushed and closed and their concatenation has the declared size and hash; then that is what is saved, otherwise the file is gone, answered or not, and the response names the wrong hash, the failed write or the wrong size, in that order |
| `ReceiverInvariant.StartedAfterRejection` | internal/webrtc/transfer/receiver.go:1268-1278 | after a header with a wrong token the connection is given up, and the right one still opens the file, so that a file can be received and kept without an answer |
| `ReceiverInvariant.FrameDeclared` | internal/webrtc/transfer/receiver.go:1334-1409 | from any peer: once the files are agreed, a frame saves only data with the declared size and hash |
| `ReceiverInvariant.ExcessGivesUp` | internal/webrtc/transfer/receiver.go:1281-1314 | a frame is taken into the open file if and only if it keeps within the declared size; a longer one costs the file and the connection |
| `ReceiverInvariant.HeaderOpens` | internal/webrtc/transfer/receiver.go:1197-1253 | a header opens its file if and only if its token is the one handed out, the first entry of its ID has a usable name, and a new file can be created; otherwise the connection is given up |
| `ReceiverInvariant.BoundaryDecides` | internal/webrtc/transfer/receiver.go:705-727 | after a file the text 0 ends the session, a text that names a file opens it or costs the connection, and any other text ends the session |
| `ReceiverInvariant.EndsAreOver` | internal/webrtc/transfer/receiver.go:337-358 | closing, losing a held connection and the timeout of an open file end the session; without a connection or an open file the latter two do nothing |
| `ReceiverInvariant.OverStaysOver` | internal/webrtc/transfer/receiver.go:763-781 | in a session that is over nothing is sent, written, saved or called back, whatever comes, until the next offer |
| `ReceiverAnswers.NonceAnswered` | internal/webrtc/transfer/receiver.go:784-826 | whoever the sender is: a readable nonce is combined with the fresh one, which the sender reads back; an unreadable one is answered with an error and changes nothing |
| `ReceiverAnswers.FindTrustedExact` | internal/webrtc/transfer/receiver.go:1451-1478 | a sender is recognized by the first stored key that parses and made its token, and by none if and only if no stored key did |
| `ReceiverAnswers.TokenAnswered` | internal/webrtc/transfer/receiver.go:829-895 | a token is judged by the key held or recognized; one that key did not make ends the session with that answer, any other is answered with a token of the own key, and a PIN is asked for if and only if there is one |
| `ReceiverAnswers.PinAnswered` | internal/webrtc/transfer/receiver.go:898-938 | what each PIN costs and is answered: only the right one leads on, the third wrong one ends the session |
| `ReceiverAnswers.ChallengeAnswered` | internal/webrtc/transfer/receiver.go:941-958 | the sender's challenge is answered with the next PIN of the provider or the configured one |
| `ReceiverAnswers.ListAnswered` | internal/webrtc/transfer/receiver.go:941-980 | which message is a challenge, a refusal, an offer, or none of them |
| `ReceiverAnswers.OfferAnswered` | internal/webrtc/transfer/receiver.go:974-1076 | in every state that waits for the list with a connection, on the message that is sent: DECLINED if and only if nothing is selected or more than 10000 files are offered; PAIR, with the own key, if and only if otherwise pairing is required and no key is held; and else OK, with a token for exactly the selected files that can be stored |
| `ReceiverAnswers.PairAnswered` | internal/webrtc/transfer/receiver.go:1079-1180 | which answers to a pair request are believed, which key is then held, and that exactly believed answers, and refusals where pairing is not required, are followed by the acceptance with its tokens |
| `RtcReceiver.RTCReceiver.constructor` | internal/webrtc/transfer/receiver.go:168-182 | a new receiver is the fresh state |
| `RtcReceiver.RTCReceiver.MarkTransferStarted` | internal/webrtc/transfer/receiver.go:207-220 | the start callback fires exactly on the change from inactive to active |
| `RtcReceiver.RTCReceiver.MarkTransferDone` | internal/webrtc/transfer/receiver.go:256-272 | the done callback fires exactly on the change from active to inactive |
| `RtcReceiver.RTCReceiver.FileMetaByID` | internal/webrtc/transfer/receiver.go:411-428 | whatever part of the list is indexed, the answer is the scan's, a miss fills the index in, and a complete index is left alone |
| `RtcReceiver.RTCReceiver.RemovePartialFiles` | internal/webrtc/transfer/receiver.go:325-327 | exactly the open paths are removed, in any order of the map |
| `RtcReceiver.RTCReceiver.CleanupPartialFiles` | internal/webrtc/transfer/receiver.go:321-335 | the open file is closed and removed, the maps are empty, and the done callback fires once if a file was open |
| `RtcReceiver.RTCReceiver.Terminate` | internal/webrtc/transfer/receiver.go:337-346 | the specification's termination, with the maps consistent |
| `RtcReceiver.RTCReceiver.Reject` | internal/webrtc/transfer/receiver.go:1268-1278 | the specification's rejection |
| `RtcReceiver.RTCReceiver.Destination` | internal/webrtc/transfer/receiver.go:1197-1223 | the checks before a file is opened answer as specified, and a destination is new |
| `RtcReceiver.RTCReceiver.StartReceivingFile` | internal/webrtc/transfer/receiver.go:1197-1253 | opens the file the header names or rejects, exactly as specified |
| `RtcReceiver.RTCReceiver.OpenFile` | internal/webrtc/transfer/receiver.go:1237-1253 | all four maps then hold the new file and nothing else, and its path is empty on disk |
| `RtcReceiver.RTCReceiver.HandleBinaryData` | internal/webrtc/transfer/receiver.go:1281-1314 | a frame is written, dropped with a sticky error, or ends the transfer when it exceeds the declared size |
| `RtcReceiver.RTCReceiver.AppendData` | internal/webrtc/transfer/receiver.go:1290-1314 | count, hash and writer agree after every write |
| `RtcReceiver.RTCReceiver.CleanupCurrentFile` | internal/webrtc/transfer/receiver.go:1316-1331 | removes the current file from disk and from all four maps |
| `RtcReceiver.RTCReceiver.CloseCurrentFile` | internal/webrtc/transfer/receiver.go:1342-1386 | the verdict on size, flush, close and checksum, with the error reported last |
| `RtcReceiver.RTCReceiver.CloseAndReport` | internal/webrtc/transfer/receiver.go:1334-1400 | keeps the file exactly on success, removes it otherwise, and reports once |
| `RtcReceiver.RTCReceiver.FinishCurrentFile` | internal/webrtc/transfer/receiver.go:1334-1409 | the specification's finish, on which the response theorem rests |
| `RtcReceiver.RTCReceiver.HandleBoundary` | internal/webrtc/transfer/receiver.go:705-727 | a text frame closes the current file and then ends the run or opens the next one |
| `RtcReceiver.RTCReceiver.HandleNonce` | internal/webrtc/transfer/receiver.go:784-826 | the nonce exchange, with the sender's nonce first in the combination |
| `RtcReceiver.RTCReceiver.FindTrustedSender` | internal/webrtc/transfer/receiver.go:1451-1478 | the first stored key that parses and verifies the token |
| `RtcReceiver.RTCReceiver.HandleToken` | internal/webrtc/transfer/receiver.go:829-895 | an expected key that does not verify ends the session; otherwise the PIN or the file list is next |
| `RtcReceiver.RTCReceiver.HandlePin` | internal/webrtc/transfer/receiver.go:898-938 | the third wrong PIN ends the session |
| `RtcReceiver.RTCReceiver.PrepareFilesForReceive` | internal/webrtc/transfer/receiver.go:470-500 | every accepted ID with a listed, usable name gets a token and no other does; of a repeated ID the last token counts; the answer and the stored tokens agree |
| `RtcReceiverSpec.PrepareTokensExact` | internal/webrtc/transfer/receiver.go:470-500 | the same of the specification, for all lists, IDs and tokens |
| `RtcReceiver.RTCReceiver.HandleFileList` | internal/webrtc/transfer/receiver.go:941-980 | PIN challenges, refusals and lists are told apart as specified |
| `RtcReceiver.RTCReceiver.ReceiveFileList` | internal/webrtc/transfer/receiver.go:982-1076 | the offer is indexed, selected from, and declined, paired or accepted as ReceiverAnswers.OfferAnswered says of the specification |
| `RtcReceiver.RTCReceiver.HandlePairResponse` | internal/webrtc/transfer/receiver.go:1079-1156 | a key is kept only if it parses and signed the exchanged token |
| `RtcReceiver.RTCReceiver.AcceptFiles` | internal/webrtc/transfer/receiver.go:1159-1180 | sends the acceptance and waits for files |
| `RtcReceiver.RTCReceiver.HandleMessage` | internal/webrtc/transfer/receiver.go:751-781 | whole messages are dispatched by state |
| `RtcReceiver.RTCReceiver.HandleDataMessage` | internal/webrtc/transfer/receiver.go:689-782 | one frame has exactly the specified effect on every field, whatever the state |
| `RtcReceiver.RTCReceiver.HandlePeerClosed` | internal/webrtc/transfer/receiver.go:348-358 | losing the peer leaves no open file |
| `RtcReceiver.RTCReceiver.Close` | internal/webrtc/transfer/receiver.go:1412-1426 | closing leaves no open file |
| `RtcReceiver.RTCReceiver.WatchdogExpired` | internal/webrtc/transfer/receiver.go:228-254 | a stalled transfer is terminated |
| `RtcReceiver.RTCReceiver.BeginOffer` | internal/webrtc/transfer/receiver.go:593-629 | a busy receiver is left alone; otherwise every field of the old session is reset |
| `RtcReceiver.RTCReceiver.InstallPeer` | internal/webrtc/transfer/receiver.go:658-666 | the connection is held from then on exactly if the session was not closed meanwhile |
| `RtcReceiver.RTCReceiver.FailAccept` | internal/webrtc/transfer/receiver.go:631-636 | an offer that cannot be answered ends the session, whatever has happened since it was reserved; the object stays consistent exactly if no file is open |
| `ReceiverInvariant.PendingStays` | internal/webrtc/transfer/receiver.go:593-668 | while one call answers an offer, no event opens a file, so its failure is the guarded event of the runs |
| `ReceiverInvariant.FailAcceptExact` | internal/webrtc/transfer/receiver.go:631-636 | failing an offer keeps the invariant if and only if no file is open, which a second call of AcceptOffer could have let happen |
| `FileIndex.BuildIndex` | internal/webrtc/transfer/receiver.go:401-409 | the index of a list with repeated IDs keeps the first entry of each |
| `RtcSender.RTCSender.StartNonceExchange` | internal/webrtc/transfer/sender.go:357-382 | the frame sent is read by the other side as a nonce that decodes to the one kept |
| `RtcSender.RTCSender.HandleNonceResponse` | internal/webrtc/transfer/sender.go:459-496 | a readable nonce, and nothing else, is answered; the answer is read as a token that verifies under the own key for the sender's nonce followed by the receiver's |
| `RtcSender.RTCSender.HandleTokenResponse` | internal/webrtc/transfer/sender.go:499-550 | something is sent if and only if the response is positive, its token field is absent or text, and the token, empty if absent, verifies under the expected key if there is one; a refusal or another's token ends the session |
| `RtcSender.RTCSender.HandleRequiredPIN` | internal/webrtc/transfer/sender.go:564-591 | only the right PIN gets the list; a wrong one is counted once and challenged again, and the third ends the session and is told so |
| `RtcSender.RTCSender.FileDTOs` | internal/webrtc/transfer/sender.go:611-632 | the i-th offered entry has the ID, name, size and hash of the i-th local file |
| `RtcSender.RTCSender.HandlePairRequest` | internal/webrtc/transfer/sender.go:678-768 | a key that does not parse, or did not sign the last token received, is never kept and ends the session; any other is kept if the user agrees, and signed that token exactly if it was not empty; the answer is read as what was decided |
| `RtcSender.RTCSender.HandleFileAcceptance` | internal/webrtc/transfer/sender.go:658-792 | the files are sent exactly after a well-formed OK, with the first token map; only a pair request is answered |
| `RtcSender.RTCSender.HandleFileResponse` | internal/webrtc/transfer/sender.go:421-443 | a free slot takes the acknowledgement, a full one keeps its own and counts the new one lost, and every failure is noticed |
| `RtcSender.RTCSender.HandleDataMessage` | internal/webrtc/transfer/sender.go:390-456 | one frame has exactly the specified effect on every field |
| `RtcSender.RTCSender.PrepareSendQueue` | internal/webrtc/transfer/sender.go:819-845 | the indexed queue is the queue a scan would give |
| `RtcSender.RTCSender.SendFile` | internal/webrtc/transfer/sender.go:897-937 | one file puts its header unless already out, its data, and the next header or the final delimiter on the channel, in that order |
| `RtcSender.RTCSender.AwaitResult` | internal/webrtc/transfer/sender.go:940-960 | the wait finds the first acknowledgement that arrived since the slot was last read, and leaves the slot free |
| `RtcSender.RTCSender.SendFiles` | internal/webrtc/transfer/sender.go:860-969 | when it returns without error the channel has carried exactly the pipelined frames of the queue, and each wait found in the slot the success of its own file, in queue order |
| `RtcSenderSpec.NonceExchangeSays` | internal/webrtc/transfer/sender.go:357-382 | the same of the specification: the exchanged nonce survives the wire |
| `RtcSenderSpec.NonceResponseAnswered` | internal/webrtc/transfer/sender.go:459-496 | exactly readable nonces are answered, with a token that verifies for the combined nonce |
| `RtcSenderSpec.TokenResponseJudged` | internal/webrtc/transfer/sender.go:499-550 | when a token response is believed, answered, ignored or fatal, in both directions |
| `RtcSenderSpec.TokenlessBelieved` | internal/webrtc/transfer/sender.go:514-519 | without an expected key a positive response without any token is believed, and its empty token replaces the one received before |
| `RtcSenderSpec.RequiredPINJudged` | internal/webrtc/transfer/sender.go:564-591 | what each PIN costs, and when the list or the refusal is sent |
| `RtcSenderSpec.PairRequestJudged` | internal/webrtc/transfer/sender.go:678-768 | when a key is kept, forgotten or fatal |
| `RtcSenderSpec.FileAcceptanceJudged` | internal/webrtc/transfer/sender.go:658-792 | when the files are sent, and with which tokens |
| `RtcSenderSpec.SlotKeepsFirst` | internal/webrtc/transfer/sender.go:421-443 | of any acknowledgements that arrive before the slot is read the first is kept, the others are counted lost, and failures are noticed |
| `SenderTrust.FilesNeedTrust` | internal/webrtc/transfer/sender.go:499-591 | whoever the receiver is and whatever it sends: the file list and the files go only after the required PIN, and with an expected key only on a token of that receiver; beyond the own nonce and token nothing is sent before such a token has come |
| `SenderTrust.PairedKeyExactly` | internal/webrtc/transfer/sender.go:678-768 | in every run, a key kept from a pair request signed the exchange if and only if the last positive token response carried a token |
| `SenderTrust.UnprovenKeyKept` | internal/webrtc/transfer/sender.go:514-768 | a run in which the answer to a PIN carries no token, and a key that signed nothing is kept |
| `SenderTrust.EventEarned` | internal/webrtc/transfer/sender.go:390-456 | every event keeps what each phase owes to the token, the PIN and the key |
| `SenderThread.SendFilesIsRun` | internal/webrtc/transfer/sender.go:860-969 | what SendFiles promises of a run without error is a run of the step model's thread: same frames, same acknowledgements read, and finished |
| `SenderThread.ThreadSendsPart` | internal/webrtc/transfer/sender.go:910-937 | whatever chunking the loop chose for a file, the step model has the run that sends those very frames |
| `SenderThread.MoveIsStep` | internal/webrtc/transfer/sender.go:421-443 | each move of that run is a step of the joined system: the thread's, or the sender handling the receiver's next frame |
| `RtcMessages.PeerMessagesClassified` | internal/webrtc/transfer/rtc_protocol.go:91-155 | every message either peer marshals is classified as what it is meant to be |
| `DataChannel.ChunksConcat` | internal/webrtc/transfer/peer.go:579-594 | the chunks of a message are non-empty, at most 16 KiB, and concatenate to it |
| `DataChannel.PeerConnection.SendJSONBinary` | internal/webrtc/transfer/peer.go:579-594 | sends all chunks, or a proper prefix of them on failure |
| `DataChannel.PeerConnection.SendDelimiter` | internal/webrtc/transfer/peer.go:597-599 | sends one text delimiter or nothing |
| `DataChannel.SendFrames` | internal/webrtc/transfer/sender.go:991-1002 | the frames of a block are non-empty, at most 16 KiB, and concatenate to the block |
| `DataChannel.SendFileFrames` | internal/webrtc/transfer/sender.go:973-989 | the frames of any sequence of short reads concatenate to the file |
| `DataChannel.ControlRoundTrip` | internal/webrtc/transfer/receiver.go:729-749 | any sequence of control messages of 1 byte to 2 MiB is reassembled exactly and in order |
| `DataChannel.ControlRoundTripExact` | internal/webrtc/transfer/receiver.go:742-747 | a message survives the channel if and only if it has 1 byte to 2 MiB |
| `DataChannel.ReassembledBounded` | internal/webrtc/transfer/receiver.go:742-747 | only messages within the limit can come out |
| `UploadSession.CounterConserved` | internal/localsend/session/recv.go:252-269 | in every interleaving without a cancel, filesCount is the number of pending and in-progress files plus the terminal ones not yet counted down |
| `UploadSession.EndedOnceByTheLast` | internal/localsend/session/recv.go:435-455 | without a cancel the session ends at most once, never before every file is terminal and counted, and has ended when all are terminal and no request has work left |
| `UploadSession.OnlyTheLastEnds` | internal/localsend/session/recv.go:452-454 | the request that swaps the started flag is the one whose countdown reached zero, with nothing open and nothing uncounted |
| `UploadSession.NoOverwrite` | internal/localsend/session/recv.go:305-341 | cancels included: attempts under way and finished files have distinct paths, finished files hold verified contents, and other programs' files are untouched |
| `UploadDisk.NoPartialUploads` | internal/localsend/session/recv.go:328-341 | in every run a path on the disk is another program's, or a request still works there, or a finished file is there; once all requests are answered no partial file is left |
| `UploadTargets.RetriesKeepPath` | internal/localsend/session/recv.go:304-322 | in every run, once an attempt has stored the path it created, every later attempt at that file works at that path, and the finished file is there |
| `UploadAuthority.OnlyEntitledUpload` | internal/localsend/session/recv.go:236-262 | in every run a file is worked on or finished only for a request with the token handed out for that file, from the client's address if the session has one |
| `UploadSession.OnlyTheHolderWrites` | internal/localsend/session/recv.go:329-341 | a path is written or removed only by the request that created it, and removed only by its deferred cleanup |
| `UploadSession.FinishedStays` | internal/localsend/session/recv.go:418-420 | once finished, a file keeps its path and contents for the rest of every run |
| `UploadSession.OneOwner` | internal/localsend/session/recv.go:257-265 | a file in progress has exactly one request working on it, and is claimed at most three times |
| `UploadSession.InvStep` | internal/localsend/session/recv.go:236-455 | every atomic action of every request keeps all of this |
| `UploadRetry.BothSidesAgree` | internal/localsend/send/fwdsend.go:366-375 | while nobody cancels, a request is refused only if the session had expired and was swept from the table before it came; a file takes at most three attempts; and a job ends with success, refusal or failure exactly as the session finished the file, left it pending or failed it |
| `UploadRetry.ErrorRoundTrip` | internal/localsend/constants/errors.go:23-71 | an error survives the status code exactly when it has a status of its own; success and the checksum error are read exactly when they were given |
| `UploadRetry.AnswersArrive` | internal/localsend/recv/handlers.go:299-311 | of the answers of an upload, the sender reads success, checksum error, refusal and invalid body exactly when the session gave them, and any other as unknown |
| `UploadRetry.SendFileWithRetry` | internal/localsend/send/fwdsend.go:366-375 | the loop's answer and number of attempts are those of the retry rule that the joint runs follow |
| `UploadRetry.RetryExact` | internal/localsend/send/fwdsend.go:366-375 | the rule ends with the first answer that is no checksum error, or with the third attempt |
| `UploadRetry.AttemptExact` | internal/localsend/send/fwdsend.go:366-375 | in every joint run, from the verdict on an attempt's body to its answer, whatever happens in between: a body stored in full that does not match leaves the file pending and its job waiting, or at the third attempt fails it; a good one finishes the file, and any other fails it for good |
| `UploadRetry.SendAll` | internal/localsend/send/fwdsend.go:393-434 | the files reported as failed are exactly the accepted ones whose last answer was no success, each once, and the session is cancelled exactly if there is one |
| `UploadRetry.AllDoneEndsSession` | internal/localsend/send/fwdsend.go:377-434 | when every job is done and every request answered, the session has been ended, once, if and only if no job was refused |
| `UploadRetry.LapseRefuses` | internal/localsend/session/recvsessman.go:40-68 | once an expired session has been swept, the next attempt at any waiting file is refused |
| `UploadRetry.ServedStep` | internal/localsend/send/fwdsend.go:366-375 | the request that serves an attempt keeps matching the file's state until it is answered |
| `RecvSession.RecvSession.AcceptFile` | internal/localsend/session/recv.go:110-141 | errors in order; the counter keeps step with the table if and only if the ID is new |
| `RecvSession.RecvSession.AcceptAll` | internal/localsend/session/recvsessman.go:121-145 | accepting distinct IDs gives a session the step model starts from, or fails on more than 10000 files |
| `RecvSession.RecvSession.CheckRequest` | internal/localsend/session/recv.go:237-250 | the checks before the lock, as the step they are; an empty ID or token is an invalid request, and an ended session or another client's address a refusal |
| `RecvSession.RecvSession.ClaimFile` | internal/localsend/session/recv.go:252-267 | claims exactly when file, token and state allow it |
| `RecvSession.RecvSession.CreateFile` | internal/localsend/session/recv.go:312-323 | an exclusive create, as the step it is |
| `RecvSession.RecvSession.StoreTarget` | internal/localsend/session/recv.go:317-322 | the path is stored for retries |
| `RecvSession.RecvSession.ReceiveBody` | internal/localsend/session/recv.go:356-361 | the copy, limited to one byte more than declared |
| `RecvSession.RecvSession.JudgeBody` | internal/localsend/session/recv.go:361-412 | a checksum error, which leaves the file pending, if and only if the body was read and stored in full but does not match; an invalid body if and only if it was read with a wrong size; an I/O error if and only if the read failed or, for a body of the right size, the flush; success otherwise |
| `RecvSession.RecvSession.CleanUp` | internal/localsend/session/recv.go:329-341 | the deferred close, as the step it is |
| `RecvSession.RecvSession.FinishAttempt` | internal/localsend/session/recv.go:435-451 | the lock region of finishFileAttempt, as the step it is |
| `RecvSession.RecvSession.CountDown` | internal/localsend/session/recv.go:452-453 | the atomic decrement, as the step it is |
| `RecvSession.RecvSession.CompareAndSwap` | internal/localsend/session/recv.go:499-506 | the compare-and-swap of End, as the step it is |
| `RecvSession.RecvSession.StoreZero` | internal/localsend/session/recv.go:501-501 | the store after it, as the step it is |
| `RecvSession.RecvSession.End` | internal/localsend/session/recv.go:499-506 | true exactly if the session was started; it is then not started and counts nothing, in the two steps of the model |
| `RecvSession.RecvSession.SaveFile` | internal/localsend/session/recv.go:236-433 | a request run alone is a run of the step model; which of refusal, invalid body, I/O error, checksum error and success it answers is given by an if-and-only-if on the request, the file system and the body |
| `RecvSession.RecvSession.Stopped` | internal/localsend/session/recv.go:508-518 | stopped is expired, not started or nothing left |
| `SessionTable.AdmissionSafe` | internal/localsend/session/recvsessman.go:91-170 | in every run the table holds at most 100 sessions; and if no expired session is read from, at most one is active and none while another is admitted |
| `SessionTable.OnlyRevivalAddsActive` | internal/localsend/session/recv.go:508-518 | a step breaks the rule of one active session if and only if it is a read on an expired, started session with files left, while another is active or being admitted |
| `SessionTable.OneActiveExactly` | internal/localsend/session/recvsessman.go:91-170 | a whole run keeps the rule if and only if it has no such step |
| `SessionTable.RevivalBreaksIt` | internal/localsend/session/recv.go:508-518 | a concrete run with such a read has two active sessions |
| `SessionTable.AcceptErrorExact` | internal/localsend/session/recvsessman.go:132-138 | an offer is acceptable exactly when every entry names itself and there are at most 10000 |
| `SessionTable.AdmittedExactly` | internal/localsend/session/recvsessman.go:91-145 | an offer is admitted if and only if it lists 1 to 10000 files under their own IDs, fewer than 100 sessions are tabled, and each has been idle for more than 60 seconds, is not started or has no file left |
| `SessionTable.RecvSessManager.CreateSessionIfAllowed` | internal/localsend/session/recvsessman.go:91-145 | errors in order, success only with every tabled session stopped and room left, by the same rule as the step model's, and the table otherwise unchanged |
| `SessionTable.RecvSessManager.HasActiveSessions` | internal/localsend/session/recvsessman.go:156-170 | true exactly when some tabled session is not stopped |
| `SessionTable.RecvSessManager.SessionCount` | internal/localsend/session/recvsessman.go:147-154 | the number of tabled sessions |
| `SessionTable.RecvSessManager.KillSession` | internal/localsend/session/recvsessman.go:172-182 | the session leaves the table and is ended for everybody who still holds it, and no other session changes |
| `SessionTable.RecvSessManager.KillSessionForClient` | internal/localsend/session/recvsessman.go:106-119 | another client's session is refused, an unknown one is no error |
| `SessionTable.RecvSessManager.Vacuum` | internal/localsend/session/recvsessman.go:40-68 | exactly the stopped sessions leave the table |
| `UniqueNames.FindUniqueFolderName` | internal/utils/files.go:16-31 | the name itself if it is free, else the first free numbered one, and none if and only if all are taken |
| `UniqueNames.CandidateShape` | internal/utils/files.go:94-112 | the n-th name tried is the stem, the number n in decimal in parentheses, and the extension, and stem and extension are the name |
| `UniqueNames.CandidatesDistinct` | internal/utils/files.go:107-112 | different suffixes give different paths |
| `UniqueNames.ExtIsLastDot` | internal/utils/files.go:107-108 | a name with a dot has an extension, which begins at its last dot |
| `UniqueNames.ScanSkipsTaken` | internal/utils/files.go:94-122 | a search that skips taken suffixes finds what the full search finds |
| `UniqueNames.CreateFrom` | internal/utils/files.go:94-122 | creates the first free candidate from a suffix, exclusively; an existing path is passed over, and any other error ends the search there |
| `UniqueNames.UniqueFileAllocator.Create` | internal/utils/files.go:56-83 | starts at the hint, creates a new file, and while every suffix below the hints is taken creates what the search from zero would and fails exactly when it does |
| `UniqueNames.RememberKeepsHints` | internal/utils/files.go:71-82 | storing a hint keeps every suffix below it taken |
| `ConcurrentNames.ConcurrentCreateIsScan` | internal/utils/files.go:56-122 | in every interleaving without removals, a create picks what the search from zero would pick at that instant, and fails only as that search would, for want of a name or on another error |
| `ConcurrentNames.RunKeepsInv` | internal/utils/files.go:56-83 | in every such run the hints only skip taken names and the paths handed out are distinct |
| `ConcurrentNames.AnyStepIsSafe` | internal/utils/files.go:56-83 | with removals a created path is still new, owned paths stay, and hints never fall except by Reset |
| `Paths.SanitizeIsWalk` | internal/utils/paths.go:27-62 | a name is accepted exactly when it is relative and walking its segments never leaves the directory and ends below it; the result spells that walk |
| `Paths.SanitizeIdempotent` | internal/utils/paths.go:27-62 | sanitizing twice is sanitizing once |
| `Paths.FallbackContained` | internal/utils/paths.go:78-91 | an accepted name has no empty, dot or dot-dot segment |
| `Paths.FallbackRejects` | internal/utils/paths.go:78-91 | a name is rejected exactly when neither its walk nor its last segment is usable |
| `Paths.FallbackExact` | internal/utils/paths.go:78-91 | a relative name whose walk ends below the directory becomes that walk, folders and all; any other becomes its last non-empty segment if that names an entry, and is rejected otherwise |
| `Paths.FallbackIdempotent` | internal/utils/paths.go:78-91 | the fallback form is idempotent too |
| `FolderRemap.FolderRemapper.Fill` | internal/utils/folderremap.go:19-54 | exactly the root folders that exist already are renamed, each to its unique name; fails only when a root has none |
| `FolderRemap.RootsExact` | internal/utils/folderremap.go:19-54 | the root folders are the first segments of the accepted names that have more than one |
| `FolderRemap.ApplyChangesOnlyRoot` | internal/utils/folderremap.go:56-68 | renaming changes at most the first segment |
| `FolderRemap.StoredBelowSaveDir` | internal/localsend/session/recv.go:273-295 | every accepted name, renamed or not, is stored strictly below the save directory |
| `NonceCache.TraceLaw` | internal/localsend/nonce_cache.go:37-96 | a client is present exactly when it was put and fewer than capacity distinct other clients were put or hit since; what is found was put last; the size is at most the capacity, also for capacities below one |
| `NonceCache.TouchedIsPut` | internal/localsend/nonce_cache.go:37-96 | being touched at all is having been put |
| `NonceCache.NonceCache.Put` | internal/localsend/nonce_cache.go:37-73 | refreshes or inserts at the front and evicts the last over capacity; map and list keep the same keys |
| `NonceCache.NonceCache.Get` | internal/localsend/nonce_cache.go:78-95 | the stored nonce, and a hit moves to the front |
| `NonceCache.NonceCache.Delete` | internal/localsend/nonce_cache.go:98-106 | exactly the entry goes, from map and list |
| `NonceCache.DeleteExact` | internal/localsend/nonce_cache.go:98-106 | a deletion leaves exactly the other clients' entries, in order |
| `PinLimiter.WindowBound` | internal/utils/ratelimit.go:69-148 | over any timed run of requests and sweeps, a closed window as long as the block with no correct PIN holds at most maxAttempts judged wrong PINs of a client, for limits of at least one |
| `PinLimiter.AnswerExact` | internal/localsend/recv/recv.go:385-412 | after any run, in terms of the client's strikes alone, which are its judged wrong PINs since the last correct one, expired block or sweep of an idle entry: a request is turned away if and only if there are as many as allowed and the last is no longer than the block ago, and every other answer is given by its PIN |
| `PinLimiter.BlockNeedsWrongPINs` | internal/utils/ratelimit.go:69-110 | a client that is turned away gave at least the limit of wrong PINs, one of them within the block; so fewer never block, and every block ends |
| `PinLimiter.LimitBelowOneFails` | internal/utils/ratelimit.go:91-110 | for smaller limits it fails at the first wrong PIN |
| `PinLimiter.RateLimiter.IsBlocked` | internal/utils/ratelimit.go:69-87 | blocked while full and not expired; an expired block is forgotten |
| `PinLimiter.RateLimiter.RecordAttempt` | internal/utils/ratelimit.go:91-110 | one wrong PIN counts once, and the client is blocked from the limit on |
| `PinLimiter.RateLimiter.CleanupExpired` | internal/utils/ratelimit.go:125-148 | exactly the stale entries go, and their number is returned |
| `PinLimiter.ValidatePIN` | internal/localsend/recv/recv.go:385-412 | the status and the limiter's new state are those of the judged event |
| `Discovery.BestDiscoveryChannel` | internal/localsend/scan.go:800-826 | whatever the iteration order, the one first choice: over IPv6 if any recent channel is, then confirmed last, then the smallest host; and none if and only if no channel is recent |
| `Discovery.BestIsFirstChoice` | internal/localsend/scan.go:804-826 | better than every other recent channel means: IPv6 if any is, none of its family confirmed later, and the smallest host among equals |
| `Discovery.LessIsByteOrder` | internal/localsend/scan.go:820-822 | the order of hosts is the byte order of their names |
| `Discovery.OrderIrrelevant` | internal/localsend/scan.go:800-826 | two walks over the same channels answer the same |
| `Discovery.BetterOrders` | internal/localsend/scan.go:811-822 | the preference is a strict total order on channels of distinct hosts |
| `Discovery.RunKeepsGood` | internal/localsend/scan.go:448-473 | every run of confirmations and cleanups keeps at most 512 devices, one channel per host, and every device as recent as its newest channel |
| `Discovery.CleanupKeepsGood` | internal/localsend/scan.go:448-473 | cleanup drops a device exactly when all its channels are stale, and leaves any other with exactly its fresh ones |
| `Discovery.PutExact` | internal/localsend/scan.go:841-875 | a confirmation leaves the device one channel at that host, the fresh one, keeps its channels at other hosts and every other device, and only a new device in a full store costs one of the oldest its place |
| `Discovery.Discoverer.PutDiscovered` | internal/localsend/scan.go:828-875 | our own announcement is ignored; otherwise the device gets the fresh channel, and if need be an oldest device makes room |
| `Discovery.Discoverer.FindOldest` | internal/localsend/scan.go:849-857 | a device seen least recently, whatever the iteration order |
| `Discovery.Discoverer.CleanupStale` | internal/localsend/scan.go:448-473 | stale channels go, and devices without a fresh one |
| `Discovery.Discoverer.DiscoveredSince` | internal/localsend/discovery_scan.go:34-47 | the result of walking the store in some order; every entry is a device at the host of its best channel, and every such host has an entry |
| `Discovery.SnapshotUnique` | internal/localsend/discovery_scan.go:34-47 | the snapshot is independent of the iteration order if no two devices share a best host with different announcements |
| `Discovery.OrderMattersExactly` | internal/localsend/discovery_scan.go:34-47 | two orders of the walk give different results if and only if two devices would fill one entry differently |
| `Discovery.ConflictReachable` | internal/localsend/scan.go:828-875 | two announcements with different fingerprints from one host, in a run from the empty store, lead to such a store |
| `Subnets.BuildSubnetTargets` | internal/localsend/scan.go:885-919 | the loops build host 1 to 254 across the networks, row by row |
| `Subnets.TargetsExact` | internal/localsend/scan.go:885-919 | the targets are exactly hosts 1 to 254 of every local /24 except local addresses, each once |
| `Subnets.TargetsFair` | internal/localsend/scan.go:885-886 | in every prefix, before a host number comes up anywhere all smaller ones have come up everywhere |

## Left out

- Sockets, TLS, WebSocket, ICE, multicast and HTTP framing: libraries and I/O; a channel is a FIFO of tagged frames.
- JSON text: messages are records of optional fields; letter case of field names and repeated fields are not modelled.
- Encodings of addresses and numbers as text are modelled only where names are built from them; subnet targets are address values.
- Sends that fail on a live data channel inside the two handshakes: a send succeeds while the peer is held; the sender's thread may give up at any step instead. `DataChannel` and `RtcSender.RTCSender.SendFiles` do model failing sends.
- The sender's own connection closing and its timeouts: the sending thread gives up at any step, and nothing more is claimed.
- Messages delivered while a user callback runs with the mutex released.
- Failures of random generators and of key signing, and of storing a trusted device.
- The list of peers blocked between connections, extension routing, directory creation, file timestamps, idle deadlines and the watchdog's clock: an expired watchdog is an event.
- Failures of file removal; a removed path is gone.
- The receiver's unique-name search inside a transfer: its result is an input of the step, required to be new; `UniqueNames` and `ConcurrentNames` prove what the search finds.
- RtcSender.RTCSender.SendFiles: on failure it promises nothing about how much was sent; the step model covers that.
- UniqueNames.UniqueFileAllocator.Create: a path that exists answers so even where creating would fail for another reason.
- Handshake.OfferOpens: the state it leads to is the start of the handshake theorems up to what was sent, saved, called back and counted before, which the receiver only ever adds to and never reads.
- HandshakeProgress.HandshakeCompletes: the bound counts frames by bytes, so it is far above what is ever sent.
- UploadRetry.BothSidesAgree: assumes every response reaches the sender; a connection lost after the session finished a file leaves the sender with an error.
- UploadRetry.SendAll: takes the jobs one after another, in any order of the token map; the interleaving of several is in the joint runs, where nobody cancels; of the cancel request after a failure it says only when it is sent.
- UploadRetry.LapseRefuses: a request that finds no session is answered in one step.
- UploadRetry.AllDoneEndsSession: the limit of two uploads at a time is not imposed; any number of jobs may run at once.
- SessionTable.RecvSessManager.CreateSessionIfAllowed: the clock is read once; the runs split the check, the store and the start and let the clock and other requests move between them.
- PinLimiter.RateLimiter.RecordAttempt: entries are values of the map, not objects behind pointers.
- NonceCache.TraceLaw: runs with deletions are outside the law; `NonceCache.NonceCache.Delete` states what one deletion does.
- NonceCache.NonceCache.Put: the linked list is a sequence of element objects, without its links.
- Discovery.Discoverer.PutDiscovered: device types and the other fields of an announcement are left out.
- `Scan`'s event loop, announcements, the connection limiter, the control socket, signaling, logging, download pages and command-line handling: plumbing that would add only easy members.
