/** Framing on the data channel: control messages and file contents are cut into binary
    frames of at most 16 KiB (section 8.2 of the LocalSend protocol v3), and the peers
    put control messages together again. */
module DataChannel {
  import opened Wrappers
  import opened RtcMessages

  const ChunkSize := 16 * 1024
  const MaxControlMessageBytes := 2 * 1024 * 1024

  /** The frames of one control message. */
  function Chunks(data: Bytes): (frames: seq<Frame>)
    decreases |data|
  {
    if data == [] then []
    else if |data| <= ChunkSize then [BinaryFrame(data)]
    else [BinaryFrame(data[..ChunkSize])] + Chunks(data[ChunkSize..])
  }

  function Concat(frames: seq<Frame>): Bytes {
    if frames == [] then [] else frames[0].data + Concat(frames[1..])
  }

  /** Frames a receiver accepts as file data or message chunks. */
  predicate ChunkFrames(frames: seq<Frame>) {
    forall i :: 0 <= i < |frames| ==> frames[i].BinaryFrame? && 1 <= |frames[i].data| <= ChunkSize
  }

  lemma ThreeParts(a: Bytes, b: Bytes, c: Bytes)
    ensures a + (b + c) == a + b + c
  {
  }

  lemma {:induction false} ConcatAppend(a: seq<Frame>, b: seq<Frame>)
    ensures Concat(a + b) == Concat(a) + Concat(b)
  {
    if a == [] {
      assert a + b == b;
    } else {
      ConcatAppend(a[1..], b);
      assert (a + b)[1..] == a[1..] + b && (a + b)[0] == a[0];
      ThreeParts(a[0].data, Concat(a[1..]), Concat(b));
    }
  }

  lemma {:induction false} ChunksConcat(data: Bytes)
    ensures ChunkFrames(Chunks(data)) && Concat(Chunks(data)) == data
    decreases |data|
  {
    if data != [] {
      if |data| <= ChunkSize {
        assert Concat([BinaryFrame(data)]) == data + Concat([]);
      } else {
        ChunksConcat(data[ChunkSize..]);
        var rest := Chunks(data[ChunkSize..]);
        assert ([BinaryFrame(data[..ChunkSize])] + rest)[1..] == rest;
      }
    }
  }

  lemma ChunksFirst(data: Bytes)
    requires data != []
    ensures var n := if |data| <= ChunkSize then |data| else ChunkSize;
            Chunks(data) == [BinaryFrame(data[..n])] + Chunks(data[n..])
  {
    assert data[..|data|] == data;
  }

  /** `done` are the chunks before offset `start`. */
  ghost predicate ChunksSoFar(data: Bytes, start: nat, done: seq<Frame>) {
    if start < |data| then Chunks(data) == done + Chunks(data[start..]) else Chunks(data) == done
  }

  lemma ChunksAdvance(data: Bytes, start: nat, done: seq<Frame>)
    requires start < |data| && ChunksSoFar(data, start, done)
    ensures var end := if start + ChunkSize > |data| then |data| else start + ChunkSize;
            && ChunksSoFar(data, start + ChunkSize, done + [BinaryFrame(data[start..end])])
            && |done| < |Chunks(data)|
  {
    var end := if start + ChunkSize > |data| then |data| else start + ChunkSize;
    ChunksFirst(data[start..]);
    assert data[start..][..end - start] == data[start..end];
    assert data[start..][end - start..] == data[end..];
  }

  // ---------- Sending ----------

  /** The sending half of a PeerConnection; a send may fail at any time. */
  class PeerConnection {
    var sent: seq<Frame>

    constructor ()
      ensures sent == []
    {
      sent := [];
    }

    method SendFrame(frame: Frame) returns (ok: bool)
      modifies this
      ensures sent == if ok then old(sent) + [frame] else old(sent)
    {
      ok := *;
      if ok {
        sent := sent + [frame];
      }
    }

    /** Either every chunk is sent, or a proper prefix of them. */
    method SendJSONBinary(data: Bytes) returns (ok: bool)
      modifies this
      ensures ok ==> sent == old(sent) + Chunks(data)
      ensures !ok ==> exists k :: 0 <= k < |Chunks(data)| && sent == old(sent) + Chunks(data)[..k]
    {
      var start := 0;
      ghost var done: seq<Frame> := [];
      assert data[0..] == data;
      while start < |data|
        invariant 0 <= start
        invariant ChunksSoFar(data, start, done)
        invariant sent == old(sent) + done
      {
        var end := start + ChunkSize;
        if end > |data| {
          end := |data|;
        }
        ChunksAdvance(data, start, done);
        ok := SendFrame(BinaryFrame(data[start..end]));
        if !ok {
          assert Chunks(data)[..|done|] == done;
          return;
        }
        done := done + [BinaryFrame(data[start..end])];
        start := start + ChunkSize;
      }
      ok := true;
    }

    method SendDelimiter() returns (ok: bool)
      modifies this
      ensures sent == if ok then old(sent) + [Delimiter] else old(sent)
    {
      ok := SendFrame(Delimiter);
    }
  }

  /** sendFrames: one block of file data. */
  method SendFrames(peer: PeerConnection, data: Bytes) returns (ok: bool, ghost frames: seq<Frame>)
    modifies peer
    ensures peer.sent == old(peer.sent) + frames && ChunkFrames(frames)
    ensures ok ==> Concat(frames) == data
    ensures Concat(frames) <= data
  {
    var start := 0;
    frames := [];
    while start < |data|
      invariant 0 <= start && ChunkFrames(frames)
      invariant peer.sent == old(peer.sent) + frames
      invariant Concat(frames) == if start <= |data| then data[..start] else data
    {
      var end := if start + ChunkSize < |data| then start + ChunkSize else |data|;
      ok := peer.SendFrame(BinaryFrame(data[start..end]));
      if !ok {
        return;
      }
      ghost var next := [BinaryFrame(data[start..end])];
      ConcatAppend(frames, next);
      assert Concat(next) == data[start..end] + Concat(next[1..]);
      assert data[..start] + data[start..end] == data[..end];
      assert old(peer.sent) + frames + next == old(peer.sent) + (frames + next);
      frames := frames + next;
      start := start + ChunkSize;
    }
    assert data[..|data|] == data;
    ok := true;
  }

  function Flatten(blocks: seq<Bytes>): Bytes {
    if blocks == [] then [] else blocks[0] + Flatten(blocks[1..])
  }

  lemma {:induction false} FlattenSnoc(blocks: seq<Bytes>, last: Bytes)
    ensures Flatten(blocks + [last]) == Flatten(blocks) + last
  {
    if blocks == [] {
      assert Flatten([last]) == last + Flatten([last][1..]);
    } else {
      FlattenSnoc(blocks[1..], last);
      assert (blocks + [last])[1..] == blocks[1..] + [last];
    }
  }

  /** sendFileFrames: `blocks` are the blocks the file's reads return until end of file,
      of any length up to the read buffer's. */
  method SendFileFrames(peer: PeerConnection, blocks: seq<Bytes>) returns (ok: bool, ghost frames: seq<Frame>)
    modifies peer
    ensures peer.sent == old(peer.sent) + frames && ChunkFrames(frames)
    ensures ok ==> Concat(frames) == Flatten(blocks)
  {
    frames := [];
    for i := 0 to |blocks|
      invariant ChunkFrames(frames)
      invariant peer.sent == old(peer.sent) + frames
      invariant Concat(frames) == Flatten(blocks[..i])
    {
      ghost var before := frames;
      ghost var more;
      ok, more := SendFrames(peer, blocks[i]);
      frames := frames + more;
      ConcatAppend(before, more);
      if !ok {
        return;
      }
      FlattenSnoc(blocks[..i], blocks[i]);
      assert blocks[..i] + [blocks[i]] == blocks[..i + 1];
    }
    assert blocks[..|blocks|] == blocks;
    ok := true;
  }

  // ---------- Reassembling ----------

  /** One frame against the control buffer: the new buffer, and the message it completes.
      Both peers do exactly this outside a file. */
  function ControlStep(buffer: Bytes, frame: Frame): (Bytes, Option<Bytes>) {
    match frame
    case TextFrame(data) =>
      if data != DelimiterText then (buffer, Some(data))
      else if buffer == [] then (buffer, None)
      else ([], Some(buffer))
    case BinaryFrame(data) =>
      if |buffer| + |data| > MaxControlMessageBytes then ([], None) else (buffer + data, None)
  }

  /** The messages a sequence of frames completes, starting from a buffer. */
  function Reassemble(buffer: Bytes, frames: seq<Frame>): seq<Bytes>
    decreases |frames|
  {
    if frames == [] then []
    else
      var (next, message) := ControlStep(buffer, frames[0]);
      (if message.Some? then [message.value] else []) + Reassemble(next, frames[1..])
  }

  function Transmit(messages: seq<Bytes>): seq<Frame> {
    if messages == [] then [] else Chunks(messages[0]) + [Delimiter] + Transmit(messages[1..])
  }

  lemma {:induction false} ReassembleOne(buffer: Bytes, data: Bytes, rest: seq<Frame>)
    requires buffer + data != [] && |buffer| + |data| <= MaxControlMessageBytes
    ensures Reassemble(buffer, Chunks(data) + [Delimiter] + rest) == [buffer + data] + Reassemble([], rest)
    decreases |data|
  {
    var frames := Chunks(data) + [Delimiter] + rest;
    if data == [] {
      assert frames == [Delimiter] + rest;
      assert buffer + data == buffer;
    } else {
      var first := if |data| <= ChunkSize then data else data[..ChunkSize];
      var left := data[|first|..];
      assert frames == [BinaryFrame(first)] + (Chunks(left) + [Delimiter] + rest);
      ReassembleOne(buffer + first, left, rest);
      assert buffer + first + left == buffer + data;
    }
  }

  /** Any sequence of control messages of 1 byte to 2 MiB arrives exactly and in order. */
  lemma {:induction false} ControlRoundTrip(messages: seq<Bytes>)
    requires forall i :: 0 <= i < |messages| ==> 1 <= |messages[i]| <= MaxControlMessageBytes
    ensures Reassemble([], Transmit(messages)) == messages
  {
    if messages != [] {
      ControlRoundTrip(messages[1..]);
      ReassembleOne([], messages[0], Transmit(messages[1..]));
      assert [] + messages[0] == messages[0];
      assert [messages[0]] + messages[1..] == messages;
    }
  }

  /** Only a bounded message can come out, so the size limit is exact. */
  lemma {:induction false} ReassembledBounded(buffer: Bytes, frames: seq<Frame>)
    requires |buffer| <= MaxControlMessageBytes
    requires forall i :: 0 <= i < |frames| ==> frames[i].BinaryFrame? || frames[i] == Delimiter
    ensures forall i :: 0 <= i < |Reassemble(buffer, frames)| ==>
              1 <= |Reassemble(buffer, frames)[i]| <= MaxControlMessageBytes
    decreases |frames|
  {
    if frames != [] {
      ReassembledBounded(ControlStep(buffer, frames[0]).0, frames[1..]);
    }
  }

  lemma ControlRoundTripExact(data: Bytes)
    ensures Reassemble([], Transmit([data])) == [data] <==> 1 <= |data| <= MaxControlMessageBytes
  {
    if 1 <= |data| <= MaxControlMessageBytes {
      ControlRoundTrip([data]);
    } else {
      ChunksConcat(data);
      assert Transmit([data]) == Chunks(data) + [Delimiter] + Transmit([]);
      ReassembledBounded([], Transmit([data]));
      assert data !in Reassemble([], Transmit([data]));
      assert data in [data];
    }
  }

  // ---------- What the other side reads ----------

  /** A control message the other side can reassemble. */
  predicate Small(codec: Codec, j: Json) { 1 <= |codec.encode(j)| <= MaxControlMessageBytes }

  /** A peer with nothing buffered reads the one message `msg` in `frames`. */
  ghost predicate Conveys(codec: Codec, frames: seq<Frame>, msg: Msg) {
    exists j: Json :: Reassemble([], frames) == [codec.encode(j)] && codec.decode(codec.encode(j)) == Some(j)
                      && ParseRTCMessage(j) == Some(msg)
  }

  /** Between the two states of a channel exactly the message `msg` was sent. */
  ghost predicate Says(codec: Codec, before: seq<Frame>, after: seq<Frame>, msg: Msg) {
    before <= after && Conveys(codec, after[|before|..], msg)
  }

  /** The same, with the object the message came in. */
  ghost predicate SaysIn(codec: Codec, before: seq<Frame>, after: seq<Frame>, msg: Msg, j: Json) {
    && before <= after && Reassemble([], after[|before|..]) == [codec.encode(j)]
    && codec.decode(codec.encode(j)) == Some(j) && ParseRTCMessage(j) == Some(msg)
  }

  lemma SaysInSays(codec: Codec, before: seq<Frame>, after: seq<Frame>, msg: Msg, j: Json)
    requires SaysIn(codec, before, after, msg, j)
    ensures Says(codec, before, after, msg)
  {
  }

  /** Frames say one thing. */
  lemma SaysOne(codec: Codec, before: seq<Frame>, after: seq<Frame>, a: Msg, b: Msg)
    requires Says(codec, before, after, a) && Says(codec, before, after, b)
    ensures a == b
  {
    hide Reassemble, ParseRTCMessage;
    var frames := after[|before|..];
    var i: Json :| Reassemble([], frames) == [codec.encode(i)] && codec.decode(codec.encode(i)) == Some(i)
                   && ParseRTCMessage(i) == Some(a);
    var j: Json :| Reassemble([], frames) == [codec.encode(j)] && codec.decode(codec.encode(j)) == Some(j)
                   && ParseRTCMessage(j) == Some(b);
    assert [codec.encode(i)][0] == [codec.encode(j)][0];
  }

  lemma TextSays(codec: Codec, before: seq<Frame>, j: Json, msg: Msg)
    requires Faithful(codec) && ParseRTCMessage(j) == Some(msg)
    ensures SaysIn(codec, before, before + [SendJSON(codec, j)], msg, j)
  {
    hide ParseRTCMessage;
    var frames := [SendJSON(codec, j)];
    assert codec.encode(j)[0] == OpenBrace && frames[1..] == [];
    assert Reassemble([], frames) == [codec.encode(j)] + Reassemble([], []);
    assert (before + frames)[|before|..] == frames;
  }

  lemma BinarySays(codec: Codec, before: seq<Frame>, j: Json, msg: Msg)
    requires Faithful(codec) && Small(codec, j) && ParseRTCMessage(j) == Some(msg)
    ensures SaysIn(codec, before, before + (Chunks(codec.encode(j)) + [Delimiter]), msg, j)
  {
    hide ParseRTCMessage;
    var frames := Chunks(codec.encode(j)) + [Delimiter];
    ReassembleOne([], codec.encode(j), []);
    assert frames + [] == frames && [] + codec.encode(j) == codec.encode(j);
    assert [codec.encode(j)] + Reassemble([], []) == [codec.encode(j)];
    assert (before + frames)[|before|..] == frames;
  }
}
