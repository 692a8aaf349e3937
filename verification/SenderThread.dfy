/** The sending thread of the step model does exactly what SendFiles does. */
module SenderThread {
  import opened Wrappers
  import opened RtcMessages
  import opened DataChannel
  import opened RtcSender
  import opened Transfer
  import S = RtcSenderSpec

  /** The thread goes on, or an acknowledgement arrives. */
  datatype Move = Go(size: nat) | Hear(ack: S.Ack)

  ghost predicate CanMove(s: S.Sender, m: Move) { m.Go? ==> S.CanGo(s, S.Go(m.size)) }

  function MoveOn(cfg: S.Config, s: S.Sender, m: Move): S.Sender
    requires CanMove(s, m)
  {
    match m
    case Go(size) => S.Advance(cfg, s, S.Go(size))
    case Hear(ack) => S.HandleFileResponse(s, ack)
  }

  ghost predicate CanRun(cfg: S.Config, s: S.Sender, moves: seq<Move>)
    decreases |moves|
  {
    moves == [] || (CanMove(s, moves[0]) && CanRun(cfg, MoveOn(cfg, s, moves[0]), moves[1..]))
  }

  function RunMoves(cfg: S.Config, s: S.Sender, moves: seq<Move>): S.Sender
    requires CanRun(cfg, s, moves)
    decreases |moves|
  {
    if moves == [] then s else RunMoves(cfg, MoveOn(cfg, s, moves[0]), moves[1..])
  }

  lemma {:induction false} RunAppend(cfg: S.Config, s: S.Sender, a: seq<Move>, b: seq<Move>)
    requires CanRun(cfg, s, a) && CanRun(cfg, RunMoves(cfg, s, a), b)
    ensures CanRun(cfg, s, a + b) && RunMoves(cfg, s, a + b) == RunMoves(cfg, RunMoves(cfg, s, a), b)
    decreases |a|
  {
    if a == [] {
      assert a + b == b;
    } else {
      RunAppend(cfg, MoveOn(cfg, s, a[0]), a[1..], b);
      assert (a + b)[1..] == a[1..] + b;
    }
  }

  /** Each move is a step of the joined system: the thread's, or the sender handling the
      receiver's next frame. */
  lemma MoveIsStep(c: Setup, y: System, m: Move)
    requires (y.r.phase == R.ReceivingFiles <==> y.r.current.Some?) && CanMove(y.s, m)
    ensures m.Go? ==> Enabled(c, y, Thread(S.Go(m.size)))
                      && Next(c, y, Thread(S.Go(m.size))) == y.(s := MoveOn(c.sc, y.s, m))
    ensures m.Hear? && Carried(c, y, m.ack) ==>
              Enabled(c, y, ToSender) && Next(c, y, ToSender).s == MoveOn(c.sc, y.s, m)
  {
    if m.Hear? && Carried(c, y, m.ack) {
      var e :| Carries(c, y, m.ack, e);
      PeerMessagesClassified();
      var j := FileResponseMessage(m.ack.id, m.ack.success, e);
      assert c.sc.codec.encode(j)[0] == OpenBrace;
      assert y.s.(controlBuffer := y.s.controlBuffer) == y.s;
    }
  }

  /** The receiver's next frame is the acknowledgement. */
  ghost predicate Carries(c: Setup, y: System, ack: S.Ack, e: ErrorText) {
    && Faithful(c.sc.codec) && ack.id != "" && y.s.controlBuffer == [] && ack == AckOf(ack.id, ack.success, e)
    && y.r.outbox != [] && y.r.outbox[0] == SendJSON(c.sc.codec, FileResponseMessage(ack.id, ack.success, e))
  }

  ghost predicate Carried(c: Setup, y: System, ack: S.Ack) { exists e :: Carries(c, y, ack, e) }

  // ---------- One file ----------

  /** The thread's moves through one file, one per frame and one for the boundary. */
  ghost function FileMoves(part: seq<Frame>): seq<Move> {
    if part == [] then [Go(0)] else [Go(|part[0].data|)] + FileMoves(part[1..])
  }

  /** Whatever chunking was chosen for a file, the thread has the run that sends exactly
      those frames and the same boundary, and then waits. */
  lemma {:induction false} ThreadSendsPart(cfg: S.Config, s: S.Sender, part: seq<Frame>)
    requires s.job.SendingFrames? && !s.failed && s.job.index < |s.job.queue| && ChunkFrames(part)
    requires s.job.offset <= |s.job.queue[s.job.index].file.content|
    requires Concat(part) == s.job.queue[s.job.index].file.content[s.job.offset..]
    ensures CanRun(cfg, s, FileMoves(part))
    ensures RunMoves(cfg, s, FileMoves(part))
            == s.(outbox := s.outbox + part + [S.Boundary(cfg, s.job.queue, s.job.index)],
                  job := S.AwaitingAck(s.job.queue, s.job.index))
    decreases |part|
  {
    var content, offset := s.job.queue[s.job.index].file.content, s.job.offset;
    var moves := FileMoves(part);
    if part == [] {
      assert s.outbox + part == s.outbox;
      assert RunMoves(cfg, s, moves) == RunMoves(cfg, MoveOn(cfg, s, Go(0)), []);
    } else {
      var size := |part[0].data|;
      assert content[offset..][..size] == part[0].data && content[offset..][size..] == content[offset + size..];
      assert content[offset..offset + size] == part[0].data;
      var next := MoveOn(cfg, s, Go(size));
      assert part[0] == BinaryFrame(part[0].data);
      ThreadSendsPart(cfg, next, part[1..]);
      assert moves[1..] == FileMoves(part[1..]);
      assert s.outbox + [part[0]] + part[1..] == s.outbox + part;
    }
  }

  ghost function Hears(acks: seq<S.Ack>): seq<Move> {
    if acks == [] then [] else [Hear(acks[0])] + Hears(acks[1..])
  }

  lemma {:induction false} HearsAll(cfg: S.Config, s: S.Sender, acks: seq<S.Ack>)
    ensures CanRun(cfg, s, Hears(acks)) && RunMoves(cfg, s, Hears(acks)) == S.HandleFileResponses(s, acks)
    decreases |acks|
  {
    if acks != [] {
      HearsAll(cfg, S.HandleFileResponse(s, acks[0]), acks[1..]);
      assert Hears(acks)[1..] == Hears(acks[1..]);
    }
  }

  /** A file, the acknowledgements that arrive with it, and the end of its wait. */
  ghost function WholeFile(part: seq<Frame>, acks: seq<S.Ack>): seq<Move> { FileMoves(part) + Hears(acks) + [Go(0)] }

  function AfterFile(queue: seq<S.Sendable>, i: nat): S.Job {
    if i + 1 < |queue| then S.SendingFrames(queue, i + 1, 0) else S.Flushing(queue)
  }

  lemma ThreadSendsFile(cfg: S.Config, s: S.Sender, part: seq<Frame>, arrivals: nat -> seq<S.Ack>, i: nat)
    requires s.job.SendingFrames? && !s.failed && s.job.index == i < |s.job.queue| && s.job.offset == 0
    requires ChunkFrames(part) && Concat(part) == s.job.queue[i].file.content
    requires i > 0 ==> s.fileResults.None?
    requires Confirms(Answer(s.fileResults, arrivals, i), s.job.queue[i])
    ensures CanRun(cfg, s, WholeFile(part, arrivals(i)))
    ensures var t := RunMoves(cfg, s, WholeFile(part, arrivals(i)));
            && t.outbox == s.outbox + part + [S.Boundary(cfg, s.job.queue, i)]
            && t.job == AfterFile(s.job.queue, i) && !t.failed && t.fileResults.None?
  {
    hide FileMoves, Hears, S.HandleFileResponses, Concat, ChunkFrames, S.Boundary;
    var queue, acks := s.job.queue, arrivals(i);
    assert queue[i].file.content[0..] == queue[i].file.content;
    ThreadSendsPart(cfg, s, part);
    var waiting := RunMoves(cfg, s, FileMoves(part));
    HearsAll(cfg, waiting, acks);
    S.SlotKeepsFirst(waiting, acks);
    RunAppend(cfg, s, FileMoves(part), Hears(acks));
    var answered := S.HandleFileResponses(waiting, acks);
    assert answered.fileResults == Answer(s.fileResults, arrivals, i);
    assert S.CanGo(answered, S.Go(0));
    var done := MoveOn(cfg, answered, Go(0));
    assert [Go(0)][1..] == [];
    assert CanRun(cfg, done, []) && CanRun(cfg, answered, [Go(0)]) && RunMoves(cfg, answered, [Go(0)]) == done;
    RunAppend(cfg, s, FileMoves(part) + Hears(acks), [Go(0)]);
  }

  // ---------- The whole queue ----------

  ghost function MovesUpTo(parts: seq<seq<Frame>>, arrivals: nat -> seq<S.Ack>, n: nat): seq<Move>
    requires n <= |parts|
  {
    if n == 0 then [Go(0)] else MovesUpTo(parts, arrivals, n - 1) + WholeFile(parts[n - 1], arrivals(n - 1))
  }

  /** Where the thread stands once `n` files are through, and what the channel has carried. */
  ghost predicate Through(cfg: S.Config, s: S.Sender, t: S.Sender, queue: seq<S.Sendable>, parts: seq<seq<Frame>>,
                          n: nat)
    requires n <= |parts| == |queue|
  {
    && !t.failed
    && t.job == (if n < |queue| then S.SendingFrames(queue, n, 0) else S.Flushing(queue))
    && t.fileResults == (if n == 0 then s.fileResults else None)
    && t.outbox == s.outbox + (if queue == [] then [Delimiter]
                               else if n == 0 then [S.Header(cfg, queue[0])] else Sent(cfg, queue, parts, n))
  }

  lemma SentNext(cfg: S.Config, s: S.Sender, t: S.Sender, queue: seq<S.Sendable>, parts: seq<seq<Frame>>, n: nat)
    requires 0 < n <= |parts| == |queue| && Through(cfg, s, t, queue, parts, n - 1)
    ensures t.outbox + parts[n - 1] + [S.Boundary(cfg, queue, n - 1)] == s.outbox + Sent(cfg, queue, parts, n)
  {
    hide S.Boundary, S.Header;
  }

  lemma {:induction false} ThreadGetsThrough(cfg: S.Config, s: S.Sender, queue: seq<S.Sendable>,
                                             parts: seq<seq<Frame>>, arrivals: nat -> seq<S.Ack>, n: nat)
    requires s.job == S.Starting(queue) && !s.failed && FileParts(queue, parts) && n <= |queue|
    requires Acknowledged(queue, s.fileResults, arrivals, |queue|)
    ensures CanRun(cfg, s, MovesUpTo(parts, arrivals, n))
    ensures Through(cfg, s, RunMoves(cfg, s, MovesUpTo(parts, arrivals, n)), queue, parts, n)
  {
    if n == 0 {
      assert [Go(0)][1..] == [];
      assert RunMoves(cfg, s, [Go(0)]) == RunMoves(cfg, MoveOn(cfg, s, Go(0)), []);
    } else {
      ThreadGetsThrough(cfg, s, queue, parts, arrivals, n - 1);
      var t := RunMoves(cfg, s, MovesUpTo(parts, arrivals, n - 1));
      assert Answer(t.fileResults, arrivals, n - 1) == Answer(s.fileResults, arrivals, n - 1);
      ThreadSendsFile(cfg, t, parts[n - 1], arrivals, n - 1);
      RunAppend(cfg, s, MovesUpTo(parts, arrivals, n - 1), WholeFile(parts[n - 1], arrivals(n - 1)));
      SentNext(cfg, s, t, queue, parts, n);
      hide FileParts, WholeFile, RunMoves, CanRun, S.Header, S.Boundary, Sent;
    }
  }

  /** What SendFiles promises of a run without error is a run of the thread: the same
      frames on the channel, the same acknowledgements read, and the thread finished. */
  lemma SendFilesIsRun(cfg: S.Config, s: S.Sender, queue: seq<S.Sendable>, parts: seq<seq<Frame>>,
                       arrivals: nat -> seq<S.Ack>)
    requires s.job == S.Starting(queue) && !s.failed && FileParts(queue, parts)
    requires Acknowledged(queue, s.fileResults, arrivals, |queue|)
    ensures var moves := MovesUpTo(parts, arrivals, |queue|) + [Go(0)];
            && CanRun(cfg, s, moves)
            && var t := RunMoves(cfg, s, moves);
               && t.outbox == s.outbox + Pipelined(cfg, queue, parts) && t.job == S.Finished(queue) && !t.failed
               && t.phase == S.Done && (queue != [] ==> t.fileResults.None?)
  {
    ThreadGetsThrough(cfg, s, queue, parts, arrivals, |queue|);
    var t := RunMoves(cfg, s, MovesUpTo(parts, arrivals, |queue|));
    hide MovesUpTo, FileParts, Acknowledged, Sent;
    assert [Go(0)][1..] == [];
    var done := MoveOn(cfg, t, Go(0));
    assert CanRun(cfg, done, []) && CanRun(cfg, t, [Go(0)]) && RunMoves(cfg, t, [Go(0)]) == done;
    RunAppend(cfg, s, MovesUpTo(parts, arrivals, |queue|), [Go(0)]);
  }
}
