/** The handshake always ends, and ends with an answer. */
module HandshakeProgress {
  import opened Wrappers
  import opened RtcMessages
  import opened DataChannel
  import opened Transfer
  import opened Handshake
  import H = Handshake
  import S = RtcSenderSpec
  import R = RtcReceiverSpec
  import RI = ReceiverInvariant

  /** Some honest step of the handshake can be taken. */
  ghost predicate CanStep(c: Setup, y: System, env: R.Env, nonce: Bytes) {
    exists step :: step in {StartNonce(nonce), ToReceiver(env), ToSender} && Enabled(c, y, step) && HonestStep(c, step)
  }

  /** Send can return the accepted files. */
  ghost predicate CanAccept(s: S.Sender) { exists order :: S.CanGo(s, S.Accept(order)) }

  lemma {:induction false} OrderExists(tokens: map<string, string>) returns (order: seq<string>)
    ensures S.IsOrder(order, tokens)
    decreases |tokens.Keys|
  {
    if tokens == map[] {
      order := [];
    } else {
      var id :| id in tokens;
      assert (tokens - {id}).Keys == tokens.Keys - {id};
      var rest := OrderExists(tokens - {id});
      order := [id] + rest;
    }
  }

  /** Silence means the beginning, an acceptance, or the end. */
  lemma SilenceMeans(c: Setup, s: S.Sender, r: R.Receiver)
    requires At(c, s, r, Quiet)
    ensures || s.phase == S.Init || (s.accepted.Some? && s.job == S.AwaitingAcceptance)
            || s.declined || r.phase == R.Done
  {
  }

  /** Until the sender's thread gives up, a step is possible, or Send can return the
      accepted files, or the receiver has declined or gone. */
  lemma NeverStuck(c: Setup, y: System, env: R.Env, nonce: Bytes)
    requires H.Inv(c, y) && !y.s.failed && HonestStep(c, ToReceiver(env)) && HonestStep(c, StartNonce(nonce))
    ensures CanStep(c, y, env, nonce) || CanAccept(y.s) || y.s.declined || y.r.phase == R.Done
  {
    assert HonestStep(c, ToSender);
    hide HonestStep, HonestPeers, At, Carries;
    assert Enabled(c, y, ToReceiver(env)) <==> y.s.outbox != [];
    assert Enabled(c, y, ToSender) <==> y.r.outbox != [];
    var talk :| Wires(c, y, talk) && At(c, y.s, y.r, talk);
    if y.s.outbox == [] && y.r.outbox == [] {
      WiresTurn(c, y, talk);
      assert talk == Quiet;
      hide Wires, RI.Inv;
      SilenceMeans(c, y.s, y.r);
      if y.s.phase == S.Init {
        assert Enabled(c, y, StartNonce(nonce));
      } else if y.s.accepted.Some? && y.s.job == S.AwaitingAcceptance {
        var order := OrderExists(y.s.accepted.value);
        assert S.CanGo(y.s, S.Accept(order));
      }
    } else {
      hide Wires, RI.Inv, Enabled;
    }
  }

  lemma {:induction false} RunLowers(c: Setup, y: System, steps: seq<Step>)
    requires H.Inv(c, y) && HandshakeRun(c, y, steps)
    ensures |steps| <= Measure(y) - Measure(RunHandshake(c, y, steps))
    decreases |steps|
  {
    if steps != [] {
      H.StepKeepsInv(c, y, steps[0]);
      RunLowers(c, Next(c, y, steps[0]), steps[1..]);
      hide H.Inv, Measure, Next, Enabled;
    }
  }

  lemma OpenedMeasure(c: Setup, y: System)
    requires Opened(c, y)
    ensures Measure(y) == 21 * FramesPerMessage + 1
  {
    hide RI.Inv, HonestPeers;
  }

  /** Between honest peers every handshake is finite: at most 21 messages, each of
      bounded length, and one decision to give up.  When nothing can move any more, the
      sender's thread has given up, or Send can return the accepted files, or the receiver
      has declined or closed the session. */
  lemma HandshakeCompletes(c: Setup, y: System, steps: seq<Step>, env: R.Env, nonce: Bytes)
    requires Opened(c, y) && HandshakeRun(c, y, steps)
    requires HonestStep(c, ToReceiver(env)) && HonestStep(c, StartNonce(nonce))
    ensures var z := RunHandshake(c, y, steps);
            && |steps| <= 21 * FramesPerMessage + 1
            && (CanStep(c, z, env, nonce) || z.s.failed || CanAccept(z.s) || z.s.declined || z.r.phase == R.Done)
  {
    OpenedInv(c, y);
    OpenedMeasure(c, y);
    hide H.Inv, Measure, Opened, CanStep, CanAccept, HonestStep;
    RunLowers(c, y, steps);
    HandshakeKeepsInv(c, y, steps);
    var z := RunHandshake(c, y, steps);
    hide HandshakeRun, RunHandshake;
    if !z.s.failed {
      NeverStuck(c, z, env, nonce);
    }
  }
}
