/** A sender's upload jobs against the receive session: one job per file, each with its
    retry loop, any number of them at once, while the vacuum task may take the session out of
    the table. */
module UploadRetry {
  import opened Wrappers
  import T = SessionTable
  import U = UploadSession

  const MaxUploadAttempts := 3

  // ---------- Status codes ----------

  /** The errors of the protocol, by name; NoError is nil. */
  datatype Code = NoError | Finished | BadBody | BadPIN | Refused | NotFound | BlockedByOthers | TooManyReq
                | BadChecksum
                | Unknown | FileError | TooManyFiles | BadFingerprint | TooManySessions

  function Status(e: Code): int {
    match e
    case NoError => 200
    case Finished => 204
    case BadBody => 400
    case BadPIN => 401
    case Refused => 403
    case NotFound => 404
    case BlockedByOthers => 409
    case TooManyReq => 429
    case BadChecksum => 422
    case _ => 500
  }

  function ParseError(status: int): Code {
    if status == 200 then NoError
    else if status == 204 then Finished
    else if status == 400 then BadBody
    else if status == 401 then BadPIN
    else if status == 404 then NotFound
    else if status == 403 then Refused
    else if status == 409 then BlockedByOthers
    else if status == 429 then TooManyReq
    else if status == 422 then BadChecksum
    else Unknown
  }

  /** An error crosses the wire as itself exactly when it has a status of its own; the rest
      arrive as unknown.  So a sender reads success and the retryable error exactly when the
      receiver gave them. */
  lemma ErrorRoundTrip(e: Code)
    ensures ParseError(Status(e)) == if Status(e) == 500 then Unknown else e
    ensures Status(e) == 500 <==> e in {Unknown, FileError, TooManyFiles, BadFingerprint, TooManySessions}
    ensures ParseError(Status(e)) == NoError <==> e == NoError
    ensures ParseError(Status(e)) == BadChecksum <==> e == BadChecksum
  {
  }

  /** What SaveFile's answers are, as errors. */
  function CodeOf(r: U.Response): Code {
    match r
    case Saved => NoError
    case InvalidBody => BadBody
    case Rejected => Refused
    case FileIO => FileError
    case ChecksumMismatch => BadChecksum
    case Killed => Unknown
  }

  lemma AnswersArrive(r: U.Response)
    ensures ParseError(Status(CodeOf(r))) == NoError <==> r == U.Saved
    ensures ParseError(Status(CodeOf(r))) == BadChecksum <==> r == U.ChecksumMismatch
    ensures ParseError(Status(CodeOf(r))) == Refused <==> r == U.Rejected
    ensures ParseError(Status(CodeOf(r))) == BadBody <==> r == U.InvalidBody
    ensures ParseError(Status(CodeOf(r))) == Unknown <==> r in {U.FileIO, U.Killed}
  {
  }

  // ---------- The retry loop ----------

  /** Where sendFileWithRetry stands for one file. */
  datatype Job =
    | Waiting(made: nat)                          // attempts answered with a checksum error so far
    | Sending(attempt: nat, t: nat)               // the request is thread `t` of the session
    | Done(response: U.Response, attempt: nat)

  datatype Joint = Joint(
    session: U.Session,
    jobs: map<string, Job>,
    tabled: bool,                                 // the session is in the table
    // history
    of: map<nat, string>,                         // the file of each request
    lapsed: bool)                                 // it had expired when it left the table

  datatype Step =
    | Send(id: string, t: nat)
    | Reply(id: string)
    | Inside(step: U.Step)                        // the session moves on
    | Sweep(lastActivity: int, now: int)          // the vacuum task finds the session stopped

  /** What the vacuum task sees of the session. */
  function Entry(c: U.Config, y: Joint, lastActivity: int): T.Entry {
    T.Entry(y.session.tally.started, y.session.tally.filesCount, lastActivity, c.clientIP)
  }

  predicate Enabled(c: U.Config, y: Joint, s: Step) {
    match s
    case Send(id, t) => id in y.jobs && y.jobs[id].Waiting? && id in c.metas && t !in y.session.threads && t !in y.of
    case Reply(id) =>
      id in y.jobs && y.jobs[id].Sending? && y.jobs[id].t in y.session.threads
      && y.session.threads[y.jobs[id].t].Returned?
    case Inside(step) => !step.Arrive? && !step.Kill? && U.Enabled(c, y.session, step)
    case Sweep(lastActivity, now) => y.tabled && T.Stopped(Entry(c, y, lastActivity), now)
  }

  /** Only a checksum error is retried, and at most twice. */
  function AfterReply(response: U.Response, attempt: nat): Job {
    if response == U.ChecksumMismatch && attempt < MaxUploadAttempts then Waiting(attempt) else Done(response, attempt)
  }

  /** The job after the answers so far, starting with `made` attempts behind it. */
  function Retry(answers: nat -> U.Response, made: nat): Job
    requires made < MaxUploadAttempts
    decreases MaxUploadAttempts - made
  {
    var job := AfterReply(answers(made), made + 1);
    if job.Waiting? then Retry(answers, made + 1) else job
  }

  /** sendFileWithRetry: `answers(k)` is what the k-th request comes back with. */
  method SendFileWithRetry(answers: nat -> U.Response) returns (response: U.Response, attempts: nat)
    ensures Done(response, attempts) == Retry(answers, 0)
  {
    response, attempts := answers(0), 1;
    while response == U.ChecksumMismatch && attempts < MaxUploadAttempts
      invariant 1 <= attempts <= MaxUploadAttempts && response == answers(attempts - 1)
      invariant Retry(answers, 0) == Retry(answers, attempts - 1)
    {
      response, attempts := answers(attempts), attempts + 1;
    }
  }

  /** The loop ends with the first answer that is no checksum error, or with the third. */
  lemma {:induction false} RetryExact(answers: nat -> U.Response, made: nat)
    requires made < MaxUploadAttempts
    ensures var job := Retry(answers, made);
            && job.Done? && made < job.attempt <= MaxUploadAttempts && job.response == answers(job.attempt - 1)
            && (forall k :: made <= k < job.attempt - 1 ==> answers(k) == U.ChecksumMismatch)
            && (job.response == U.ChecksumMismatch ==> job.attempt == MaxUploadAttempts)
    decreases MaxUploadAttempts - made
  {
    if answers(made) == U.ChecksumMismatch && made + 1 < MaxUploadAttempts {
      RetryExact(answers, made + 1);
    }
  }

  predicate Fails(answers: nat -> U.Response) { Retry(answers, 0).Done? && Retry(answers, 0).response != U.Saved }

  /** The job loop of Start: every accepted file is sent once, in the order the token map is
      walked, the files that failed are collected, and any failure cancels the session. */
  method SendAll(tokens: map<string, string>, answers: string -> nat -> U.Response)
    returns (failed: seq<string>, cancelled: bool)
    ensures forall id :: id in failed <==> id in tokens && Fails(answers(id))
    ensures forall i, j :: 0 <= i < j < |failed| ==> failed[i] != failed[j]
    ensures cancelled <==> exists id :: id in tokens && Fails(answers(id))
  {
    failed := [];
    var rest := tokens.Keys;
    while rest != {}
      invariant rest <= tokens.Keys
      invariant forall id :: id in failed <==> id in tokens && id !in rest && Fails(answers(id))
      invariant forall i, j :: 0 <= i < j < |failed| ==> failed[i] != failed[j]
      decreases |rest|
    {
      var id :| id in rest;
      rest := rest - {id};
      var response, _ := SendFileWithRetry(answers(id));
      if response != U.Saved {
        failed := failed + [id];
      }
    }
    cancelled := |failed| > 0;
    assert failed != [] ==> failed[0] in failed;
  }

  function Next(c: U.Config, y: Joint, s: Step): Joint
    requires Enabled(c, y, s)
  {
    match s
    case Send(id, t) =>
      if y.tabled then
        y.(session := U.Next(c, y.session, U.Arrive(t, id, c.metas[id].token, c.clientIP)),
           jobs := y.jobs[id := Sending(y.jobs[id].made + 1, t)], of := y.of[t := id])
      else y.(jobs := y.jobs[id := AfterReply(U.Rejected, y.jobs[id].made + 1)])
    case Reply(id) =>
      y.(jobs := y.jobs[id := AfterReply(y.session.threads[y.jobs[id].t].response, y.jobs[id].attempt)])
    case Inside(step) => y.(session := U.Next(c, y.session, step))
    case Sweep(lastActivity, now) =>
      y.(tabled := false, lapsed := T.Expired(Entry(c, y, lastActivity), now))
  }

  ghost predicate IsRun(c: U.Config, y: Joint, steps: seq<Step>)
    decreases |steps|
  {
    steps == [] || (Enabled(c, y, steps[0]) && IsRun(c, Next(c, y, steps[0]), steps[1..]))
  }

  function Run(c: U.Config, y: Joint, steps: seq<Step>): Joint
    requires IsRun(c, y, steps)
    decreases |steps|
  {
    if steps == [] then y else Run(c, Next(c, y, steps[0]), steps[1..])
  }

  /** Every file is offered with a token, and no upload has been sent. */
  ghost predicate Fresh(c: U.Config, y: Joint) {
    && U.Fresh(c, y.session) && y.jobs.Keys == c.metas.Keys && (forall id :: id in y.jobs ==> y.jobs[id] == Waiting(0))
    && y.of == map[] && Offers(c) && y.tabled && !y.lapsed
  }

  predicate Offers(c: U.Config) { forall id :: id in c.metas ==> id != "" && c.metas[id].token != "" }

  // ---------- What both sides know of a file ----------

  /** What an answer to attempt `k` says about the file. */
  predicate Answered(st: U.FileState, response: U.Response, k: nat) {
    && st.attempts == k
    && match response
       case Saved => st.status == U.Finished
       case ChecksumMismatch => st.status == (if k < U.MaxChecksumAttempts then U.Pending else U.Failed)
       case InvalidBody => st.status == U.Failed
       case FileIO => st.status == U.Failed
       case _ => false
  }

  /** Attempt `k` of file `id` is served by a thread at `th`. */
  predicate Served(c: U.Config, st: U.FileState, th: U.Thread, id: string, k: nat) {
    match th
    case Checked(file, token) =>
      id in c.metas && file == id && token == c.metas[id].token && st.status == U.Pending && st.attempts + 1 == k
    case Decrementing(_, response) => Answered(st, response, k)
    case Ending(response) => Answered(st, response, k)
    case Zeroing(response) => Answered(st, response, k)
    case Returned(response) => Answered(st, response, k)
    case _ => th.id == id && st.status == U.InProgress && st.attempts == k
  }

  predicate JobKnown(c: U.Config, y: Joint, id: string)
    requires id in y.jobs && id in y.session.states
  {
    var st := y.session.states[id];
    match y.jobs[id]
    case Waiting(made) => st.status == U.Pending && st.attempts == made && made < MaxUploadAttempts
    case Sending(k, t) =>
      1 <= k <= MaxUploadAttempts && t in y.session.threads && t in y.of && y.of[t] == id
      && Served(c, st, y.session.threads[t], id, k)
    case Done(response, k) =>
      if response == U.Rejected then y.lapsed && st.status == U.Pending && st.attempts + 1 == k <= MaxUploadAttempts
      else Answered(st, response, k) && 1 <= k && (response == U.ChecksumMismatch ==> k == MaxUploadAttempts)
  }

  /** The file a request is still about. */
  function About(th: U.Thread): Option<string> { if th.Checked? then Some(th.id) else U.Works(th) }

  ghost predicate Base(c: U.Config, y: Joint) {
    && Offers(c) && U.Inv(c, y.session) && !y.session.tally.killed
    && y.jobs.Keys == c.metas.Keys && y.session.states.Keys == c.metas.Keys
  }

  ghost predicate Jobs(c: U.Config, y: Joint) {
    forall id :: id in y.jobs && id in y.session.states ==> JobKnown(c, y, id)
  }

  /** A request about a file is the one its job waits for, and nobody is refused. */
  ghost predicate Requests(y: Joint) {
    && (forall t :: t in y.session.threads && About(y.session.threads[t]).Some? ==>
          Belongs(y, t, About(y.session.threads[t]).value))
    && (forall t :: t in y.session.threads ==> t in y.of && Unrefused(y.session.threads[t]))
  }

  predicate AllTerminal(states: map<string, U.FileState>) {
    forall id :: id in states ==> U.Terminal(states[id].status)
  }

  /** A session that leaves the table before it expires has nothing left to do. */
  ghost predicate Swept(y: Joint) {
    && (y.lapsed ==> !y.tabled)
    && (!y.tabled && !y.lapsed ==> AllTerminal(y.session.states))
  }

  ghost predicate Inv(c: U.Config, y: Joint) { Base(c, y) && Jobs(c, y) && Requests(y) && Swept(y) }

  /** No answer of this request, given or on its way, is a refusal. */
  predicate Unrefused(th: U.Thread) {
    match th
    case Judged(_, _, _, _, response) => response !in {U.Rejected, U.Killed}
    case Settled(_, _, _, response) => response !in {U.Rejected, U.Killed}
    case Decrementing(_, response) => response !in {U.Rejected, U.Killed}
    case Ending(response) => response !in {U.Rejected, U.Killed}
    case Zeroing(response) => response !in {U.Rejected, U.Killed}
    case Returned(response) => response !in {U.Rejected, U.Killed}
    case _ => true
  }

  predicate Belongs(y: Joint, t: nat, id: string) { id in y.jobs && y.jobs[id].Sending? && y.jobs[id].t == t }

  // ---------- One step at a time ----------

  /** A file with work left keeps the session open. */
  lemma PendingKeepsOpen(c: U.Config, y: U.Session, id: string)
    requires U.Inv(c, y) && !y.tally.killed && id in y.states && y.states[id].status == U.Pending
    ensures y.tally.started
  {
    assert id in U.Open(y.states);
  }

  /** A request for a pending file passes the checks before the lock. */
  lemma SendArrives(c: U.Config, y: Joint, id: string, t: nat)
    requires Inv(c, y) && Enabled(c, y, Send(id, t)) && y.tabled
    ensures Next(c, y, Send(id, t)).session == U.At(y.session, t, U.Checked(id, c.metas[id].token))
  {
    assert JobKnown(c, y, id);
    PendingKeepsOpen(c, y.session, id);
    hide U.Inv, Jobs, Requests;
  }

  lemma SendBase(c: U.Config, y: Joint, id: string, t: nat)
    requires Inv(c, y) && Enabled(c, y, Send(id, t)) && y.tabled
    ensures Base(c, Next(c, y, Send(id, t)))
  {
    SendArrives(c, y, id, t);
    U.InvStep(c, y.session, U.Arrive(t, id, c.metas[id].token, c.clientIP));
    hide U.Next, U.Inv, Jobs, Requests;
  }

  lemma SendStep(c: U.Config, y: Joint, id: string, t: nat)
    requires Inv(c, y) && Enabled(c, y, Send(id, t)) && y.tabled
    ensures Inv(c, Next(c, y, Send(id, t)))
  {
    hide U.Next, U.At, Base, Jobs, Requests;
    SendArrives(c, y, id, t);
    SendBase(c, y, id, t);
    var z := Next(c, y, Send(id, t));
    SendJobs(c, y, z, id, t);
    SendRequests(c, y, z, id, t);
  }

  lemma SendJobs(c: U.Config, y: Joint, z: Joint, id: string, t: nat)
    requires Jobs(c, y) && id in y.jobs && y.jobs[id].Waiting? && id in c.metas && t !in y.session.threads
    requires z.session == U.At(y.session, t, U.Checked(id, c.metas[id].token))
    requires z.jobs == y.jobs[id := Sending(y.jobs[id].made + 1, t)] && z.of == y.of[t := id] && z.lapsed == y.lapsed
    ensures Jobs(c, z)
  {
    forall other | other in z.jobs && other in z.session.states ensures JobKnown(c, z, other) {
      assert JobKnown(c, y, other);
    }
  }

  lemma SendRequests(c: U.Config, y: Joint, z: Joint, id: string, t: nat)
    requires Requests(y) && id in y.jobs && y.jobs[id].Waiting? && id in c.metas && t !in y.session.threads
    requires z.session == U.At(y.session, t, U.Checked(id, c.metas[id].token))
    requires z.jobs == y.jobs[id := Sending(y.jobs[id].made + 1, t)] && z.of == y.of[t := id]
    ensures Requests(z)
  {
    forall u | u in z.session.threads && About(z.session.threads[u]).Some?
      ensures Belongs(z, u, About(z.session.threads[u]).value)
    {
      if u != t {
        assert Belongs(y, u, About(y.session.threads[u]).value);
      }
    }
  }

  /** A request that finds no session is refused, and its file stays as it is. */
  lemma LateStep(c: U.Config, y: Joint, id: string, t: nat)
    requires Inv(c, y) && Enabled(c, y, Send(id, t)) && !y.tabled
    ensures Inv(c, Next(c, y, Send(id, t)))
  {
    hide U.Inv, U.Next, Offers, About, Unrefused, Served, Answered;
    var z := Next(c, y, Send(id, t));
    assert JobKnown(c, y, id);
    assert y.lapsed;
    forall other | other in z.jobs && other in z.session.states ensures JobKnown(c, z, other) {
      assert JobKnown(c, y, other);
    }
    forall u | u in z.session.threads && About(z.session.threads[u]).Some?
      ensures Belongs(z, u, About(z.session.threads[u]).value)
    {
      assert Belongs(y, u, About(y.session.threads[u]).value);
    }
  }

  lemma SweepStep(c: U.Config, y: Joint, lastActivity: int, now: int)
    requires Inv(c, y) && Enabled(c, y, Sweep(lastActivity, now))
    ensures Inv(c, Next(c, y, Sweep(lastActivity, now)))
  {
    hide U.Owners, U.Holders, U.Contents, U.Countdowns, Offers, Served, Answered, About, Unrefused;
    var z := Next(c, y, Sweep(lastActivity, now));
    if !z.lapsed {
      StoppedMeansTerminal(y.session);
    }
    forall id | id in z.jobs && id in z.session.states ensures JobKnown(c, z, id) {
      assert JobKnown(c, y, id);
    }
    RequestsSame(y, z);
  }

  /** Once an expired session has been swept, the next attempt at any waiting file is refused. */
  lemma LapseRefuses(c: U.Config, y: Joint, id: string, t: nat, lastActivity: int, now: int)
    requires y.tabled && Enabled(c, y, Send(id, t)) && T.Expired(Entry(c, y, lastActivity), now)
    ensures var z := Next(c, y, Sweep(lastActivity, now));
            && Enabled(c, z, Send(id, t))
            && Next(c, z, Send(id, t)).jobs[id] == Done(U.Rejected, y.jobs[id].made + 1)
  {
  }

  /** Without a cancel a session that has ended, or counts no file, has none left. */
  lemma StoppedMeansTerminal(y: U.Session)
    requires U.Conserved(y) && U.Ends(y) && (!y.tally.started || y.tally.filesCount == 0)
    ensures AllTerminal(y.states)
  {
    forall id | id in y.states ensures U.Terminal(y.states[id].status) {
      assert id !in U.Open(y.states);
    }
  }

  /** With all files terminal, nothing can be claimed or given back. */
  lemma TerminalStays(c: U.Config, y: U.Session, step: U.Step)
    requires U.Owners(c, y) && U.Enabled(c, y, step) && AllTerminal(y.states)
    ensures AllTerminal(U.Next(c, y, step).states)
  {
    hide U.Works, U.Owners, U.Quiet, U.Uncounted, U.Targets, U.CanAppend;
    match step
    case Claim(t) =>
    case Finish(t) => U.SettledClaims(c, y, t);
    case _ =>
  }

  lemma ReplyJobs(c: U.Config, y: Joint, id: string)
    requires Jobs(c, y) && Enabled(c, y, Reply(id))
    ensures Jobs(c, Next(c, y, Reply(id)))
  {
    var z := Next(c, y, Reply(id));
    forall other | other in z.jobs && other in z.session.states ensures JobKnown(c, z, other) {
      assert JobKnown(c, y, other);
    }
  }

  lemma ReplyStep(c: U.Config, y: Joint, id: string)
    requires Inv(c, y) && Enabled(c, y, Reply(id))
    ensures Inv(c, Next(c, y, Reply(id)))
  {
    var z := Next(c, y, Reply(id));
    hide U.Inv, Jobs, Requests, Offers;
    assert Base(c, z);
    ReplyJobs(c, y, id);
    ReplyRequests(y, z, id);
    hide Base, Next;
  }

  lemma ReplyRequests(y: Joint, z: Joint, id: string)
    requires Requests(y) && id in y.jobs && y.jobs[id].Sending? && y.jobs[id].t in y.session.threads
    requires y.session.threads[y.jobs[id].t].Returned?
    requires z == y.(jobs := z.jobs) && z.jobs.Keys == y.jobs.Keys && forall other :: other in y.jobs && other != id ==>
               z.jobs[other] == y.jobs[other]
    ensures Requests(z)
  {
    forall u | u in z.session.threads && About(z.session.threads[u]).Some?
      ensures Belongs(z, u, About(z.session.threads[u]).value)
    {
      assert Belongs(y, u, About(y.session.threads[u]).value);
    }
  }

  /** A step changes the state of the file its thread is about, and of no other. */
  lemma OtherFilesSame(c: U.Config, y: U.Session, step: U.Step, id: string)
    requires U.Enabled(c, y, step) && !step.Arrive? && !step.Kill? && !step.Foreign?
    requires id in y.states && About(y.threads[step.t]) != Some(id)
    ensures var z := U.Next(c, y, step);
            id in z.states && z.states[id] == y.states[id]
            && step.t in z.threads && z.threads == y.threads[step.t := z.threads[step.t]]
    ensures var z := U.Next(c, y, step);
            About(z.threads[step.t]) == About(y.threads[step.t]) || About(z.threads[step.t]) == None
  {
    hide U.Quiet, U.Uncounted, U.Untouched, U.PathAt, U.CanAppend, U.Targets;
    match step
    case Claim(t) =>
    case StoreTarget(t) =>
    case Finish(t) =>
    case _ =>
  }

  lemma ServedClaim(c: U.Config, y: U.Session, t: nat, id: string, k: nat)
    requires U.Enabled(c, y, U.Claim(t)) && id in y.states && Served(c, y.states[id], y.threads[t], id, k)
    ensures var z := U.Next(c, y, U.Claim(t)); Served(c, z.states[id], z.threads[t], id, k)
  {
    assert U.Claimable(c, y, id, y.threads[t].token);
  }

  lemma ServedFinish(c: U.Config, y: U.Session, t: nat, id: string, k: nat)
    requires U.Contents(c, y) && U.Enabled(c, y, U.Finish(t))
    requires id in y.states && 1 <= k <= MaxUploadAttempts && Served(c, y.states[id], y.threads[t], id, k)
    ensures var z := U.Next(c, y, U.Finish(t)); id in z.states && Served(c, z.states[id], z.threads[t], id, k)
  {
    assert U.Sound(c, y, y.threads[t]);
    hide U.Contents, U.Good;
    assert y.threads[t].response in {U.Saved, U.ChecksumMismatch, U.InvalidBody, U.FileIO};
  }

  /** The request that serves a file keeps serving it, and is never refused. */
  lemma ServedStep(c: U.Config, y: U.Session, step: U.Step, id: string, k: nat)
    requires U.Inv(c, y) && U.Enabled(c, y, step) && !step.Arrive? && !step.Kill? && !step.Foreign?
    requires id in y.states && 1 <= k <= MaxUploadAttempts && Served(c, y.states[id], y.threads[step.t], id, k)
    ensures var z := U.Next(c, y, step);
            id in z.states && step.t in z.threads && Served(c, z.states[id], z.threads[step.t], id, k)
  {
    match step
    case Claim(t) => ServedClaim(c, y, t, id, k);
    case Finish(t) => ServedFinish(c, y, t, id, k);
    case _ => ServedPlain(c, y, step, id, k); hide *;
  }

  lemma ServedPlain(c: U.Config, y: U.Session, step: U.Step, id: string, k: nat)
    requires U.Enabled(c, y, step) && !step.Arrive? && !step.Kill? && !step.Foreign? && !step.Claim? && !step.Finish?
    requires id in y.states && Served(c, y.states[id], y.threads[step.t], id, k)
    ensures var z := U.Next(c, y, step);
            id in z.states && step.t in z.threads && Served(c, z.states[id], z.threads[step.t], id, k)
  {
    match step
    case GiveUp(t, _) =>
    case Create(t, _) =>
    case StoreTarget(t) =>
    case Append(t, _, _) =>
    case Judge(t, _, _) =>
    case CleanUp(t) =>
    case Decrement(t) =>
    case EndCas(t) =>
    case Zero(t) =>
  }

  lemma UnrefusedStep(c: U.Config, y: U.Session, step: U.Step)
    requires U.Contents(c, y) && U.Enabled(c, y, step) && !step.Arrive? && !step.Kill? && !step.Foreign?
    requires Unrefused(y.threads[step.t])
    requires step.Claim? ==> U.Claimable(c, y, y.threads[step.t].id, y.threads[step.t].token)
    ensures Unrefused(U.Next(c, y, step).threads[step.t])
  {
    assert U.Sound(c, y, y.threads[step.t]);
    hide U.Contents, U.Good;
    match step
    case Claim(t) =>
    case GiveUp(t, _) =>
    case Create(t, _) =>
    case StoreTarget(t) =>
    case Append(t, _, _) =>
    case Judge(t, _, _) =>
    case CleanUp(t) =>
    case Finish(t) =>
    case Decrement(t) =>
    case EndCas(t) =>
    case Zero(t) =>
  }

  lemma ForeignBase(c: U.Config, y: Joint, path: string, data: Bytes)
    requires Base(c, y) && Enabled(c, y, Inside(U.Foreign(path, data)))
    ensures var z := Next(c, y, Inside(U.Foreign(path, data)));
            && Base(c, z) && z.jobs == y.jobs && z.of == y.of
            && z.session.threads == y.session.threads && z.session.states == y.session.states
  {
    U.InvStep(c, y.session, U.Foreign(path, data));
    hide U.Inv;
  }

  lemma ForeignStep(c: U.Config, y: Joint, path: string, data: Bytes)
    requires Inv(c, y) && Enabled(c, y, Inside(U.Foreign(path, data)))
    ensures Inv(c, Next(c, y, Inside(U.Foreign(path, data))))
  {
    ForeignBase(c, y, path, data);
    var z := Next(c, y, Inside(U.Foreign(path, data)));
    hide U.Inv, Jobs, Requests, Base, Next, Enabled;
    RequestsSame(y, z);
    JobsSame(c, y, z);
  }

  lemma JobsSame(c: U.Config, y: Joint, z: Joint)
    requires Jobs(c, y) && z.jobs == y.jobs && z.of == y.of && z.lapsed == y.lapsed
    requires z.session.threads == y.session.threads && z.session.states == y.session.states
    ensures Jobs(c, z)
  {
    forall id | id in z.jobs && id in z.session.states ensures JobKnown(c, z, id) {
      assert JobKnown(c, y, id);
    }
  }

  lemma RequestsSame(y: Joint, z: Joint)
    requires Requests(y) && z.jobs == y.jobs && z.of == y.of && z.session.threads == y.session.threads
    ensures Requests(z)
  {
    forall u | u in z.session.threads && About(z.session.threads[u]).Some?
      ensures Belongs(z, u, About(z.session.threads[u]).value)
    {
      assert Belongs(y, u, About(y.session.threads[u]).value);
    }
  }

  /** One file, when some thread of the session moves. */
  lemma JobStep(c: U.Config, y: Joint, z: Joint, step: U.Step, id: string)
    requires Inv(c, y) && Enabled(c, y, Inside(step)) && !step.Foreign? && id in y.jobs
    requires z == Next(c, y, Inside(step)) && id in z.session.states
    ensures JobKnown(c, z, id)
  {
    hide U.Next, U.Inv, Served, Answered, Unrefused;
    assert step.t in y.session.threads;
    hide U.Enabled;
    assert JobKnown(c, y, id);
    if Belongs(y, step.t, id) {
      ServedStep(c, y.session, step, id, y.jobs[id].attempt);
      hide Base, Jobs, Requests;
    } else {
      assert About(y.session.threads[step.t]) != Some(id);
      hide About, Base, Jobs, Requests;
      OtherFilesSame(c, y.session, step, id);
    }
  }

  lemma ClaimsSucceed(c: U.Config, y: Joint, t: nat)
    requires Inv(c, y) && U.Enabled(c, y.session, U.Claim(t))
    ensures U.Claimable(c, y.session, y.session.threads[t].id, y.session.threads[t].token)
  {
    var id := y.session.threads[t].id;
    assert Belongs(y, t, id) && JobKnown(c, y, id);
    hide U.Inv;
  }

  lemma AboutStep(c: U.Config, y: U.Session, step: U.Step)
    requires U.Enabled(c, y, step) && !step.Arrive? && !step.Kill? && !step.Foreign?
    ensures var z := U.Next(c, y, step);
            && step.t in z.threads && z.threads == y.threads[step.t := z.threads[step.t]]
            && z.states.Keys == y.states.Keys
            && (About(z.threads[step.t]) == About(y.threads[step.t]) || About(z.threads[step.t]) == None)
  {
    match step
    case Claim(t) =>
    case Finish(t) =>
    case _ =>
  }

  lemma InsideRequests(y: Joint, z: Joint, t: nat)
    requires Requests(y) && z.jobs == y.jobs && z.of == y.of && t in y.session.threads && t in z.session.threads
    requires z.session.threads == y.session.threads[t := z.session.threads[t]] && Unrefused(z.session.threads[t])
    requires About(z.session.threads[t]) == About(y.session.threads[t]) || About(z.session.threads[t]) == None
    ensures Requests(z)
  {
    hide Unrefused;
    forall u | u in z.session.threads && About(z.session.threads[u]).Some?
      ensures Belongs(z, u, About(z.session.threads[u]).value)
    {
      assert Belongs(y, u, About(y.session.threads[u]).value);
    }
  }

  lemma InsideBase(c: U.Config, y: Joint, step: U.Step)
    requires Base(c, y) && Enabled(c, y, Inside(step)) && !step.Foreign?
    ensures Base(c, Next(c, y, Inside(step)))
  {
    U.InvStep(c, y.session, step);
    U.KilledStep(c, y.session, step);
    AboutStep(c, y.session, step);
    hide U.Next, U.Inv, U.Enabled;
  }

  lemma InsideSwept(c: U.Config, y: Joint, step: U.Step)
    requires Base(c, y) && Swept(y) && Enabled(c, y, Inside(step))
    ensures Swept(Next(c, y, Inside(step)))
  {
    hide U.Next, U.Enabled, U.Owners, U.Holders, U.Contents, U.Countdowns, U.Conserved, U.Ends, Offers;
    if AllTerminal(y.session.states) {
      TerminalStays(c, y.session, step);
    }
  }

  lemma InsideUnrefused(c: U.Config, y: Joint, step: U.Step)
    requires Inv(c, y) && Enabled(c, y, Inside(step)) && !step.Foreign?
    ensures var z := U.Next(c, y.session, step);
            step.t in y.session.threads && step.t in z.threads && Unrefused(z.threads[step.t])
  {
    hide U.Next, U.Owners, U.Holders, U.Countdowns, U.Conserved, U.Ends, Offers, Jobs, Swept, Unrefused;
    AboutStep(c, y.session, step);
    if step.Claim? {
      ClaimsSucceed(c, y, step.t);
    }
    UnrefusedStep(c, y.session, step);
  }

  lemma InsideStep(c: U.Config, y: Joint, step: U.Step)
    requires Inv(c, y) && Enabled(c, y, Inside(step)) && !step.Foreign?
    ensures Inv(c, Next(c, y, Inside(step)))
  {
    hide U.Next, U.Enabled, U.Inv, Unrefused, About, Base, Requests, Swept, JobKnown;
    var z := Next(c, y, Inside(step));
    InsideBase(c, y, step);
    InsideSwept(c, y, step);
    InsideUnrefused(c, y, step);
    AboutStep(c, y.session, step);
    InsideRequests(y, z, step.t);
    forall id | id in z.jobs && id in z.session.states ensures JobKnown(c, z, id) {
      JobStep(c, y, z, step, id);
    }
  }

  lemma InvStep(c: U.Config, y: Joint, s: Step)
    requires Inv(c, y) && Enabled(c, y, s)
    ensures Inv(c, Next(c, y, s))
  {
    match s
    case Send(id, t) =>
      if y.tabled {
        SendStep(c, y, id, t);
      } else {
        LateStep(c, y, id, t);
      }
      hide *;
    case Sweep(lastActivity, now) => SweepStep(c, y, lastActivity, now); hide *;
    case Reply(id) => ReplyStep(c, y, id); hide *;
    case Inside(step) =>
      if step.Foreign? {
        ForeignStep(c, y, step.path, step.data);
      } else {
        InsideStep(c, y, step);
      }
      hide *;
  }

  lemma FreshInv(c: U.Config, y: Joint)
    requires Fresh(c, y)
    ensures Inv(c, y)
  {
    U.FreshInv(c, y.session);
    hide U.Inv;
  }

  lemma {:induction false} RunInv(c: U.Config, y: Joint, steps: seq<Step>)
    requires Inv(c, y) && IsRun(c, y, steps)
    ensures Inv(c, Run(c, y, steps))
    decreases |steps|
  {
    if steps != [] {
      InvStep(c, y, steps[0]);
      RunInv(c, Next(c, y, steps[0]), steps[1..]);
    }
  }

  // ---------- Whole transfers ----------

  /** What both sides know of a file whose job has ended.  A refusal leaves it pending. */
  predicate Agree(job: Job, st: U.FileState)
    requires job.Done?
  {
    && st.attempts == (if job.response == U.Rejected then job.attempt - 1 else job.attempt)
    && (job.response == U.Saved <==> st.status == U.Finished)
    && (job.response == U.Rejected <==> st.status == U.Pending)
    && (job.response !in {U.Saved, U.Rejected} <==> st.status == U.Failed)
  }

  /** What the invariant says of one file, in the terms of both sides. */
  lemma SidesAgreeOn(c: U.Config, y: Joint, id: string)
    requires Inv(c, y) && id in y.jobs
    ensures id in y.session.states && y.session.states[id].attempts <= MaxUploadAttempts
    ensures y.jobs[id].Done? ==> Agree(y.jobs[id], y.session.states[id])
    ensures y.jobs[id].Done? && y.jobs[id].response == U.Rejected ==> y.lapsed
    ensures y.jobs[id].Waiting? ==>
              y.session.states[id].status == U.Pending && y.session.states[id].attempts == y.jobs[id].made
  {
    assert JobKnown(c, y, id);
    assert U.Owners(c, y.session);
    hide U.Inv, Requests, Jobs;
  }

  /** While nobody cancels: no request that finds the session is refused, and a request is
      refused only if the session had expired and was swept from the table before it came.  A
      file takes at most three attempts on either side.  A job ends with success exactly when
      the session finished the file, with a refusal exactly when the file is still pending,
      and with another failure exactly when the session failed it. */
  lemma BothSidesAgree(c: U.Config, y: Joint, steps: seq<Step>)
    requires Fresh(c, y) && IsRun(c, y, steps)
    ensures var z := Run(c, y, steps);
            && (forall t :: t in z.session.threads ==> Unrefused(z.session.threads[t]))
            && z.jobs.Keys == z.session.states.Keys
            && (forall id :: id in z.jobs ==>
                  && z.session.states[id].attempts <= MaxUploadAttempts
                  && (z.jobs[id].Done? ==> Agree(z.jobs[id], z.session.states[id]))
                  && (z.jobs[id].Done? && z.jobs[id].response == U.Rejected ==> z.lapsed && !z.tabled))
  {
    FreshInv(c, y);
    RunInv(c, y, steps);
    var z := Run(c, y, steps);
    assert Requests(z) && Base(c, z) && Swept(z);
    hide Run, IsRun, Fresh, Inv, U.Inv, About;
    forall id | id in z.jobs
      ensures z.session.states[id].attempts <= MaxUploadAttempts
      ensures z.jobs[id].Done? ==> Agree(z.jobs[id], z.session.states[id])
      ensures z.jobs[id].Done? && z.jobs[id].response == U.Rejected ==> z.lapsed
    {
      SidesAgreeOn(c, z, id);
    }
  }

  /** Once every job is done and every request answered, the session has been ended, once, if
      and only if no job was refused. */
  lemma AllDoneEndsSession(c: U.Config, y: Joint, steps: seq<Step>)
    requires Fresh(c, y) && IsRun(c, y, steps)
    requires var z := Run(c, y, steps);
             U.Rests(z.session) && forall id :: id in z.jobs ==> z.jobs[id].Done?
    ensures var z := Run(c, y, steps);
            && z.session.tally.ends <= 1 && (z.session.tally.ends == 1 <==> !z.session.tally.started)
            && (z.session.tally.ends == 1 <==> forall id :: id in z.jobs ==> z.jobs[id].response != U.Rejected)
  {
    FreshInv(c, y);
    RunInv(c, y, steps);
    var z := Run(c, y, steps);
    hide Run, IsRun, Fresh, U.Owners, U.Holders, U.Contents;
    forall id | id in z.jobs
      ensures U.Terminal(z.session.states[id].status) <==> z.jobs[id].response != U.Rejected
    {
      SidesAgreeOn(c, z, id);
    }
    hide Inv, Requests;
    if forall id :: id in z.jobs ==> z.jobs[id].response != U.Rejected {
      U.AllCountedMeansEnded(z.session);
    } else if !z.session.tally.started {
      U.EndedMeansAllCounted(z.session);
    }
  }

  // ---------- What one attempt comes to ----------

  /** When a received body is judged with what: success for a body that was read and stored with
      the declared size and checksum, and a checksum error only for one that was read and stored
      in full but does not match. */
  predicate Deserves(c: U.Config, id: string, body: Bytes, readOk: bool, flushOk: bool, response: U.Response)
    requires id in c.metas
  {
    var sized := |body| == c.metas[id].size;
    var unlike := c.metas[id].checksum != "" && !c.matches(body, c.metas[id].checksum);
    && (response == U.Saved <==> readOk && flushOk && sized && !unlike)
    && (response == U.ChecksumMismatch <==> readOk && flushOk && sized && unlike)
    && (response == U.InvalidBody <==> readOk && !sized)
    && (response == U.FileIO <==> !readOk || (sized && !flushOk))
  }

  /** The request will be answered with `response`. */
  predicate Gives(th: U.Thread, response: U.Response) {
    (th.Judged? || th.Settled? || th.Decrementing? || th.Ending? || th.Zeroing? || th.Returned?)
    && th.response == response
  }

  /** Attempt `k` of file `id` has been judged. */
  predicate Decided(y: Joint, id: string, t: nat, k: nat, response: U.Response) {
    id in y.jobs && y.jobs[id] == Sending(k, t) && t in y.session.threads && Gives(y.session.threads[t], response)
  }

  lemma GivesStays(c: U.Config, y: U.Session, step: U.Step, t: nat, response: U.Response)
    requires U.Enabled(c, y, step) && !step.Kill? && !step.Arrive? && t in y.threads && Gives(y.threads[t], response)
    ensures t in U.Next(c, y, step).threads && Gives(U.Next(c, y, step).threads[t], response)
  {
    if !step.Foreign? {
      AboutStep(c, y, step);
      if step.t == t {
        AnswerGoesOn(c, y, step, response);
      }
    }
    hide U.Next, U.Enabled, About, Gives;
  }

  lemma AnswerGoesOn(c: U.Config, y: U.Session, step: U.Step, response: U.Response)
    requires U.Enabled(c, y, step) && !step.Kill? && !step.Arrive? && !step.Foreign?
    requires Gives(y.threads[step.t], response)
    ensures step.t in U.Next(c, y, step).threads && Gives(U.Next(c, y, step).threads[step.t], response)
  {
    hide U.Targets, U.CanAppend;
    match step
    case CleanUp(t) => assert U.Next(c, y, step) == U.CloseFile(y, t);
    case Finish(t) => assert U.Next(c, y, step) == U.FinishAttempt(y, t, y.threads[t]);
    case Decrement(t) => assert U.Next(c, y, step) == U.CountDown(y, t);
    case EndCas(t) => assert U.Next(c, y, step) == U.CompareAndSwap(y, t);
    case Zero(t) => assert U.Next(c, y, step) == U.ZeroCount(y, t);
    case _ => assert false;
  }

  lemma DecidedStep(c: U.Config, y: Joint, s: Step, id: string, t: nat, k: nat, response: U.Response)
    requires Enabled(c, y, s) && s != Reply(id) && Decided(y, id, t, k, response)
    ensures Decided(Next(c, y, s), id, t, k, response)
  {
    match s
    case Inside(step) => GivesStays(c, y.session, step, t, response); hide U.Next, U.Enabled, Gives;
    case _ => hide Gives, T.Stopped, T.Expired;
  }

  lemma {:induction false} DecidedRun(c: U.Config, y: Joint, steps: seq<Step>, id: string, t: nat, k: nat,
                                      response: U.Response)
    requires Inv(c, y) && IsRun(c, y, steps) && Reply(id) !in steps && Decided(y, id, t, k, response)
    ensures Inv(c, Run(c, y, steps)) && Decided(Run(c, y, steps), id, t, k, response)
    decreases |steps|
  {
    hide Inv, Decided, Next, Enabled;
    if steps != [] {
      InvStep(c, y, steps[0]);
      DecidedStep(c, y, steps[0], id, t, k, response);
      DecidedRun(c, Next(c, y, steps[0]), steps[1..], id, t, k, response);
    }
  }

  lemma JudgedAs(c: U.Config, y: Joint, id: string, readOk: bool, flushOk: bool) returns (response: U.Response)
    requires Inv(c, y) && id in y.jobs && y.jobs[id].Sending? && y.jobs[id].t in y.session.threads && id in c.metas
    requires var th := y.session.threads[y.jobs[id].t]; th.Receiving? && th.id == id
    ensures var t := y.jobs[id].t; var judge := Inside(U.Judge(t, readOk, flushOk));
            && Enabled(c, y, judge) && Decided(Next(c, y, judge), id, t, y.jobs[id].attempt, response)
            && Deserves(c, id, y.session.threads[t].body, readOk, flushOk, response)
  {
    hide Inv;
    response := U.Judgement(c, c.metas[id], y.session.threads[y.jobs[id].t].body, readOk, flushOk).1;
  }

  /** What the answer to attempt `k` makes of the job and of the file. */
  predicate ComesTo(job: Job, st: U.FileState, response: U.Response, k: nat) {
    if response == U.ChecksumMismatch && k < 3 then job == Waiting(k) && st.status == U.Pending
    else job == Done(response, k) && st.status == if response == U.Saved then U.Finished else U.Failed
  }

  /** An attempt in a run of uploads, from the verdict on its body to the answer, whatever else
      happens in between: a body that was stored in full but does not match leaves the file
      pending and is sent again, unless it was the third; a good one finishes the file; any other
      fails it for good. */
  lemma AttemptExact(c: U.Config, y: Joint, before: seq<Step>, id: string, readOk: bool, flushOk: bool,
                     between: seq<Step>)
    returns (response: U.Response)
    requires Fresh(c, y) && IsRun(c, y, before)
    requires var now := Run(c, y, before);
             && id in now.jobs && now.jobs[id].Sending? && now.jobs[id].t in now.session.threads && id in c.metas
             && var th := now.session.threads[now.jobs[id].t]; th.Receiving? && th.id == id
    requires var now := Run(c, y, before); var judge := Inside(U.Judge(now.jobs[id].t, readOk, flushOk));
             && Enabled(c, now, judge) && Reply(id) !in between
             && IsRun(c, Next(c, now, judge), between)
             && Enabled(c, Run(c, Next(c, now, judge), between), Reply(id))
    ensures var now := Run(c, y, before); var judge := Inside(U.Judge(now.jobs[id].t, readOk, flushOk));
            var z := Next(c, Run(c, Next(c, now, judge), between), Reply(id));
            && Deserves(c, id, now.session.threads[now.jobs[id].t].body, readOk, flushOk, response)
            && id in z.jobs && id in z.session.states
            && ComesTo(z.jobs[id], z.session.states[id], response, now.jobs[id].attempt)
  {
    FreshInv(c, y);
    RunInv(c, y, before);
    var now := Run(c, y, before);
    var t, k := now.jobs[id].t, now.jobs[id].attempt;
    hide Inv, Fresh, Run, IsRun, Next, Enabled, Deserves, ComesTo;
    response := JudgedAs(c, now, id, readOk, flushOk);
    var judge := Inside(U.Judge(t, readOk, flushOk));
    InvStep(c, now, judge);
    DecidedRun(c, Next(c, now, judge), between, id, t, k, response);
    Replied(c, Run(c, Next(c, now, judge), between), id, t, k, response);
  }

  lemma Replied(c: U.Config, y: Joint, id: string, t: nat, k: nat, response: U.Response)
    requires Inv(c, y) && Decided(y, id, t, k, response) && Enabled(c, y, Reply(id))
    ensures var z := Next(c, y, Reply(id));
            id in z.jobs && id in z.session.states && ComesTo(z.jobs[id], z.session.states[id], response, k)
  {
    assert JobKnown(c, y, id);
    hide U.Inv, Requests, Jobs, Swept;
  }
}
