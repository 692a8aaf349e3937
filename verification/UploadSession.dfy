/** Concurrent uploads into one HTTP receive session.  Each call of SaveFile is a thread,
    and each step is one atomic action of it: a lock region, an atomic counter operation or
    a file-system call. */
module UploadSession {
  import opened Wrappers

  const MaxChecksumAttempts := 3

  datatype Status = Pending | InProgress | Finished | Failed

  datatype FileState = FileState(status: Status, attempts: nat, targetPath: Option<string>)

  datatype Response = Saved | InvalidBody | Rejected | FileIO | ChecksumMismatch | Killed

  /** What the session accepted for one file. */
  datatype Meta = Meta(token: string, size: int, checksum: string)

  datatype Config = Config(metas: map<string, Meta>, clientIP: string, matches: (Bytes, string) -> bool)

  datatype Kept = Kept(path: string, data: Bytes)

  /** Where a call of SaveFile, or of End, stands. */
  datatype Thread =
    | Checked(id: string, token: string)             // passed the checks before the lock
    | Claimed(id: string, target: Option<string>)
    | Opened(id: string, path: string)               // created, target path not stored yet
    | Receiving(id: string, path: string, body: Bytes)
    | Judged(id: string, path: string, body: Bytes, result: Status, response: Response)
    | Settled(id: string, kept: Option<Kept>, result: Status, response: Response)
    | Decrementing(id: string, response: Response)
    | Ending(response: Response)
    | Zeroing(response: Response)
    | Returned(response: Response)

  datatype Holder = ByThread(t: nat) | ByFile(id: string)

  /** The atomic counter and flag of the session. */
  datatype Tally = Tally(
    started: bool,
    filesCount: int,
    // history
    counting: map<string, nat>,       // which thread has yet to count a terminal file down
    last: Option<nat>,                // the thread whose countdown reached zero
    ends: nat,                        // calls of End that returned true
    killed: bool)                     // End was called from outside

  datatype Session = Session(
    states: map<string, FileState>,
    threads: map<nat, Thread>,
    disk: map<string, Bytes>,
    tally: Tally,
    // history
    owner: map<string, nat>,          // which thread works on a file in progress
    holders: map<string, Holder>,     // who a path of this session belongs to
    saved: map<string, Kept>,         // finished files
    foreign: map<string, Bytes>)      // files of other programs

  datatype Step =
    | Arrive(t: nat, id: string, token: string, ip: string)
    | Claim(t: nat)
    | GiveUp(t: nat, response: Response)             // bad name, or a failed directory or create
    | Create(t: nat, path: string)                   // an exclusive create succeeds
    | StoreTarget(t: nat)
    | Append(t: nat, chunk: Bytes, spilled: nat)
    | Judge(t: nat, readOk: bool, flushOk: bool)
    | CleanUp(t: nat)
    | Finish(t: nat)
    | Decrement(t: nat)
    | EndCas(t: nat)
    | Zero(t: nat)
    | Kill(t: nat)
    | Foreign(path: string, data: Bytes)             // another program creates a file

  // ---------- Steps ----------

  predicate Enabled(c: Config, y: Session, step: Step) {
    match step
    case Arrive(t, _, _, _) => t !in y.threads
    case Kill(t) => t !in y.threads
    case Foreign(path, _) => path !in y.disk
    case Claim(t) => t in y.threads && y.threads[t].Checked?
    case GiveUp(t, response) => t in y.threads && y.threads[t].Claimed? && response in {InvalidBody, FileIO}
    case Create(t, path) => t in y.threads && y.threads[t].Claimed? && path !in y.disk && Targets(y.threads[t], path)
    case StoreTarget(t) => t in y.threads && y.threads[t].Opened?
    case Append(t, chunk, spilled) =>
      t in y.threads && y.threads[t].Receiving? && CanAppend(c, y, y.threads[t], chunk, spilled)
    case Judge(t, _, _) => t in y.threads && y.threads[t].Receiving? && y.threads[t].id in c.metas
    case CleanUp(t) => t in y.threads && y.threads[t].Judged?
    case Finish(t) => t in y.threads && y.threads[t].Settled?
    case Decrement(t) => t in y.threads && y.threads[t].Decrementing?
    case EndCas(t) => t in y.threads && y.threads[t].Ending?
    case Zero(t) => t in y.threads && y.threads[t].Zeroing?
  }

  /** A retry creates the path of the first attempt. */
  predicate Targets(th: Thread, path: string)
    requires th.Claimed?
  {
    th.target.Some? ==> path == th.target.value
  }

  /** The body is read up to one byte more than declared; part of it has reached the disk. */
  predicate CanAppend(c: Config, y: Session, th: Thread, chunk: Bytes, spilled: nat)
    requires th.Receiving?
  {
    th.id in c.metas && th.path in y.disk
    && |th.body| + |chunk| <= c.metas[th.id].size + 1 && spilled <= |th.body| + |chunk|
  }

  /** The file a thread has claimed and not given back. */
  function Works(th: Thread): Option<string> {
    if th.Claimed? || th.Opened? || th.Receiving? || th.Judged? || th.Settled? then Some(th.id) else None
  }

  /** The file on disk a thread is responsible for. */
  function PathOf(th: Thread): Option<string> {
    if th.Opened? || th.Receiving? || th.Judged? then Some(th.path)
    else if th.Settled? && th.kept.Some? then Some(th.kept.value.path)
    else None
  }

  function WorksAt(y: Session, t: nat): Option<string> { if t in y.threads then Works(y.threads[t]) else None }

  function PathAt(y: Session, t: nat): Option<string> { if t in y.threads then PathOf(y.threads[t]) else None }

  ghost predicate SameStates(y: Session, z: Session) {
    z.states == y.states
    || (z.states.Keys == y.states.Keys
        && forall id :: id in z.states ==>
              z.states[id].status == y.states[id].status && z.states[id].attempts == y.states[id].attempts)
  }

  /** Thread `t` moved and every other thread stood still. */
  ghost predicate Moved(y: Session, z: Session, t: nat) { t in z.threads && z.threads == y.threads[t := z.threads[t]] }

  /** A step of thread `t` that leaves it with the file it had. */
  ghost predicate Plain(y: Session, z: Session, t: nat) {
    && Moved(y, z, t) && WorksAt(z, t) == WorksAt(y, t) && SameStates(y, z)
    && z == y.(threads := z.threads, states := z.states, disk := z.disk, holders := z.holders, tally := z.tally)
  }

  /** A plain step that touches no path. */
  ghost predicate Quiet(y: Session, z: Session, t: nat) {
    Plain(y, z, t) && z.disk == y.disk && z.holders == y.holders && PathAt(z, t) == PathAt(y, t)
  }

  predicate Closing(th: Thread) { th.Decrementing? || th.Ending? || th.Zeroing? }

  /** A step of thread `t` that counts and ends nothing. */
  ghost predicate Uncounted(y: Session, z: Session, t: nat) {
    && Moved(y, z, t) && z.tally == y.tally && !Closing(z.threads[t]) && (t in y.threads ==> !Closing(y.threads[t]))
  }

  function At(y: Session, t: nat, th: Thread): Session { y.(threads := y.threads[t := th]) }

  /** The checks before the lock, in the order the code makes them. */
  function ArriveAt(c: Config, y: Session, id: string, token: string, ip: string): (th: Thread)
    ensures Works(th) == None && PathOf(th) == None && !Closing(th)
  {
    if id == "" || token == "" then Returned(InvalidBody)
    else if !y.tally.started then Returned(Rejected)
    else if c.clientIP != "" && ip != c.clientIP then Returned(Rejected)
    else Checked(id, token)
  }

  predicate Claimable(c: Config, y: Session, id: string, token: string) {
    id in c.metas && id in y.states && y.states[id].status == Pending && c.metas[id].token == token
  }

  /** A step of thread `t` that touches neither a path nor a finished file. */
  ghost predicate Untouched(y: Session, z: Session, t: nat) {
    Moved(y, z, t) && z == y.(threads := z.threads, states := z.states, tally := z.tally, owner := z.owner)
  }

  function ClaimFile(c: Config, y: Session, t: nat, id: string, token: string): (z: Session)
    requires t in y.threads && y.threads[t].Checked?
    ensures Untouched(y, z, t) && Uncounted(y, z, t)
    ensures z.threads[t].Returned? || z.threads[t].Claimed?
  {
    if !Claimable(c, y, id, token) then At(y, t, Returned(Rejected))
    else
      var st := y.states[id];
      y.(threads := y.threads[t := Claimed(id, st.targetPath)],
         states := y.states[id := st.(status := InProgress, attempts := st.attempts + 1)],
         owner := y.owner[id := t])
  }

  function CreateFile(y: Session, t: nat, path: string): (z: Session)
    requires t in y.threads && y.threads[t].Claimed?
    ensures Plain(y, z, t) && Uncounted(y, z, t)
  {
    var th := y.threads[t];
    y.(threads := y.threads[t := if th.target.Some? then Receiving(th.id, path, []) else Opened(th.id, path)],
       disk := y.disk[path := []], holders := y.holders[path := ByThread(t)])
  }

  function StorePath(y: Session, t: nat): (z: Session)
    requires t in y.threads && y.threads[t].Opened?
    ensures Quiet(y, z, t) && Uncounted(y, z, t)
  {
    var th := y.threads[t];
    y.(threads := y.threads[t := Receiving(th.id, th.path, [])],
       states := if th.id in y.states then y.states[th.id := y.states[th.id].(targetPath := Some(th.path))]
                 else y.states)
  }

  function AppendBody(y: Session, t: nat, chunk: Bytes, spilled: nat): (z: Session)
    requires t in y.threads && y.threads[t].Receiving? && spilled <= |y.threads[t].body| + |chunk|
    ensures Plain(y, z, t) && PathAt(z, t) == PathAt(y, t) && Uncounted(y, z, t)
  {
    var th := y.threads[t];
    y.(threads := y.threads[t := Receiving(th.id, th.path, th.body + chunk)],
       disk := y.disk[th.path := (th.body + chunk)[..spilled]])
  }

  /** Size first, then the flush, then the checksum; only a checksum error may be retried. */
  function Judgement(c: Config, meta: Meta, body: Bytes, readOk: bool, flushOk: bool): (Status, Response) {
    if !readOk then (Failed, FileIO)
    else if |body| != meta.size then (Failed, InvalidBody)
    else if !flushOk then (Failed, FileIO)
    else if meta.checksum != "" && !c.matches(body, meta.checksum) then (Pending, ChecksumMismatch)
    else (Finished, Saved)
  }

  function JudgeBody(c: Config, y: Session, t: nat, readOk: bool, flushOk: bool): (z: Session)
    requires t in y.threads && y.threads[t].Receiving? && y.threads[t].id in c.metas
    ensures Plain(y, z, t) && PathAt(z, t) == PathAt(y, t) && Uncounted(y, z, t)
  {
    var th := y.threads[t];
    var meta := c.metas[th.id];
    var (result, response) := Judgement(c, meta, th.body, readOk, flushOk);
    y.(threads := y.threads[t := Judged(th.id, th.path, th.body, result, response)],
       disk := if readOk && |th.body| == meta.size && flushOk then y.disk[th.path := th.body] else y.disk)
  }

  /** The deferred close: only a finished file stays. */
  function CloseFile(y: Session, t: nat): (z: Session)
    requires t in y.threads && y.threads[t].Judged?
    ensures Plain(y, z, t) && Uncounted(y, z, t)
  {
    var th := y.threads[t];
    if th.result == Finished then At(y, t, Settled(th.id, Some(Kept(th.path, th.body)), Finished, th.response))
    else y.(threads := y.threads[t := Settled(th.id, None, th.result, th.response)],
            disk := y.disk - {th.path}, holders := y.holders - {th.path})
  }

  /** finishFileAttempt under the lock: the new status, and whether it is terminal. */
  function Outcome(st: FileState, result: Status): (Status, bool) {
    if st.status != InProgress then (st.status, false)
    else if result == Pending && st.attempts < MaxChecksumAttempts then (Pending, false)
    else if result == Finished then (Finished, true)
    else (Failed, true)
  }

  function FinishAttempt(y: Session, t: nat, th: Thread): (z: Session)
    requires th.Settled?
    ensures Moved(y, z, t) && (z.threads[t].Decrementing? || z.threads[t].Returned?)
    ensures z.tally == y.tally.(counting := z.tally.counting)
    ensures z
            == y.(threads := z.threads, states := z.states, owner := z.owner, tally := z.tally,
                  holders := z.holders, saved := z.saved)
    ensures th.kept.None? ==> z.holders == y.holders && z.saved == y.saved
  {
    if th.id !in y.states then At(y, t, Returned(th.response))
    else
      var (status, terminal) := Outcome(y.states[th.id], th.result);
      y.(threads := y.threads[t := if terminal then Decrementing(th.id, th.response) else Returned(th.response)],
         states := y.states[th.id := y.states[th.id].(status := status)],
         owner := y.owner - {th.id},
         tally := y.tally.(counting := if terminal then y.tally.counting[th.id := t] else y.tally.counting),
         holders := if th.kept.Some? then y.holders[th.kept.value.path := ByFile(th.id)] else y.holders,
         saved := if th.kept.Some? then y.saved[th.id := th.kept.value] else y.saved)
  }

  function CountDown(y: Session, t: nat): (z: Session)
    requires t in y.threads && y.threads[t].Decrementing?
    ensures Quiet(y, z, t)
  {
    var Decrementing(id, response) := y.threads[t];
    var left := y.tally.filesCount - 1;
    y.(threads := y.threads[t := if left == 0 then Ending(response) else Returned(response)],
       tally := y.tally.(filesCount := left, counting := y.tally.counting - {id},
                         last := if left == 0 then Some(t) else y.tally.last))
  }

  function CompareAndSwap(y: Session, t: nat): (z: Session)
    requires t in y.threads && y.threads[t].Ending?
    ensures Quiet(y, z, t)
  {
    var response := y.threads[t].response;
    if y.tally.started
    then y.(threads := y.threads[t := Zeroing(response)], tally := y.tally.(started := false, ends := y.tally.ends + 1))
    else At(y, t, Returned(response))
  }

  function ArriveNow(c: Config, y: Session, t: nat, id: string, token: string, ip: string): (z: Session)
    requires t !in y.threads
    ensures Quiet(y, z, t) && Uncounted(y, z, t)
  {
    At(y, t, ArriveAt(c, y, id, token, ip))
  }

  function GiveUpAt(y: Session, t: nat, response: Response): (z: Session)
    requires t in y.threads && y.threads[t].Claimed?
    ensures Quiet(y, z, t) && Uncounted(y, z, t)
  {
    At(y, t, Settled(y.threads[t].id, None, Failed, response))
  }

  function ZeroCount(y: Session, t: nat): (z: Session)
    requires t in y.threads && y.threads[t].Zeroing?
    ensures Quiet(y, z, t)
  {
    y.(threads := y.threads[t := Returned(y.threads[t].response)], tally := y.tally.(filesCount := 0))
  }

  function EndFromOutside(y: Session, t: nat): (z: Session)
    requires t !in y.threads
    ensures Quiet(y, z, t)
  {
    y.(threads := y.threads[t := Ending(Killed)], tally := y.tally.(killed := true))
  }

  /** The steps that can count, end or be ended. */
  predicate Closes(step: Step) { step.Finish? || step.Decrement? || step.EndCas? || step.Zero? || step.Kill? }

  function Next(c: Config, y: Session, step: Step): (z: Session)
    requires Enabled(c, y, step)
    ensures step.Claim? || step.Finish? || step.Foreign? || Plain(y, z, step.t)
    ensures step.Claim? || step.Finish? || step.Foreign? || step.Create? || step.Append? || step.Judge? || step.CleanUp?
            || Quiet(y, z, step.t)
    ensures Closes(step) || step.Foreign? || Uncounted(y, z, step.t)
  {
    match step
    case Arrive(t, id, token, ip) => ArriveNow(c, y, t, id, token, ip)
    case Claim(t) => ClaimFile(c, y, t, y.threads[t].id, y.threads[t].token)
    case GiveUp(t, response) => GiveUpAt(y, t, response)
    case Create(t, path) => CreateFile(y, t, path)
    case StoreTarget(t) => StorePath(y, t)
    case Append(t, chunk, spilled) => AppendBody(y, t, chunk, spilled)
    case Judge(t, readOk, flushOk) => JudgeBody(c, y, t, readOk, flushOk)
    case CleanUp(t) => CloseFile(y, t)
    case Finish(t) => FinishAttempt(y, t, y.threads[t])
    case Decrement(t) => CountDown(y, t)
    case EndCas(t) => CompareAndSwap(y, t)
    case Zero(t) => ZeroCount(y, t)
    case Kill(t) => EndFromOutside(y, t)
    case Foreign(path, data) => y.(disk := y.disk[path := data], foreign := y.foreign[path := data])
  }

  /** A session as CreateSessionIfAllowed starts it. */
  ghost predicate Fresh(c: Config, y: Session) {
    && y.tally.started && c.metas != map[]
    && y.states.Keys == c.metas.Keys && (forall id :: id in y.states ==> y.states[id] == FileState(Pending, 0, None))
    && y.tally.filesCount == |c.metas.Keys|
    && y.threads == map[] && y.owner == map[] && y.tally.counting == map[]
    && y.tally.last == None && y.holders == map[] && y.saved == map[]
    && y.foreign == y.disk && y.tally.ends == 0 && !y.tally.killed
  }

  ghost predicate IsRun(c: Config, y: Session, steps: seq<Step>)
    decreases |steps|
  {
    steps == [] || (Enabled(c, y, steps[0]) && IsRun(c, Next(c, y, steps[0]), steps[1..]))
  }

  function Run(c: Config, y: Session, steps: seq<Step>): Session
    requires IsRun(c, y, steps)
    decreases |steps|
  {
    if steps == [] then y else Run(c, Next(c, y, steps[0]), steps[1..])
  }

  // ---------- Who works on what ----------

  /** Every file in progress has exactly one thread, and it was claimed at most three times. */
  ghost predicate Owners(c: Config, y: Session) {
    && y.states.Keys == c.metas.Keys
    && (forall id :: id in y.states ==> (id in y.owner <==> y.states[id].status == InProgress))
    && (forall id :: id in y.owner ==>
          id in y.states && y.owner[id] in y.threads && Works(y.threads[y.owner[id]]) == Some(id))
    && (forall t :: t in y.threads && Works(y.threads[t]).Some? ==>
          Works(y.threads[t]).value in y.owner && y.owner[Works(y.threads[t]).value] == t)
    && (forall id :: id in y.states ==>
          && y.states[id].attempts <= MaxChecksumAttempts
          && (y.states[id].status == Pending ==> y.states[id].attempts < MaxChecksumAttempts)
          && (y.states[id].status != Pending ==> y.states[id].attempts >= 1))
  }

  /** Every path has one holder, which is the thread or file that names it. */
  ghost predicate Holders(y: Session) {
    && (forall p :: p in y.foreign ==> p in y.disk)
    && (forall p :: p in y.holders ==> p in y.disk && p !in y.foreign)
    && (forall t :: t in y.threads && PathOf(y.threads[t]).Some? ==>
          PathOf(y.threads[t]).value in y.holders && y.holders[PathOf(y.threads[t]).value] == ByThread(t))
    && (forall id :: id in y.saved ==> y.saved[id].path in y.holders && y.holders[y.saved[id].path] == ByFile(id))
    && (forall id :: id in y.saved ==> id in y.states && y.states[id].status == Finished)
  }

  predicate Good(c: Config, id: string, data: Bytes) {
    id in c.metas && |data| == c.metas[id].size && (c.metas[id].checksum == "" || c.matches(data, c.metas[id].checksum))
  }

  /** A judgement matches what the thread received, and success is what is on disk. */
  ghost predicate Sound(c: Config, y: Session, th: Thread) {
    match th
    case Judged(id, path, body, result, response) =>
      && result in {Pending, Finished, Failed} && (result == Finished <==> response == Saved)
      && (result == Pending <==> response == ChecksumMismatch) && response !in {Rejected, Killed}
      && (result == Finished ==> Good(c, id, body) && path in y.disk && y.disk[path] == body)
    case Settled(id, kept, result, response) =>
      && result in {Pending, Finished, Failed} && (result == Finished <==> response == Saved)
      && (result == Pending <==> response == ChecksumMismatch) && response !in {Rejected, Killed}
      && (kept.Some? <==> result == Finished)
      && (kept.Some? ==>
            Good(c, id, kept.value.data) && kept.value.path in y.disk && y.disk[kept.value.path] == kept.value.data)
    case _ => true
  }

  ghost predicate Contents(c: Config, y: Session) {
    && (forall t :: t in y.threads ==> Sound(c, y, y.threads[t]))
    && (forall id :: id in y.saved ==>
          Good(c, id, y.saved[id].data) && y.saved[id].path in y.disk && y.disk[y.saved[id].path] == y.saved[id].data)
    && (forall p :: p in y.foreign ==> p in y.disk && y.disk[p] == y.foreign[p])
  }

  // ---------- One step at a time ----------

  lemma OwnersPlain(c: Config, y: Session, z: Session, t: nat)
    requires Owners(c, y) && Plain(y, z, t)
    ensures Owners(c, z)
  {
  }

  /** Thread `t` has taken the file `id`. */
  lemma ClaimedOwners(c: Config, y: Session, z: Session, t: nat, id: string)
    requires Owners(c, y) && t in y.threads && Works(y.threads[t]) == None && id in y.states && id !in y.owner
    requires y.states[id].status == Pending && id in z.states && z.states == y.states[id := z.states[id]]
    requires t in z.threads && z.threads == y.threads[t := z.threads[t]] && Works(z.threads[t]) == Some(id)
    requires z.owner == y.owner[id := t] && z.states[id].status == InProgress
    requires z.states[id].attempts == y.states[id].attempts + 1
    ensures Owners(c, z)
  {
    hide Works;
    assert z.states.Keys == y.states.Keys;
  }

  lemma OwnersClaimed(c: Config, y: Session, t: nat, id: string, token: string)
    requires Owners(c, y) && t in y.threads && y.threads[t].Checked? && Claimable(c, y, id, token)
    ensures Owners(c, ClaimFile(c, y, t, id, token))
  {
    hide Moved, Closing;
    var z := ClaimFile(c, y, t, id, token);
    assert z.threads == y.threads[t := Claimed(id, y.states[id].targetPath)];
    ClaimedOwners(c, y, z, t, id);
  }

  lemma OwnersClaim(c: Config, y: Session, t: nat)
    requires Owners(c, y) && Enabled(c, y, Claim(t))
    ensures Owners(c, Next(c, y, Claim(t)))
  {
    var id, token := y.threads[t].id, y.threads[t].token;
    if Claimable(c, y, id, token) {
      OwnersClaimed(c, y, t, id, token);
    } else {
      OwnersPlain(c, y, ClaimFile(c, y, t, id, token), t);
    }
    hide Owners, ClaimFile;
  }

  lemma OwnersGiven(c: Config, y: Session, t: nat)
    requires Owners(c, y) && t in y.threads && y.threads[t].Settled?
    ensures Owners(c, FinishAttempt(y, t, y.threads[t]))
  {
    hide Closing, Moved;
    var z, id := FinishAttempt(y, t, y.threads[t]), y.threads[t].id;
    assert Works(y.threads[t]) == Some(id);
    var (status, terminal) := Outcome(y.states[id], y.threads[t].result);
    assert z.states == y.states[id := y.states[id].(status := status)] && z.owner == y.owner - {id};
    assert z.threads == y.threads[t := z.threads[t]] && Works(z.threads[t]) == None;
    FinishedOwners(c, y, z, t, id);
  }

  /** Thread `t` has given the file `id` back, which is in progress no longer. */
  lemma FinishedOwners(c: Config, y: Session, z: Session, t: nat, id: string)
    requires Owners(c, y) && t in y.threads && Works(y.threads[t]) == Some(id) && id in y.states
    requires t in z.threads && z.threads == y.threads[t := z.threads[t]] && Works(z.threads[t]) == None
    requires id in z.states && z.states == y.states[id := z.states[id]] && z.owner == y.owner - {id}
    requires z.states[id].attempts == y.states[id].attempts && z.states[id].status != InProgress
    requires z.states[id].status == Pending ==> z.states[id].attempts < MaxChecksumAttempts
    ensures Owners(c, z)
  {
    hide Works;
    assert z.states.Keys == y.states.Keys;
    assert y.owner[id] == t;
  }

  lemma OwnersFinish(c: Config, y: Session, t: nat)
    requires Owners(c, y) && Enabled(c, y, Finish(t))
    ensures Owners(c, Next(c, y, Finish(t)))
  {
    hide Owners, FinishAttempt;
    OwnersGiven(c, y, t);
  }

  lemma OwnersStep(c: Config, y: Session, step: Step)
    requires Owners(c, y) && Enabled(c, y, step)
    ensures Owners(c, Next(c, y, step))
  {
    match step
    case Claim(t) => OwnersClaim(c, y, t); hide *;
    case Finish(t) => OwnersFinish(c, y, t); hide *;
    case Foreign(path, data) => hide Works;
    case _ => OwnersPlain(c, y, Next(c, y, step), step.t); hide *;
  }

  lemma HoldersQuiet(y: Session, z: Session, t: nat)
    requires Holders(y) && Plain(y, z, t) && z.holders == y.holders && z.disk.Keys == y.disk.Keys
    requires PathAt(z, t) == PathAt(y, t)
    ensures Holders(z)
  {
  }

  lemma HoldersCreate(c: Config, y: Session, t: nat, path: string)
    requires Holders(y) && Enabled(c, y, Create(t, path))
    ensures Holders(Next(c, y, Create(t, path)))
  {
  }

  lemma HoldersCleanUp(c: Config, y: Session, t: nat)
    requires Holders(y) && Enabled(c, y, CleanUp(t))
    ensures Holders(Next(c, y, CleanUp(t)))
  {
    var z := Next(c, y, CleanUp(t));
    assert PathAt(y, t) == Some(y.threads[t].path);
    if y.threads[t].result == Finished {
      HoldersQuiet(y, z, t);
    }
  }

  lemma HoldersClaimed(c: Config, y: Session, t: nat, id: string, token: string)
    requires Holders(y) && t in y.threads && y.threads[t].Checked? && Claimable(c, y, id, token)
    ensures Holders(ClaimFile(c, y, t, id, token))
  {
    hide Moved;
    var z := ClaimFile(c, y, t, id, token);
    assert id !in y.saved;
    assert forall other :: other in y.saved ==> other in z.states && z.states[other] == y.states[other];
  }

  lemma HoldersClaim(c: Config, y: Session, t: nat)
    requires Holders(y) && Enabled(c, y, Claim(t))
    ensures Holders(Next(c, y, Claim(t)))
  {
    hide Holders, ClaimFile, Untouched;
    var id, token := y.threads[t].id, y.threads[t].token;
    if Claimable(c, y, id, token) {
      HoldersClaimed(c, y, t, id, token);
    } else {
      HoldersNotClaimed(c, y, t, id, token);
    }
  }

  lemma HoldersNotClaimed(c: Config, y: Session, t: nat, id: string, token: string)
    requires Holders(y) && t in y.threads && y.threads[t].Checked? && !Claimable(c, y, id, token)
    ensures Holders(ClaimFile(c, y, t, id, token))
  {
    hide Holders;
    HoldersQuiet(y, ClaimFile(c, y, t, id, token), t);
  }

  lemma SettledClaims(c: Config, y: Session, t: nat)
    requires Owners(c, y) && t in y.threads && y.threads[t].Settled?
    ensures var id := y.threads[t].id; id in y.states && y.states[id].status == InProgress
  {
    assert Works(y.threads[t]) == Some(y.threads[t].id);
  }

  lemma HoldersFinish(c: Config, y: Session, t: nat)
    requires Owners(c, y) && Holders(y) && Contents(c, y) && Enabled(c, y, Finish(t))
    ensures Holders(Next(c, y, Finish(t)))
  {
    var th := y.threads[t];
    SettledClaims(c, y, t);
    assert Sound(c, y, th);
    hide Owners, Contents, Good;
    if th.kept.Some? {
      HoldersHandOver(y, t);
      hide *;
    } else {
      HoldersNothingKept(y, t);
      hide *;
    }
  }

  lemma HoldersNothingKept(y: Session, t: nat)
    requires Holders(y) && t in y.threads && y.threads[t].Settled? && y.threads[t].kept.None?
    requires y.threads[t].id in y.states && y.states[y.threads[t].id].status == InProgress
    ensures Holders(FinishAttempt(y, t, y.threads[t]))
  {
    var z := FinishAttempt(y, t, y.threads[t]);
    assert y.threads[t].id !in y.saved;
    assert forall id :: id in y.saved ==> z.states[id] == y.states[id];
    hide FinishAttempt;
  }

  /** A finished attempt hands its path over to the file. */
  lemma HoldersHandOver(y: Session, t: nat)
    requires Holders(y) && t in y.threads && y.threads[t].Settled? && y.threads[t].kept.Some?
    requires y.threads[t].result == Finished && y.threads[t].id in y.states
    requires y.states[y.threads[t].id].status == InProgress
    ensures Holders(FinishAttempt(y, t, y.threads[t]))
  {
    var th := y.threads[t];
    assert PathOf(th) == Some(th.kept.value.path) && th.id !in y.saved;
  }

  lemma HoldersWrite(c: Config, y: Session, step: Step)
    requires Holders(y) && Enabled(c, y, step) && (step.Append? || step.Judge?)
    ensures Holders(Next(c, y, step))
  {
    assert PathAt(y, step.t) == Some(y.threads[step.t].path);
    HoldersQuiet(y, Next(c, y, step), step.t);
    hide Holders;
  }

  lemma HoldersForeign(c: Config, y: Session, path: string, data: Bytes)
    requires Holders(y) && Enabled(c, y, Foreign(path, data))
    ensures Holders(Next(c, y, Foreign(path, data)))
  {
    hide PathOf;
  }

  lemma HoldersStep(c: Config, y: Session, step: Step)
    requires Owners(c, y) && Holders(y) && Contents(c, y) && Enabled(c, y, step)
    ensures Holders(Next(c, y, step))
  {
    var z := Next(c, y, step);
    match step
    case Create(t, path) => HoldersCreate(c, y, t, path); hide *;
    case Claim(t) => HoldersClaim(c, y, t); hide *;
    case CleanUp(t) => HoldersCleanUp(c, y, t); hide *;
    case Finish(t) => HoldersFinish(c, y, t); hide *;
    case Foreign(path, data) => HoldersForeign(c, y, path, data); hide *;
    case Append(t, chunk, spilled) => HoldersWrite(c, y, step); hide *;
    case Judge(t, readOk, flushOk) => HoldersWrite(c, y, step); hide *;
    case _ => HoldersQuiet(y, z, step.t); hide *;
  }

  /** A change of one path that nobody else holds. */
  lemma ContentsOwn(c: Config, y: Session, z: Session, t: nat, p: string)
    requires Holders(y) && Contents(c, y) && Plain(y, z, t)
    requires p !in y.foreign && (p in y.holders ==> y.holders[p] == ByThread(t))
    requires forall q :: q != p && q in y.disk ==> q in z.disk && z.disk[q] == y.disk[q]
    requires Sound(c, z, z.threads[t])
    ensures Contents(c, z)
  {
    forall u | u in z.threads && u != t ensures Sound(c, z, z.threads[u]) {
      assert Sound(c, y, y.threads[u]);
      assert PathOf(y.threads[u]) != Some(p);
      hide Good;
    }
  }

  lemma ContentsUntouched(c: Config, y: Session, z: Session, t: nat)
    requires Contents(c, y) && Untouched(y, z, t) && Sound(c, z, z.threads[t])
    ensures Contents(c, z)
  {
    forall u | u in z.threads && u != t ensures Sound(c, z, z.threads[u]) {
      assert Sound(c, y, y.threads[u]);
    }
  }

  lemma ContentsFinish(c: Config, y: Session, t: nat)
    requires Owners(c, y) && Holders(y) && Contents(c, y) && Enabled(c, y, Finish(t))
    ensures Contents(c, Next(c, y, Finish(t)))
  {
    var z, th := Next(c, y, Finish(t)), y.threads[t];
    assert Works(th) == Some(th.id) && Sound(c, y, th);
    forall u | u in z.threads ensures Sound(c, z, z.threads[u]) {
      if u != t {
        assert Sound(c, y, y.threads[u]);
      }
    }
  }

  lemma ContentsClaim(c: Config, y: Session, t: nat)
    requires Contents(c, y) && Enabled(c, y, Claim(t))
    ensures Contents(c, Next(c, y, Claim(t)))
  {
    hide ClaimFile;
    ContentsUntouched(c, y, Next(c, y, Claim(t)), t);
  }

  lemma ContentsJudge(c: Config, y: Session, t: nat, readOk: bool, flushOk: bool)
    requires Holders(y) && Contents(c, y) && Enabled(c, y, Judge(t, readOk, flushOk))
    ensures Contents(c, Next(c, y, Judge(t, readOk, flushOk)))
  {
    assert PathAt(y, t) == Some(y.threads[t].path);
    ContentsOwn(c, y, Next(c, y, Judge(t, readOk, flushOk)), t, y.threads[t].path);
  }

  lemma ContentsCleanUp(c: Config, y: Session, t: nat)
    requires Holders(y) && Contents(c, y) && Enabled(c, y, CleanUp(t))
    ensures Contents(c, Next(c, y, CleanUp(t)))
  {
    assert PathAt(y, t) == Some(y.threads[t].path) && Sound(c, y, y.threads[t]);
    ContentsOwn(c, y, Next(c, y, CleanUp(t)), t, y.threads[t].path);
  }

  lemma ContentsForeign(c: Config, y: Session, path: string, data: Bytes)
    requires Holders(y) && Contents(c, y) && Enabled(c, y, Foreign(path, data))
    ensures Contents(c, Next(c, y, Foreign(path, data)))
  {
    var z := Next(c, y, Foreign(path, data));
    forall u | u in z.threads ensures Sound(c, z, z.threads[u]) {
      assert Sound(c, y, y.threads[u]);
    }
  }

  lemma ContentsCreate(c: Config, y: Session, t: nat, path: string)
    requires Holders(y) && Contents(c, y) && Enabled(c, y, Create(t, path))
    ensures Contents(c, Next(c, y, Create(t, path)))
  {
    ContentsOwn(c, y, Next(c, y, Create(t, path)), t, path);
    hide Contents;
  }

  lemma ContentsAppend(c: Config, y: Session, t: nat, chunk: Bytes, spilled: nat)
    requires Holders(y) && Contents(c, y) && Enabled(c, y, Append(t, chunk, spilled))
    ensures Contents(c, Next(c, y, Append(t, chunk, spilled)))
  {
    assert PathAt(y, t) == Some(y.threads[t].path);
    ContentsOwn(c, y, Next(c, y, Append(t, chunk, spilled)), t, y.threads[t].path);
    hide Contents;
  }

  lemma ContentsStep(c: Config, y: Session, step: Step)
    requires Owners(c, y) && Holders(y) && Contents(c, y) && Enabled(c, y, step)
    ensures Contents(c, Next(c, y, step))
  {
    match step
    case Claim(t) => ContentsClaim(c, y, t); hide *;
    case Finish(t) => ContentsFinish(c, y, t); hide *;
    case Foreign(path, data) => ContentsForeign(c, y, path, data); hide *;
    case Create(t, path) => ContentsCreate(c, y, t, path); hide *;
    case Append(t, chunk, spilled) => ContentsAppend(c, y, t, chunk, spilled); hide *;
    case Judge(t, readOk, flushOk) => ContentsJudge(c, y, t, readOk, flushOk); hide *;
    case CleanUp(t) => ContentsCleanUp(c, y, t); hide *;
    case _ => ContentsOther(c, y, step); hide *;
  }

  lemma ContentsOther(c: Config, y: Session, step: Step)
    requires Contents(c, y) && Enabled(c, y, step) && !step.Foreign? && !step.Finish?
    requires !step.Create? && !step.Append? && !step.Judge? && !step.CleanUp?
    ensures Contents(c, Next(c, y, step))
  {
    var z := Next(c, y, step);
    assert Untouched(y, z, step.t) by { hide Contents, Works, PathOf; }
    assert Sound(c, z, z.threads[step.t]) by { hide Contents, Good; }
    hide Next, Enabled, Contents, Sound, Untouched;
    ContentsUntouched(c, y, z, step.t);
  }

  // ---------- The counter ----------

  predicate Terminal(status: Status) { status == Finished || status == Failed }

  /** Files that are pending or in progress. */
  function Open(states: map<string, FileState>): set<string> {
    set id | id in states && !Terminal(states[id].status)
  }

  predicate CountsDown(th: Thread, id: string) { th.Decrementing? && th.id == id }

  /** `counting` is exactly what the threads still have to count down. */
  ghost predicate Countdowns(y: Session) {
    && (forall id :: id in y.tally.counting ==> id in y.states && Terminal(y.states[id].status))
    && (forall id :: id in y.tally.counting ==>
          y.tally.counting[id] in y.threads && CountsDown(y.threads[y.tally.counting[id]], id))
    && (forall t :: t in y.threads && y.threads[t].Decrementing? ==>
          y.threads[t].id in y.tally.counting && y.tally.counting[y.threads[t].id] == t)
  }

  /** The counter is the number of open files plus the terminal ones still to be counted. */
  ghost predicate Conserved(y: Session) { y.tally.filesCount == |Open(y.states)| + |y.tally.counting.Keys| }

  predicate LastStands(started: bool, th: Thread) { if started then th.Ending? else th.Zeroing? || th.Returned? }

  /** Without a kill, one thread brings the counter to zero and ends the session. */
  ghost predicate Ends(y: Session) {
    && (y.tally.started <==> y.tally.ends == 0) && y.tally.ends <= 1
    && (y.tally.last.None? <==> y.tally.filesCount != 0)
    && (y.tally.last.None? ==> y.tally.started)
    && (forall t :: t in y.threads && (y.threads[t].Ending? || y.threads[t].Zeroing?) ==> y.tally.last == Some(t))
    && (y.tally.last.Some? ==>
          y.tally.last.value in y.threads && LastStands(y.tally.started, y.threads[y.tally.last.value]))
  }

  lemma CountdownsStep(c: Config, y: Session, step: Step)
    requires Owners(c, y) && Countdowns(y) && Enabled(c, y, step)
    ensures Countdowns(Next(c, y, step))
  {
    hide Owners, Countdowns;
    match step
    case Finish(t) => CountdownsFinish(c, y, t); hide *;
    case Decrement(t) => CountdownsDecrement(y, t); hide CountDown;
    case Foreign(path, data) => CountdownsForeign(c, y, path, data); hide *;
    case Claim(t) => CountdownsClaim(c, y, t); hide *;
    case _ => CountdownsOther(c, y, step); hide *;
  }

  lemma CountdownsOther(c: Config, y: Session, step: Step)
    requires Countdowns(y) && Enabled(c, y, step) && !step.Finish? && !step.Decrement? && !step.Foreign? && !step.Claim?
    ensures Countdowns(Next(c, y, step))
  {
    hide Countdowns;
    CountdownsSame(y, Next(c, y, step), step.t);
    hide *;
  }

  lemma CountdownsForeign(c: Config, y: Session, path: string, data: Bytes)
    requires Countdowns(y) && Enabled(c, y, Foreign(path, data))
    ensures Countdowns(Next(c, y, Foreign(path, data)))
  {
    hide CountsDown, Terminal;
  }

  lemma CountdownsClaim(c: Config, y: Session, t: nat)
    requires Countdowns(y) && Enabled(c, y, Claim(t))
    ensures Countdowns(Next(c, y, Claim(t)))
  {
  }

  lemma CountdownsDecrement(y: Session, t: nat)
    requires Countdowns(y) && t in y.threads && y.threads[t].Decrementing?
    ensures Countdowns(CountDown(y, t))
  {
  }

  lemma CountdownsSame(y: Session, z: Session, t: nat)
    requires Countdowns(y) && z.tally.counting == y.tally.counting && SameStates(y, z)
    requires t in z.threads && z.threads == y.threads[t := z.threads[t]] && !z.threads[t].Decrementing?
    requires t in y.threads ==> !y.threads[t].Decrementing?
    ensures Countdowns(z)
  {
  }

  lemma CountdownsFinish(c: Config, y: Session, t: nat)
    requires Owners(c, y) && Countdowns(y) && Enabled(c, y, Finish(t))
    ensures Countdowns(Next(c, y, Finish(t)))
  {
    SettledClaims(c, y, t);
    hide Owners;
    CountdownsGiven(y, t);
    hide *;
  }

  lemma CountdownsGiven(y: Session, t: nat)
    requires Countdowns(y) && t in y.threads && y.threads[t].Settled?
    requires y.threads[t].id in y.states && y.states[y.threads[t].id].status == InProgress
    ensures Countdowns(FinishAttempt(y, t, y.threads[t]))
  {
    var z, id := FinishAttempt(y, t, y.threads[t]), y.threads[t].id;
    var (status, terminal) := Outcome(y.states[id], y.threads[t].result);
    assert terminal <==> Terminal(status);
    assert id !in y.tally.counting;
    assert z.states == y.states[id := y.states[id].(status := status)];
    assert z.tally.counting == if terminal then y.tally.counting[id := t] else y.tally.counting;
    assert z.threads == y.threads[t := z.threads[t]];
    assert if terminal then CountsDown(z.threads[t], id) else !z.threads[t].Decrementing?;
    hide FinishAttempt, Outcome, Terminal;
  }

  lemma OpenSame(y: Session, z: Session)
    requires SameStates(y, z)
    ensures Open(z.states) == Open(y.states)
  {
  }

  lemma OpenUpdated(states: map<string, FileState>, id: string, st: FileState)
    requires id in states && !Terminal(states[id].status)
    ensures id in Open(states)
    ensures Open(states[id := st]) == if Terminal(st.status) then Open(states) - {id} else Open(states)
  {
  }

  lemma FinishClaimed(c: Config, y: Session, t: nat)
    requires Owners(c, y) && Countdowns(y) && Enabled(c, y, Finish(t))
    ensures var id := y.threads[t].id;
            id in y.states && y.states[id].status == InProgress && id !in y.tally.counting
  {
    assert Works(y.threads[t]) == Some(y.threads[t].id);
  }

  lemma FinishCounts(y: Session, t: nat, th: Thread)
    requires th.Settled? && th.id in y.states && y.states[th.id].status == InProgress
    ensures var z := FinishAttempt(y, t, th); var (status, terminal) := Outcome(y.states[th.id], th.result);
            && terminal == Terminal(status) && z.states == y.states[th.id := y.states[th.id].(status := status)]
            && z.tally.counting.Keys == (if terminal then y.tally.counting.Keys + {th.id} else y.tally.counting.Keys)
            && z.tally.filesCount == y.tally.filesCount
  {
  }

  lemma ConservedFinish(c: Config, y: Session, t: nat)
    requires Owners(c, y) && Countdowns(y) && Conserved(y) && Enabled(c, y, Finish(t))
    ensures Conserved(Next(c, y, Finish(t)))
  {
    hide Owners, Countdowns, FinishAttempt, Open, Outcome;
    FinishClaimed(c, y, t);
    FinishCounts(y, t, y.threads[t]);
    OpenUpdated(y.states, y.threads[t].id,
                y.states[y.threads[t].id].(status := Outcome(y.states[y.threads[t].id], y.threads[t].result).0));
  }

  lemma ConservedStep(c: Config, y: Session, step: Step)
    requires Owners(c, y) && Countdowns(y) && Conserved(y) && Ends(y) && Enabled(c, y, step) && !step.Kill?
    ensures Conserved(Next(c, y, step))
  {
    var z := Next(c, y, step);
    match step
    case Finish(t) => ConservedFinish(c, y, t); hide *;
    case Claim(t) => ConservedClaim(c, y, t); hide *;
    case Decrement(t) => ConservedDecrement(y, t); hide Conserved;
    case Zero(t) => OpenSame(y, z); hide Countdowns, Open;
    case EndCas(t) => OpenSame(y, z); hide Countdowns, Open;
    case Foreign(path, data) => hide Countdowns, Open;
    case _ => OpenSame(y, z); hide *;
  }

  lemma ConservedClaim(c: Config, y: Session, t: nat)
    requires Conserved(y) && Enabled(c, y, Claim(t))
    ensures Conserved(Next(c, y, Claim(t)))
  {
    assert Open(Next(c, y, Claim(t)).states) == Open(y.states);
  }

  lemma ConservedDecrement(y: Session, t: nat)
    requires Countdowns(y) && Conserved(y) && t in y.threads && y.threads[t].Decrementing?
    ensures Conserved(CountDown(y, t)) && y.tally.filesCount > 0
  {
    var z := CountDown(y, t);
    OpenSame(y, z);
    assert y.threads[t].id in y.tally.counting.Keys;
    assert z.tally.counting.Keys == y.tally.counting.Keys - {y.threads[t].id};
  }

  lemma ThreadActive(c: Config, y: Session, step: Step)
    requires Enabled(c, y, step) && !step.Foreign?
    ensures step.t in y.threads ==> !y.threads[step.t].Returned?
  {
  }

  lemma EndsMove(y: Session, z: Session, t: nat)
    requires Ends(y) && t in z.threads && z.threads == y.threads[t := z.threads[t]]
    requires z.tally == y.tally.(counting := z.tally.counting) && !z.threads[t].Ending? && !z.threads[t].Zeroing?
    requires t in y.threads ==> !y.threads[t].Returned? && !y.threads[t].Ending? && !y.threads[t].Zeroing?
    ensures Ends(z)
  {
  }

  lemma EndsDecrement(y: Session, t: nat)
    requires Countdowns(y) && Conserved(y) && Ends(y) && t in y.threads && y.threads[t].Decrementing?
    ensures Ends(CountDown(y, t))
  {
    ConservedDecrement(y, t);
    hide Countdowns, Conserved;
  }

  lemma EndsCas(y: Session, t: nat)
    requires Ends(y) && t in y.threads && y.threads[t].Ending?
    ensures Ends(CompareAndSwap(y, t))
  {
  }

  lemma EndsZero(c: Config, y: Session, t: nat)
    requires Ends(y) && Enabled(c, y, Zero(t))
    ensures Ends(Next(c, y, Zero(t)))
  {
  }

  lemma EndsOther(c: Config, y: Session, step: Step)
    requires Ends(y) && Enabled(c, y, step) && !Closes(step) && !step.Foreign?
    ensures Ends(Next(c, y, step))
  {
    ThreadActive(c, y, step);
    EndsMove(y, Next(c, y, step), step.t);
    hide *;
  }

  lemma EndsForeign(c: Config, y: Session, path: string, data: Bytes)
    requires Ends(y) && Enabled(c, y, Foreign(path, data))
    ensures Ends(Next(c, y, Foreign(path, data)))
  {
  }

  lemma EndsFinish(c: Config, y: Session, t: nat)
    requires Ends(y) && Enabled(c, y, Finish(t))
    ensures Ends(Next(c, y, Finish(t)))
  {
    EndsMove(y, Next(c, y, Finish(t)), t);
    hide Ends;
  }

  lemma EndsStep(c: Config, y: Session, step: Step)
    requires Countdowns(y) && Conserved(y) && Ends(y) && Enabled(c, y, step) && !step.Kill?
    ensures Ends(Next(c, y, step))
  {
    hide Countdowns, Conserved, Ends;
    match step
    case Finish(t) => EndsFinish(c, y, t); hide *;
    case Decrement(t) => EndsDecrement(y, t); hide CountDown;
    case EndCas(t) => EndsCas(y, t); hide CompareAndSwap;
    case Zero(t) => EndsZero(c, y, t); hide *;
    case Foreign(path, data) => EndsForeign(c, y, path, data); hide *;
    case _ => EndsOther(c, y, step); hide *;
  }

  // ---------- Whole runs ----------

  ghost predicate Inv(c: Config, y: Session) {
    && Owners(c, y) && Holders(y) && Contents(c, y) && Countdowns(y)
    && (!y.tally.killed ==> Conserved(y) && Ends(y))
  }

  lemma InvStep(c: Config, y: Session, step: Step)
    requires Inv(c, y) && Enabled(c, y, step)
    ensures Inv(c, Next(c, y, step))
  {
    OwnersStep(c, y, step);
    HoldersStep(c, y, step);
    ContentsStep(c, y, step);
    CountdownsStep(c, y, step);
    KilledStep(c, y, step);
    if !Next(c, y, step).tally.killed {
      ConservedStep(c, y, step);
      EndsStep(c, y, step);
    }
    hide Next, Owners, Holders, Contents, Countdowns, Conserved, Ends;
  }

  lemma KilledStep(c: Config, y: Session, step: Step)
    requires Enabled(c, y, step)
    ensures Next(c, y, step).tally.killed == (y.tally.killed || step.Kill?)
  {
  }

  lemma FreshInv(c: Config, y: Session)
    requires Fresh(c, y)
    ensures Inv(c, y)
  {
    assert Open(y.states) == c.metas.Keys;
    assert y.tally.counting.Keys == {};
  }

  lemma {:induction false} RunInv(c: Config, y: Session, steps: seq<Step>)
    requires Inv(c, y) && IsRun(c, y, steps)
    ensures Inv(c, Run(c, y, steps))
    decreases |steps|
  {
    if steps != [] {
      InvStep(c, y, steps[0]);
      RunInv(c, Next(c, y, steps[0]), steps[1..]);
      hide Inv, Next;
    }
  }

  /** In every interleaving of uploads, as long as nobody cancels: `filesCount` is the number
      of pending and in-progress files plus the terminal files not yet counted down. */
  lemma CounterConserved(c: Config, y: Session, steps: seq<Step>)
    requires Fresh(c, y) && IsRun(c, y, steps)
    ensures var z := Run(c, y, steps);
            && (!z.tally.killed ==> z.tally.filesCount == |Open(z.states)| + |z.tally.counting.Keys|)
            && (forall id :: id in z.tally.counting ==> id in z.states && Terminal(z.states[id].status))
  {
    FreshInv(c, y);
    RunInv(c, y, steps);
  }

  /** No thread has work left. */
  ghost predicate Rests(y: Session) { forall t :: t in y.threads ==> y.threads[t].Returned? }

  lemma EndedMeansAllCounted(y: Session)
    requires Conserved(y) && Ends(y) && !y.tally.started
    ensures forall id :: id in y.states ==> Terminal(y.states[id].status) && id !in y.tally.counting
  {
    assert |Open(y.states)| == 0 && |y.tally.counting.Keys| == 0;
    forall id | id in y.states ensures Terminal(y.states[id].status) && id !in y.tally.counting {
      assert id !in Open(y.states) && id !in y.tally.counting.Keys;
    }
  }

  lemma AllCountedMeansEnded(y: Session)
    requires Countdowns(y) && Conserved(y) && Ends(y) && Rests(y)
    requires forall id :: id in y.states ==> Terminal(y.states[id].status)
    ensures y.tally.ends == 1
  {
    assert Open(y.states) == {};
    assert y.tally.counting.Keys == {};
  }

  /** Barring a cancel, the session is ended at most once, only when every file is terminal
      and counted, and it has been ended whenever all files are terminal and no thread has
      work left. */
  lemma EndedOnceByTheLast(c: Config, y: Session, steps: seq<Step>)
    requires Fresh(c, y) && IsRun(c, y, steps) && !Run(c, y, steps).tally.killed
    ensures var z := Run(c, y, steps);
            && z.tally.ends <= 1 && (z.tally.ends == 1 <==> !z.tally.started)
            && (!z.tally.started ==>
                  forall id :: id in z.states ==> Terminal(z.states[id].status) && id !in z.tally.counting)
            && (Rests(z) && (forall id :: id in z.states ==> Terminal(z.states[id].status)) ==> z.tally.ends == 1)
  {
    FreshInv(c, y);
    RunInv(c, y, steps);
    var z := Run(c, y, steps);
    if !z.tally.started {
      EndedMeansAllCounted(z);
    }
    if Rests(z) && forall id :: id in z.states ==> Terminal(z.states[id].status) {
      AllCountedMeansEnded(z);
    }
    hide Owners, Holders, Contents, Countdowns, Conserved, Run, IsRun, Fresh;
  }

  /** The thread that swaps `started` is the one whose countdown reached zero. */
  lemma OnlyTheLastEnds(c: Config, y: Session, t: nat)
    requires Inv(c, y) && !y.tally.killed && Enabled(c, y, EndCas(t))
    ensures y.tally.started && y.tally.last == Some(t) && Open(y.states) == {} && y.tally.counting == map[]
  {
    assert |Open(y.states)| == 0 && |y.tally.counting.Keys| == 0;
    assert y.tally.counting.Keys == {};
  }

  /** Whatever happens, cancels included: paths of attempts under way and of finished files
      are distinct, and finished files and files of other programs hold their contents. */
  lemma NoOverwrite(c: Config, y: Session, steps: seq<Step>)
    requires Fresh(c, y) && IsRun(c, y, steps)
    ensures var z := Run(c, y, steps);
            && (forall t, u :: t in z.threads && u in z.threads && t != u && PathAt(z, t).Some? ==>
                  PathAt(z, t) != PathAt(z, u))
            && (forall t, id :: t in z.threads && id in z.saved ==> PathAt(z, t) != Some(z.saved[id].path))
            && (forall id, other :: id in z.saved && other in z.saved && id != other ==>
                  z.saved[id].path != z.saved[other].path)
            && (forall id :: id in z.saved ==>
                  z.saved[id].path in z.disk && z.disk[z.saved[id].path] == z.saved[id].data
                  && Good(c, id, z.saved[id].data))
            && (forall p :: p in z.foreign ==> p in z.disk && z.disk[p] == z.foreign[p] && p !in z.holders)
  {
    hide Inv, Fresh, IsRun, Run, Good, PathAt;
    FreshInv(c, y);
    RunInv(c, y, steps);
    PathsDistinct(c, Run(c, y, steps));
  }

  lemma PathsDistinct(c: Config, z: Session)
    requires Inv(c, z)
    ensures forall t, u ::
              t in z.threads && u in z.threads && t != u && PathAt(z, t).Some? ==> PathAt(z, t) != PathAt(z, u)
    ensures forall t, id :: t in z.threads && id in z.saved ==> PathAt(z, t) != Some(z.saved[id].path)
    ensures forall id, other :: id in z.saved && other in z.saved && id != other ==>
              z.saved[id].path != z.saved[other].path
    ensures forall id :: id in z.saved ==>
              z.saved[id].path in z.disk && z.disk[z.saved[id].path] == z.saved[id].data
              && Good(c, id, z.saved[id].data)
    ensures forall p :: p in z.foreign ==> p in z.disk && z.disk[p] == z.foreign[p] && p !in z.holders
  {
    hide Owners, Countdowns, Conserved, Ends, Good, Sound, PathOf;
    forall id, other | id in z.saved && other in z.saved && id != other
      ensures z.saved[id].path != z.saved[other].path
    {
      assert z.holders[z.saved[id].path] == ByFile(id) && z.holders[z.saved[other].path] == ByFile(other);
    }
  }

  /** An existing file changes only where a thread with that path writes or removes it. */
  lemma DiskChange(c: Config, y: Session, step: Step, p: string)
    requires Enabled(c, y, step) && p in y.disk
    requires p !in Next(c, y, step).disk || Next(c, y, step).disk[p] != y.disk[p]
    ensures step.Append? || step.Judge? || step.CleanUp?
    ensures y.threads[step.t].path == p && (p !in Next(c, y, step).disk ==> step.CleanUp?)
  {
  }

  /** Creating never replaces, and only the holder of a path writes or removes it. */
  lemma OnlyTheHolderWrites(c: Config, y: Session, step: Step, p: string)
    requires Inv(c, y) && Enabled(c, y, step) && p in y.disk
    requires p !in Next(c, y, step).disk || Next(c, y, step).disk[p] != y.disk[p]
    ensures !step.Foreign? && p in y.holders && y.holders[p] == ByThread(step.t)
    ensures p !in Next(c, y, step).disk ==> step.CleanUp?
  {
    DiskChange(c, y, step, p);
    assert Holders(y) && PathOf(y.threads[step.t]) == Some(p);
    hide Inv, Next, Owners, Contents, Countdowns, Conserved, Ends;
  }

  /** Once finished, a file keeps its path and its contents for the rest of the run. */
  lemma {:induction false} FinishedStays(c: Config, y: Session, steps: seq<Step>, id: string)
    requires Inv(c, y) && IsRun(c, y, steps) && id in y.saved
    ensures var z := Run(c, y, steps);
            id in z.saved && z.saved[id] == y.saved[id]
            && y.saved[id].path in z.disk && z.disk[y.saved[id].path] == y.saved[id].data
    decreases |steps|
  {
    if steps != [] {
      InvStep(c, y, steps[0]);
      SavedStep(c, y, steps[0], id);
      FinishedStays(c, Next(c, y, steps[0]), steps[1..], id);
    }
  }

  lemma FinishKeepsSaved(c: Config, y: Session, t: nat, id: string)
    requires Owners(c, y) && Holders(y) && Enabled(c, y, Finish(t)) && id in y.saved
    ensures var z := Next(c, y, Finish(t)); id in z.saved && z.saved[id] == y.saved[id]
  {
    SettledClaims(c, y, t);
    assert y.threads[t].id !in y.saved;
    hide Owners, Holders;
  }

  lemma SavedStep(c: Config, y: Session, step: Step, id: string)
    requires Inv(c, y) && Enabled(c, y, step) && id in y.saved
    ensures id in Next(c, y, step).saved && Next(c, y, step).saved[id] == y.saved[id]
  {
    hide Owners, Holders, Contents, Countdowns, Conserved, Ends;
    match step
    case Finish(t) => FinishKeepsSaved(c, y, t, id); hide *;
    case Claim(t) => hide Inv;
    case Foreign(_, _) => hide Inv;
    case _ => hide Inv;
  }

  /** At most one thread works on a file, which is then in progress; a file is claimed at
      most three times, and a file nobody works on is not in progress. */
  lemma OneOwner(c: Config, y: Session, steps: seq<Step>)
    requires Fresh(c, y) && IsRun(c, y, steps)
    ensures var z := Run(c, y, steps);
            && (forall t, u :: t in z.threads && u in z.threads && t != u && WorksAt(z, t).Some? ==>
                  WorksAt(z, t) != WorksAt(z, u))
            && (forall id :: id in z.states ==> z.states[id].attempts <= MaxChecksumAttempts)
            && (forall id :: id in z.states ==>
                  (z.states[id].status == InProgress <==> exists t :: t in z.threads && WorksAt(z, t) == Some(id)))
  {
    FreshInv(c, y);
    RunInv(c, y, steps);
    var z := Run(c, y, steps);
    forall id | id in z.states && z.states[id].status == InProgress
      ensures exists t :: t in z.threads && WorksAt(z, t) == Some(id)
    {
      assert WorksAt(z, z.owner[id]) == Some(id);
    }
  }
}
