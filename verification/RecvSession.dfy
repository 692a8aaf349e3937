/** The receive session as the program runs it: one object shared by the upload requests.
    Each method below the constructor is one atomic action, proved against the step of
    UploadSession it is, and SaveFile composes them in the order a single request does. */
module RecvSession {
  import opened Wrappers
  import opened Limits
  import Paths
  import T = SessionTable
  import U = UploadSession

  datatype FileMeta = FileMeta(id: string, filename: string, size: int, checksum: string)

  datatype AcceptError = UnknownError | BlockedByOthers | TooManyFiles

  /** What the file system and the connection answer during one request: whether the
      directories could be made, the path the unique create would take, the body, and
      whether reading and flushing succeeded. */
  datatype Env = Env(dirsOk: bool, created: Option<string>, body: Bytes, readOk: bool, flushOk: bool)

  /** The step model's view of the accepted files. */
  function MetasOf(metas: map<string, FileMeta>, tokens: map<string, string>): map<string, U.Meta> {
    map id | id in metas && id in tokens :: U.Meta(tokens[id], metas[id].size, metas[id].checksum)
  }

  predicate DistinctIDs(files: seq<FileMeta>) { forall i, j :: 0 <= i < j < |files| ==> files[i].id != files[j].id }

  class RecvSession {
    const id: string
    const clientIP: string
    const matches: (Bytes, string) -> bool

    var started: bool
    var filesCount: int
    var lastActivity: int
    var fileMetas: map<string, FileMeta>
    var fileTokens: map<string, string>
    var fileStates: map<string, U.FileState>
    var disk: map<string, Bytes>

    // Where the requests stand, and the history the step model keeps.
    ghost var threads: map<nat, U.Thread>
    ghost var counting: map<string, nat>
    ghost var last: Option<nat>
    ghost var ends: nat
    ghost var killed: bool
    ghost var owner: map<string, nat>
    ghost var holders: map<string, U.Holder>
    ghost var saved: map<string, U.Kept>
    ghost var foreign: map<string, Bytes>

    ghost function Spec(): U.Config
      reads this`fileMetas, this`fileTokens
    {
      U.Config(MetasOf(fileMetas, fileTokens), clientIP, matches)
    }

    ghost function Tally(): U.Tally
      reads this`started, this`filesCount, this`counting, this`last, this`ends, this`killed
    {
      U.Tally(started, filesCount, counting, last, ends, killed)
    }

    ghost function Abs(): U.Session
      reads this
    {
      U.Session(fileStates, threads, disk, Tally(), owner, holders, saved, foreign)
    }

    /** What the session table and its admission rules see of this session. */
    function Entry(): T.Entry
      reads this`started, this`filesCount, this`lastActivity
    {
      T.Entry(started, filesCount, lastActivity, clientIP)
    }

    /** The three tables are keyed alike. */
    ghost predicate Valid()
      reads this`fileMetas, this`fileTokens, this`fileStates
    {
      fileMetas.Keys == fileTokens.Keys == fileStates.Keys
    }

    constructor (id: string, clientIP: string, matches: (Bytes, string) -> bool, disk: map<string, Bytes>, now: int)
      ensures Valid() && fileStates == map[] && Entry() == T.Entry(false, 0, now, clientIP)
      ensures this.id == id && this.clientIP == clientIP && this.matches == matches && this.disk == disk
      ensures lastActivity == now
      ensures threads == map[] && counting == map[] && last == None && ends == 0 && !killed
      ensures owner == map[] && holders == map[] && saved == map[] && foreign == disk
    {
      this.id, this.clientIP, this.matches, this.disk, lastActivity := id, clientIP, matches, disk, now;
      started, filesCount := false, 0;
      fileMetas, fileTokens, fileStates := map[], map[], map[];
      threads, counting, last, ends, killed := map[], map[], None, 0, false;
      owner, holders, saved, foreign := map[], map[], map[], disk;
    }

    // ---------- Before the session starts ----------

    /** The entries of a file that is accepted. */
    method AddEntries(fileId: string, meta: FileMeta, token: string)
      requires Valid()
      modifies this`fileMetas, this`fileTokens, this`fileStates
      ensures Valid()
      ensures fileMetas == old(fileMetas)[fileId := meta] && fileTokens == old(fileTokens)[fileId := token]
      ensures fileStates == old(fileStates)[fileId := U.FileState(U.Pending, 0, None)]
    {
      fileMetas := fileMetas[fileId := meta];
      fileTokens := fileTokens[fileId := token];
      fileStates := fileStates[fileId := U.FileState(U.Pending, 0, None)];
    }

    lemma OneEntryMore(before: map<string, U.FileState>, fileId: string, st: U.FileState)
      ensures |before[fileId := st]| == |before| + if fileId in before then 0 else 1
    {
      assert before[fileId := st].Keys == before.Keys + {fileId};
      assert |before[fileId := st]| == |before[fileId := st].Keys| && |before| == |before.Keys|;
      if fileId in before {
        assert before.Keys + {fileId} == before.Keys;
      }
    }

    /** The counter grows with every call, the table only with new IDs. */
    method AcceptFile(fileId: string, meta: FileMeta, token: string) returns (error: Option<AcceptError>)
      requires Valid()
      modifies this`fileMetas, this`fileTokens, this`fileStates, this`filesCount
      ensures Valid()
      ensures error == if fileId != meta.id then Some(UnknownError) else if started then Some(BlockedByOthers)
                       else if |old(fileMetas)| >= MaxFilesPerSession then Some(TooManyFiles) else None
      ensures error.Some? ==> unchanged(this)
      ensures error.None? ==>
                && fileMetas == old(fileMetas)[fileId := meta] && fileTokens == old(fileTokens)[fileId := token]
                && fileStates == old(fileStates)[fileId := U.FileState(U.Pending, 0, None)]
                && Entry() == old(Entry()).(filesCount := old(filesCount) + 1)
                && (filesCount - |fileStates| == old(filesCount - |fileStates|) <==> fileId !in old(fileStates))
    {
      if fileId != meta.id {
        return Some(UnknownError);
      }
      if started {
        return Some(BlockedByOthers);
      }
      if |fileMetas| >= MaxFilesPerSession {
        return Some(TooManyFiles);
      }
      OneEntryMore(fileStates, fileId, U.FileState(U.Pending, 0, None));
      AddEntries(fileId, meta, token);
      filesCount := filesCount + 1;
      return None;
    }

    method Start()
      modifies this`started
      ensures started && Entry() == old(Entry()).(started := true)
    {
      started := true;
    }

    /** No request has begun, and nothing is known of the disk but what is there. */
    ghost predicate Unused()
      reads this`threads, this`counting, this`last, this`ends, this`killed
      reads this`owner, this`holders, this`saved, this`foreign, this`disk
    {
      && threads == map[] && counting == map[] && last == None && ends == 0 && !killed
      && owner == map[] && holders == map[] && saved == map[] && foreign == disk
    }

    /** Nothing has been accepted, claimed or created. */
    ghost predicate Empty()
      reads this
    {
      fileStates == map[] && filesCount == 0 && !started && Unused()
    }

    /** The tables hold exactly the first `n` files, untouched. */
    ghost predicate Accepted(files: seq<FileMeta>, n: nat)
      requires n <= |files|
      reads this`fileMetas, this`fileTokens, this`fileStates, this`filesCount
    {
      && Valid() && filesCount == n == |fileStates.Keys|
      && (forall id :: id in fileStates <==> exists k :: 0 <= k < n && files[k].id == id)
      && (forall id :: id in fileStates ==> fileStates[id] == U.FileState(U.Pending, 0, None))
    }

    /** The loop of newSessionLocked over the offered files. */
    method AcceptEach(files: seq<FileMeta>, tokens: nat -> string) returns (error: Option<AcceptError>)
      requires Accepted(files, 0) && !started
      requires DistinctIDs(files)
      modifies this`fileMetas, this`fileTokens, this`fileStates, this`filesCount
      ensures Valid() && (error.Some? <==> |files| > MaxFilesPerSession)
      ensures error.None? ==> Accepted(files, |files|)
    {
      assert Valid();
      hide Accepted, DistinctIDs;
      for i := 0 to |files|
        invariant Accepted(files, i) && Valid() && i <= MaxFilesPerSession
      {
        error := AcceptOne(files, i, tokens(i));
        if error.Some? {
          return;
        }
      }
      error := None;
    }

    /** A session with the offered files is started only when all of them are accepted. */
    method AcceptAll(files: seq<FileMeta>, tokens: nat -> string) returns (error: Option<AcceptError>)
      requires Valid() && Empty()
      requires DistinctIDs(files)
      modifies this`fileMetas, this`fileTokens, this`fileStates, this`filesCount, this`started
      ensures Valid()
      ensures error.Some? <==> |files| > MaxFilesPerSession
      ensures error.None? && files != [] ==> U.Fresh(Spec(), Abs())
    {
      hide Empty, Accepted, U.Fresh, Unused, Spec, Abs, DistinctIDs, Entry;
      EmptyMeans(files);
      error := AcceptEach(files, tokens);
      if error.None? {
        Start();
        if files != [] {
          StartedFresh(files);
        }
      }
    }

    lemma EmptyMeans(files: seq<FileMeta>)
      requires Valid() && Empty()
      ensures Accepted(files, 0) && !started && Unused()
    {
      assert fileStates.Keys == {};
    }

    lemma StartedFresh(files: seq<FileMeta>)
      requires files != [] && Accepted(files, |files|) && started && Unused()
      ensures U.Fresh(Spec(), Abs())
    {
      assert files[0].id in fileStates;
      assert Spec().metas.Keys == fileStates.Keys;
    }

    method AcceptOne(files: seq<FileMeta>, i: nat, token: string) returns (error: Option<AcceptError>)
      requires i < |files| && Accepted(files, i) && !started && i <= MaxFilesPerSession
      requires DistinctIDs(files)
      modifies this`fileMetas, this`fileTokens, this`fileStates, this`filesCount
      ensures Valid() && (error.Some? <==> i == MaxFilesPerSession) && (error.None? ==> Accepted(files, i + 1))
    {
      assert files[i].id !in fileStates && |fileMetas| == |fileMetas.Keys|;
      ghost var before := fileStates.Keys;
      error := AcceptFile(files[i].id, files[i], token);
      assert error.None? ==> fileStates.Keys == before + {files[i].id};
    }

    // ---------- The atomic actions of a request ----------

    ghost method MoveThread(t: nat, th: U.Thread)
      modifies this`threads
      ensures threads == old(threads)[t := th] && Abs() == U.At(old(Abs()), t, th)
    {
      threads := threads[t := th];
    }

    method Write(path: string, data: Bytes)
      modifies this`disk
      ensures disk == old(disk)[path := data] && Abs() == old(Abs()).(disk := disk)
    {
      disk := disk[path := data];
    }

    method SetState(fileId: string, st: U.FileState)
      requires Valid() && fileId in fileStates
      modifies this`fileStates
      ensures Valid() && fileStates == old(fileStates)[fileId := st] && Abs() == old(Abs()).(states := fileStates)
    {
      fileStates := fileStates[fileId := st];
    }

    /** What a request that is not admitted is answered with. */
    function Refusal(fileId: string, token: string): U.Response {
      if fileId == "" || token == "" then U.InvalidBody else U.Rejected
    }

    /** The checks before the lock. */
    method CheckRequest(ghost t: nat, fileId: string, token: string, ip: string) returns (refused: Option<U.Response>)
      requires id != "" && t !in threads
      modifies this`threads
      ensures Abs() == U.Next(Spec(), old(Abs()), U.Arrive(t, fileId, token, ip))
      ensures threads[t] == if refused.Some? then U.Returned(refused.value) else U.Checked(fileId, token)
      ensures refused.Some? ==> refused.value == Refusal(fileId, token)
      ensures refused.None? <==> fileId != "" && token != "" && started && (clientIP == "" || ip == clientIP)
    {
      if fileId == "" || token == "" {
        refused := Some(U.InvalidBody);
      } else if !started {
        refused := Some(U.Rejected);
      } else if clientIP != "" && ip != clientIP {
        refused := Some(U.Rejected);
      } else {
        refused := None;
      }
      threads := threads[t := if refused.Some? then U.Returned(refused.value) else U.Checked(fileId, token)];
    }

    predicate Claimable(fileId: string, token: string)
      reads this`fileMetas, this`fileTokens, this`fileStates
    {
      && fileId in fileMetas && fileId in fileTokens && fileId in fileStates
      && fileStates[fileId].status == U.Pending && fileTokens[fileId] == token
    }

    /** The first lock region: validate and claim. */
    method ClaimFile(ghost t: nat, fileId: string, token: string) returns (claimed: bool, target: Option<string>)
      requires Valid() && t in threads && threads[t] == U.Checked(fileId, token)
      modifies this`threads, this`fileStates, this`owner
      ensures Valid() && Abs() == U.Next(Spec(), old(Abs()), U.Claim(t))
      ensures threads[t] == if claimed then U.Claimed(fileId, target) else U.Returned(U.Rejected)
      ensures claimed <==> old(Claimable(fileId, token))
      ensures claimed ==> fileId in fileMetas && target == old(fileStates[fileId].targetPath)
    {
      claimed := Claimable(fileId, token);
      target := None;
      if !claimed {
        MoveThread(t, U.Returned(U.Rejected));
        return;
      }
      var state := fileStates[fileId];
      target := state.targetPath;
      assert U.Claimable(Spec(), Abs(), fileId, token);
      SetState(fileId, state.(status := U.InProgress, attempts := state.attempts + 1));
      owner := owner[fileId := t];
      MoveThread(t, U.Claimed(fileId, target));
    }

    /** An error before the file is open. */
    ghost method GiveUp(t: nat, response: U.Response)
      requires t in threads && threads[t].Claimed? && response in {U.InvalidBody, U.FileIO}
      modifies this`threads
      ensures Abs() == U.Next(Spec(), old(Abs()), U.GiveUp(t, response))
      ensures threads[t] == U.Settled(old(threads[t].id), None, U.Failed, response)
    {
      threads := threads[t := U.Settled(threads[t].id, None, U.Failed, response)];
    }

    /** An exclusive create that succeeds. */
    method CreateFile(ghost t: nat, path: string)
      requires t in threads && threads[t].Claimed? && path !in disk && U.Targets(threads[t], path)
      modifies this`threads, this`disk, this`holders
      ensures Abs() == U.Next(Spec(), old(Abs()), U.Create(t, path)) && path in disk && t in threads
      ensures var th := old(threads[t]);
              threads[t] == if th.target.Some? then U.Receiving(th.id, path, []) else U.Opened(th.id, path)
    {
      Write(path, []);
      holders := holders[path := U.ByThread(t)];
      MoveThread(t,
                 if threads[t].target.Some? then U.Receiving(threads[t].id, path, []) else U.Opened(threads[t].id,
                                                             path));
    }

    /** The lock region that makes the path stable across retries. */
    method StoreTarget(ghost t: nat, fileId: string, path: string)
      requires Valid() && t in threads && threads[t] == U.Opened(fileId, path)
      modifies this`threads, this`fileStates
      ensures Valid() && Abs() == U.Next(Spec(), old(Abs()), U.StoreTarget(t))
      ensures t in threads && threads[t] == U.Receiving(fileId, path, [])
    {
      if fileId in fileStates {
        SetState(fileId, fileStates[fileId].(targetPath := Some(path)));
      }
      MoveThread(t, U.Receiving(fileId, path, []));
    }

    /** The copy of the body, at most one byte longer than declared. */
    method ReceiveBody(ghost t: nat, fileId: string, path: string, body: Bytes)
      requires Valid() && fileId in fileMetas && t in threads && threads[t] == U.Receiving(fileId, path, [])
      requires path in disk && |body| <= fileMetas[fileId].size + 1
      modifies this`threads, this`disk
      ensures Abs() == U.Next(Spec(), old(Abs()), U.Append(t, body, 0))
      ensures threads[t] == U.Receiving(fileId, path, body)
    {
      assert [] + body == body;
      Write(path, body[..0]);
      MoveThread(t, U.Receiving(fileId, path, body));
    }

    /** When a received body is answered with what: a checksum error, which alone may be retried,
        exactly for a body that was read and stored in full but does not match. */
    predicate Judges(fileId: string, body: Bytes, readOk: bool, flushOk: bool, response: U.Response)
      requires fileId in fileMetas
      reads this`fileMetas
    {
      var meta := fileMetas[fileId];
      var sized, unlike := |body| == meta.size, meta.checksum != "" && !matches(body, meta.checksum);
      && (response == U.Saved <==> readOk && flushOk && sized && !unlike)
      && (response == U.ChecksumMismatch <==> readOk && flushOk && sized && unlike)
      && (response == U.InvalidBody <==> readOk && !sized)
      && (response == U.FileIO <==> !readOk || (sized && !flushOk))
    }

    /** Size, flush, checksum. */
    method JudgeBody(ghost t: nat, fileId: string, path: string, body: Bytes, readOk: bool, flushOk: bool)
      returns (result: U.Status, response: U.Response)
      requires Valid() && fileId in fileMetas && t in threads && threads[t] == U.Receiving(fileId, path, body)
      modifies this`threads, this`disk
      ensures Abs() == U.Next(Spec(), old(Abs()), U.Judge(t, readOk, flushOk))
      ensures threads[t] == U.Judged(fileId, path, body, result, response)
      ensures Judges(fileId, body, readOk, flushOk, response)
      ensures result == if response == U.Saved then U.Finished
                        else if response == U.ChecksumMismatch then U.Pending else U.Failed
    {
      var meta := fileMetas[fileId];
      result := U.Failed;
      if !readOk {
        response := U.FileIO;
      } else if |body| != meta.size {
        response := U.InvalidBody;
      } else if !flushOk {
        response := U.FileIO;
      } else {
        Write(path, body);
        if meta.checksum != "" && !matches(body, meta.checksum) {
          result, response := U.Pending, U.ChecksumMismatch;
        } else {
          result, response := U.Finished, U.Saved;
        }
      }
      MoveThread(t, U.Judged(fileId, path, body, result, response));
    }

    /** The deferred close and removal. */
    method CleanUp(ghost t: nat, path: string, success: bool)
      requires t in threads && threads[t].Judged? && threads[t].path == path
      requires (success <==> threads[t].result == U.Finished)
      modifies this`threads, this`disk, this`holders
      ensures Abs() == U.Next(Spec(), old(Abs()), U.CleanUp(t)) && t in threads && threads[t].Settled?
      ensures var th := old(threads[t]);
              threads[t].id == th.id && threads[t].result == th.result && threads[t].response == th.response
    {
      ghost var th := threads[t];
      if !success {
        disk := disk - {path};
        holders := holders - {path};
        MoveThread(t, U.Settled(th.id, None, th.result, th.response));
      } else {
        MoveThread(t, U.Settled(th.id, Some(U.Kept(path, th.body)), U.Finished, th.response));
      }
    }

    /** finishFileAttempt's lock region. */
    method FinishAttempt(ghost t: nat, fileId: string, result: U.Status) returns (terminal: bool)
      requires Valid() && t in threads && threads[t].Settled? && threads[t].id == fileId && threads[t].result == result
      modifies this`threads, this`fileStates, this`owner, this`counting, this`holders, this`saved
      ensures Valid() && Abs() == U.Next(Spec(), old(Abs()), U.Finish(t))
      ensures var response := old(threads[t].response);
              t in threads && threads[t] == if terminal then U.Decrementing(fileId, response) else U.Returned(response)
    {
      terminal := false;
      if fileId in fileStates {
        var state := fileStates[fileId];
        if state.status == U.InProgress {
          if result == U.Pending && state.attempts < U.MaxChecksumAttempts {
            state := state.(status := U.Pending);
          } else if result == U.Finished {
            state := state.(status := U.Finished);
            terminal := true;
          } else {
            state := state.(status := U.Failed);
            terminal := true;
          }
        }
        SetState(fileId, state);
        RecordFinish(t, terminal);
      }
      ghost var th := threads[t];
      MoveThread(t, if terminal then U.Decrementing(th.id, th.response) else U.Returned(th.response));
    }

    /** The file is given back, and a terminal one waits for its countdown. */
    ghost method GiveBack(id: string, t: nat, terminal: bool)
      modifies this`owner, this`counting
      ensures Abs() == old(Abs()).(owner := old(owner) - {id},
                                   tally := old(Tally()).(counting := if terminal then old(counting)[id := t]
                                                        else old(counting)))
    {
      owner := owner - {id};
      if terminal {
        counting := counting[id := t];
      }
    }

    /** What a finished file keeps. */
    ghost method Keep(id: string, kept: U.Kept)
      modifies this`holders, this`saved
      ensures Abs() == old(Abs()).(holders := old(holders)[kept.path := U.ByFile(id)], saved := old(saved)[id := kept])
    {
      holders := holders[kept.path := U.ByFile(id)];
      saved := saved[id := kept];
    }

    ghost method RecordFinish(t: nat, terminal: bool)
      requires t in threads && threads[t].Settled?
      modifies this`owner, this`counting, this`holders, this`saved
      ensures var th := threads[t];
              Abs() == old(Abs()).(
                         owner := old(owner) - {th.id},
                         tally := old(Tally()).(counting := if terminal then old(counting)[th.id := t]
                                                         else old(counting)),
                         holders := if th.kept.Some? then old(holders)[th.kept.value.path := U.ByFile(th.id)]
                                    else old(holders),
                         saved := if th.kept.Some? then old(saved)[th.id := th.kept.value] else old(saved))
    {
      var th := threads[t];
      GiveBack(th.id, t, terminal);
      if th.kept.Some? {
        Keep(th.id, th.kept.value);
      }
    }

    ghost method CountedDown(id: string, t: nat)
      modifies this`counting, this`last
      ensures Abs() == old(Abs()).(tally := old(Tally()).(counting := old(counting) - {id},
                                                           last := if filesCount == 0 then Some(t) else old(last)))
    {
      counting := counting - {id};
      if filesCount == 0 {
        last := Some(t);
      }
    }

    /** The atomic countdown. */
    method CountDown(ghost t: nat) returns (left: int)
      requires t in threads && threads[t].Decrementing?
      modifies this`threads, this`filesCount, this`counting, this`last
      ensures Abs() == U.Next(Spec(), old(Abs()), U.Decrement(t))
      ensures var response := old(threads[t].response);
              threads[t] == if left == 0 then U.Ending(response) else U.Returned(response)
    {
      ghost var th := threads[t];
      filesCount := filesCount - 1;
      left := filesCount;
      CountedDown(th.id, t);
      MoveThread(t, if left == 0 then U.Ending(th.response) else U.Returned(th.response));
    }

    /** The compare-and-swap of End. */
    method CompareAndSwap(ghost t: nat) returns (ended: bool)
      requires t in threads && threads[t].Ending?
      modifies this`threads, this`started, this`ends
      ensures Abs() == U.Next(Spec(), old(Abs()), U.EndCas(t))
      ensures var response := old(threads[t].response);
              threads[t] == if ended then U.Zeroing(response) else U.Returned(response)
      ensures ended == old(started) && !started
    {
      ghost var response := threads[t].response;
      ended := started;
      if ended {
        started := false;
        ends := ends + 1;
      }
      MoveThread(t, if ended then U.Zeroing(response) else U.Returned(response));
    }

    method StoreZero(ghost t: nat)
      requires t in threads && threads[t].Zeroing?
      modifies this`threads, this`filesCount
      ensures Abs() == U.Next(Spec(), old(Abs()), U.Zero(t))
      ensures threads[t] == U.Returned(old(threads[t].response)) && filesCount == 0
    {
      filesCount := 0;
      threads := threads[t := U.Returned(threads[t].response)];
    }

    // ---------- One request from beginning to end ----------

    predicate Admissible(fileId: string, token: string, ip: string)
      reads this`fileMetas, this`fileTokens, this`fileStates, this`started
    {
      fileId != "" && token != "" && started && (clientIP == "" || ip == clientIP) && Claimable(fileId, token)
    }

    /** The path an attempt would create. */
    function Chosen(target: Option<string>, env: Env): Option<string> { if target.Some? then target else env.created }

    /** The directories can be made, and the exclusive create succeeds. */
    predicate Creatable(target: Option<string>, env: Env)
      reads this`disk
    {
      env.dirsOk && Chosen(target, env).Some? && Chosen(target, env).value !in disk
    }

    predicate Named(fileId: string)
      requires fileId in fileMetas
      reads this`fileMetas
    {
      Paths.SanitizePathWithFallback(fileMetas[fileId].filename).Success?
    }

    /** When a claimed attempt is answered with what. */
    predicate Answers(fileId: string, target: Option<string>, env: Env, response: U.Response)
      requires fileId in fileMetas
      reads this`fileMetas, this`disk
    {
      if !Named(fileId) then response == U.InvalidBody
      else if !Creatable(target, env) then response == U.FileIO
      else Judges(fileId, env.body, env.readOk, env.flushOk, response)
    }

    /** The checks and the claim. */
    method Admit(ghost t: nat, fileId: string, token: string, ip: string)
      returns (refused: Option<U.Response>, target: Option<string>, ghost steps: seq<U.Step>)
      requires id != "" && Valid() && t !in threads
      modifies this`threads, this`fileStates, this`owner
      ensures Valid() && Did(Spec(), old(Abs()), steps, Abs()) && t in threads
      ensures threads[t] == if refused.Some? then U.Returned(refused.value) else U.Claimed(fileId, target)
      ensures refused.None? <==> old(Admissible(fileId, token, ip))
      ensures refused.Some? ==> refused.value == Refusal(fileId, token)
      ensures refused.None? ==> fileId in fileMetas && target == old(fileStates[fileId].targetPath)
    {
      hide U.Next, Did;
      ghost var c, y := Spec(), Abs();
      refused := CheckRequest(t, fileId, token, ip);
      target := None;
      steps := [U.Arrive(t, fileId, token, ip)];
      DidOne(c, y, steps[0]);
      if refused.Some? {
        return;
      }
      ghost var z := Abs();
      var claimed;
      claimed, target := ClaimFile(t, fileId, token);
      DidThen(c, y, steps, z, U.Claim(t));
      steps := steps + [U.Claim(t)];
      if !claimed {
        refused := Some(U.Rejected);
      }
    }

    method TakePath(ghost t: nat, fileId: string, target: Option<string>, path: string)
      returns (ghost steps: seq<U.Step>)
      requires t in threads && threads[t] == U.Claimed(fileId, target) && path !in disk
      requires target.Some? ==> path == target.value
      modifies this`threads, this`disk, this`holders
      ensures Did(Spec(), old(Abs()), steps, Abs()) && path in disk
      ensures t in threads
      ensures threads[t] == if target.Some? then U.Receiving(fileId, path, []) else U.Opened(fileId, path)
    {
      hide U.Next, Did;
      ghost var c, y := Spec(), Abs();
      CreateFile(t, path);
      steps := [U.Create(t, path)];
      DidOne(c, y, steps[0]);
    }

    method KeepPath(ghost t: nat, fileId: string, path: string) returns (ghost steps: seq<U.Step>)
      requires Valid() && t in threads && threads[t] == U.Opened(fileId, path)
      modifies this`threads, this`fileStates
      ensures Valid() && Did(Spec(), old(Abs()), steps, Abs())
      ensures t in threads && threads[t] == U.Receiving(fileId, path, [])
    {
      hide U.Next, Did;
      ghost var c, y := Spec(), Abs();
      StoreTarget(t, fileId, path);
      steps := [U.StoreTarget(t)];
      DidOne(c, y, steps[0]);
    }

    /** Opens the target: the path of the first attempt, or a fresh one that is stored. */
    method OpenTarget(ghost t: nat, fileId: string, target: Option<string>, env: Env)
      returns (path: Option<string>, ghost steps: seq<U.Step>)
      requires Valid() && t in threads && threads[t] == U.Claimed(fileId, target) && fileId in fileMetas
      modifies this`threads, this`disk, this`holders, this`fileStates
      ensures Valid() && Did(Spec(), old(Abs()), steps, Abs()) && t in threads
      ensures path.Some? ==> threads[t] == U.Receiving(fileId, path.value, []) && path.value in disk
      ensures path.None? ==> threads == old(threads)
      ensures path.Some? <==> Chosen(target, env).Some? && Chosen(target, env).value !in old(disk)
    {
      hide U.Next, Did, Spec, Abs;
      ghost var c, y := Spec(), Abs();
      steps := [];
      DidNothing(c, y);
      path := if target.Some? then target else env.created;
      if path.None? || path.value in disk {
        path := None;
        return;
      }
      steps := TakePath(t, fileId, target, path.value);
      if target.None? {
        ghost var z := Abs();
        ghost var rest := KeepPath(t, fileId, path.value);
        DidBoth(c, y, steps, z, rest, Abs());
        steps := steps + rest;
      }
    }

    ghost method Refuse(t: nat, fileId: string, response: U.Response) returns (steps: seq<U.Step>)
      requires t in threads && threads[t].Claimed? && threads[t].id == fileId && response in {U.InvalidBody, U.FileIO}
      modifies this`threads
      ensures Did(Spec(), old(Abs()), steps, Abs()) && t in threads
      ensures threads[t] == U.Settled(fileId, None, U.Failed, response)
    {
      hide U.Next, Did;
      var c, y := Spec(), Abs();
      GiveUp(t, response);
      steps := [U.GiveUp(t, response)];
      DidOne(c, y, steps[0]);
    }

    /** The copy of the body, up to one byte more than declared. */
    method CopyBody(ghost t: nat, fileId: string, path: string, env: Env)
      returns (body: Bytes, ghost steps: seq<U.Step>)
      requires Valid() && fileId in fileMetas && t in threads && threads[t] == U.Receiving(fileId, path, [])
      requires path in disk
      modifies this`threads, this`disk
      ensures Did(Spec(), old(Abs()), steps, Abs()) && t in threads && threads[t] == U.Receiving(fileId, path, body)
      ensures body == env.body || (|body| != fileMetas[fileId].size && |env.body| != fileMetas[fileId].size)
    {
      hide U.Next, Did;
      var limit := fileMetas[fileId].size + 1;
      body := if limit <= 0 then [] else if |env.body| <= limit then env.body else env.body[..limit];
      steps := [];
      DidNothing(Spec(), Abs());
      if body != [] {
        ghost var y := Abs();
        ReceiveBody(t, fileId, path, body);
        steps := [U.Append(t, body, 0)];
        DidOne(Spec(), y, steps[0]);
      }
    }

    /** The verdict and the deferred close. */
    method JudgeAndClose(ghost t: nat, fileId: string, path: string, body: Bytes, env: Env)
      returns (result: U.Status, response: U.Response, ghost steps: seq<U.Step>)
      requires Valid() && fileId in fileMetas && t in threads && threads[t] == U.Receiving(fileId, path, body)
      modifies this`threads, this`disk, this`holders
      ensures Did(Spec(), old(Abs()), steps, Abs()) && t in threads
      ensures threads[t].Settled? && threads[t].id == fileId && threads[t].result == result
      ensures threads[t].response == response && Judges(fileId, body, env.readOk, env.flushOk, response)
    {
      hide U.Next, Did;
      ghost var c, y := Spec(), Abs();
      result, response := JudgeBody(t, fileId, path, body, env.readOk, env.flushOk);
      steps := [U.Judge(t, env.readOk, env.flushOk)];
      DidOne(c, y, steps[0]);
      ghost var z := Abs();
      ghost var rest := Close(t, path, result == U.Finished);
      DidBoth(c, y, steps, z, rest, Abs());
      steps := steps + rest;
    }

    method Close(ghost t: nat, path: string, success: bool) returns (ghost steps: seq<U.Step>)
      requires t in threads && threads[t].Judged? && threads[t].path == path
      requires (success <==> threads[t].result == U.Finished)
      modifies this`threads, this`disk, this`holders
      ensures Did(Spec(), old(Abs()), steps, Abs()) && t in threads && threads[t].Settled?
      ensures var th := old(threads[t]);
              threads[t].id == th.id && threads[t].result == th.result && threads[t].response == th.response
    {
      hide U.Next, Did;
      ghost var c, y := Spec(), Abs();
      CleanUp(t, path, success);
      steps := [U.CleanUp(t)];
      DidOne(c, y, steps[0]);
    }

    /** The copy, the verdict and the deferred close. */
    method SaveBody(ghost t: nat, fileId: string, path: string, env: Env)
      returns (result: U.Status, response: U.Response, ghost steps: seq<U.Step>)
      requires Valid() && fileId in fileMetas && t in threads && threads[t] == U.Receiving(fileId, path, [])
      requires path in disk
      modifies this`threads, this`disk, this`holders
      ensures Did(Spec(), old(Abs()), steps, Abs()) && t in threads
      ensures threads[t].Settled? && threads[t].id == fileId && threads[t].result == result
      ensures threads[t].response == response && Judges(fileId, env.body, env.readOk, env.flushOk, response)
    {
      hide U.Next, Did, Spec, Abs;
      ghost var c, y := Spec(), Abs();
      var body, first := CopyBody(t, fileId, path, env);
      ghost var z := Abs();
      ghost var rest;
      result, response, rest := JudgeAndClose(t, fileId, path, body, env);
      DidBoth(c, y, first, z, rest, Abs());
      steps := first + rest;
    }

    /** End, after a countdown to zero. */
    method End(ghost t: nat) returns (ended: bool, ghost steps: seq<U.Step>)
      requires t in threads && threads[t].Ending?
      modifies this`threads, this`started, this`ends, this`filesCount
      ensures Did(Spec(), old(Abs()), steps, Abs()) && t in threads
      ensures threads[t] == U.Returned(old(threads[t].response)) && ended == old(started)
      ensures Entry() == T.Ended(old(Entry()))
    {
      hide U.Next, Did;
      ghost var c, y := Spec(), Abs();
      ended := CompareAndSwap(t);
      steps := [U.EndCas(t)];
      DidOne(c, y, steps[0]);
      if !ended {
        return;
      }
      ghost var z := Abs();
      StoreZero(t);
      DidThen(c, y, steps, z, U.Zero(t));
      steps := steps + [U.Zero(t)];
    }

    /** The countdown, which ends the session at zero. */
    method CountDownAndEnd(ghost t: nat) returns (ghost steps: seq<U.Step>)
      requires t in threads && threads[t].Decrementing?
      modifies this`threads, this`filesCount, this`counting, this`last, this`started, this`ends
      ensures Did(Spec(), old(Abs()), steps, Abs()) && t in threads
      ensures threads[t] == U.Returned(old(threads[t].response))
    {
      hide U.Next, Did;
      ghost var c, y := Spec(), Abs();
      var left := CountDown(t);
      steps := [U.Decrement(t)];
      DidOne(c, y, steps[0]);
      if left != 0 {
        return;
      }
      ghost var z := Abs();
      var ended, rest := End(t);
      DidBoth(c, y, steps, z, rest, Abs());
      steps := steps + rest;
    }

    /** finishFileAttempt with the countdown and the end of the session. */
    method FinishFileAttempt(ghost t: nat, fileId: string, result: U.Status) returns (ghost steps: seq<U.Step>)
      requires Valid() && t in threads && threads[t].Settled? && threads[t].id == fileId && threads[t].result == result
      modifies this`threads, this`fileStates, this`owner, this`counting, this`holders, this`saved
      modifies this`filesCount, this`last, this`started, this`ends
      ensures Valid() && Did(Spec(), old(Abs()), steps, Abs()) && t in threads
      ensures threads[t] == U.Returned(old(threads[t].response))
    {
      hide U.Next, Did;
      ghost var c, y := Spec(), Abs();
      var terminal := FinishAttempt(t, fileId, result);
      steps := [U.Finish(t)];
      DidOne(c, y, steps[0]);
      if !terminal {
        return;
      }
      ghost var z := Abs();
      ghost var rest := CountDownAndEnd(t);
      DidBoth(c, y, steps, z, rest, Abs());
      steps := steps + rest;
    }

    /** SaveFile, run by itself, is a run of the step model.  A request that is not admissible is
        refused; an admissible one is answered by what becomes of its file, and with success
        exactly if the name is usable, the file can be created, and its body is read and stored
        with the declared size and checksum. */
    method SaveFile(ghost t: nat, fileId: string, token: string, ip: string, env: Env)
      returns (response: U.Response, ghost steps: seq<U.Step>)
      requires id != "" && Valid() && t !in threads
      modifies this
      ensures Valid() && U.IsRun(Spec(), old(Abs()), steps) && Abs() == U.Run(Spec(), old(Abs()), steps)
      ensures t in threads && threads[t] == U.Returned(response)
      ensures if old(Admissible(fileId, token, ip))
              then old(Answers(fileId, fileStates[fileId].targetPath, env, response))
              else response == Refusal(fileId, token)
    {
      hide U.Next, U.IsRun, U.Run, Answers, Admissible, Spec, Abs;
      ghost var c, y := Spec(), Abs();
      var refused, target, first := Admit(t, fileId, token, ip);
      steps := first;
      if refused.Some? {
        return refused.value, steps;
      }
      ghost var z := Abs();
      var result;
      ghost var rest;
      result, response, rest := Attempt(t, fileId, target, env);
      DidBoth(c, y, steps, z, rest, Abs());
      steps := steps + rest;
      z := Abs();
      rest := FinishFileAttempt(t, fileId, result);
      DidBoth(c, y, steps, z, rest, Abs());
      steps := steps + rest;
    }

    /** The claimed part of SaveFile. */
    method Attempt(ghost t: nat, fileId: string, target: Option<string>, env: Env)
      returns (result: U.Status, response: U.Response, ghost steps: seq<U.Step>)
      requires Valid() && t in threads && threads[t] == U.Claimed(fileId, target) && fileId in fileMetas
      modifies this`threads, this`disk, this`holders, this`fileStates
      ensures Valid() && Did(Spec(), old(Abs()), steps, Abs()) && t in threads
      ensures threads[t].Settled? && threads[t].id == fileId && threads[t].result == result
      ensures threads[t].response == response && old(Answers(fileId, target, env, response))
    {
      hide U.Next, Did, Paths.SanitizePathWithFallback, Spec, Abs, Judges;
      ghost var c, y, z, rest := Spec(), Abs(), Abs(), [];
      steps := [];
      DidNothing(c, y);
      var name := Paths.SanitizePathWithFallback(fileMetas[fileId].filename);
      result, response := U.Failed, if name.Failure? then U.InvalidBody else U.FileIO;
      var path := None;
      if name.Success? && env.dirsOk {
        path, steps := OpenTarget(t, fileId, target, env);
      }
      if path.None? {
        z := Abs();
        rest := Refuse(t, fileId, response);
        DidBoth(c, y, steps, z, rest, Abs());
        steps := steps + rest;
        return;
      }
      z := Abs();
      result, response, rest := SaveBody(t, fileId, path.value, env);
      DidBoth(c, y, steps, z, rest, Abs());
      steps := steps + rest;
    }

    /** Whether the session no longer blocks another one. */
    method Stopped(now: int) returns (stopped: bool)
      ensures stopped <==> T.Stopped(Entry(), now)
    {
      var filesLeft := filesCount;
      if now - lastActivity > SessionTimeout {
        return true;
      }
      return !started || filesLeft == 0;
    }
  }

  // ---------- Runs of the step model ----------

  ghost predicate Did(c: U.Config, y: U.Session, steps: seq<U.Step>, z: U.Session) {
    U.IsRun(c, y, steps) && U.Run(c, y, steps) == z
  }

  lemma DidNothing(c: U.Config, y: U.Session)
    ensures Did(c, y, [], y)
  {
  }

  lemma DidOne(c: U.Config, y: U.Session, step: U.Step)
    requires U.Enabled(c, y, step)
    ensures Did(c, y, [step], U.Next(c, y, step))
  {
    hide U.Next, U.Enabled;
    var z := U.Next(c, y, step);
    assert [step][1..] == [] && U.IsRun(c, z, []) && U.Run(c, z, []) == z;
    assert U.Run(c, y, [step]) == U.Run(c, z, [step][1..]);
  }

  lemma {:induction false} DidBoth(c: U.Config, y: U.Session, a: seq<U.Step>, z: U.Session, b: seq<U.Step>,
                                   w: U.Session)
    requires Did(c, y, a, z) && Did(c, z, b, w)
    ensures Did(c, y, a + b, w)
    decreases |a|
  {
    hide U.Next, U.Enabled;
    if a == [] {
      assert a + b == b;
    } else {
      DidBoth(c, U.Next(c, y, a[0]), a[1..], z, b, w);
      assert (a + b)[1..] == a[1..] + b;
    }
  }

  lemma DidThen(c: U.Config, y: U.Session, steps: seq<U.Step>, z: U.Session, step: U.Step)
    requires Did(c, y, steps, z) && U.Enabled(c, z, step)
    ensures Did(c, y, steps + [step], U.Next(c, z, step))
  {
    DidOne(c, z, step);
    DidBoth(c, y, steps, z, [step], U.Next(c, z, step));
  }
}
