/** The receiver as the program runs it: one mutable object whose writers, buffers, paths
    and hashers are maps over file IDs.  Every method is proved against the function of
    the same name in RtcReceiverSpec. */
module RtcReceiver {
  import opened Wrappers
  import opened RtcMessages
  import opened DataChannel
  import opened FileIndex
  import opened Limits
  import Paths
  import Spec = RtcReceiverSpec

  /** A buffered writer: the bytes it has accepted, and its permanent error. */
  datatype BufferedWriter = BufferedWriter(accepted: Bytes, failed: bool)

  class RTCReceiver {
    const cfg: Spec.Config

    var state: Spec.Phase
    var connected: bool
    var accepting: bool
    var remoteNonce: Bytes
    var localNonce: Bytes
    var finalNonce: Bytes
    var senderPublicKey: Option<string>
    var senderToken: string
    var pinAttempts: nat
    var providedPINAttempts: nat

    var files: seq<FileDto>
    var fileByID: map<string, FileDto>
    var fileTokens: map<string, string>
    var acceptedIDs: seq<string>

    var currentFileID: string                    // empty between files
    var currentBytes: int
    var fileWriters: map<string, string>         // open files, by the path they were created at
    var fileBuffers: map<string, BufferedWriter>
    var filePaths: map<string, string>
    var fileHashers: map<string, Bytes>          // what each running hash has seen
    var controlBuffer: Bytes
    var transferActive: bool

    var outbox: seq<Frame>
    var disk: map<string, Bytes>
    var callbacks: seq<Spec.Callback>
    ghost var current: Option<Spec.Active>       // the file the maps hold
    ghost var base: map<string, Bytes>
    ghost var saved: map<string, Spec.Saved>
    ghost var unexpected: nat

    // ---------- What the object stands for ----------

    /** The maps hold nothing. */
    ghost predicate Empty()
      reads this`currentFileID, this`currentBytes
      reads this`fileWriters, this`fileBuffers, this`filePaths, this`fileHashers
    {
      && currentFileID == "" && currentBytes == 0
      && fileWriters == map[] && fileBuffers == map[] && filePaths == map[] && fileHashers == map[]
    }

    /** The maps hold the file `a` and nothing else. */
    ghost predicate Holds(a: Spec.Active)
      reads this`fileByID, this`currentFileID, this`currentBytes
      reads this`fileWriters, this`fileBuffers, this`filePaths, this`fileHashers
    {
      && a.id != "" && currentFileID == a.id && currentBytes == |a.accepted|
      && fileWriters == map[a.id := a.path] && filePaths == map[a.id := a.path]
      && fileBuffers == map[a.id := BufferedWriter(a.accepted, a.failed)]
      && a.id in fileByID
      && fileHashers == if fileByID[a.id].sha256 == "" then map[] else map[a.id := a.accepted]
    }

    /** The maps hold the current file and nothing else, the index answers what a scan of
        the list would, and a transfer is marked active exactly while a file is open. */
    ghost predicate Consistent()
      reads this`files, this`fileByID, this`transferActive, this`current, this`currentFileID, this`currentBytes
      reads this`fileWriters, this`fileBuffers, this`filePaths, this`fileHashers, this`disk
    {
      && Indexes(DtoID, fileByID, files) && transferActive == current.Some?
      && match current
         case None => Empty()
         case Some(a) => a.path in disk && Holds(a)
    }

    ghost predicate Valid()
      reads this
    {
      Consistent() && (state == Spec.ReceivingFiles <==> current.Some?)
    }

    ghost function Abs(): Spec.Receiver
      reads this
    {
      Spec.Receiver(
        state, connected, accepting, remoteNonce, localNonce, finalNonce, senderPublicKey, senderToken,
        pinAttempts, providedPINAttempts, files, fileTokens, acceptedIDs, current,
        controlBuffer, outbox, disk, callbacks, base, saved, unexpected)
    }

    constructor (cfg: Spec.Config, disk: map<string, Bytes>)
      ensures Valid() && Abs() == Spec.Fresh(disk) && this.cfg == cfg
    {
      this.cfg := cfg;
      this.disk := disk;
      state, connected, accepting := Spec.WaitNonce, false, false;
      remoteNonce, localNonce, finalNonce := [], [], [];
      senderPublicKey, senderToken, pinAttempts, providedPINAttempts := None, "", 0, 0;
      files, fileByID, fileTokens, acceptedIDs := [], map[], map[], [];
      currentFileID, currentBytes, current := "", 0, None;
      fileWriters, fileBuffers, filePaths, fileHashers := map[], map[], map[], map[];
      controlBuffer, transferActive := [], false;
      outbox, callbacks := [], [];
      base, saved, unexpected := disk, map[], 0;
    }

    // ---------- Sending and activity ----------

    method SendJSON(j: Json)
      modifies this`outbox
      ensures Abs() == Spec.Send(cfg, old(Abs()), j)
    {
      if connected {
        outbox := outbox + [RtcMessages.SendJSON(cfg.codec, j)];
      }
    }

    method SendBinary(j: Json)
      modifies this`outbox
      ensures Abs() == Spec.SendBinary(cfg, old(Abs()), j)
    {
      if connected {
        outbox := outbox + (Chunks(cfg.codec.encode(j)) + [Delimiter]);
      }
    }

    method MarkTransferStarted()
      modifies this`transferActive, this`callbacks
      ensures transferActive
      ensures Abs() == if old(transferActive) then old(Abs())
                       else old(Abs()).(callbacks := old(callbacks) + [Spec.TransferStart])
    {
      if transferActive {
        return;
      }
      transferActive := true;
      callbacks := callbacks + [Spec.TransferStart];
    }

    method MarkTransferDone()
      modifies this`transferActive, this`callbacks
      ensures !transferActive
      ensures Abs() == if old(transferActive) then Spec.MarkDone(old(Abs())) else old(Abs())
    {
      if !transferActive {
        return;
      }
      transferActive := false;
      callbacks := callbacks + [Spec.TransferDone];
    }

    // ---------- Files ----------

    /** fileMetaByID: the index, and behind it the scan, which fills the index in. */
    method FileMetaByID(id: string) returns (meta: Option<FileDto>)
      requires PartlyIndexes(DtoID, fileByID, files)
      modifies if Indexes(DtoID, fileByID, files) then {} else {this}
      ensures meta == First(DtoID, files, id) && PartlyIndexes(DtoID, fileByID, files)
      ensures meta.Some? <==> id in fileByID
      ensures Abs() == old(Abs())
    {
      if id in fileByID {
        return Some(fileByID[id]);
      }
      for i := 0 to |files|
        invariant fileByID == old(fileByID) && First(DtoID, files, id) == First(DtoID, files[i..], id)
      {
        if files[i].id == id {
          fileByID := fileByID[id := files[i]];
          return Some(files[i]);
        }
        assert files[i..][1..] == files[i + 1..];
      }
      return None;
    }

    lemma IndexKnown()
      requires Consistent()
      ensures Indexes(DtoID, fileByID, files)
    {
    }

    lemma IndexIsPartial()
      requires Indexes(DtoID, fileByID, files)
      ensures PartlyIndexes(DtoID, fileByID, files)
    {
    }

    /** Removes every path that is still open. */
    method RemovePartialFiles()
      modifies this`disk
      ensures Abs() == old(Abs()).(disk := old(disk) - filePaths.Values)
    {
      var rest := filePaths.Values;
      while rest != {}
        invariant rest <= filePaths.Values && disk == old(disk) - (filePaths.Values - rest)
        decreases |rest|
      {
        var path :| path in rest;
        disk := disk - {path};
        rest := rest - {path};
      }
      assert filePaths.Values - {} == filePaths.Values;
    }

    method ClearWriters()
      modifies this`fileWriters, this`fileBuffers
      ensures fileWriters == map[] && fileBuffers == map[] && Abs() == old(Abs())
    {
      fileWriters := map[];
      fileBuffers := map[];
    }

    method ClearPaths()
      modifies this`filePaths, this`fileHashers
      ensures filePaths == map[] && fileHashers == map[] && Abs() == old(Abs())
    {
      filePaths := map[];
      fileHashers := map[];
    }

    method ClearMaps()
      modifies this`currentFileID, this`currentBytes
      modifies this`fileWriters, this`fileBuffers, this`filePaths, this`fileHashers
      ensures Empty() && Abs() == old(Abs())
    {
      hide Abs;
      SetID("");
      ClearWriters();
      ClearPaths();
    }

    /** No file is open any more; `r` with its open transfer marked done. */
    ghost function Closed(r: Spec.Receiver, active: bool): Spec.Receiver {
      (if active then Spec.MarkDone(r) else r).(current := None)
    }

    method EndTransfer()
      modifies this`transferActive, this`callbacks, this`current
      ensures !transferActive && current.None? && Abs() == Closed(old(Abs()), old(transferActive))
    {
      MarkTransferDone();
      current := None;
    }

    method ForgetAll()
      modifies this`currentFileID, this`currentBytes, this`transferActive, this`callbacks, this`current
      modifies this`fileWriters, this`fileBuffers, this`filePaths, this`fileHashers
      ensures Empty() && !transferActive && current.None? && Abs() == Closed(old(Abs()), old(transferActive))
    {
      hide Empty, Closed;
      ClearMaps();
      EndTransfer();
    }

    /** The paths of the open files are those of the current one. */
    lemma CleanupMeans()
      requires Consistent()
      ensures Spec.CleanupPartial(Abs()) == Closed(Abs().(disk := disk - filePaths.Values), transferActive)
    {
      hide Indexes;
      match current
      case None => assert disk - filePaths.Values == disk;
      case Some(a) => assert filePaths[a.id] == a.path; assert filePaths.Values == {a.path};
    }

    /** cleanupPartialFilesLocked; the callers set the state. */
    method CleanupPartialFiles()
      requires Consistent()
      modifies this`currentFileID, this`currentBytes, this`transferActive, this`callbacks, this`disk, this`current
      modifies this`fileWriters, this`fileBuffers, this`filePaths, this`fileHashers
      ensures Consistent() && current.None? && Abs() == Spec.CleanupPartial(old(Abs()))
    {
      CleanupMeans();
      IndexKnown();
      hide Indexes, Empty, Spec.CleanupPartial, Closed;
      RemovePartialFiles();
      ForgetAll();
    }

    method Terminate()
      requires Consistent()
      modifies this
      ensures Valid() && Abs() == Spec.Terminate(old(Abs()))
    {
      hide Consistent, Spec.CleanupPartial;
      CleanupPartialFiles();
      Disconnect(Spec.Done);
    }

    /** Gives up the connection. */
    method Disconnect(phase: Spec.Phase)
      modifies this`connected, this`state
      ensures Abs() == old(Abs()).(connected := false, phase := phase)
    {
      connected := false;
      state := phase;
    }

    /** rejectFileTransfer; its callers have no open file. */
    method Reject()
      requires Consistent() && current.None?
      modifies this`connected, this`currentFileID, this`state
      ensures Valid() && Abs() == Spec.Reject(old(Abs()))
    {
      hide Indexes;
      Disconnect(Spec.WaitFiles);
      currentFileID := "";
    }

    /** The checks of startReceivingFile up to the create. */
    method Destination(env: Spec.Env, id: string, token: string) returns (path: Option<string>)
      requires Indexes(DtoID, fileByID, files)
      ensures path == Spec.Destination(env, Abs(), id, token)
      ensures path.Some? ==> id in fileByID && path.value !in disk
    {
      hide Paths.SanitizePathWithFallback, First, Indexes;
      IndexIsPartial();
      if id !in fileTokens || fileTokens[id] != token {
        return None;
      }
      var meta := FileMetaByID(id);
      if meta.None? {
        return None;
      }
      var sanitized := Paths.SanitizePathWithFallback(meta.value.fileName);
      if sanitized.Failure? {
        return None;
      }
      if env.created.None? || env.created.value in disk {
        return None;
      }
      return env.created;
    }

    method StartReceivingFile(env: Spec.Env, id: string, token: string) returns (ok: bool)
      requires Consistent() && current.None? && id != ""
      modifies this
      ensures Valid() && Abs() == Spec.StartReceiving(env, old(Abs()), id, token)
      ensures ok <==> current.Some?
    {
      assert Indexes(DtoID, fileByID, files);
      hide Consistent, Indexes, Spec.Destination, Spec.Reject, Spec.OpenAt;
      var path := Destination(env, id, token);
      ok := path.Some?;
      if !ok {
        Reject();
        return;
      }
      OpenFile(id, path.value);
    }

    method AddWriter(id: string, path: string)
      modifies this`fileWriters, this`fileBuffers
      ensures fileWriters == old(fileWriters)[id := path] && Abs() == old(Abs())
      ensures fileBuffers == old(fileBuffers)[id := BufferedWriter([], false)]
    {
      fileWriters := fileWriters[id := path];
      fileBuffers := fileBuffers[id := BufferedWriter([], false)];
    }

    method AddPath(id: string, path: string, hashed: bool)
      modifies this`filePaths, this`fileHashers
      ensures filePaths == old(filePaths)[id := path] && Abs() == old(Abs())
      ensures fileHashers == if hashed then old(fileHashers)[id := []] else old(fileHashers)
    {
      filePaths := filePaths[id := path];
      if hashed {
        fileHashers := fileHashers[id := []];
      }
    }

    method SetID(id: string)
      modifies this`currentFileID, this`currentBytes
      ensures currentFileID == id && currentBytes == 0 && Abs() == old(Abs())
    {
      currentFileID := id;
      currentBytes := 0;
    }

    /** The new file in every map. */
    method Register(id: string, path: string)
      requires Empty() && id != "" && id in fileByID
      modifies this`currentFileID, this`currentBytes
      modifies this`fileWriters, this`fileBuffers, this`filePaths, this`fileHashers
      ensures Holds(Spec.Active(id, path, [], false)) && Abs() == old(Abs())
    {
      hide Abs;
      AddWriter(id, path);
      AddPath(id, path, fileByID[id].sha256 != "");
      SetID(id);
    }

    /** The exclusive create has succeeded. */
    method CreateEmpty(id: string, path: string)
      modifies this`disk, this`current
      ensures Abs() == old(Abs()).(disk := old(disk)[path := []], current := Some(Spec.Active(id, path, [], false)))
    {
      disk := disk[path := []];
      current := Some(Spec.Active(id, path, [], false));
    }

    /** The success path of startReceivingFile. */
    method OpenFile(id: string, path: string)
      requires Consistent() && current.None? && id != "" && id in fileByID && path !in disk
      modifies this
      ensures Valid() && Abs() == Spec.OpenAt(old(Abs()), id, path)
    {
      hide Indexes, Holds, Empty;
      CreateEmpty(id, path);
      Register(id, path);
      MarkTransferStarted();
      state := Spec.ReceivingFiles;
    }

    method DeleteWriter(id: string)
      modifies this`fileWriters, this`fileBuffers
      ensures fileWriters == old(fileWriters) - {id} && fileBuffers == old(fileBuffers) - {id} && Abs() == old(Abs())
    {
      fileWriters := fileWriters - {id};
      fileBuffers := fileBuffers - {id};
    }

    method DeletePath(id: string)
      modifies this`filePaths, this`fileHashers
      ensures filePaths == old(filePaths) - {id} && fileHashers == old(fileHashers) - {id} && Abs() == old(Abs())
    {
      filePaths := filePaths - {id};
      fileHashers := fileHashers - {id};
    }

    /** Takes the current file out of the maps, which leaves them empty. */
    method DeleteFromMaps(ghost a: Option<Spec.Active>)
      requires if a.Some? then Holds(a.value) else Empty()
      modifies this`currentFileID, this`currentBytes
      modifies this`fileWriters, this`fileBuffers, this`filePaths, this`fileHashers
      ensures Empty() && Abs() == old(Abs())
    {
      hide Abs;
      DeleteWriter(currentFileID);
      DeletePath(currentFileID);
      SetID("");
    }

    /** The path of the current file, as the maps have it. */
    method CurrentPath() returns (path: Option<string>)
      requires Consistent()
      ensures path == if current.None? then None else Some(current.value.path)
    {
      hide Indexes;
      path := if currentFileID in filePaths then Some(filePaths[currentFileID]) else None;
    }

    /** Takes the current file out of the maps and marks its transfer done. */
    method ForgetCurrent()
      requires match current case None => Empty() case Some(a) => Holds(a)
      modifies this`currentFileID, this`currentBytes, this`transferActive, this`callbacks, this`current
      modifies this`fileWriters, this`fileBuffers, this`filePaths, this`fileHashers
      ensures Empty() && !transferActive && current.None? && Abs() == Closed(old(Abs()), old(transferActive))
    {
      hide Empty, Holds, Closed;
      DeleteFromMaps(current);
      EndTransfer();
    }

    /** cleanupCurrentFile: the maps of the current file alone. */
    method CleanupCurrentFile()
      requires Consistent()
      modifies this`currentFileID, this`currentBytes, this`transferActive, this`callbacks, this`disk, this`current
      modifies this`fileWriters, this`fileBuffers, this`filePaths, this`fileHashers
      ensures Consistent() && current.None? && Abs() == Spec.CleanupPartial(old(Abs()))
    {
      IndexKnown();
      hide Indexes, Empty, Holds;
      var path := CurrentPath();
      if path.Some? {
        RemoveFile(path.value);
      }
      ForgetCurrent();
    }

    method RemoveFile(path: string)
      modifies this`disk
      ensures Abs() == old(Abs()).(disk := old(disk) - {path})
    {
      disk := disk - {path};
    }

    /** The buffered write of the current file: all of `data` or an error that stays. */
    method WriteBuffered(env: Spec.Env, data: Bytes) returns (n: nat, ok: bool)
      requires Consistent() && current.Some?
      modifies this`fileBuffers, this`disk
      ensures var a := current.value;
              && (ok <==> env.writeOk && !a.failed) && n == (if ok then |data| else 0)
              && fileBuffers == map[a.id := BufferedWriter(if ok then a.accepted + data else a.accepted, !ok)]
              && Abs() == old(Abs()).(disk := old(disk)[a.path :=
                                        Spec.Spill(old(disk)[a.path], a.accepted + data, env.spilled)])
    {
      hide Indexes;
      var writer, path := fileBuffers[currentFileID], filePaths[currentFileID];
      disk := disk[path := Spec.Spill(disk[path], writer.accepted + data, env.spilled)];
      ok := !writer.failed && env.writeOk;
      fileBuffers := fileBuffers[currentFileID := if ok then BufferedWriter(writer.accepted + data, false)
                                                  else writer.(failed := true)];
      n := if ok then |data| else 0;
    }

    /** More data than declared: the file is removed and the transfer rejected. */
    method Abandon()
      requires Consistent()
      modifies this
      ensures Valid() && Abs() == Spec.Reject(Spec.CleanupPartial(old(Abs())))
    {
      hide Indexes, Spec.CleanupPartial, Consistent, Spec.Reject;
      CleanupCurrentFile();
      Reject();
    }

    method HandleBinaryData(env: Spec.Env, data: Bytes)
      requires Valid()
      modifies this
      ensures Valid() && Abs() == Spec.HandleBinaryData(env, old(Abs()), data)
    {
      assert First(DtoID, files,
                   currentFileID) == if currentFileID in fileByID then Some(fileByID[currentFileID]) else None;
      hide First, Indexes, Spec.WriteData, Spec.CleanupPartial, Spec.Reject;
      if currentFileID !in fileByID || |data| > fileByID[currentFileID].size - currentBytes {
        Abandon();
        return;
      }
      if currentFileID !in fileBuffers {
        return;
      }
      AppendData(env, data);
    }

    /** Counts and hashes what the writer accepted. */
    method Account(data: Bytes, n: nat)
      requires n <= |data|
      modifies this`currentBytes, this`fileHashers
      ensures currentBytes == old(currentBytes) + n && Abs() == old(Abs())
      ensures fileHashers == if currentFileID in old(fileHashers)
                             then old(fileHashers)[currentFileID := old(fileHashers)[currentFileID] + data[..n]]
                             else old(fileHashers)
    {
      currentBytes := currentBytes + n;
      if currentFileID in fileHashers && n > 0 {
        fileHashers := fileHashers[currentFileID := fileHashers[currentFileID] + data[..n]];
      }
      if n == 0 && currentFileID in fileHashers {
        assert fileHashers[currentFileID] + data[..n] == fileHashers[currentFileID];
      }
    }

    ghost method SetActive(a: Spec.Active)
      modifies this`current
      ensures Abs() == old(Abs()).(current := Some(a))
    {
      current := Some(a);
    }

    /** What the writer accepted is counted, hashed and kept. */
    method TakeIn(data: Bytes)
      requires current.Some? && !current.value.failed && state == Spec.ReceivingFiles
      requires Indexes(DtoID, fileByID, files) && transferActive && current.value.path in disk
      requires HoldsBut(current.value, BufferedWriter(current.value.accepted + data, false))
      modifies this`currentBytes, this`fileHashers, this`current
      ensures Valid()
      ensures Abs() == old(Abs()).(current := Some(old(current).value.(accepted := old(current).value.accepted + data)))
    {
      hide Indexes;
      assert data[..|data|] == data;
      Account(data, |data|);
      SetActive(current.value.(accepted := current.value.accepted + data));
    }

    /** The maps hold `a`, whose writer has moved on to `writer`. */
    ghost predicate HoldsBut(a: Spec.Active, writer: BufferedWriter)
      reads this`fileByID, this`currentFileID, this`currentBytes
      reads this`fileWriters, this`fileBuffers, this`filePaths, this`fileHashers
    {
      && a.id != "" && currentFileID == a.id && currentBytes == |a.accepted|
      && fileWriters == map[a.id := a.path] && filePaths == map[a.id := a.path]
      && fileBuffers == map[a.id := writer]
      && a.id in fileByID
      && fileHashers == if fileByID[a.id].sha256 == "" then map[] else map[a.id := a.accepted]
    }

    /** The part of handleBinaryData that reaches a writer. */
    method AppendData(env: Spec.Env, data: Bytes)
      requires Valid() && current.Some?
      modifies this`fileBuffers, this`disk, this`currentBytes, this`fileHashers, this`current
      ensures Valid() && Abs() == Spec.WriteData(env, old(Abs()), data)
    {
      hide First, Indexes, Spec.Spill;
      var n, ok := WriteBuffered(env, data);
      if ok {
        TakeIn(data);
      } else {
        SetActive(current.value.(failed := true));
      }
    }

    /** The first half of finishCurrentFile: flush, close and compare the checksum. */
    method CloseCurrentFile(env: Spec.Env) returns (success: bool, error: ErrorText)
      requires Consistent() && current.Some?
      ensures (success, error) == Spec.Verdict(cfg, env, Abs())
    {
      var id := currentFileID;
      var meta := fileByID[id];
      assert First(DtoID, files, id) == Some(meta);
      hide First, Indexes;
      success, error := currentBytes == meta.size, SizeMismatch;
      if id in fileBuffers && (!env.flushOk || fileBuffers[id].failed) {
        success, error := false, SaveFailed;
      }
      if id in fileWriters && !env.closeOk {
        success, error := false, SaveFailed;
      }
      if id in fileHashers && meta.sha256 != "" && cfg.sha256(fileHashers[id]) != meta.sha256 {
        success, error := false, ChecksumMismatch;
      }
    }

    /** Keeps the closed file, or removes it. */
    method KeepOrRemove(path: string, contents: Bytes, success: bool)
      requires current.Some? && path == current.value.path && contents == current.value.accepted
      modifies this`disk, this`saved
      ensures Abs() == Spec.KeepOrRemove(old(Abs()), success)
    {
      if !success {
        disk := disk - {path};
      } else {
        disk := disk[path := contents];
        saved := saved[path := Spec.Saved(current.value.id, contents)];
      }
    }

    /** What the maps hold of the current file. */
    lemma CurrentKnown()
      requires Consistent() && current.Some?
      ensures var a := current.value;
              && currentFileID == a.id && a.id in fileBuffers && fileBuffers[a.id].accepted == a.accepted
              && a.id in filePaths && filePaths[a.id] == a.path && transferActive
              && Indexes(DtoID, fileByID, files) && Holds(a)
    {
    }

    /** The steps of finishing, in the order the program takes them. */
    lemma FinishMeans(env: Spec.Env, r: Spec.Receiver)
      requires r.current.Some?
      ensures var (success, error) := Spec.Verdict(cfg, env, r);
              Spec.FinishCurrent(cfg, env, r)
              == Closed(Spec.Send(cfg, Spec.KeepOrRemove(r, success),
                                  FileResponseMessage(r.current.value.id, success, error)), true)
    {
      hide Spec.Verdict, FileResponseMessage, Spec.KeepOrRemove;
    }

    /** Keeps or removes the closed file, and tells the sender. */
    method Report(id: string, path: string, contents: Bytes, success: bool, error: ErrorText)
      requires current.Some? && path == current.value.path && contents == current.value.accepted
      modifies this`disk, this`saved, this`outbox
      ensures Abs() == Spec.Send(cfg, Spec.KeepOrRemove(old(Abs()), success), FileResponseMessage(id, success, error))
    {
      hide Spec.KeepOrRemove, FileResponseMessage;
      KeepOrRemove(path, contents, success);
      SendJSON(FileResponseMessage(id, success, error));
    }

    /** Flushes, closes, verifies, keeps or removes, and reports the current file. */
    method CloseAndReport(env: Spec.Env)
      requires Consistent() && current.Some?
      modifies this`disk, this`saved, this`outbox
      ensures var (success, error) := Spec.Verdict(cfg, env, old(Abs()));
              Abs() == Spec.Send(cfg, Spec.KeepOrRemove(old(Abs()), success),
                                 FileResponseMessage(current.value.id, success, error))
    {
      CurrentKnown();
      hide Indexes, Consistent, Empty, Holds, Spec.Verdict, Spec.KeepOrRemove, Spec.Send;
      var id, path, contents := currentFileID, filePaths[currentFileID], fileBuffers[currentFileID].accepted;
      var success, error := CloseCurrentFile(env);
      Report(id, path, contents, success, error);
    }

    /** finishCurrentFile */
    method FinishCurrentFile(env: Spec.Env)
      requires Consistent() && current.Some?
      modifies this`outbox, this`transferActive, this`callbacks, this`currentFileID, this`currentBytes, this`current
      modifies this`disk, this`saved, this`fileWriters, this`fileBuffers, this`filePaths, this`fileHashers
      ensures Consistent() && current.None? && Abs() == Spec.FinishCurrent(cfg, env, old(Abs()))
    {
      hide Indexes, Empty, Holds, Spec.Verdict, Spec.FinishCurrent, Spec.KeepOrRemove, Spec.Send, Closed;
      CurrentKnown();
      FinishMeans(env, Abs());
      CloseAndReport(env);
      ForgetCurrent();
    }

    /** The end marker, or the next header. */
    method EndOrNext(env: Spec.Env, data: Bytes)
      requires Consistent() && current.None?
      modifies this
      ensures Valid()
      ensures var header := cfg.codec.decode(data);
              Abs() == if data == DelimiterText then old(Abs()).(phase := Spec.Done, connected := false)
                       else if header.None? || AsString(header.value.id).None? || AsString(header.value.token).None?
                               || AsString(header.value.id).value == ""
                       then Spec.Terminate(old(Abs()))
                       else Spec.StartReceiving(env, old(Abs()), AsString(header.value.id).value,
                                                AsString(header.value.token).value)
    {
      hide Spec.StartReceiving, Spec.Terminate, Consistent;
      if data == DelimiterText {
        state := Spec.Done;
        connected := false;
        return;
      }
      var header := cfg.codec.decode(data);
      if header.None? || AsString(header.value.id).None? || AsString(header.value.token).None?
         || AsString(header.value.id).value == "" {
        Terminate();
        return;
      }
      var _ := StartReceivingFile(env, AsString(header.value.id).value, AsString(header.value.token).value);
    }

    /** A text frame while a file is being received closes that file first. */
    method HandleBoundary(env: Spec.Env, data: Bytes)
      requires Valid() && current.Some?
      modifies this
      ensures Valid() && Abs() == Spec.HandleBoundary(cfg, env, old(Abs()), data)
    {
      hide Spec.FinishCurrent, Spec.StartReceiving, Spec.Terminate, Consistent;
      FinishCurrentFile(env);
      EndOrNext(env, data);
    }

    // ---------- Handshake ----------

    method HandleNonce(env: Spec.Env, msg: Msg)
      requires Valid() && state == Spec.WaitNonce
      modifies this
      ensures Valid() && Abs() == Spec.HandleNonce(cfg, env, old(Abs()), msg)
    {
      hide Consistent, NonceMessage, Spec.HandshakeOnly;
      if !msg.Nonce? {
        unexpected := unexpected + 1;
        return;
      }
      var remote := cfg.crypto.decodeNonce(msg.nonce);
      if remote.None? {
        SendJSON(ErrorMessage(InvalidNonce));
        return;
      }
      CombineNonces(remote.value, env.nonce);
      SendJSON(NonceMessage(cfg.crypto.encodeNonce(env.nonce)));
      if !connected {
        return;
      }
      MoveTo(Spec.WaitToken);
    }

    /** The combined nonce is the sender's followed by the receiver's. */
    method CombineNonces(remote: Bytes, local: Bytes)
      modifies this`remoteNonce, this`localNonce, this`finalNonce
      ensures Abs() == old(Abs()).(remoteNonce := remote, localNonce := local, finalNonce := remote + local)
    {
      remoteNonce := remote;
      localNonce := local;
      finalNonce := remoteNonce + localNonce;
    }

    /** findTrustedSender: the first stored key that verifies the token. */
    method FindTrustedSender(token: string) returns (key: Option<string>)
      ensures key == Spec.FindTrusted(cfg, cfg.trusted, token, finalNonce)
    {
      for i := 0 to |cfg.trusted|
        invariant Spec.FindTrusted(cfg, cfg.trusted, token, finalNonce)
                  == Spec.FindTrusted(cfg, cfg.trusted[i..], token, finalNonce)
      {
        var stored := cfg.trusted[i];
        if cfg.crypto.keyParses(stored) && cfg.crypto.verify(stored, token, finalNonce) {
          return Some(stored);
        }
        assert cfg.trusted[i..][1..] == cfg.trusted[i + 1..];
      }
      return None;
    }

    method LearnSender(token: string)
      requires Valid()
      modifies this`senderToken, this`senderPublicKey
      ensures Valid()
      ensures Abs() == old(Abs()).(
                         senderToken := token,
                         senderKey := if old(senderPublicKey).None? && cfg.requirePairing
                                      then Spec.FindTrusted(cfg, cfg.trusted, token, finalNonce)
                                      else old(senderPublicKey))
    {
      hide Consistent;
      senderToken := token;
      if senderPublicKey.None? && cfg.requirePairing {
        senderPublicKey := FindTrustedSender(token);
      }
    }

    method HandleToken(msg: Msg)
      requires Valid() && state == Spec.WaitToken
      modifies this
      ensures Valid() && Abs() == Spec.HandleToken(cfg, old(Abs()), msg)
    {
      hide Spec.Terminate, Spec.FindTrusted, Spec.AnswerToken, Consistent;
      if !msg.TokenRequest? {
        unexpected := unexpected + 1;
        return;
      }
      LearnSender(msg.token);
      if senderPublicKey.Some? && !cfg.crypto.verify(senderPublicKey.value, msg.token, finalNonce) {
        SendJSON(TokenResponseMessage(INVALID_SIGNATURE, ""));
        Terminate();
        return;
      }
      AnswerToken();
    }

    method AnswerToken()
      requires Valid() && state == Spec.WaitToken
      modifies this`outbox, this`state
      ensures Valid() && Abs() == Spec.AnswerToken(cfg, old(Abs()))
    {
      hide Consistent;
      var token := cfg.crypto.sign(cfg.signingKey, finalNonce);
      var status := if cfg.pin != "" then PIN_REQUIRED else OK;
      SendJSON(TokenResponseMessage(status, token));
      state := if status == PIN_REQUIRED then Spec.WaitPin else Spec.WaitFileList;
    }

    method HandlePin(msg: Msg)
      requires Valid() && state == Spec.WaitPin
      modifies this
      ensures Valid() && Abs() == Spec.HandlePin(cfg, old(Abs()), msg)
    {
      hide Consistent, PinReceivingMessage, Spec.CountWrongPin, Spec.HandshakeOnly;
      if !msg.Pin? {
        unexpected := unexpected + 1;
        return;
      }
      if msg.pin == cfg.pin {
        SendJSON(PinReceivingMessage(OK));
        state := Spec.WaitFileList;
        return;
      }
      CountWrongPin();
    }

    /** The third wrong PIN ends the session. */
    method CountWrongPin()
      requires Valid() && state == Spec.WaitPin
      modifies this
      ensures Valid() && Abs() == Spec.CountWrongPin(cfg, old(Abs()))
    {
      hide Consistent, PinReceivingMessage, Spec.Terminate, Spec.HandshakeOnly;
      pinAttempts := pinAttempts + 1;
      if pinAttempts >= MaxPINAttempts {
        SendJSON(PinReceivingMessage(TOO_MANY_ATTEMPTS));
        Terminate();
        return;
      }
      SendJSON(PinReceivingMessage(PIN_REQUIRED));
    }

    /** prepareFilesForReceive: a token for every accepted file with a usable entry, and
        for no other. */
    method PrepareFilesForReceive(env: Spec.Env) returns (tokens: map<string, string>)
      requires Indexes(DtoID, fileByID, files)
      modifies this`fileTokens
      ensures fileTokens == old(fileTokens) + tokens
      ensures tokens == Spec.PrepareTokens(files, acceptedIDs, env.fileToken)
      ensures forall id :: id in tokens <==> id in acceptedIDs && Spec.Usable(files, id)
      ensures forall id, n :: Spec.LastAt(acceptedIDs, id, n) && id in tokens ==> tokens[id] == env.fileToken(n)
    {
      hide Paths.SanitizePathWithFallback, Indexes, PartlyIndexes, First, Spec.LastAt;
      IndexIsPartial();
      tokens := map[];
      for i := 0 to |acceptedIDs|
        invariant tokens == Spec.PrepareTokens(files, acceptedIDs[..i], env.fileToken)
        invariant fileTokens == old(fileTokens) + tokens
      {
        var id := acceptedIDs[i];
        assert acceptedIDs[..i + 1][..i] == acceptedIDs[..i];
        var meta := FileMetaByID(id);
        if meta.None? || '\0' in meta.value.fileName {
          continue;
        }
        var path := Paths.SanitizePathWithFallback(meta.value.fileName);
        if path.Failure? {
          continue;
        }
        var token := env.fileToken(i);
        tokens := tokens[id := token];
        fileTokens := fileTokens[id := token];
      }
      assert acceptedIDs[..|acceptedIDs|] == acceptedIDs;
      Spec.PrepareTokensExact(files, acceptedIDs, env.fileToken);
    }

    /** The new tokens join those handed out before. */
    method IssueTokens(env: Spec.Env) returns (tokens: map<string, string>)
      requires Indexes(DtoID, fileByID, files)
      modifies this`fileTokens
      ensures tokens == Spec.PrepareTokens(files, acceptedIDs, env.fileToken)
      ensures Abs() == old(Abs()).(fileTokens := old(fileTokens) + tokens)
    {
      tokens := PrepareFilesForReceive(env);
      hide *;
    }

    method MoveTo(phase: Spec.Phase)
      modifies this`state
      ensures Abs() == old(Abs()).(phase := phase)
    {
      state := phase;
    }

    method SendTokens(env: Spec.Env)
      requires Indexes(DtoID, fileByID, files)
      modifies this`fileTokens, this`outbox
      ensures var tokens := Spec.PrepareTokens(files, acceptedIDs, env.fileToken);
              Abs() == Spec.SendBinary(cfg, old(Abs()).(fileTokens := old(fileTokens) + tokens),
                                       FileListResponseMessage(OK, tokens, ""))
    {
      hide Indexes, First, Spec.PrepareTokens, FileListResponseMessage;
      var tokens := IssueTokens(env);
      SendBinary(FileListResponseMessage(OK, tokens, ""));
    }

    method AcceptFiles(env: Spec.Env)
      requires Valid() && state in {Spec.WaitFileList, Spec.WaitPairResponse}
      modifies this`fileTokens, this`outbox, this`state
      ensures Valid() && Abs() == Spec.AcceptFiles(cfg, env, old(Abs()))
    {
      hide Consistent, Indexes, First, Spec.PrepareTokens, FileListResponseMessage;
      IndexKnown();
      SendTokens(env);
      if connected {
        MoveTo(Spec.WaitFiles);
      }
    }

    /** The IDs of all files, in order. */
    method AllFileIDs() returns (ids: seq<string>)
      ensures ids == Spec.AllIDs(files)
    {
      ids := [];
      for i := 0 to |files|
        invariant |ids| == i && forall k :: 0 <= k < i ==> ids[k] == files[k].id
      {
        ids := ids + [files[i].id];
      }
    }

    /** The sender's PIN challenge. */
    method AnswerChallenge()
      requires Valid() && state == Spec.WaitFileList
      modifies this
      ensures Valid() && Abs() == Spec.AnswerChallenge(cfg, old(Abs()))
    {
      hide Spec.Terminate, Spec.HandshakeOnly, Consistent, PinMessage;
      providedPINAttempts := providedPINAttempts + 1;
      var pin := if cfg.pinProvider.Some? then (cfg.pinProvider.value)(providedPINAttempts) else cfg.pin;
      if connected {
        SendJSON(PinMessage(pin));
      } else {
        Terminate();
      }
    }

    method HandleFileList(env: Spec.Env, msg: Msg, j: Json)
      requires Valid() && state == Spec.WaitFileList
      modifies this
      ensures Valid() && Abs() == Spec.HandleFileList(cfg, env, old(Abs()), msg, j)
    {
      hide Spec.ReceiveFileList, Spec.AnswerChallenge, Spec.Terminate, Spec.HandshakeOnly, Consistent;
      if msg == Status(PIN_REQUIRED) {
        AnswerChallenge();
        return;
      }
      if msg == Status(TOO_MANY_ATTEMPTS) {
        Terminate();
        return;
      }
      if !msg.FileList? && msg != Status(OK) {
        unexpected := unexpected + 1;
        return;
      }
      if AsFiles(j.files).None? {
        unexpected := unexpected + 1;
        return;
      }
      ReceiveFileList(env, AsFiles(j.files).value);
    }

    method StoreFiles(offered: seq<FileDto>)
      modifies this`files, this`fileByID
      ensures Indexes(DtoID, fileByID, files) && Abs() == old(Abs()).(files := offered)
    {
      hide Indexes;
      files := offered;
      fileByID := BuildIndex(DtoID, files);
    }

    /** Stores the offer with its index, and asks which of its files to take. */
    method StoreOffer(offered: seq<FileDto>)
      requires Valid() && state == Spec.WaitFileList
      modifies this`files, this`fileByID, this`acceptedIDs
      ensures Valid()
      ensures Abs() == old(Abs()).(files := offered,
                                   acceptedIDs := if cfg.selectFiles.Some? then (cfg.selectFiles.value)(offered)
                                                  else Spec.AllIDs(offered))
    {
      hide Indexes, Empty;
      StoreFiles(offered);
      if cfg.selectFiles.Some? {
        acceptedIDs := (cfg.selectFiles.value)(files);
      } else {
        acceptedIDs := AllFileIDs();
      }
    }

    method ReceiveFileList(env: Spec.Env, offered: seq<FileDto>)
      requires Valid() && state == Spec.WaitFileList
      modifies this
      ensures Valid() && Abs() == Spec.ReceiveFileList(cfg, env, old(Abs()), offered)
    {
      hide Spec.AllIDs, Spec.AnswerOffer, Consistent, FileListResponseMessage;
      if |offered| > MaxFilesPerSession {
        SendBinary(FileListResponseMessage(DECLINED, map[], ""));
        return;
      }
      StoreOffer(offered);
      AnswerOffer(env);
    }

    method AnswerOffer(env: Spec.Env)
      requires Valid() && state == Spec.WaitFileList
      modifies this
      ensures Valid() && Abs() == Spec.AnswerOffer(cfg, env, old(Abs()))
    {
      hide Spec.AcceptFiles, Consistent, FileListResponseMessage;
      if !connected {
        return;
      }
      if acceptedIDs == [] {
        SendBinary(FileListResponseMessage(DECLINED, map[], ""));
      } else if cfg.requirePairing && senderPublicKey.None? {
        SendBinary(FileListResponseMessage(PAIR, map[], cfg.signingKey));
        state := Spec.WaitPairResponse;
      } else {
        AcceptFiles(env);
      }
    }

    method HandlePairResponse(env: Spec.Env, msg: Msg, j: Json)
      requires Valid() && state == Spec.WaitPairResponse
      modifies this
      ensures Valid() && Abs() == Spec.HandlePairResponse(cfg, env, old(Abs()), msg, j)
    {
      hide Spec.AcceptFiles, Spec.AcceptPair, Spec.Terminate, Consistent;
      if !msg.PairResponse? && msg !in [Status(OK), Status(PAIR_DECLINED), Status(INVALID_SIGNATURE)] {
        unexpected := unexpected + 1;
        return;
      }
      if AsString(j.publicKey).None? {
        unexpected := unexpected + 1;
        return;
      }
      match msg.status {
        case OK => AcceptPair(env, AsString(j.publicKey).value);
        case PAIR_DECLINED =>
          if cfg.requirePairing {
            Terminate();
            return;
          }
          AcceptFiles(env);
        case _ =>
      }
    }

    method AcceptPair(env: Spec.Env, key: string)
      requires Valid() && state == Spec.WaitPairResponse
      modifies this
      ensures Valid() && Abs() == Spec.AcceptPair(cfg, env, old(Abs()), key)
    {
      hide Spec.AcceptFiles, Consistent;
      if key != "" {
        if !cfg.crypto.keyParses(key) {
          return;
        }
        if senderToken != "" && !cfg.crypto.verify(key, senderToken, finalNonce) {
          return;
        }
        senderPublicKey := Some(key);
      }
      AcceptFiles(env);
    }

    // ---------- Messages and events ----------

    method HandleMessage(env: Spec.Env, data: Bytes)
      requires Valid() && current.None?
      modifies this
      ensures Valid() && Abs() == Spec.HandleMessage(cfg, env, old(Abs()), data)
    {
      hide Spec.HandleBinaryData, Spec.HandleNonce, Spec.HandleToken, Spec.HandlePin, Spec.HandleFileList,
           Spec.HandlePairResponse, Spec.StartReceiving, Indexes, First;
      var decoded := cfg.codec.decode(data);
      var parsed := if decoded.Some? then ParseRTCMessage(decoded.value) else None;
      assert parsed.Some? && parsed.value.FileHeader? ==> parsed.value.id != "";
      hide ParseRTCMessage;
      if parsed.None? {
        if state == Spec.WaitFiles && data != [] && data[0] != OpenBrace {
          HandleBinaryData(env, data);
          return;
        }
        unexpected := unexpected + 1;
        return;
      }
      var msg, j := parsed.value, decoded.value;
      match state {
        case WaitNonce => HandleNonce(env, msg);
        case WaitToken => HandleToken(msg);
        case WaitPin => HandlePin(msg);
        case WaitFileList => HandleFileList(env, msg, j);
        case WaitPairResponse => HandlePairResponse(env, msg, j);
        case WaitFiles => HandleFileHeader(env, msg);
        case _ =>
      }
    }

    method HandleFileHeader(env: Spec.Env, msg: Msg)
      requires Valid() && current.None?
      requires msg.FileHeader? ==> msg.id != ""
      modifies this
      ensures Valid() && Abs() == Spec.HandleFileHeader(env, old(Abs()), msg)
    {
      hide Spec.StartReceiving;
      if !msg.FileHeader? {
        unexpected := unexpected + 1;
        return;
      }
      var _ := StartReceivingFile(env, msg.id, msg.token);
    }

    /** handleDataMessage */
    method HandleDataMessage(env: Spec.Env, frame: Frame)
      requires Valid()
      modifies this
      ensures Valid() && Abs() == Spec.HandleFrame(cfg, env, old(Abs()), frame)
    {
      hide Spec.HandleBinaryData, Spec.HandleBoundary, Spec.HandleMessage, Indexes, First;
      if state == Spec.ReceivingFiles && currentFileID != "" {
        if frame.BinaryFrame? {
          HandleBinaryData(env, frame.data);
        } else {
          HandleBoundary(env, frame.data);
        }
        return;
      }
      var data := frame.data;
      if frame.TextFrame? && data == DelimiterText {
        if |controlBuffer| > 0 {
          data := controlBuffer;
          controlBuffer := [];
        } else {
          return;
        }
      } else if frame.BinaryFrame? {
        if |controlBuffer| + |data| > MaxControlMessageBytes {
          controlBuffer := [];
          return;
        }
        controlBuffer := controlBuffer + data;
        return;
      }
      HandleMessage(env, data);
    }

    /** What closing from either end leaves behind. */
    method ShutDown()
      requires Consistent()
      modifies this
      ensures Valid()
      ensures Abs() == Spec.CleanupPartial(old(Abs())).(connected := false, accepting := false, phase := Spec.Done)
    {
      hide Consistent, Spec.CleanupPartial;
      CleanupPartialFiles();
      connected := false;
      accepting := false;
      state := Spec.Done;
    }

    method HandlePeerClosed()
      requires Valid()
      modifies this
      ensures Valid() && forall env :: Abs() == Spec.Apply(cfg, env, old(Abs()), Spec.PeerClosed)
    {
      if !connected {
        return;
      }
      ShutDown();
    }

    method Close()
      requires Valid()
      modifies this
      ensures Valid() && forall env :: Abs() == Spec.Apply(cfg, env, old(Abs()), Spec.Close)
    {
      ShutDown();
    }

    /** The part of checkTransferWatchdog that acts. */
    method WatchdogExpired()
      requires Valid()
      modifies this
      ensures Valid() && forall env :: Abs() == Spec.Apply(cfg, env, old(Abs()), Spec.WatchdogExpired)
    {
      if !transferActive {
        return;
      }
      Terminate();
    }

    method ForgetFiles()
      modifies this`files, this`fileByID, this`fileTokens, this`acceptedIDs, this`controlBuffer
      ensures Indexes(DtoID, fileByID, files) && files == [] && fileTokens == map[] && acceptedIDs == []
      ensures controlBuffer == []
    {
      files, fileByID, acceptedIDs := [], map[], [];
      fileTokens := map[];
      controlBuffer := [];
    }

    method ForgetHandshake()
      modifies this`remoteNonce, this`localNonce, this`finalNonce, this`senderPublicKey, this`senderToken
      modifies this`pinAttempts, this`providedPINAttempts
      ensures remoteNonce == localNonce == finalNonce == [] && senderPublicKey == None && senderToken == ""
      ensures pinAttempts == providedPINAttempts == 0
    {
      remoteNonce, localNonce, finalNonce := [], [], [];
      pinAttempts, providedPINAttempts := 0, 0;
      senderPublicKey, senderToken := None, "";
    }

    method StartAccepting()
      modifies this`state, this`connected, this`accepting
      ensures Abs() == old(Abs()).(phase := Spec.WaitNonce, connected := false, accepting := true)
    {
      state := Spec.WaitNonce;
      connected := false;
      accepting := true;
    }

    method ResetSession()
      requires Consistent() && current.None?
      modifies this`state, this`connected, this`accepting
      modifies this`remoteNonce, this`localNonce, this`finalNonce, this`senderPublicKey, this`senderToken
      modifies this`pinAttempts, this`providedPINAttempts
      modifies this`files, this`fileByID, this`fileTokens, this`acceptedIDs, this`controlBuffer
      ensures Valid()
      ensures Abs() == Spec.Reset(old(Abs()))
    {
      hide Indexes, Empty;
      ForgetFiles();
      ForgetHandshake();
      StartAccepting();
    }

    method Restart()
      requires Consistent()
      modifies this
      ensures Valid() && Abs() == Spec.Reset(Spec.CleanupPartial(old(Abs())))
    {
      hide Consistent, Spec.CleanupPartial, Spec.Reset;
      CleanupPartialFiles();
      ResetSession();
    }

    /** AcceptOffer up to the reset of the session. */
    method BeginOffer() returns (ok: bool)
      requires Valid()
      modifies this
      ensures Valid() && forall env :: Abs() == Spec.Apply(cfg, env, old(Abs()), Spec.Offer)
      ensures ok <==> !old(accepting) && (!old(connected) || old(state) == Spec.Done)
    {
      if accepting || (connected && state != Spec.Done) {
        return false;
      }
      hide Consistent, Spec.CleanupPartial, Spec.Reset;
      ok := true;
      Restart();
    }

    /** AcceptOffer's failure path, whatever has happened since the offer was reserved.  With
        a file open it would leave the object in a state no other method leaves. */
    method FailAccept()
      requires Valid()
      modifies this`accepting, this`state
      ensures Abs() == Spec.FailAccept(old(Abs())) && Consistent()
      ensures Valid() <==> old(current).None?
    {
      hide Consistent;
      accepting := false;
      state := Spec.Done;
    }

    /** AcceptOffer installs the new connection unless it was closed meanwhile. */
    method InstallPeer() returns (ok: bool)
      requires Valid()
      modifies this`accepting, this`connected
      ensures Valid() && forall env :: Abs() == Spec.Apply(cfg, env, old(Abs()), Spec.PeerReady)
      ensures ok <==> old(accepting)
      ensures if ok then connected && !accepting else connected == old(connected) && accepting == old(accepting)
    {
      hide Consistent;
      if !accepting {
        return false;
      }
      connected := true;
      accepting := false;
      return true;
    }
  }
}
