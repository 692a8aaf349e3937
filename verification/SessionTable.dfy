/** Admission of HTTP receive sessions: the table of sessions, the vacuum task, and the
    cancel requests. */
module SessionTable {
  import opened Limits
  import opened Wrappers

  const MaxConcurrentSessions := 100

  /** What admission can see of a session. */
  datatype Entry = Entry(started: bool, filesCount: int, lastActivity: int, clientIP: string)

  datatype Error = InvalidBody | BlockedByOthers | TooManySessions | UnknownError | TooManyFiles | Rejected

  predicate Expired(e: Entry, now: int) { now - e.lastActivity > SessionTimeout }

  predicate Stopped(e: Entry, now: int) { Expired(e, now) || !e.started || e.filesCount == 0 }

  function Active(sessions: map<string, Entry>, now: int): set<string> {
    set id | id in sessions && !Stopped(sessions[id], now)
  }

  function Ended(e: Entry): Entry { if e.started then e.(started := false, filesCount := 0) else e }

  /** One entry of the offer: the key it came under, and the ID its metadata names. */
  datatype Offered = Offered(key: string, id: string)

  /** The error the acceptance loop stops with, for files from `i` on. */
  function AcceptError(files: seq<Offered>, i: nat): Option<Error>
    requires i <= |files|
    decreases |files| - i
  {
    if i == |files| then None
    else if files[i].key != files[i].id then Some(UnknownError)
    else if i >= MaxFilesPerSession then Some(TooManyFiles)
    else AcceptError(files, i + 1)
  }

  /** An offer is acceptable exactly when every entry names itself and there are not too
      many. */
  lemma {:induction false} AcceptErrorExact(files: seq<Offered>, i: nat)
    requires i <= |files| && i <= MaxFilesPerSession
    ensures AcceptError(files, i).None? <==> |files| <= MaxFilesPerSession && forall k :: i <= k < |files| ==>
              files[k].key == files[k].id
    decreases |files| - i
  {
    if i < |files| && i < MaxFilesPerSession {
      AcceptErrorExact(files, i + 1);
    }
  }

  // ---------- The manager ----------

  /** A session as the table holds it: an object that a request may still hold after the
      table has let go of it.  It has the fields admission reads and no others; the object
      with the files has the same view and changes it alike. */
  class Session {
    var started: bool
    var filesCount: int
    var lastActivity: int
    const clientIP: string

    constructor (ip: string, now: int)
      ensures View() == Entry(false, 0, now, ip)
    {
      started, filesCount, lastActivity, clientIP := false, 0, now, ip;
    }

    function View(): Entry
      reads this
    {
      Entry(started, filesCount, lastActivity, clientIP)
    }

    method Accept()
      modifies this
      ensures View() == old(View()).(filesCount := old(filesCount) + 1)
    {
      filesCount := filesCount + 1;
    }

    method Start()
      modifies this
      ensures View() == old(View()).(started := true)
    {
      started := true;
    }

    method End()
      modifies this
      ensures View() == Ended(old(View()))
    {
      if started {
        started := false;
        filesCount := 0;
      }
    }
  }

  class RecvSessManager {
    var sessions: map<string, Session>

    /** Every session has an entry of its own. */
    ghost predicate Valid()
      reads this
    {
      forall i, j :: i in sessions && j in sessions && i != j ==> sessions[i] != sessions[j]
    }

    ghost function View(): map<string, Entry>
      reads this, sessions.Values
    {
      map id | id in sessions :: sessions[id].View()
    }

    constructor ()
      ensures Valid() && View() == map[]
    {
      sessions := map[];
    }

    method HasActiveSessions(now: int) returns (active: bool)
      ensures active <==> Active(View(), now) != {}
    {
      var rest := sessions.Keys;
      while rest != {}
        invariant rest <= sessions.Keys && forall id :: id in Active(View(), now) ==> id in rest
        decreases |rest|
      {
        var id :| id in rest;
        if !Stopped(sessions[id].View(), now) {
          assert id in Active(View(), now);
          return true;
        }
        rest := rest - {id};
      }
      assert Active(View(), now) == {};
      return false;
    }

    /** Counts the entries one by one. */
    method SessionCount() returns (count: nat)
      ensures count == |View()|
    {
      count := 0;
      var rest := sessions.Keys;
      while rest != {}
        invariant rest <= sessions.Keys && count + |rest| == |sessions.Keys|
        decreases |rest|
      {
        var id :| id in rest;
        count := count + 1;
        rest := rest - {id};
      }
      assert View().Keys == sessions.Keys && |View()| == |View().Keys|;
    }

    /** A new session with the offered files, before it is in the table. */
    method Prepare(files: seq<Offered>, ip: string, now: int) returns (session: Session, error: Option<Error>)
      ensures fresh(session) && error == AcceptError(files, 0)
      ensures error.None? ==> session.View() == Entry(false, |files|, now, ip)
    {
      session := new Session(ip, now);
      for i := 0 to |files|
        invariant session.View() == Entry(false, i, now, ip) && i <= MaxFilesPerSession
        invariant AcceptError(files, 0) == AcceptError(files, i)
      {
        if files[i].key != files[i].id {
          return session, Some(UnknownError);
        }
        if i >= MaxFilesPerSession {
          return session, Some(TooManyFiles);
        }
        session.Accept();
      }
      return session, None;
    }

    /** The stored session is then started. */
    method StoreAndStart(id: string, session: Session)
      requires Valid() && id !in sessions && session !in sessions.Values
      modifies this, session
      ensures Valid() && View() == old(View())[id := old(session.View()).(started := true)]
    {
      sessions := sessions[id := session];
      session.Start();
    }

    /** newSessionLocked with a fresh session ID. */
    method NewSession(files: seq<Offered>, ip: string, id: string, now: int) returns (r: Result<string, Error>)
      requires Valid() && id !in sessions
      modifies this
      ensures Valid()
      ensures r == if |old(View())| >= MaxConcurrentSessions then Failure(TooManySessions)
                   else if AcceptError(files, 0).Some? then Failure(AcceptError(files, 0).value)
                   else Success(id)
      ensures View() == if r.Success? then old(View())[id := Entry(true, |files|, now, ip)] else old(View())
    {
      hide AcceptError;
      var count := SessionCount();
      if count >= MaxConcurrentSessions {
        return Failure(TooManySessions);
      }
      var session, error := Prepare(files, ip, now);
      if error.Some? {
        return Failure(error.value);
      }
      StoreAndStart(id, session);
      return Success(id);
    }

    /** CreateSessionIfAllowed; `now` is the one instant at which every session is looked at. */
    method CreateSessionIfAllowed(files: seq<Offered>, ip: string, id: string, now: int)
      returns (r: Result<string, Error>)
      requires Valid() && id !in sessions
      modifies this
      ensures Valid()
      ensures r == if files == [] then Failure(InvalidBody)
                   else if Active(old(View()), now) != {} then Failure(BlockedByOthers)
                   else if |old(View())| >= MaxConcurrentSessions then Failure(TooManySessions)
                   else if AcceptError(files, 0).Some? then Failure(AcceptError(files, 0).value)
                   else Success(id)
      ensures r.Success? <==> Admitted(Table(old(View()), now, Free), files)
      ensures View() == if r.Success? then old(View())[id := Entry(true, |files|, now, ip)] else old(View())
    {
      if |files| == 0 {
        return Failure(InvalidBody);
      }
      var active := HasActiveSessions(now);
      if active {
        return Failure(BlockedByOthers);
      }
      r := NewSession(files, ip, id, now);
    }

    /** Takes the session out of the table and ends it; whoever still holds it sees it ended,
        and no other session changes. */
    method KillSession(id: string)
      requires Valid()
      modifies this, if id in sessions then {sessions[id]} else {}
      ensures Valid() && View() == old(View()) - {id} && sessions == old(sessions) - {id}
      ensures id in old(sessions) ==> old(sessions)[id].View() == Ended(old(sessions[id].View()))
    {
      if id !in sessions {
        assert View() - {id} == View();
        assert sessions - {id} == sessions;
        return;
      }
      var session := sessions[id];
      sessions := sessions - {id};
      session.End();
    }

    /** An unknown session is no error; another client's is refused. */
    method KillSessionForClient(id: string, ip: string) returns (error: Option<Error>)
      requires Valid()
      modifies this, if id in sessions then {sessions[id]} else {}
      ensures error.Some? <==>
                id in old(sessions) && old(sessions[id].clientIP) != "" && old(sessions[id].clientIP) != ip
      ensures Valid() && View() == if error.Some? then old(View()) else old(View()) - {id}
      ensures id in old(sessions) ==>
                old(sessions)[id].View() == if error.Some? then old(sessions[id].View())
                                            else Ended(old(sessions[id].View()))
    {
      if id !in sessions {
        assert View() - {id} == View();
        return None;
      }
      if sessions[id].clientIP != "" && sessions[id].clientIP != ip {
        return Some(Rejected);
      }
      KillSession(id);
      return None;
    }

    /** One round of the vacuum task: exactly the stopped sessions go. */
    method Vacuum(now: int)
      requires Valid()
      modifies this
      ensures Valid()
      ensures sessions == map id | id in old(sessions) && !Stopped(old(sessions[id].View()), now) :: old(sessions)[id]
    {
      var rest := sessions.Keys;
      while rest != {}
        invariant rest <= sessions.Keys <= old(sessions).Keys
        invariant forall id :: id in sessions ==> sessions[id] == old(sessions)[id]
        invariant forall id :: id in old(sessions) && id !in rest ==>
                    (id in sessions <==> !Stopped(old(sessions)[id].View(), now))
        decreases |rest|
      {
        var id :| id in rest;
        rest := rest - {id};
        if Stopped(sessions[id].View(), now) {
          sessions := sessions - {id};
        }
      }
    }
  }

  // ---------- Runs ----------

  /** Who holds the admission mutex, and how far it got. */
  datatype Admission = Free | Checked(files: nat, ip: string) | Stored(id: string)

  datatype Table = Table(sessions: map<string, Entry>, now: int, admission: Admission)

  datatype Step =
    | Check(files: seq<Offered>, ip: string)     // the admission rules, up to the accepted files
    | Store(id: string)                          // the new session enters the table, not started
    | Start(id: string)
    | Tick(seconds: nat)
    | Progress(id: string)                       // a running upload reads data
    | FileDone(id: string)                       // a file becomes terminal; the last one ends the session
    | Kill(id: string)
    | Sweep(id: string)                          // the vacuum task looks at one entry

  predicate Enabled(y: Table, step: Step) {
    match step
    case Check(_, _) => y.admission == Free
    case Store(id) => y.admission.Checked? && id !in y.sessions
    case Start(id) => y.admission == Stored(id)
    case Tick(_) => true
    case Progress(id) => id in y.sessions && y.sessions[id].started
    case FileDone(id) => id in y.sessions && y.sessions[id].started && y.sessions[id].filesCount > 0
    case Kill(_) => true
    case Sweep(id) => id in y.sessions
  }

  predicate Admitted(y: Table, files: seq<Offered>) {
    files != [] && Active(y.sessions, y.now) == {}
    && |y.sessions| < MaxConcurrentSessions && AcceptError(files, 0).None?
  }

  function Next(y: Table, step: Step): Table
    requires Enabled(y, step)
  {
    match step
    case Check(files, ip) => if Admitted(y, files) then y.(admission := Checked(|files|, ip)) else y
    case Store(id) =>
      y.(sessions := y.sessions[id := Entry(false, y.admission.files, y.now, y.admission.ip)], admission := Stored(id))
    case Start(id) =>
      y.(sessions := if id in y.sessions then y.sessions[id := y.sessions[id].(started := true)] else y.sessions,
         admission := Free)
    case Tick(seconds) => y.(now := y.now + seconds)
    case Progress(id) => y.(sessions := y.sessions[id := y.sessions[id].(lastActivity := y.now)])
    case FileDone(id) =>
      var e := y.sessions[id].(filesCount := y.sessions[id].filesCount - 1);
      y.(sessions := y.sessions[id := if e.filesCount == 0 then Ended(e) else e])
    case Kill(id) => y.(sessions := y.sessions - {id})
    case Sweep(id) => if Stopped(y.sessions[id], y.now) then y.(sessions := y.sessions - {id}) else y
  }

  /** Read progress on a session that had already expired. */
  predicate Revives(y: Table, step: Step)
    requires Enabled(y, step)
  {
    step.Progress? && Expired(y.sessions[step.id], y.now)
  }

  ghost predicate IsRun(y: Table, steps: seq<Step>)
    decreases |steps|
  {
    steps == [] || (Enabled(y, steps[0]) && IsRun(Next(y, steps[0]), steps[1..]))
  }

  function Run(y: Table, steps: seq<Step>): Table
    requires IsRun(y, steps)
    decreases |steps|
  {
    if steps == [] then y else Run(Next(y, steps[0]), steps[1..])
  }

  ghost predicate NeverRevives(y: Table, steps: seq<Step>)
    requires IsRun(y, steps)
    decreases |steps|
  {
    steps == [] || (!Revives(y, steps[0]) && NeverRevives(Next(y, steps[0]), steps[1..]))
  }

  const Fresh := Table(map[], 0, Free)

  /** The table has room for the session being admitted, a stored session waits for its
      start, and nobody's activity lies in the future. */
  ghost predicate Bounded(y: Table) {
    && |y.sessions| <= MaxConcurrentSessions && (y.admission.Checked? ==> |y.sessions| < MaxConcurrentSessions)
    && (y.admission.Stored? && y.admission.id in y.sessions ==> !y.sessions[y.admission.id].started)
    && (y.admission.Checked? ==> y.admission.files > 0)
  }

  /** No session is active while one is being admitted, and otherwise at most one is. */
  ghost predicate OneActive(y: Table) {
    if y.admission == Free then |Active(y.sessions, y.now)| <= 1 else Active(y.sessions, y.now) == {}
  }

  lemma Removal(m: map<string, Entry>, id: string)
    ensures |m - {id}| <= |m|
  {
    assert (m - {id}).Keys == m.Keys - {id};
    assert |m - {id}| == |(m - {id}).Keys| && |m| == |m.Keys|;
    if id in m.Keys {
      assert |m.Keys - {id}| == |m.Keys| - 1;
    } else {
      assert m.Keys - {id} == m.Keys;
    }
  }

  lemma Addition(m: map<string, Entry>, id: string, e: Entry)
    ensures |m[id := e]| == if id in m then |m| else |m| + 1
  {
    assert m[id := e].Keys == m.Keys + {id};
    assert |m[id := e]| == |m[id := e].Keys| && |m| == |m.Keys|;
    if id in m {
      assert m.Keys + {id} == m.Keys;
    }
  }

  lemma BoundedStep(y: Table, step: Step)
    requires Bounded(y) && Enabled(y, step)
    ensures Bounded(Next(y, step))
  {
    match step
    case Check(files, ip) =>
    case Store(id) => Addition(y.sessions, id, Entry(false, y.admission.files, y.now, y.admission.ip));
    case Start(id) => if id in y.sessions { Addition(y.sessions, id, y.sessions[id].(started := true)); }
    case Tick(_) =>
    case Progress(id) => Addition(y.sessions, id, y.sessions[id].(lastActivity := y.now));
    case FileDone(id) =>
      var e := y.sessions[id].(filesCount := y.sessions[id].filesCount - 1);
      Addition(y.sessions, id, if e.filesCount == 0 then Ended(e) else e);
    case Kill(id) => Removal(y.sessions, id);
    case Sweep(id) => Removal(y.sessions, id);
  }

  lemma SubsetSize(a: set<string>, b: set<string>)
    requires a <= b
    ensures |a| <= |b|
  {
    assert b == a + (b - a);
  }

  /** Every step but a start and a revival can only take sessions out of the active set. */
  lemma ActiveShrinks(y: Table, step: Step)
    requires Enabled(y, step) && !step.Start? && !Revives(y, step)
    ensures Active(Next(y, step).sessions, Next(y, step).now) <= Active(y.sessions, y.now)
  {
    match step
    case Check(files, ip) =>
    case Store(id) =>
    case Tick(_) =>
    case Progress(id) =>
    case FileDone(id) =>
    case Kill(id) =>
    case Sweep(id) =>
  }

  lemma OneActiveStep(y: Table, step: Step)
    requires OneActive(y) && Enabled(y, step) && !Revives(y, step)
    ensures OneActive(Next(y, step))
  {
    var z := Next(y, step);
    if step.Start? {
      assert Active(z.sessions, z.now) <= {step.id};
      SubsetSize(Active(z.sessions, z.now), {step.id});
    } else {
      ActiveShrinks(y, step);
      SubsetSize(Active(z.sessions, z.now), Active(y.sessions, y.now));
    }
  }

  /** Read progress on an expired session that has files left, while another session is
      active or being admitted. */
  predicate Harms(y: Table, step: Step)
    requires Enabled(y, step)
  {
    && Revives(y, step)
    && y.sessions[step.id].started && y.sessions[step.id].filesCount != 0
    && (y.admission != Free || Active(y.sessions, y.now) != {})
  }

  /** Nothing but such a revival breaks the rule, and every one does. */
  lemma OnlyRevivalAddsActive(y: Table, step: Step)
    requires OneActive(y) && Enabled(y, step)
    ensures OneActive(Next(y, step)) <==> !Harms(y, step)
  {
    if Revives(y, step) {
      var before, after := Active(y.sessions, y.now), Active(Next(y, step).sessions, Next(y, step).now);
      var e := y.sessions[step.id];
      assert step.id !in before;
      if e.started && e.filesCount != 0 {
        assert after == before + {step.id};
      } else {
        assert after == before;
      }
    } else {
      OneActiveStep(y, step);
    }
  }

  ghost predicate NeverHarms(y: Table, steps: seq<Step>)
    requires IsRun(y, steps)
    decreases |steps|
  {
    steps == [] || (!Harms(y, steps[0]) && NeverHarms(Next(y, steps[0]), steps[1..]))
  }

  /** The rule holds now and after every step. */
  ghost predicate AlwaysOneActive(y: Table, steps: seq<Step>)
    requires IsRun(y, steps)
    decreases |steps|
  {
    OneActive(y) && (steps == [] || AlwaysOneActive(Next(y, steps[0]), steps[1..]))
  }

  lemma {:induction false} AlwaysExactly(y: Table, steps: seq<Step>)
    requires IsRun(y, steps) && OneActive(y)
    ensures AlwaysOneActive(y, steps) <==> NeverHarms(y, steps)
    decreases |steps|
  {
    if steps != [] {
      OnlyRevivalAddsActive(y, steps[0]);
      if !Harms(y, steps[0]) {
        AlwaysExactly(Next(y, steps[0]), steps[1..]);
      } else {
        assert !OneActive(Next(y, steps[0]));
      }
    }
  }

  /** In a run from the empty table at most one session is ever active, and none while
      another is admitted, exactly if no expired session with files left is read from while
      another is active or being admitted. */
  lemma OneActiveExactly(steps: seq<Step>)
    requires IsRun(Fresh, steps)
    ensures AlwaysOneActive(Fresh, steps) <==> NeverHarms(Fresh, steps)
  {
    assert Active(Fresh.sessions, Fresh.now) == {};
    AlwaysExactly(Fresh, steps);
  }

  lemma {:induction false} RunKeeps(y: Table, steps: seq<Step>)
    requires IsRun(y, steps) && Bounded(y)
    ensures Bounded(Run(y, steps))
    ensures OneActive(y) && NeverRevives(y, steps) ==> OneActive(Run(y, steps))
    decreases |steps|
  {
    if steps != [] {
      BoundedStep(y, steps[0]);
      if OneActive(y) && NeverRevives(y, steps) {
        OneActiveStep(y, steps[0]);
      }
      RunKeeps(Next(y, steps[0]), steps[1..]);
    }
  }

  /** In every run the table holds at most 100 sessions; and if no expired session is read
      from, at most one of them is active, none while another is being admitted. */
  lemma AdmissionSafe(steps: seq<Step>)
    requires IsRun(Fresh, steps)
    ensures |Run(Fresh, steps).sessions| <= MaxConcurrentSessions
    ensures NeverRevives(Fresh, steps) ==>
              var z := Run(Fresh, steps);
              |Active(z.sessions, z.now)| <= 1 && (z.admission != Free ==> Active(z.sessions, z.now) == {})
  {
    assert Active(Fresh.sessions, Fresh.now) == {};
    RunKeeps(Fresh, steps);
  }

  /** An offer is admitted exactly if it lists 1 to 10000 files under their own IDs, fewer than
      100 sessions are in the table, and each of them has been idle for more than 60 seconds, is
      not started, or has no file left. */
  lemma AdmittedExactly(y: Table, files: seq<Offered>)
    ensures Admitted(y, files) <==>
            && 1 <= |files| <= 10000 && (forall k :: 0 <= k < |files| ==> files[k].key == files[k].id)
            && |y.sessions| < 100
            && forall id :: id in y.sessions ==>
                 var e := y.sessions[id]; y.now - e.lastActivity > 60 || !e.started || e.filesCount == 0
  {
    AcceptErrorExact(files, 0);
    hide AcceptError;
    if Active(y.sessions, y.now) != {} {
      var id :| id in Active(y.sessions, y.now);
    }
    assert forall id :: id in y.sessions && !Stopped(y.sessions[id], y.now) ==> id in Active(y.sessions, y.now);
  }

  /** A session is admitted after the first one has expired, and then the first one is read
      from again. */
  function Revival(ip: string): seq<Step> {
    var files := [Offered("f", "f")];
    [Check(files, ip), Store("a"), Start("a"), Tick(61), Check(files, ip), Store("b"), Start("b"), Progress("a")]
  }

  function AfterRevival(ip: string, k: nat): Table {
    var a, b := Entry(true, 1, 0, ip), Entry(true, 1, 61, ip);
    match k
    case 0 => Fresh
    case 1 => Table(map[], 0, Checked(1, ip))
    case 2 => Table(map["a" := a.(started := false)], 0, Stored("a"))
    case 3 => Table(map["a" := a], 0, Free)
    case 4 => Table(map["a" := a], 61, Free)
    case 5 => Table(map["a" := a], 61, Checked(1, ip))
    case 6 => Table(map["a" := a, "b" := b.(started := false)], 61, Stored("b"))
    case 7 => Table(map["a" := a, "b" := b], 61, Free)
    case _ => Table(map["a" := b, "b" := b], 61, Free)
  }

  lemma RevivalStep(ip: string, k: nat)
    requires k < 8
    ensures Enabled(AfterRevival(ip, k), Revival(ip)[k])
    ensures Next(AfterRevival(ip, k), Revival(ip)[k]) == AfterRevival(ip, k + 1)
  {
    AcceptErrorExact([Offered("f", "f")], 0);
    hide AcceptError;
    if k in {0, 4} {
      assert Active(AfterRevival(ip, k).sessions, AfterRevival(ip, k).now) == {};
      hide Active;
    }
  }

  lemma {:induction false} RevivalRuns(ip: string, k: nat)
    requires k <= 8
    ensures IsRun(AfterRevival(ip, k), Revival(ip)[k..])
    ensures Run(AfterRevival(ip, k), Revival(ip)[k..]) == AfterRevival(ip, 8)
    decreases 8 - k
  {
    if k < 8 {
      RevivalStep(ip, k);
      RevivalRuns(ip, k + 1);
      var rest := Revival(ip)[k..];
      assert rest[0] == Revival(ip)[k] && rest[1..] == Revival(ip)[k + 1..];
      hide Revival, AfterRevival, Next, Enabled;
    }
  }

  /** With a revival two sessions can be active. */
  lemma RevivalBreaksIt(ip: string)
    ensures IsRun(Fresh, Revival(ip))
    ensures var z := Run(Fresh, Revival(ip)); Active(z.sessions, z.now) == {"a", "b"} && z.admission == Free
  {
    RevivalRuns(ip, 0);
    assert Revival(ip)[0..] == Revival(ip);
  }
}
