/** The PIN rate limiter as validatePIN uses it, and how many wrong PINs any stretch of time
    can hold. */
module PinLimiter {
  import opened Wrappers

  datatype Info = Info(count: nat, blockedAt: int, lastAttempt: int)

  type Attempts = map<string, Info>

  datatype Limits = Limits(maxAttempts: int, blockDuration: int)

  // ---------- The limiter on values ----------

  predicate Full(l: Limits, info: Info) { info.count >= l.maxAttempts }

  /** A block that has run out, or a partial count nobody added to for as long. */
  predicate Stale(l: Limits, info: Info, now: int) {
    now - (if Full(l, info) then info.blockedAt else info.lastAttempt) > l.blockDuration
  }

  function Blocked(l: Limits, a: Attempts, client: string, now: int): bool {
    client in a && Full(l, a[client]) && !Stale(l, a[client], now)
  }

  function AfterCheck(l: Limits, a: Attempts, client: string, now: int): Attempts {
    if client in a && Full(l, a[client]) && Stale(l, a[client], now) then a - {client} else a
  }

  function Recorded(l: Limits, a: Attempts, client: string, now: int): Info {
    var count := (if client in a then a[client].count else 0) + 1;
    Info(count, if count >= l.maxAttempts then now else if client in a then a[client].blockedAt else 0, now)
  }

  function Swept(l: Limits, a: Attempts, now: int): Attempts {
    map client | client in a && !Stale(l, a[client], now) :: a[client]
  }

  class RateLimiter {
    const limits: Limits
    var attempts: map<string, Info>

    constructor (limits: Limits)
      ensures attempts == map[] && this.limits == limits
    {
      this.limits := limits;
      attempts := map[];
    }

    method IsBlocked(client: string, now: int) returns (blocked: bool)
      modifies this
      ensures blocked == Blocked(limits, old(attempts), client, now)
      ensures attempts == AfterCheck(limits, old(attempts), client, now)
    {
      if client !in attempts {
        return false;
      }
      var info := attempts[client];
      if info.count >= limits.maxAttempts {
        if now - info.blockedAt > limits.blockDuration {
          attempts := attempts - {client};
          return false;
        }
        return true;
      }
      return false;
    }

    method RecordAttempt(client: string, now: int) returns (blocked: bool)
      modifies this
      ensures attempts == old(attempts)[client := Recorded(limits, old(attempts), client, now)]
      ensures blocked <==> Full(limits, attempts[client])
    {
      var info := if client in attempts then attempts[client] else Info(0, 0, 0);
      info := info.(count := info.count + 1, lastAttempt := now);
      blocked := info.count >= limits.maxAttempts;
      if blocked {
        info := info.(blockedAt := now);
      }
      attempts := attempts[client := info];
    }

    method Clear(client: string)
      modifies this
      ensures attempts == old(attempts) - {client}
    {
      attempts := attempts - {client};
    }

    method CleanupExpired(now: int) returns (cleaned: nat)
      modifies this
      ensures attempts == Swept(limits, old(attempts), now)
      ensures cleaned == |old(attempts)| - |attempts|
    {
      cleaned := 0;
      var rest := attempts.Keys;
      assert |attempts| == |attempts.Keys|;
      while rest != {}
        invariant rest <= attempts.Keys <= old(attempts).Keys
        invariant forall c :: c in attempts ==> attempts[c] == old(attempts)[c]
        invariant forall c ::
                    c in old(attempts) && c !in rest ==> (c in attempts <==> !Stale(limits, old(attempts)[c], now))
        invariant cleaned + |attempts.Keys| == |old(attempts).Keys|
        decreases |rest|
      {
        var client :| client in rest;
        var info := attempts[client];
        rest := rest - {client};
        if info.count >= limits.maxAttempts && now - info.blockedAt > limits.blockDuration {
          cleaned := Remove(client, cleaned);
        } else if info.count < limits.maxAttempts && now - info.lastAttempt > limits.blockDuration {
          cleaned := Remove(client, cleaned);
        }
      }
      assert |attempts| == |attempts.Keys| && |old(attempts)| == |old(attempts).Keys|;
    }

    method Remove(client: string, cleaned: nat) returns (more: nat)
      requires client in attempts
      modifies this
      ensures attempts == old(attempts) - {client} && more == cleaned + 1
      ensures |attempts.Keys| == |old(attempts).Keys| - 1
    {
      ghost var before := attempts.Keys;
      attempts := attempts - {client};
      assert attempts.Keys == before - {client};
      more := cleaned + 1;
    }
  }

  // ---------- validatePIN ----------

  datatype Verdict = NotRequired | Accepted | TooMany | Missing | Wrong

  function Status(v: Verdict): int {
    match v
    case NotRequired => 0
    case Accepted => 0
    case TooMany => 429
    case Missing => 401
    case Wrong => 401
  }

  /** What happens to one client's request or to everybody in a sweep. */
  datatype Event =
    | Request(client: string, pin: Option<string>, checkedAt: int, recordedAt: int)
    | Sweep(at: int)

  function Judge(l: Limits, a: Attempts, expected: string, e: Event): Verdict
    requires e.Request?
  {
    if expected == "" then NotRequired
    else if Blocked(l, a, e.client, e.checkedAt) then TooMany
    else if e.pin.None? then Missing
    else if e.pin.value != expected then Wrong
    else Accepted
  }

  function After(l: Limits, a: Attempts, expected: string, e: Event): Attempts {
    match e
    case Sweep(at) => Swept(l, a, at)
    case Request(client, _, checkedAt, recordedAt) =>
      var v := Judge(l, a, expected, e);
      var checked := AfterCheck(l, a, client, checkedAt);
      if v == NotRequired then a
      else if v == Wrong then checked[client := Recorded(l, checked, client, recordedAt)]
      else if v == Accepted then checked - {client}
      else checked
  }

  method ValidatePIN(limiter: RateLimiter, expected: string, client: string, pin: Option<string>, checkedAt: int,
                     recordedAt: int)
    returns (status: int)
    modifies limiter
    ensures var e := Request(client, pin, checkedAt, recordedAt);
            && status == Status(Judge(limiter.limits, old(limiter.attempts), expected, e))
            && limiter.attempts == After(limiter.limits, old(limiter.attempts), expected, e)
  {
    if expected == "" {
      return 0;
    }
    var blocked := limiter.IsBlocked(client, checkedAt);
    if blocked {
      return 429;
    }
    if pin.None? {
      return 401;
    }
    if pin.value != expected {
      var _ := limiter.RecordAttempt(client, recordedAt);
      return 401;
    }
    limiter.Clear(client);
    return 0;
  }

  // ---------- Timed runs ----------

  function Begin(e: Event): int { if e.Sweep? then e.at else e.checkedAt }

  function End(e: Event): int { if e.Sweep? then e.at else e.recordedAt }

  /** Requests and sweeps one after another, on a clock that never goes back. */
  predicate Timed(now: int, events: seq<Event>)
    decreases |events|
  {
    events == [] || (now <= Begin(events[0]) <= End(events[0]) && Timed(End(events[0]), events[1..]))
  }

  /** A PIN of this client that was judged with verdict `v` in the closed window. */
  predicate JudgedIn(l: Limits, a: Attempts, expected: string, e: Event, client: string, v: Verdict, from: int,
                     to: int) {
    e.Request? && e.client == client && Judge(l, a, expected, e) == v && from <= e.recordedAt <= to
  }

  /** How many wrong PINs of the client are judged in the window. */
  function WrongIn(l: Limits, a: Attempts, expected: string, events: seq<Event>, client: string, from: int,
                   to: int): nat
    decreases |events|
  {
    if events == [] then 0
    else (if JudgedIn(l, a, expected, events[0], client, Wrong, from, to) then 1 else 0)
         + WrongIn(l, After(l, a, expected, events[0]), expected, events[1..], client, from, to)
  }

  predicate NoneAccepted(l: Limits, a: Attempts, expected: string, events: seq<Event>, client: string, from: int,
                         to: int)
    decreases |events|
  {
    events == []
    || (!JudgedIn(l, a, expected, events[0], client, Accepted, from, to)
        && NoneAccepted(l, After(l, a, expected, events[0]), expected, events[1..], client, from, to))
  }

  /** The client's entry counts the `n` wrong PINs of the window so far, and neither it nor
      a block it holds began before the window. */
  predicate Counted(l: Limits, a: Attempts, client: string, n: nat, from: int) {
    n == 0 || (client in a && n <= a[client].count && n <= l.maxAttempts && from <= a[client].lastAttempt
               && (Full(l, a[client]) ==> from <= a[client].blockedAt))
  }

  lemma {:induction false} NoneAfter(l: Limits, a: Attempts, expected: string, events: seq<Event>, client: string,
                                     from: int, to: int, now: int)
    requires Timed(now, events) && now > to
    ensures WrongIn(l, a, expected, events, client, from, to) == 0
    decreases |events|
  {
    if events != [] {
      NoneAfter(l, After(l, a, expected, events[0]), expected, events[1..], client, from, to, End(events[0]));
    }
  }

  lemma CountedStep(l: Limits, a: Attempts, expected: string, e: Event, client: string, n: nat, from: int, now: int)
    requires l.maxAttempts >= 1 && Counted(l, a, client, n, from) && (n > 0 ==> from <= now)
    requires now <= Begin(e) <= End(e) <= from + l.blockDuration
    requires !JudgedIn(l, a, expected, e, client, Accepted, from, from + l.blockDuration)
    ensures var more := if JudgedIn(l, a, expected, e, client, Wrong, from, from + l.blockDuration) then n + 1 else n;
            Counted(l, After(l, a, expected, e), client, more, from) && (more > 0 ==> from <= End(e))
  {
    match e
    case Sweep(at) =>
    case Request(other, pin, checkedAt, recordedAt) =>
      var v := Judge(l, a, expected, e);
      if other == client {
        if v == Wrong {
        } else if v == Accepted {
        }
      }
  }

  lemma {:induction false} WindowFrom(l: Limits, a: Attempts, expected: string, events: seq<Event>, client: string,
                                      n: nat, from: int, now: int)
    requires l.maxAttempts >= 1 && Timed(now, events) && Counted(l, a, client, n, from) && (n > 0 ==> from <= now)
    requires NoneAccepted(l, a, expected, events, client, from, from + l.blockDuration)
    ensures n + WrongIn(l, a, expected, events, client, from, from + l.blockDuration) <= l.maxAttempts
    decreases |events|
  {
    if events != [] {
      var e, to := events[0], from + l.blockDuration;
      if End(e) > to {
        NoneAfter(l, After(l, a, expected, e), expected, events[1..], client, from, to, End(e));
      } else {
        CountedStep(l, a, expected, e, client, n, from, now);
        var more := if JudgedIn(l, a, expected, e, client, Wrong, from, to) then n + 1 else n;
        WindowFrom(l, After(l, a, expected, e), expected, events[1..], client, more, from, End(e));
      }
    }
  }

  /** In every run from an empty limiter, requests and sweeps in any order on a clock that
      never goes back: a closed window as long as the block, in which the client gave no
      correct PIN, holds at most `maxAttempts` judged wrong PINs of that client. */
  lemma WindowBound(l: Limits, expected: string, events: seq<Event>, client: string, start: int, from: int)
    requires Timed(start, events) && l.maxAttempts >= 1
    requires NoneAccepted(l, map[], expected, events, client, from, from + l.blockDuration)
    ensures WrongIn(l, map[], expected, events, client, from, from + l.blockDuration) <= l.maxAttempts
  {
    WindowFrom(l, map[], expected, events, client, 0, from, start);
  }

  /** The limit must be at least one: below that the first wrong PIN is judged all the same. */
  lemma LimitBelowOneFails(l: Limits, client: string)
    requires l.maxAttempts < 1 && l.blockDuration >= 0
    ensures var events := [Request(client, Some("wrong"), 0, 0)];
            && Timed(0, events) && NoneAccepted(l, map[], "right", events, client, 0, l.blockDuration)
            && WrongIn(l, map[], "right", events, client, 0, l.blockDuration) > l.maxAttempts
  {
    var e := Request(client, Some("wrong"), 0, 0);
    assert "wrong" != "right" by { assert "wrong"[0] != "right"[0]; }
    assert Judge(l, map[], "right", e) == Wrong;
    assert [e][1..] == [];
  }

  // ---------- Who is turned away, and for how long ----------

  /** `strikes` are the times at which the wrong PINs that still count were judged.  As many as
      allowed shut the client out, up to a block after the last. */
  predicate ShutOut(l: Limits, strikes: seq<int>, now: int) {
    strikes != [] && |strikes| >= l.maxAttempts && now - strikes[|strikes| - 1] <= l.blockDuration
  }

  /** A judged wrong PIN is a strike.  A correct one wipes them out, a block that has run out
      when the next request comes does, and so does a sweep a block after the last. */
  function StrikesAfter(l: Limits, expected: string, strikes: seq<int>, client: string, e: Event): seq<int> {
    match e
    case Sweep(at) =>
      if strikes != [] && at - strikes[|strikes| - 1] > l.blockDuration then [] else strikes
    case Request(other, pin, checkedAt, recordedAt) =>
      if other != client || expected == "" || ShutOut(l, strikes, checkedAt) then strikes
      else
        var counting := if |strikes| >= l.maxAttempts then [] else strikes;
        if pin.None? then counting else if pin.value == expected then [] else counting + [recordedAt]
  }

  function Strikes(l: Limits, expected: string, strikes: seq<int>, client: string, events: seq<Event>): seq<int>
    decreases |events|
  {
    if events == [] then strikes
    else Strikes(l, expected, StrikesAfter(l, expected, strikes, client, events[0]), client, events[1..])
  }

  function AfterAll(l: Limits, a: Attempts, expected: string, events: seq<Event>): Attempts
    decreases |events|
  {
    if events == [] then a else AfterAll(l, After(l, a, expected, events[0]), expected, events[1..])
  }

  /** The client's entry is its strikes. */
  ghost predicate Tallied(l: Limits, a: Attempts, client: string, strikes: seq<int>) {
    && (client in a <==> strikes != [])
    && (strikes != [] ==>
          var info, last := a[client], strikes[|strikes| - 1];
          && info.count == |strikes| && info.lastAttempt == last
          && (|strikes| >= l.maxAttempts ==> info.blockedAt == last))
  }

  lemma TalliedStep(l: Limits, a: Attempts, expected: string, client: string, strikes: seq<int>, e: Event)
    requires Tallied(l, a, client, strikes)
    ensures Tallied(l, After(l, a, expected, e), client, StrikesAfter(l, expected, strikes, client, e))
  {
    match e
    case Sweep(_) =>
    case Request(other, pin, _, _) =>
      if other == client && pin.Some? {
      }
  }

  lemma {:induction false} TalliedRun(l: Limits, a: Attempts, expected: string, client: string, strikes: seq<int>,
                                      events: seq<Event>)
    requires Tallied(l, a, client, strikes)
    ensures Tallied(l, AfterAll(l, a, expected, events), client, Strikes(l, expected, strikes, client, events))
    decreases |events|
  {
    if events != [] {
      TalliedStep(l, a, expected, client, strikes, events[0]);
      hide After, StrikesAfter, Tallied;
      TalliedRun(l, After(l, a, expected, events[0]), expected, client,
                 StrikesAfter(l, expected, strikes, client, events[0]), events[1..]);
    }
  }

  /** How a request is answered after any run from an empty limiter, in terms of the strikes
      alone: with a PIN set, a client that is shut out is turned away whatever PIN it gives, and
      any other is told whether its PIN is right. */
  lemma AnswerExact(l: Limits, expected: string, past: seq<Event>, client: string, pin: Option<string>, now: int,
                    later: int)
    ensures var strikes := Strikes(l, expected, [], client, past);
            var v := Judge(l, AfterAll(l, map[], expected, past), expected, Request(client, pin, now, later));
            && (v == NotRequired <==> expected == "")
            && (v == TooMany <==> expected != "" && ShutOut(l, strikes, now))
            && (v == Missing <==> expected != "" && !ShutOut(l, strikes, now) && pin.None?)
            && (v == Accepted <==> expected != "" && !ShutOut(l, strikes, now) && pin == Some(expected))
  {
    TalliedRun(l, map[], expected, client, [], past);
    hide Strikes, AfterAll;
  }

  /** The requests in which this client gave a wrong PIN, whatever became of them. */
  function WrongGiven(expected: string, client: string, events: seq<Event>): (wrong: seq<Event>)
    ensures forall k :: 0 <= k < |wrong| ==> wrong[k].Request?
  {
    if events == [] then []
    else
      var e, rest := events[|events| - 1], WrongGiven(expected, client, events[..|events| - 1]);
      if e.Request? && e.client == client && e.pin.Some? && e.pin.value != expected then rest + [e] else rest
  }

  lemma {:induction false} StrikesSnoc(l: Limits, expected: string, strikes: seq<int>, client: string,
                                       events: seq<Event>, e: Event)
    ensures Strikes(l, expected, strikes, client, events + [e])
            == StrikesAfter(l, expected, Strikes(l, expected, strikes, client, events), client, e)
    decreases |events|
  {
    if events == [] {
      assert [e][1..] == [];
      assert Strikes(l, expected, strikes, client, [e])
             == Strikes(l, expected, StrikesAfter(l, expected, strikes, client, e), client, [e][1..]);
      assert events + [e] == [e];
    } else {
      assert (events + [e])[1..] == events[1..] + [e];
      StrikesSnoc(l, expected, StrikesAfter(l, expected, strikes, client, events[0]), client, events[1..], e);
    }
  }

  /** Every strike is the judging time of one of these requests, and there are no more strikes
      than requests. */
  ghost predicate AreJudged(strikes: seq<int>, wrong: seq<Event>)
    requires forall k :: 0 <= k < |wrong| ==> wrong[k].Request?
  {
    && |strikes| <= |wrong|
    && forall i :: 0 <= i < |strikes| ==> exists k :: 0 <= k < |wrong| && strikes[i] == wrong[k].recordedAt
  }

  lemma OneMoreJudged(strikes: seq<int>, wrong: seq<Event>, e: Event)
    requires e.Request? && forall k :: 0 <= k < |wrong| ==> wrong[k].Request?
    requires AreJudged(strikes, wrong)
    ensures AreJudged(strikes, wrong + [e]) && AreJudged(strikes + [e.recordedAt], wrong + [e])
  {
    assert (wrong + [e])[|wrong|] == e;
    forall i | 0 <= i < |strikes|
      ensures exists k :: 0 <= k < |wrong + [e]| && strikes[i] == (wrong + [e])[k].recordedAt
    {
      var k :| 0 <= k < |wrong| && strikes[i] == wrong[k].recordedAt;
      assert (wrong + [e])[k] == wrong[k];
    }
  }

  lemma {:induction false} StrikesAreWrongPINs(l: Limits, expected: string, client: string, past: seq<Event>)
    ensures AreJudged(Strikes(l, expected, [], client, past), WrongGiven(expected, client, past))
    decreases |past|
  {
    if past != [] {
      var front, e := past[..|past| - 1], past[|past| - 1];
      assert past == front + [e];
      StrikesAreWrongPINs(l, expected, client, front);
      StrikesSnoc(l, expected, [], client, front, e);
      var strikes, wrong := Strikes(l, expected, [], client, front), WrongGiven(expected, client, front);
      if e.Request? {
        OneMoreJudged(strikes, wrong, e);
        OneMoreJudged([], wrong, e);
      }
      hide Strikes;
    }
  }

  /** Fewer wrong PINs than the limit never shut a client out, and a block after its last
      wrong PIN a client is judged again. */
  lemma BlockNeedsWrongPINs(l: Limits, expected: string, past: seq<Event>, client: string, pin: Option<string>,
                            now: int, later: int)
    requires Judge(l, AfterAll(l, map[], expected, past), expected, Request(client, pin, now, later)) == TooMany
    ensures var wrong := WrongGiven(expected, client, past);
            && |wrong| >= l.maxAttempts && |wrong| >= 1
            && exists k :: 0 <= k < |wrong| && now - wrong[k].recordedAt <= l.blockDuration
  {
    AnswerExact(l, expected, past, client, pin, now, later);
    StrikesAreWrongPINs(l, expected, client, past);
    hide Strikes, WrongGiven, Judge;
  }
}
