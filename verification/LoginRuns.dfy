/** Whole runs of the login manager (cmd/muhan-server/login.go), with the lines
    of many sessions interleaved around unlocked password checks. */
module LoginRuns {
  import opened LoginText
  import opened CharacterCreation
  import opened Login

  /** Work in progress outside the lock. */
  datatype Check = Verifying(line: string, player: string, hash: string) | Hashing

  /** `streaks` is history, not program state: the failures counted for a host
      since its record was last made. */
  datatype System = System(m: Manager, w: World, checks: map<Id, Check>, clock: int, streaks: map<string, nat>)

  datatype Event =
    | Start(id: Id, host: string)
    | StartSite(id: Id, password: string, host: string)
    | Line(id: Id, line: string, early: int, now: int)
    | Done(id: Id, early: int, now: int, stored: bool, newHash: string)
    | Change(hashes: map<string, string>)  // anyone else changes the world

  function Later(a: int, b: int): int { if b > a then b else a }

  /** The two readings of the clock, which does not go back. */
  function Early(s: System, e: Event): int
    requires e.Line? || e.Done?
  {
    Later(s.clock, e.early)
  }

  function Late(s: System, e: Event): int
    requires e.Line? || e.Done?
  {
    Later(Early(s, e), e.now)
  }

  function Streak(s: System, host: string): nat { if host in s.streaks then s.streaks[host] else 0 }

  function Kept(streaks: map<string, nat>, f: map<string, IpRecord>): map<string, nat> {
    map h | h in streaks && h in f :: streaks[h]
  }

  /** The history after a check ends. */
  function Recount(s: System, id: Id, verified: bool, m': Manager): map<string, nat>
    requires s.m.Of(id).step.Password?
  {
    var host := s.m.Of(id).host;
    if verified || host == "" || host !in m'.ipFailures || s.m.Of(id).step.player !in s.w.hashes
    then Kept(s.streaks, m'.ipFailures)
    else s.streaks[host := Streak(s, host) + 1]
  }

  function Finish(verify: Verifier, s: System, e: Event): (System, Reply)
    requires e.Done? && e.id in s.checks && e.id in s.m.sessions
    requires s.checks[e.id].Verifying? ==> s.m.sessions[e.id].step.Password?
  {
    var now, rest := Late(s, e), s.checks - {e.id};
    match s.checks[e.id]
    case Verifying(line, player, hash) =>
      var ok := verify(line, hash);
      var (m', r) := AfterVerify(s.m, s.w, e.id, line, ok, Early(s, e), now);
      var w' := if r.Actor? && e.newHash != "" then s.w.(hashes := s.w.hashes[r.player := e.newHash]) else s.w;
      (System(m', w', rest, now, Recount(s, e.id, ok, m')), r)
    case Hashing =>
      var (m', r) := AfterHash(s.m, e.id, e.stored);
      var w' := if r.Actor? then s.w.(hashes := s.w.hashes[r.player := e.newHash]) else s.w;
      (System(m', w', rest, now, s.streaks), r)
  }

  /** One step. A session that has a check in progress sends nothing. */
  function Next(verify: Verifier, s: System, e: Event): (System, Reply)
    requires Sane(s)
  {
    match e
    case Change(hashes) => (s.(w := s.w.(hashes := hashes)), Prompted)
    case Start(id, host) =>
      if id in s.checks then (s, Prompted)
      else (s.(m := s.m.With(id, Session(Name, Trim(host)))), Prompted)
    case StartSite(id, password, host) =>
      if id in s.checks then (s, Prompted)
      else (s.(m := s.m.With(id, Session(SitePassword(password), Trim(host)))), Prompted)
    case Line(id, line, _, _) =>
      if id in s.checks then (s, Prompted) else
        var t := Late(s, e);
        var (m', r) := Handle(s.m, s.w, id, line, Early(s, e), t);
        var checks := match r
          case Verify(l, p, h) => s.checks[id := Verifying(l, p, h)]
          case Hash(_) => s.checks[id := Hashing]
          case _ => s.checks;
        (System(m', s.w, checks, t, Kept(s.streaks, m'.ipFailures)), r)
    case Done(id, _, _, _, _) =>
      if id in s.checks then CheckedSession(s, id); Finish(verify, s, e) else (s, Prompted)
  }

  // ----- the invariant -----

  ghost predicate SessionOk(x: Session) {
    match x.step
    case Password(_, n) => 0 <= n < SESSION_FAILURES
    case Creating(g, c) => Ready(g, c)
    case _ => true
  }

  /** A check in progress belongs to the session's present step and player. */
  predicate CheckOk(m: Manager, id: Id, c: Check) {
    && id in m.sessions
    && (c.Verifying? ==> m.sessions[id].step.Password? && m.sessions[id].step.player == c.player)
    && (c.Hashing? ==> m.sessions[id].step.Creating? && m.sessions[id].step.stage == NewPassword)
  }

  /** A host's counter is its run of failures modulo five. */
  predicate RecordOk(s: System, h: string)
    requires h in s.m.ipFailures
  {
    var r := s.m.ipFailures[h];
    h in s.streaks && 0 <= r.failures < HOST_FAILURES && r.failures == s.streaks[h] % HOST_FAILURES
    && r.lastFailure <= s.clock && r.blockedUntil <= s.clock + BLOCK_FOR
  }

  ghost predicate Sane(s: System) {
    && s.clock >= 0
    && (forall id :: id in s.m.sessions ==> SessionOk(s.m.sessions[id]))
    && (forall id :: id in s.checks ==> CheckOk(s.m, id, s.checks[id]))
    && (forall h :: h in s.m.ipFailures ==> RecordOk(s, h))
    && (forall h :: h in s.streaks ==> h in s.m.ipFailures)
  }

  lemma CheckedSession(s: System, id: Id)
    requires Sane(s) && id in s.checks
    ensures CheckOk(s.m, id, s.checks[id])
  {
  }

  /** `Handle` changes only the session whose line it is, and leaves it in order. */
  lemma HandleSession(m: Manager, w: World, id: Id, line: string, swept: int, now: int)
    requires id in m.sessions ==> SessionOk(m.sessions[id])
    ensures var m' := Handle(m, w, id, line, swept, now).0;
      && m'.sessions - {id} == m.sessions - {id}
      && (id in m'.sessions ==> SessionOk(m'.sessions[id]))
      && m'.ipFailures == Cleaned(m.ipFailures, swept)
  {
    hide Answer, Ready, Cleaned, Trim;
    var s := m.Of(id);
    if s.step.Creating? && s.step.stage != NewPassword {
      AnswerReady(s.step.stage, s.step.create, line);
    } else if s.step.Name? && NameAccepted(Trim(line)) {
      NameReady(line);
    }
  }

  lemma HandleCheck(m: Manager, w: World, id: Id, line: string, swept: int, now: int)
    ensures var (m', r) := Handle(m, w, id, line, swept, now);
      && (r.Verify? ==> CheckOk(m', id, Verifying(r.line, r.player, r.hash)))
      && (r.Verify? ==> m'.Of(id) == m.Of(id) && r.line == line)
      && (r.Verify? ==> r.player in w.hashes && w.hashes[r.player] == r.hash)
      && (r.Hash? ==> CheckOk(m', id, Hashing))
      && !r.Actor?
  {
    hide Answer, Cleaned, Trim;
  }

  lemma LineSane(verify: Verifier, s: System, e: Event)
    requires Sane(s) && e.Line? && e.id !in s.checks
    ensures Sane(Next(verify, s, e).0)
  {
    hide Handle, SessionOk, Stale;
    var id, t0, t := e.id, Early(s, e), Late(s, e);
    var (m', r) := Handle(s.m, s.w, id, e.line, t0, t);
    HandleSession(s.m, s.w, id, e.line, t0, t);
    HandleCheck(s.m, s.w, id, e.line, t0, t);
    var s' := Next(verify, s, e).0;
    forall j | j in s'.m.sessions ensures SessionOk(s'.m.sessions[j]) {
      if j != id { assert j in s'.m.sessions - {id}; }
    }
    forall j | j in s'.checks ensures CheckOk(s'.m, j, s'.checks[j]) {
      if j != id {
        assert CheckOk(s.m, j, s.checks[j]);
        assert j in s.m.sessions - {id};
      }
    }
    forall h | h in s'.m.ipFailures ensures RecordOk(s', h) {
      assert RecordOk(s, h);
    }
  }

  // ----- the end of a check -----

  /** What the end of a password check leaves behind: the other sessions as they
      were, this one in order, and the host's record with the right count. */
  lemma VerifySession(m: Manager, w: World, id: Id, line: string, ok: bool, failed: int, now: int)
    requires id in m.sessions && SessionOk(m.sessions[id]) && m.sessions[id].step.Password?
    ensures var (m', r) := AfterVerify(m, w, id, line, ok, failed, now);
      && m'.sessions - {id} == m.sessions - {id}
      && (id in m'.sessions ==> SessionOk(m'.sessions[id]))
      && (r.Actor? ==> ok && r.player == m.sessions[id].step.player)
      && r != Failed
  {
    hide Trim, NoteFailure;
  }

  lemma VerifyRecords(m: Manager, w: World, id: Id, line: string, ok: bool, failed: int, now: int)
    requires id in m.sessions && m.sessions[id].step.Password?
    ensures var x, m' := m.sessions[id], AfterVerify(m, w, id, line, ok, failed, now).0;
      m'.ipFailures ==
        if x.host == "" || x.step.player !in w.hashes then m.ipFailures
        else if ok then m.ipFailures - {x.host}
        else NoteFailure(m.ipFailures, x.host, failed, now)
  {
    hide Trim, NoteFailure;
  }

  lemma DoneSessions(verify: Verifier, s: System, e: Event)
    requires Sane(s) && e.Done? && e.id in s.checks
    ensures var s' := Next(verify, s, e).0;
      && (forall id :: id in s'.m.sessions ==> SessionOk(s'.m.sessions[id]))
      && (forall id :: id in s'.checks ==> CheckOk(s'.m, id, s'.checks[id]))
  {
    hide AfterVerify, BuildCharacter, SessionOk, Recount;
    CheckedSession(s, e.id);
    var s' := Next(verify, s, e).0;
    if s.checks[e.id].Verifying? {
      var c := s.checks[e.id];
      VerifySession(s.m, s.w, e.id, c.line, verify(c.line, c.hash), Early(s, e), Late(s, e));
    }
    assert s'.m.sessions - {e.id} == s.m.sessions - {e.id};
    forall id | id in s'.m.sessions ensures SessionOk(s'.m.sessions[id]) {
      if id != e.id { assert id in s'.m.sessions - {e.id}; }
    }
    forall id | id in s'.checks ensures CheckOk(s'.m, id, s'.checks[id]) {
      assert CheckOk(s.m, id, s.checks[id]);
      assert id in s.m.sessions - {e.id};
    }
  }

  /** The session whose password check this event ends, with its verdict. */
  predicate EndsCheck(verify: Verifier, s: System, e: Event, host: string, ok: bool)
    requires Sane(s)
  {
    && e.Done? && e.id in s.checks && s.checks[e.id].Verifying?
    && ok == verify(s.checks[e.id].line, s.checks[e.id].hash)
    && s.m.Of(e.id).host == host && s.checks[e.id].player in s.w.hashes
  }

  lemma DoneRecords(verify: Verifier, s: System, e: Event)
    requires Sane(s) && e.Done? && e.id in s.checks
    ensures var s' := Next(verify, s, e).0;
      && (forall h :: h in s'.m.ipFailures ==> RecordOk(s', h))
      && (forall h :: h in s'.streaks ==> h in s'.m.ipFailures)
  {
    hide AfterVerify, BuildCharacter, SessionOk, RecordOk;
    CheckedSession(s, e.id);
    var s' := Next(verify, s, e).0;
    if s.checks[e.id].Verifying? {
      var c := s.checks[e.id];
      VerifyRecords(s.m, s.w, e.id, c.line, verify(c.line, c.hash), Early(s, e), Late(s, e));
    }
    forall h | h in s'.m.ipFailures ensures RecordOk(s', h) {
      if h in s.m.ipFailures { InStreaks(s, h); }
      if EndsCheck(verify, s, e, h, false) && h != "" {
        CountedOnce(s, s', h, Early(s, e), Late(s, e));
      } else {
        RecordStays(s, s', h);
      }
    }
  }

  lemma InStreaks(s: System, h: string)
    requires h in s.m.ipFailures && RecordOk(s, h)
    ensures h in s.streaks
  {
  }

  lemma RecordStays(s: System, s': System, h: string)
    requires h in s.m.ipFailures && RecordOk(s, h) && s'.clock >= s.clock
    requires h in s'.m.ipFailures && s'.m.ipFailures[h] == s.m.ipFailures[h]
    requires h in s.streaks && h in s'.streaks && s'.streaks[h] == s.streaks[h]
    ensures RecordOk(s', h)
  {
  }

  lemma CountedOnce(s: System, s': System, h: string, failed: int, now: int)
    requires s.clock <= failed <= now == s'.clock
    requires h in s.m.ipFailures ==> RecordOk(s, h)
    requires h !in s.m.ipFailures ==> h !in s.streaks
    requires h in s'.m.ipFailures && s'.m.ipFailures[h] == NoteFailure(s.m.ipFailures, h, failed, now)[h]
    requires h in s'.streaks && s'.streaks[h] == Streak(s, h) + 1
    requires s.clock >= 0
    ensures RecordOk(s', h)
  {
  }

  /** Every step, whatever it is and whosever, keeps the system sane. */
  lemma StepSane(verify: Verifier, s: System, e: Event)
    requires Sane(s)
    ensures Sane(Next(verify, s, e).0)
  {
    hide Handle, Finish;
    match e
    case Line(id, _, _, _) => if id !in s.checks { LineSane(verify, s, e); }
    case Done(id, _, _, _, _) =>
      if id in s.checks {
        DoneSessions(verify, s, e);
        DoneRecords(verify, s, e);
        ClockOn(verify, s, e);
      }
    case Change(_) =>
    case Start(_, _) => StartSane(verify, s, e);
    case StartSite(_, _, _) => StartSane(verify, s, e);
  }

  lemma StartSane(verify: Verifier, s: System, e: Event)
    requires Sane(s) && (e.Start? || e.StartSite?)
    ensures Sane(Next(verify, s, e).0)
  {
    hide Trim;
    var s' := Next(verify, s, e).0;
    forall id | id in s'.checks ensures CheckOk(s'.m, id, s'.checks[id]) {
      assert CheckOk(s.m, id, s.checks[id]);
    }
    forall h | h in s'.m.ipFailures ensures RecordOk(s', h) {
      assert RecordOk(s, h);
    }
  }

  // ----- runs -----

  function Fresh(w: World): System { System(Manager(map[], map[]), w, map[], 0, map[]) }

  function RunFrom(verify: Verifier, s0: System, events: seq<Event>): (s: System)
    requires Sane(s0)
    ensures Sane(s)
  {
    hide Next, Sane;
    if events == [] then s0 else
      var s := RunFrom(verify, s0, events[..|events| - 1]);
      StepSane(verify, s, events[|events| - 1]);
      Next(verify, s, events[|events| - 1]).0
  }

  function Run(verify: Verifier, w: World, events: seq<Event>): (s: System)
    ensures Sane(s)
  {
    RunFrom(verify, Fresh(w), events)
  }

  /** Line j of the run asked for this check, and the hash was the player's then. */
  predicate AskedAt(verify: Verifier, w: World, events: seq<Event>, j: nat, id: Id, c: Check)
    requires j < |events| && c.Verifying?
  {
    var b, e := Run(verify, w, events[..j]), events[j];
    && e.Line? && e.id == id && e.line == c.line
    && b.m.Of(id).step.Password? && b.m.Of(id).step.player == c.player
    && c.player in b.w.hashes && b.w.hashes[c.player] == c.hash
  }

  /** Every password check in progress was asked for by a line of its session. */
  lemma {:induction false} CheckWasAsked(verify: Verifier, w: World, events: seq<Event>, id: Id) returns (j: nat)
    requires id in Run(verify, w, events).checks && Run(verify, w, events).checks[id].Verifying?
    ensures j < |events| && AskedAt(verify, w, events, j, id, Run(verify, w, events).checks[id])
    decreases |events|
  {
    hide Sane, Handle, Finish;
    var n := |events| - 1;
    var s, e := Run(verify, w, events[..n]), events[n];
    var s' := Run(verify, w, events);
    if id in s.checks && s.checks[id] == s'.checks[id] {
      j := CheckWasAsked(verify, w, events[..n], id);
      assert events[..n][..j] == events[..j];
    } else {
      j := n;
      CheckMade(verify, s, e, id);
    }
  }

  lemma CheckMade(verify: Verifier, s: System, e: Event, id: Id)
    requires Sane(s)
    requires var s' := Next(verify, s, e).0;
      id in s'.checks && s'.checks[id].Verifying? && (id !in s.checks || s.checks[id] != s'.checks[id])
    ensures e.Line? && e.id == id
    ensures var c := Next(verify, s, e).0.checks[id];
      && e.line == c.line && s.m.Of(id).step.Password? && s.m.Of(id).step.player == c.player
      && c.player in s.w.hashes && s.w.hashes[c.player] == c.hash
  {
    hide Handle, AfterVerify, AfterHash, Recount, SessionOk, RecordOk;
    if e.Line? && e.id !in s.checks {
      HandleCheck(s.m, s.w, e.id, e.line, Early(s, e), Late(s, e));
    }
  }

  /** Somebody is logged in only at the end of a check. If it was a password
      check, then for that session's player, whose password at the time the line
      was handled matched the line; otherwise it ends the creation, complete
      and valid, of the character logged in. */
  lemma ActorOnlyIfProven(verify: Verifier, w: World, events: seq<Event>, e: Event)
    requires Next(verify, Run(verify, w, events), e).1.Actor?
    ensures e.Done? && e.id in Run(verify, w, events).checks
    ensures var s, p := Run(verify, w, events), Next(verify, Run(verify, w, events), e).1.player;
      match s.checks[e.id]
      case Verifying(line, player, hash) =>
        && p == player && verify(line, hash)
        && exists j :: 0 <= j < |events| && AskedAt(verify, w, events, j, e.id, s.checks[e.id])
      case Hashing =>
        && Ready(NewPassword, s.m.Of(e.id).step.create) && p == s.m.Of(e.id).step.create.name && e.stored
  {
    hide Run, Handle, AfterVerify, Recount, RecordOk, BuildCharacter, Ready;
    var s := Run(verify, w, events);
    if e.Line? && e.id !in s.checks {
      HandleCheck(s.m, s.w, e.id, e.line, Early(s, e), Late(s, e));
    }
    CheckedSession(s, e.id);
    assert SessionOk(s.m.sessions[e.id]);
    match s.checks[e.id]
    case Verifying(line, player, hash) =>
      VerifySession(s.m, s.w, e.id, line, verify(line, hash), Early(s, e), Late(s, e));
      var j := CheckWasAsked(verify, w, events, e.id);
    case Hashing =>
      ReadyBuilds(s.m.sessions[e.id].step.create);
  }

  /** A check never finds its session gone or moved on, and building the new
      character never fails: the end of a check fails only if the world refuses
      the new player. */
  lemma CheckNeverExpires(verify: Verifier, w: World, events: seq<Event>, e: Event)
    requires e.Done? && e.id in Run(verify, w, events).checks
    ensures Next(verify, Run(verify, w, events), e).1 == Failed
      <==> Run(verify, w, events).checks[e.id].Hashing? && !e.stored
  {
    hide Run, AfterVerify, Recount, RecordOk, BuildCharacter, Ready;
    var s := Run(verify, w, events);
    CheckedSession(s, e.id);
    assert SessionOk(s.m.sessions[e.id]);
    match s.checks[e.id]
    case Verifying(line, player, hash) =>
      VerifySession(s.m, s.w, e.id, line, verify(line, hash), Early(s, e), Late(s, e));
    case Hashing =>
      ReadyBuilds(s.m.sessions[e.id].step.create);
  }

  // ----- limits and blocks -----

  /** In every reachable state no session has three failures, and every host's
      counter is its run of failures modulo five. */
  lemma CountersBounded(verify: Verifier, w: World, events: seq<Event>)
    ensures forall id :: id in Run(verify, w, events).m.sessions ==>
      SessionOk(Run(verify, w, events).m.sessions[id])
    ensures forall h :: h in Run(verify, w, events).m.ipFailures ==>
      var s := Run(verify, w, events);
      h in s.streaks && s.m.ipFailures[h].failures == s.streaks[h] % HOST_FAILURES
  {
    hide Run, SessionOk;
    var s := Run(verify, w, events);
    forall h | h in s.m.ipFailures
      ensures h in s.streaks && s.m.ipFailures[h].failures == s.streaks[h] % HOST_FAILURES
    {
      assert RecordOk(s, h);
    }
  }

  function BlockEnd(s: System, host: string): int {
    if host in s.m.ipFailures then s.m.ipFailures[host].blockedUntil else 0
  }

  lemma FailureNoted(verify: Verifier, s: System, e: Event, host: string)
    requires Sane(s) && host != "" && EndsCheck(verify, s, e, host, false)
    ensures var s' := Next(verify, s, e).0;
      && s'.m.ipFailures == NoteFailure(s.m.ipFailures, host, Early(s, e), Late(s, e))
      && s'.streaks == s.streaks[host := Streak(s, host) + 1]
  {
    hide AfterVerify, SessionOk, NoteFailure, RecordOk, Kept, Early, Late;
    CheckedSession(s, e.id);
    VerifyRecords(s.m, s.w, e.id, s.checks[e.id].line, false, Early(s, e), Late(s, e));
    NoteMakes(s.m.ipFailures, host, Early(s, e), Late(s, e));
  }

  lemma NoteMakes(f: map<string, IpRecord>, host: string, failed: int, now: int)
    ensures host in NoteFailure(f, host, failed, now)
  {
  }

  /** Each counted failure lengthens the run, and exactly every fifth starts a block. */
  lemma EveryFifthBlocks(verify: Verifier, s: System, e: Event, host: string)
    requires Sane(s) && host != "" && EndsCheck(verify, s, e, host, false)
    ensures var s', n, now := Next(verify, s, e).0, Streak(s, host) + 1, Late(s, e);
      && Streak(s', host) == n && host in s'.m.ipFailures
      && s'.m.ipFailures[host].failures == n % HOST_FAILURES
      && (n % HOST_FAILURES == 0 ==> s'.m.ipFailures[host].blockedUntil == now + BLOCK_FOR)
      && (n % HOST_FAILURES != 0 ==> s'.m.ipFailures[host].blockedUntil == BlockEnd(s, host))
  {
    hide Next, EndsCheck, SessionOk, Early, Late;
    FailureNoted(verify, s, e, host);
    if host in s.m.ipFailures { assert RecordOk(s, host); }
  }

  /** At the question for the password a session of a blocked host is closed unchecked. */
  lemma NoCheckWhileBlocked(verify: Verifier, s: System, e: Event)
    requires Sane(s) && e.Line? && e.id !in s.checks && s.m.Of(e.id).step.Password? && s.m.Of(e.id).host != ""
    requires s.m.Blocked(s.m.Of(e.id).host, Late(s, e))
    ensures var (s', r) := Next(verify, s, e);
      r == Closed && e.id !in s'.m.sessions && s'.checks == s.checks
  {
  }

  /** A block lasts its time, unless a check that was under way when it began
      succeeds for a session of the same host: then, and only then, it is lifted. */
  lemma BlockLifted(verify: Verifier, s: System, e: Event, host: string, t: int)
    requires Sane(s) && s.m.Blocked(host, t) && host != ""
    requires t >= Next(verify, s, e).0.clock
    ensures !Next(verify, s, e).0.m.Blocked(host, t) <==> EndsCheck(verify, s, e, host, true)
  {
    hide SessionOk;
    assert RecordOk(s, host);
    if e.Line? && e.id !in s.checks {
      HandleRecords(s.m, s.w, e.id, e.line, Early(s, e), Late(s, e));
    } else if e.Done? && e.id in s.checks {
      DoneBlocks(verify, s, e, host, t);
    }
  }

  lemma HandleRecords(m: Manager, w: World, id: Id, line: string, swept: int, now: int)
    ensures Handle(m, w, id, line, swept, now).0.ipFailures == Cleaned(m.ipFailures, swept)
  {
    hide Answer, Cleaned, Trim;
  }

  lemma DoneBlocks(verify: Verifier, s: System, e: Event, host: string, t: int)
    requires Sane(s) && s.m.Blocked(host, t) && host != ""
    requires e.Done? && e.id in s.checks && t >= Next(verify, s, e).0.clock
    ensures !Next(verify, s, e).0.m.Blocked(host, t) <==> EndsCheck(verify, s, e, host, true)
  {
    hide AfterVerify, BuildCharacter, SessionOk;
    CheckedSession(s, e.id);
    assert RecordOk(s, host);
    if s.checks[e.id].Verifying? {
      var c := s.checks[e.id];
      VerifyRecords(s.m, s.w, e.id, c.line, verify(c.line, c.hash), Early(s, e), Late(s, e));
    }
  }

  // ----- what a step leaves alone -----

  predicate IsOf(e: Event, id: Id) { !e.Change? && e.id == id }

  lemma ClockOn(verify: Verifier, s: System, e: Event)
    requires Sane(s)
    ensures Next(verify, s, e).0.clock >= s.clock
    ensures (e.Line? && e.id !in s.checks) || (e.Done? && e.id in s.checks) ==> Next(verify, s, e).0.clock == Late(s, e)
  {
    hide Handle, AfterVerify, AfterHash, Recount, SessionOk, RecordOk;
    if e.Done? && e.id in s.checks { CheckedSession(s, e.id); }
  }

  lemma ChecksAfter(verify: Verifier, s: System, e: Event)
    requires Sane(s)
    ensures var c := Next(verify, s, e).0.checks;
      (e.Line? && c - {e.id} == s.checks - {e.id}) || (e.Done? && c == s.checks - {e.id}) || (!e.Line? && !e.Done? && c == s.checks)
  {
    hide Handle, AfterVerify, AfterHash, Recount, SessionOk, RecordOk;
    if e.Done? && e.id in s.checks { CheckedSession(s, e.id); }
  }

  lemma Untouched<T>(f: map<Id, T>, g: map<Id, T>, changed: Id, id: Id)
    requires g - {changed} == f - {changed} && id != changed
    ensures (id in g <==> id in f) && (id in f ==> g[id] == f[id])
  {
    assert id in g - {changed} <==> id in g;
    assert id in f - {changed} <==> id in f;
    if id in f { assert (g - {changed})[id] == g[id]; }
  }

  lemma OthersKept(verify: Verifier, s: System, e: Event)
    requires Sane(s) && !e.Change?
    ensures Next(verify, s, e).0.m.sessions - {e.id} == s.m.sessions - {e.id}
  {
    hide Handle, AfterVerify, SessionOk, RecordOk, BuildCharacter, Trim;
    if e.Line? && e.id !in s.checks {
      HandleSession(s.m, s.w, e.id, e.line, Early(s, e), Late(s, e));
    } else if e.Done? && e.id in s.checks {
      CheckedSession(s, e.id);
      if s.checks[e.id].Verifying? {
        var c := s.checks[e.id];
        VerifySession(s.m, s.w, e.id, c.line, verify(c.line, c.hash), Early(s, e), Late(s, e));
      }
    }
  }

  // ----- runs in parts -----

  lemma {:induction false} RunFromAppend(verify: Verifier, s: System, a: seq<Event>, b: seq<Event>)
    requires Sane(s)
    ensures RunFrom(verify, s, a + b) == RunFrom(verify, RunFrom(verify, s, a), b)
    decreases |b|
  {
    hide Next, Sane;
    if b == [] {
      assert a + b == a;
    } else {
      assert (a + b)[..|a + b| - 1] == a + b[..|b| - 1];
      RunFromAppend(verify, s, a, b[..|b| - 1]);
    }
  }

  lemma RunFromNone(verify: Verifier, s: System)
    requires Sane(s)
    ensures RunFrom(verify, s, []) == s
  {
    hide Sane;
  }

  lemma RunFromOne(verify: Verifier, s: System, e: Event)
    requires Sane(s)
    ensures RunFrom(verify, s, [e]) == Next(verify, s, e).0
  {
    hide Next, Sane;
    assert [e][..0] == [];
  }

  lemma RunFromThree(verify: Verifier, s: System, a: Event, b: Event, c: Event)
    requires Sane(s)
    ensures Sane(Next(verify, s, a).0) && Sane(Next(verify, Next(verify, s, a).0, b).0)
    ensures RunFrom(verify, s, [a, b, c]) == Next(verify, Next(verify, Next(verify, s, a).0, b).0, c).0
  {
    hide Next, Sane, RunFrom;
    StepSane(verify, s, a);
    var s1 := Next(verify, s, a).0;
    StepSane(verify, s1, b);
    RunFromOne(verify, s, a);
    RunFromAppend(verify, s, [a], [b]);
    RunFromOne(verify, s1, b);
    RunFromAppend(verify, s, [a] + [b], [c]);
    RunFromOne(verify, Next(verify, s1, b).0, c);
    assert [a] + [b] + [c] == [a, b, c];
  }
}
