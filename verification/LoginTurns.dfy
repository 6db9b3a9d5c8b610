/** The login manager (cmd/muhan-server/login.go) as the server runs it: its one
    event loop (internal/engine/game/loop.go) handles a line to the end before
    it takes the next one. */
module LoginTurns {
  import opened LoginText
  import opened CharacterCreation
  import opened Login
  import opened LoginRuns

  /** An event, and how the check ends that it may ask for. The game loop handles
      a line to its end before it takes the next one. */
  datatype Turn = Turn(e: Event, early: int, now: int, stored: bool, newHash: string)

  function Ending(t: Turn): Event
    requires t.e.Line?
  {
    Done(t.e.id, t.early, t.now, t.stored, t.newHash)
  }

  function TakeTurn(verify: Verifier, s: System, t: Turn): (r: (System, Reply))
    requires Sane(s)
    ensures Sane(r.0)
  {
    hide Sane, Next;
    StepSane(verify, s, t.e);
    var (s', r) := Next(verify, s, t.e);
    if t.e.Line? && t.e.id in s'.checks then StepSane(verify, s', Ending(t)); Next(verify, s', Ending(t)) else (s', r)
  }

  function TakeTurns(verify: Verifier, s0: System, turns: seq<Turn>): (s: System)
    requires Sane(s0)
    ensures Sane(s)
  {
    if turns == [] then s0 else
      TakeTurn(verify, TakeTurns(verify, s0, turns[..|turns| - 1]), turns[|turns| - 1]).0
  }

  /** A turn leaves no check in progress if there was none. */
  lemma TurnQuiet(verify: Verifier, s: System, t: Turn)
    requires Sane(s) && s.checks == map[]
    ensures TakeTurn(verify, s, t).0.checks == map[] && TakeTurn(verify, s, t).0.clock >= s.clock
    ensures TakeTurn(verify, s, t).0.clock >= Next(verify, s, t.e).0.clock
  {
    hide Next, Sane;
    var s' := Next(verify, s, t.e).0;
    StepSane(verify, s, t.e);
    ClockOn(verify, s, t.e);
    ChecksAfter(verify, s, t.e);
    if t.e.Line? && t.e.id in s'.checks {
      ClockOn(verify, s', Ending(t));
      ChecksAfter(verify, s', Ending(t));
    } else if t.e.Line? {
      assert s'.checks == s'.checks - {t.e.id};
    }
  }

  lemma TurnKeepsBlock(verify: Verifier, s: System, t: Turn, host: string, until: int)
    requires Sane(s) && s.checks == map[] && host != "" && s.m.Blocked(host, until)
    requires until >= TakeTurn(verify, s, t).0.clock
    ensures TakeTurn(verify, s, t).0.m.Blocked(host, until)
  {
    hide Next, Sane, Manager.Blocked;
    var s', e := Next(verify, s, t.e).0, t.e;
    StepSane(verify, s, e);
    TurnQuiet(verify, s, t);
    BlockLifted(verify, s, e, host, until);
    if e.Line? && e.id in s'.checks {
      AskedElsewhere(verify, s, e, host, until);
      BlockLifted(verify, s', Ending(t), host, until);
    }
  }

  /** A line that starts a password check comes from a host that is not blocked. */
  lemma AskedElsewhere(verify: Verifier, s: System, e: Event, host: string, until: int)
    requires Sane(s) && s.checks == map[] && host != "" && s.m.Blocked(host, until) && e.Line?
    requires until >= Next(verify, s, e).0.clock && e.id in Next(verify, s, e).0.checks
    ensures var s' := Next(verify, s, e).0; s'.checks[e.id].Verifying? ==> s'.m.Of(e.id).host != host
  {
    hide Handle, Sane;
    HandleCheck(s.m, s.w, e.id, e.line, Early(s, e), Late(s, e));
    ClockOn(verify, s, e);
    var x := s.m.Of(e.id);
    if x.step.Password? && x.host == host { NoCheckWhileBlocked(verify, s, e); }
  }

  /** Line after line, however many and of whichever sessions, the record of a
      block lasts its time. */
  lemma {:induction false} BlockLastsInTurns(verify: Verifier, s: System, turns: seq<Turn>, host: string, until: int)
    requires Sane(s) && s.checks == map[] && host != "" && s.m.Blocked(host, until)
    requires until >= TakeTurns(verify, s, turns).clock
    ensures TakeTurns(verify, s, turns).checks == map[]
    ensures TakeTurns(verify, s, turns).m.Blocked(host, until)
  {
    hide Sane, TakeTurn, Manager.Blocked;
    if turns != [] {
      var n := |turns| - 1;
      TurnsQuiet(verify, s, turns[..n]);
      var b := TakeTurns(verify, s, turns[..n]);
      TurnQuiet(verify, b, turns[n]);
      BlockLastsInTurns(verify, s, turns[..n], host, until);
      TurnKeepsBlock(verify, b, turns[n], host, until);
    }
  }

  lemma {:induction false} TurnsQuiet(verify: Verifier, s: System, turns: seq<Turn>)
    requires Sane(s) && s.checks == map[]
    ensures TakeTurns(verify, s, turns).checks == map[]
  {
    hide Sane, TakeTurn;
    if turns != [] {
      var n := |turns| - 1;
      TurnsQuiet(verify, s, turns[..n]);
      TurnQuiet(verify, TakeTurns(verify, s, turns[..n]), turns[n]);
    }
  }

  /** A turn with a line is one call of `HandleLine`. */
  lemma TurnIsCall(verify: Verifier, s: System, t: Turn)
    requires Sane(s) && s.checks == map[] && t.e.Line?
    ensures var a, b := Early(s, t.e), Late(s, t.e);
      var ts := Times(a, b, Later(b, t.early), Later(Later(b, t.early), t.now));
      var (s', r) := TakeTurn(verify, s, t);
      (s'.m, r) == HandleAlone(s.m, s.w, verify, t.e.id, t.e.line, ts, t.stored)
  {
    hide Handle, AfterVerify, AfterHash, Recount, Sane;
    var e := t.e;
    HandleCheck(s.m, s.w, e.id, e.line, Early(s, e), Late(s, e));
    StepSane(verify, s, e);
    ClockOn(verify, s, e);
    var s' := Next(verify, s, e).0;
    if e.id in s'.checks { CheckedSession(s', e.id); }
  }

  // ----- sessions of a blocked host -----

  /** The session's record, if it has one, names the host. */
  predicate NamesHost(s: System, id: Id, host: string) {
    id in s.m.sessions ==> s.m.sessions[id].host == host
  }

  /** The session is started anew from elsewhere, or has no record and sends an
      empty line, by which it gets one without a host. */
  predicate LosesHost(s: System, e: Event, id: Id, host: string) {
    && IsOf(e, id) && id !in s.checks
    && (((e.Start? || e.StartSite?) && Trim(e.host) != host) || (e.Line? && e.line == "" && id !in s.m.sessions))
  }

  /** A step takes a session away from its host if and only if it loses it so. */
  lemma HostStep(verify: Verifier, s: System, e: Event, id: Id, host: string)
    requires Sane(s) && NamesHost(s, id, host) && host != ""
    ensures NamesHost(Next(verify, s, e).0, id, host) <==> !LosesHost(s, e, id, host)
  {
    hide Sane, Answer, Cleaned, Kept, Trim, AfterVerify, AfterHash, Recount;
    if !e.Change? && e.id != id {
      hide Next;
      OthersKept(verify, s, e);
      Untouched(s.m.sessions, Next(verify, s, e).0.m.sessions, e.id, id);
    } else if e.Done? && id in s.checks {
      CheckedSession(s, id);
      DoneHost(verify, s, e);
    }
  }

  lemma DoneHost(verify: Verifier, s: System, e: Event)
    requires Sane(s) && e.Done? && e.id in s.checks
    ensures e.id in s.m.sessions && NamesHost(Next(verify, s, e).0, e.id, s.m.sessions[e.id].host)
  {
    hide Trim, NoteFailure, BuildCharacter, Recount, SessionOk, RecordOk;
    CheckedSession(s, e.id);
  }

  lemma HostTurn(verify: Verifier, s: System, t: Turn, id: Id, host: string)
    requires Sane(s) && s.checks == map[] && NamesHost(s, id, host) && host != ""
    ensures NamesHost(TakeTurn(verify, s, t).0, id, host) <==> !LosesHost(s, t.e, id, host)
  {
    hide Next, Sane, NamesHost, LosesHost;
    var s' := Next(verify, s, t.e).0;
    StepSane(verify, s, t.e);
    HostStep(verify, s, t.e, id, host);
    if t.e.Line? && t.e.id in s'.checks {
      NotLost(verify, s, t.e, id, host);
      HostStep(verify, s', Ending(t), id, host);
      assert !LosesHost(s', Ending(t), id, host) by { DoneKeeps(s', Ending(t), id, host); }
    }
  }

  lemma NotLost(verify: Verifier, s: System, e: Event, id: Id, host: string)
    requires Sane(s) && s.checks == map[] && e.Line? && e.id in Next(verify, s, e).0.checks
    ensures !LosesHost(s, e, id, host)
  {
    hide Trim, Answer, Cleaned, Kept;
  }

  lemma DoneKeeps(s: System, e: Event, id: Id, host: string)
    requires e.Done?
    ensures !LosesHost(s, e, id, host)
  {
  }

  /** Over any turns in which a session of a blocked host does not lose its host,
      no password of it is checked while the block lasts. */
  lemma BlockKeepsOut(verify: Verifier, s: System, turns: seq<Turn>, e: Event, host: string)
    requires Sane(s) && s.checks == map[] && host != "" && e.Line? && NamesHost(s, e.id, host)
    requires forall k :: 0 <= k < |turns| ==> !LosesHost(TakeTurns(verify, s, turns[..k]), turns[k].e, e.id, host)
    requires s.m.Blocked(host, Late(TakeTurns(verify, s, turns), e))
    ensures !Next(verify, TakeTurns(verify, s, turns), e).1.Verify?
  {
    hide TakeTurns, Sane, LosesHost;
    var b := TakeTurns(verify, s, turns);
    BlockLastsInTurns(verify, s, turns, host, Late(b, e));
    HostKept(verify, s, turns, e.id, host);
    hide Handle;
    HandleCheck(b.m, b.w, e.id, e.line, Early(b, e), Late(b, e));
    if b.m.Of(e.id).step.Password? { NoCheckWhileBlocked(verify, b, e); }
  }

  lemma {:induction false} HostKept(verify: Verifier, s: System, turns: seq<Turn>, id: Id, host: string)
    requires Sane(s) && s.checks == map[] && host != "" && NamesHost(s, id, host)
    requires forall k :: 0 <= k < |turns| ==> !LosesHost(TakeTurns(verify, s, turns[..k]), turns[k].e, id, host)
    ensures NamesHost(TakeTurns(verify, s, turns), id, host)
    decreases |turns|
  {
    hide TakeTurn, Sane, LosesHost, NamesHost;
    if turns != [] {
      var n := |turns| - 1;
      forall k | 0 <= k < n ensures !LosesHost(TakeTurns(verify, s, turns[..n][..k]), turns[..n][k].e, id, host) {
        assert turns[..n][..k] == turns[..k] && turns[..n][k] == turns[k];
      }
      HostKept(verify, s, turns[..n], id, host);
      TurnsQuiet(verify, s, turns[..n]);
      HostTurn(verify, TakeTurns(verify, s, turns[..n]), turns[n], id, host);
    }
  }

  // ----- sessions that start meanwhile -----

  /** The accept loop starts sessions from outside the event loop, also between
      the two locked parts of a line; it might as well have waited for its end. */
  lemma StartCommutes(verify: Verifier, s: System, start: Event, e: Event)
    requires Sane(s) && (start.Start? || start.StartSite?) && start.id !in s.checks && e.Done? && e.id != start.id
    ensures var s' := Next(verify, s, start).0;
      && Sane(s') && Sane(Next(verify, s, e).0)
      && Next(verify, s', e).1 == Next(verify, s, e).1
      && Next(verify, s', e).0 == Next(verify, Next(verify, s, e).0, start).0
  {
    hide Sane, Next;
    StepSane(verify, s, start);
    StepSane(verify, s, e);
    ChecksAfter(verify, s, e);
    StartIsWith(verify, s, start);
    StartIsWith(verify, Next(verify, s, e).0, start);
    DoneBeside(verify, s, e, start.id, Started(start));
  }

  function Started(e: Event): Session
    requires e.Start? || e.StartSite?
  {
    Session(if e.Start? then Name else SitePassword(e.password), Trim(e.host))
  }

  lemma StartIsWith(verify: Verifier, s: System, e: Event)
    requires Sane(s) && (e.Start? || e.StartSite?) && e.id !in s.checks
    ensures Next(verify, s, e).0 == s.(m := s.m.With(e.id, Started(e)))
  {
    hide Trim, SessionOk, RecordOk;
  }

  lemma DoneBeside(verify: Verifier, s: System, e: Event, other: Id, x: Session)
    requires Sane(s) && Sane(s.(m := s.m.With(other, x))) && e.Done? && e.id != other
    ensures var (s', r) := Next(verify, s, e);
      Next(verify, s.(m := s.m.With(other, x)), e) == (s'.(m := s'.m.With(other, x)), r)
  {
    hide SessionOk, RecordOk, AfterVerify, AfterHash;
    if e.id in s.checks {
      CheckedSession(s, e.id);
      if s.checks[e.id].Verifying? {
        var c := s.checks[e.id];
        VerifyBeside(s.m, s.w, e.id, c.line, verify(c.line, c.hash), Early(s, e), Late(s, e), other, x);
      } else {
        HashBeside(s.m, e.id, e.stored, other, x);
      }
    }
  }

  lemma VerifyBeside(m: Manager, w: World, id: Id, line: string, ok: bool, failed: int, now: int, other: Id, x: Session)
    requires id != other
    ensures var (m', r) := AfterVerify(m, w, id, line, ok, failed, now);
      AfterVerify(m.With(other, x), w, id, line, ok, failed, now) == (m'.With(other, x), r)
  {
    hide Trim, NoteFailure;
    if id in m.sessions && m.sessions[id].step.Password? {
      var y := m.sessions[id].(step := m.sessions[id].step.(failures := m.sessions[id].step.failures + 1));
      assert m.sessions[other := x] - {id} == (m.sessions - {id})[other := x];
      assert m.sessions[other := x][id := y] == m.sessions[id := y][other := x];
    }
  }

  lemma HashBeside(m: Manager, id: Id, stored: bool, other: Id, x: Session)
    requires id != other
    ensures var (m', r) := AfterHash(m, id, stored);
      AfterHash(m.With(other, x), id, stored) == (m'.With(other, x), r)
  {
    hide BuildCharacter;
    assert m.sessions[other := x] - {id} == (m.sessions - {id})[other := x];
  }
}
