/** What the login dialogue comes to, with lines handled one at a time
    (cmd/muhan-server/login.go). */
module LoginOutcomes {
  import opened LoginText
  import opened CharacterCreation
  import opened Login
  import opened LoginRuns
  import opened LoginTurns

  // ----- logging in -----

  /** A player who can log in: known by that name, which is no path, with a hash. */
  predicate Known(w: World, name: string) {
    name != "" && Trim(name) == name && name in w.hashes && !w.pathUnsafe(name) && w.hashes[name] != ""
  }

  /** The right password logs in, from any host that is not blocked. */
  lemma RightPasswordLogsIn(verify: Verifier, s: System, a: Turn, b: Turn, c: Turn, id: Id, host: string, name: string, line: string)
    requires Sane(s) && s.checks == map[] && Known(s.w, name) && verify(line, s.w.hashes[name])
    requires a.e == Start(id, host) && b.e.Line? && b.e.id == id && Trim(b.e.line) == name
    requires c.e.Line? && c.e.id == id && c.e.line == line
    ensures var s1 := TakeTurn(verify, s, a).0;
      var s2 := TakeTurn(verify, s1, b).0;
      var (s3, r) := TakeTurn(verify, s2, c);
      Trim(host) == "" || !s2.m.Blocked(Trim(host), Late(s2, c.e)) ==> r == Actor(name) && id !in s3.m.sessions
  {
    hide Next, Sane, Trim;
    var h := Trim(host);
    StartStep(verify, s, a.e);
    var s1 := TakeTurn(verify, s, a).0;
    assert s1 == Next(verify, s, a.e).0;
    NameStep(verify, s1, b.e, name, h);
    var s2 := TakeTurn(verify, s1, b).0;
    assert s2 == Next(verify, s1, b.e).0;
    if h == "" || !s2.m.Blocked(h, Late(s2, c.e)) {
      PasswordStep(verify, s2, c.e, name, h);
      var s3 := Next(verify, s2, c.e).0;
      StepSane(verify, s2, c.e);
      EndStep(verify, s3, Ending(c), name);
    }
  }

  lemma StartStep(verify: Verifier, s: System, e: Event)
    requires Sane(s) && s.checks == map[] && e.Start?
    ensures var s' := Next(verify, s, e).0;
      s'.w == s.w && s'.checks == map[] && e.id in s'.m.sessions && s'.m.sessions[e.id] == Session(Name, Trim(e.host))
  {
    hide Trim, SessionOk, RecordOk;
  }

  lemma NameStep(verify: Verifier, s: System, e: Event, name: string, host: string)
    requires Sane(s) && s.checks == map[] && e.Line? && Trim(e.line) == name && Known(s.w, name)
    requires e.id in s.m.sessions && s.m.sessions[e.id] == Session(Name, host)
    ensures var s' := Next(verify, s, e).0;
      && s'.w == s.w && s'.checks == map[] && e.id in s'.m.sessions
      && s'.m.sessions[e.id] == Session(Password(name, 0), host)
  {
    hide Trim, Cleaned, Kept, SessionOk, RecordOk;
  }

  lemma PasswordStep(verify: Verifier, s: System, e: Event, name: string, host: string)
    requires Sane(s) && s.checks == map[] && e.Line? && Known(s.w, name)
    requires e.id in s.m.sessions && s.m.sessions[e.id] == Session(Password(name, 0), host)
    requires host == "" || !s.m.Blocked(host, Late(s, e))
    ensures var s' := Next(verify, s, e).0;
      && s'.w == s.w && s'.checks == map[e.id := Verifying(e.line, name, s.w.hashes[name])]
      && s'.m.sessions == s.m.sessions
  {
    hide Trim, Stale, Kept, SessionOk, RecordOk;
  }

  lemma EndStep(verify: Verifier, s: System, e: Event, name: string)
    requires Sane(s) && e.Done? && e.id in s.checks && e.id in s.m.sessions && name in s.w.hashes
    requires s.m.sessions[e.id].step.Password? && s.m.sessions[e.id].step.player == name
    requires s.checks[e.id].Verifying? && verify(s.checks[e.id].line, s.checks[e.id].hash)
    ensures Next(verify, s, e).1 == Actor(name) && e.id !in Next(verify, s, e).0.m.sessions
  {
    hide Trim, NoteFailure, Recount, SessionOk, RecordOk;
  }

  // ----- wrong passwords -----

  /** A wrong password closes the session if it is blank or the third one, and
      leaves it at its question, one failure on, if not. */
  lemma WrongPassword(verify: Verifier, s: System, e: Event)
    requires Sane(s) && e.Done? && e.id in s.checks && s.checks[e.id].Verifying?
    requires !verify(s.checks[e.id].line, s.checks[e.id].hash) && s.checks[e.id].player in s.w.hashes
    ensures e.id in s.m.sessions && s.m.sessions[e.id].step.Password?
    ensures var (s', r) := Next(verify, s, e);
      var x := s.m.sessions[e.id];
      var ended := Trim(s.checks[e.id].line) == "" || x.step.failures == 2;
      && r == (if ended then Closed else Prompted)
      && (ended ==> e.id !in s'.m.sessions)
      && (!ended ==> e.id in s'.m.sessions
                     && s'.m.sessions[e.id] == Session(Password(x.step.player, x.step.failures + 1), x.host))
  {
    hide Trim, NoteFailure, Recount, RecordOk;
    CheckedSession(s, e.id);
    assert SessionOk(s.m.sessions[e.id]);
  }

  // ----- new players -----

  /** A name nobody has starts the creation of a character exactly if it is one
      to six Hangul syllables; anything else is asked for again. */
  lemma NewName(verify: Verifier, s: System, e: Event)
    requires Sane(s) && e.Line? && e.id !in s.checks && e.id in s.m.sessions && s.m.sessions[e.id].step == Name
    requires Trim(e.line) !in s.w.hashes
    ensures var (s', r) := Next(verify, s, e);
      var name, x := Trim(e.line), s.m.sessions[e.id];
      && r == Prompted && e.id in s'.m.sessions
      && s'.m.sessions[e.id] ==
        if 1 <= |name| <= 6 && (forall i :: 0 <= i < |name| ==> 0xAC00 <= name[i] as int <= 0xD7A3)
        then Session(Creating(Confirm, NO_CREATE.(name := name)), x.host) else x
  {
    hide Trim, Cleaned, Kept, SessionOk, RecordOk;
  }

  /** A new password is taken exactly if it is 3 to 14 bytes long. */
  lemma NewPasswordLength(verify: Verifier, s: System, e: Event)
    requires Sane(s) && e.Line? && e.id !in s.checks && e.id in s.m.sessions
    requires s.m.sessions[e.id].step.Creating? && s.m.sessions[e.id].step.stage == NewPassword
    ensures var (s', r) := Next(verify, s, e);
      && s'.m.sessions == s.m.sessions
      && (if 3 <= s.w.encodedLength(e.line) <= 14 then r == Hash(e.line) && s'.checks == s.checks[e.id := Hashing]
          else r == Prompted && s'.checks == s.checks)
  {
    hide Trim, Cleaned, Kept, SessionOk, RecordOk, BuildCharacter;
  }

  /** The answers before it are taken by the dialogue of CharacterCreation. */
  lemma AnswerTaken(verify: Verifier, s: System, e: Event)
    requires Sane(s) && e.Line? && e.id !in s.checks && e.id in s.m.sessions
    requires s.m.sessions[e.id].step.Creating? && s.m.sessions[e.id].step.stage != NewPassword
    ensures var (s', r) := Next(verify, s, e);
      var x := s.m.sessions[e.id];
      && r == Prompted && s'.checks == s.checks && e.id in s'.m.sessions
      && s'.m.sessions[e.id] == match Answer(x.step.stage, x.step.create, e.line)
         case At(g, c) => Session(Creating(g, c), x.host)
         case BackToName => Session(Name, x.host)
  {
    hide Trim, Cleaned, Kept, SessionOk, RecordOk, Answer;
  }

  /** The character created is logged in once the world has stored it. */
  lemma CreationEnds(verify: Verifier, s: System, e: Event)
    requires Sane(s) && e.Done? && e.id in s.checks && s.checks[e.id].Hashing?
    ensures e.id in s.m.sessions && s.m.sessions[e.id].step.Creating?
    ensures var (s', r) := Next(verify, s, e);
      var name := s.m.sessions[e.id].step.create.name;
      if e.stored then r == Actor(name) && e.id !in s'.m.sessions && name in s'.w.hashes && s'.w.hashes[name] == e.newHash
      else r == Reply.Failed && s'.m == s.m
  {
    hide Trim, Recount, RecordOk, Ready, BuildCharacter;
    CheckedSession(s, e.id);
    assert SessionOk(s.m.sessions[e.id]);
    ReadyBuilds(s.m.sessions[e.id].step.create);
  }

  /** A name that is blank or could be a path is asked for again, and a player
      without a password cannot log in. */
  lemma NameRefused(verify: Verifier, s: System, e: Event)
    requires Sane(s) && e.Line? && e.id !in s.checks && e.id in s.m.sessions && s.m.sessions[e.id].step == Name
    ensures var (s', r) := Next(verify, s, e);
      var name := Trim(e.line);
      && (name == "" || (name in s.w.hashes && s.w.pathUnsafe(name)) ==>
            r == Prompted && e.id in s'.m.sessions && s'.m.sessions[e.id] == s.m.sessions[e.id])
      && (name != "" && name in s.w.hashes && !s.w.pathUnsafe(name) && s.w.hashes[name] == "" ==>
            r == Prompted && e.id !in s'.m.sessions)
  {
    hide Trim, Cleaned, Kept, SessionOk, RecordOk;
  }

  /** A player who has been taken out of the world is not asked again: the session
      is dropped and nothing is counted. */
  lemma PlayerGone(verify: Verifier, s: System, e: Event)
    requires Sane(s) && ((e.Line? && e.id !in s.checks) || (e.Done? && e.id in s.checks))
    requires e.id in s.m.sessions && s.m.sessions[e.id].step.Password? && s.m.sessions[e.id].step.player !in s.w.hashes
    requires e.Line? ==> s.m.sessions[e.id].host == "" || !s.m.Blocked(s.m.sessions[e.id].host, Late(s, e))
    ensures var (s', r) := Next(verify, s, e);
      && r == Prompted && e.id !in s'.m.sessions && e.id !in s'.checks
      && (e.Done? ==> s'.m.ipFailures == s.m.ipFailures)
  {
    hide Trim, NoteFailure, Stale, Kept, SessionOk, RecordOk;
    if e.Done? { CheckedSession(s, e.id); }
  }
}
