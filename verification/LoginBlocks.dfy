/** How guessing blocks a host, in milliseconds (cmd/muhan-server/login.go), with
    lines handled one at a time. */
module LoginBlocks {
  import opened LoginText
  import opened CharacterCreation
  import opened Login
  import opened LoginRuns
  import opened LoginTurns

  // ----- what one step does to a host's record -----

  /** A line sweeps the host's record out: ten minutes have passed since the last
      failure, and the block is over. */
  predicate SweptOut(s: System, e: Event, host: string) {
    && e.Line? && e.id !in s.checks && host in s.m.ipFailures
    && Early(s, e) - s.m.ipFailures[host].lastFailure > 600_000
    && Early(s, e) > s.m.ipFailures[host].blockedUntil
  }

  /** Until a check ends, a host's record is either as it was or swept out. */
  lemma RecordSwept(verify: Verifier, s: System, e: Event, host: string)
    requires Sane(s) && !e.Done?
    ensures var f, f' := s.m.ipFailures, Next(verify, s, e).0.m.ipFailures;
      && (host in f' <==> host in f && !SweptOut(s, e, host))
      && (host in f' ==> f'[host] == f[host])
  {
    hide Handle, SessionOk, RecordOk;
    if e.Line? && e.id !in s.checks { HandleRecords(s.m, s.w, e.id, e.line, Early(s, e), Late(s, e)); }
  }

  /** The turn has a password of a session of the host checked, with this verdict. */
  predicate Guesses(verify: Verifier, s: System, t: Turn, host: string, ok: bool)
    requires Sane(s)
  {
    var (s', r) := Next(verify, s, t.e);
    t.e.Line? && r.Verify? && s'.m.Of(t.e.id).host == host && ok == verify(r.line, r.hash)
  }

  /** When the failure is noted, and when the turn is over. */
  function FailTime(verify: Verifier, s: System, t: Turn): int
    requires Sane(s) && t.e.Line?
  {
    Early(Next(verify, s, t.e).0, Ending(t))
  }

  /** A host's record: how often it failed, when last, and until when it is blocked. */
  datatype RecordOption = NoRecord | TheRecord(r: IpRecord)

  function RecordOf(s: System, host: string): RecordOption {
    if host in s.m.ipFailures then TheRecord(s.m.ipFailures[host]) else NoRecord
  }

  /** One failure more: the fifth blocks the host for five minutes. */
  function AfterFailure(r: RecordOption, failed: int, now: int): IpRecord {
    var n, until := if r.TheRecord? then r.r.failures else 0, if r.TheRecord? then r.r.blockedUntil else 0;
    if n + 1 >= 5 then IpRecord(0, failed, now + 300_000) else IpRecord(n + 1, failed, until)
  }

  lemma TurnRecord(verify: Verifier, s: System, t: Turn, host: string)
    requires Sane(s) && s.checks == map[] && host != ""
    ensures var was := if SweptOut(s, t.e, host) then NoRecord else RecordOf(s, host);
      var s' := TakeTurn(verify, s, t).0;
      && (Guesses(verify, s, t, host, true) ==> RecordOf(s', host) == NoRecord)
      && (Guesses(verify, s, t, host, false) ==> RecordOf(s', host) == TheRecord(AfterFailure(was, FailTime(verify, s, t), s'.clock)))
      && (!Guesses(verify, s, t, host, true) && !Guesses(verify, s, t, host, false) ==> RecordOf(s', host) == was)
  {
    hide Next, Sane, SweptOut, AfterFailure;
    var e := t.e;
    StepSane(verify, s, e);
    var s1 := Next(verify, s, e).0;
    if e.Done? {
      NoneEnds(verify, s, e);
    } else {
      RecordSwept(verify, s, e, host);
      if e.Line? {
        LineChecks(verify, s, e);
        if e.id in s1.checks { EndRecord(verify, s1, Ending(t), host); }
      }
    }
  }

  lemma NoneEnds(verify: Verifier, s: System, e: Event)
    requires Sane(s) && s.checks == map[] && e.Done?
    ensures Next(verify, s, e) == (s, Prompted)
    ensures forall host :: !SweptOut(s, e, host)
  {
  }

  /** A line has a check in progress exactly if its reply says so. */
  lemma LineChecks(verify: Verifier, s: System, e: Event)
    requires Sane(s) && s.checks == map[] && e.Line?
    ensures var (s', r) := Next(verify, s, e);
      && (e.id in s'.checks <==> r.Verify? || r.Hash?)
      && (r.Verify? ==> s'.checks[e.id] == Verifying(r.line, r.player, r.hash) && r.player in s'.w.hashes)
      && (r.Hash? ==> s'.checks[e.id] == Hashing)
  {
    hide Handle, SessionOk, RecordOk;
    HandleCheck(s.m, s.w, e.id, e.line, Early(s, e), Late(s, e));
  }

  lemma EndRecord(verify: Verifier, s: System, e: Event, host: string)
    requires Sane(s) && e.Done? && e.id in s.checks && host != ""
    requires s.checks[e.id].Verifying? ==> s.checks[e.id].player in s.w.hashes
    ensures var s', c := Next(verify, s, e).0, s.checks[e.id];
      && s'.clock == Late(s, e)
      && RecordOf(s', host) ==
        if c.Hashing? || s.m.Of(e.id).host != host then RecordOf(s, host)
        else if verify(c.line, c.hash) then NoRecord
        else TheRecord(AfterFailure(RecordOf(s, host), Early(s, e), Late(s, e)))
  {
    hide AfterVerify, BuildCharacter, SessionOk, RecordOk, Recount;
    CheckedSession(s, e.id);
    if s.checks[e.id].Verifying? {
      var c := s.checks[e.id];
      VerifyRecords(s.m, s.w, e.id, c.line, verify(c.line, c.hash), Early(s, e), Late(s, e));
    }
  }

  // ----- guessing -----

  /** The times of the failures of the host, in order. */
  function FailTimes(verify: Verifier, s: System, turns: seq<Turn>, host: string): seq<int>
    requires Sane(s)
  {
    if turns == [] then [] else
      var n := |turns| - 1;
      var b := TakeTurns(verify, s, turns[..n]);
      FailTimes(verify, s, turns[..n], host)
        + if Guesses(verify, b, turns[n], host, false) then [FailTime(verify, b, turns[n])] else []
  }

  /** The guesses come at most ten minutes one after the other. */
  predicate Steady(times: seq<int>) {
    forall i :: 0 < i < |times| ==> times[i] - times[i - 1] <= 600_000
  }

  /** No password of the host's sessions was right. */
  ghost predicate NoSuccess(verify: Verifier, s: System, turns: seq<Turn>, host: string)
    requires Sane(s)
  {
    forall k :: 0 <= k < |turns| ==> !Guesses(verify, TakeTurns(verify, s, turns[..k]), turns[k], host, true)
  }

  /** With fewer than five failures so far they are all on record, unless the last
      one is more than ten minutes ago. */
  predicate AllNoted(s: System, times: seq<int>, host: string) {
    if times == [] then RecordOf(s, host) == NoRecord
    else RecordOf(s, host) == TheRecord(IpRecord(|times|, times[|times| - 1], 0)) || s.clock - times[|times| - 1] > 600_000
  }

  lemma {:induction false} GuessesNoted(verify: Verifier, s: System, turns: seq<Turn>, host: string)
    requires Sane(s) && s.checks == map[] && host != "" && host !in s.m.ipFailures
    requires NoSuccess(verify, s, turns, host)
    requires Steady(FailTimes(verify, s, turns, host)) && |FailTimes(verify, s, turns, host)| < 5
    ensures AllNoted(TakeTurns(verify, s, turns), FailTimes(verify, s, turns, host), host)
    decreases |turns|
  {
    hide Sane, TakeTurn, Guesses, AllNoted, Steady, FailTime;
    if turns == [] {
      NothingNoted(s, host);
    } else {
      var n := |turns| - 1;
      FewerTurns(verify, s, turns, host);
      GuessesNoted(verify, s, turns[..n], host);
      TurnsQuiet(verify, s, turns[..n]);
      var b := TakeTurns(verify, s, turns[..n]);
      GuessIsLine(verify, b, turns[n], host);
      NotedStep(verify, b, turns[n], FailTimes(verify, s, turns[..n], host), host);
      if !Guesses(verify, b, turns[n], host, false) {
        assert FailTimes(verify, s, turns, host) == FailTimes(verify, s, turns[..n], host);
      }
    }
  }

  lemma NothingNoted(s: System, host: string)
    requires host !in s.m.ipFailures
    ensures AllNoted(s, [], host)
  {
  }

  lemma FewerTurns(verify: Verifier, s: System, turns: seq<Turn>, host: string)
    requires Sane(s) && turns != [] && NoSuccess(verify, s, turns, host)
    ensures var n := |turns| - 1;
      && NoSuccess(verify, s, turns[..n], host)
      && !Guesses(verify, TakeTurns(verify, s, turns[..n]), turns[n], host, true)
      && FailTimes(verify, s, turns[..n], host) <= FailTimes(verify, s, turns, host)
      && (Steady(FailTimes(verify, s, turns, host)) ==> Steady(FailTimes(verify, s, turns[..n], host)))
  {
    hide Sane, TakeTurns, Guesses;
    var n := |turns| - 1;
    forall k | 0 <= k < n ensures !Guesses(verify, TakeTurns(verify, s, turns[..n][..k]), turns[..n][k], host, true) {
      assert turns[..n][..k] == turns[..k] && turns[..n][k] == turns[k];
    }
    var a, b := FailTimes(verify, s, turns[..n], host), FailTimes(verify, s, turns, host);
    assert forall i :: 0 <= i < |a| ==> a[i] == b[i];
  }

  lemma TurnTimes(verify: Verifier, s: System, t: Turn)
    requires Sane(s) && s.checks == map[]
    ensures TakeTurn(verify, s, t).0.clock >= s.clock
    ensures t.e.Line? ==> Early(s, t.e) <= FailTime(verify, s, t) && s.clock <= Early(s, t.e)
    ensures t.e.Line? ==> Early(s, t.e) <= TakeTurn(verify, s, t).0.clock
  {
    hide Next, Sane;
    TurnQuiet(verify, s, t);
    if t.e.Line? {
      StepSane(verify, s, t.e);
      ClockOn(verify, s, t.e);
    }
  }

  lemma NotedStep(verify: Verifier, s: System, t: Turn, times: seq<int>, host: string)
    requires Sane(s) && s.checks == map[] && host != "" && AllNoted(s, times, host)
    requires !Guesses(verify, s, t, host, true)
    ensures !Guesses(verify, s, t, host, false) ==> AllNoted(TakeTurn(verify, s, t).0, times, host)
    ensures Guesses(verify, s, t, host, false) && |times| < 4 && Steady(times + [FailTime(verify, s, t)]) ==>
      AllNoted(TakeTurn(verify, s, t).0, times + [FailTime(verify, s, t)], host)
    ensures Guesses(verify, s, t, host, false) && |times| == 4 && Steady(times + [FailTime(verify, s, t)]) ==>
      var s' := TakeTurn(verify, s, t).0;
      RecordOf(s', host) == TheRecord(IpRecord(0, FailTime(verify, s, t), s'.clock + 300_000))
  {
    hide TakeTurn, Sane, Guesses, FailTime;
    TurnRecord(verify, s, t, host);
    TurnTimes(verify, s, t);
    GuessIsLine(verify, s, t, host);
    if Guesses(verify, s, t, host, false) && times != [] {
      var more := times + [FailTime(verify, s, t)];
      assert more[|times|] == FailTime(verify, s, t) && more[|times| - 1] == times[|times| - 1];
    }
  }

  lemma GuessIsLine(verify: Verifier, s: System, t: Turn, host: string)
    requires Sane(s)
    ensures Guesses(verify, s, t, host, false) ==> t.e.Line?
  {
  }

  /** The fifth of five steady guesses blocks the host for five minutes from the
      end of its turn, whatever else was sent meanwhile and by whomever. */
  lemma FiveGuessesBlock(verify: Verifier, s: System, turns: seq<Turn>, last: Turn, host: string)
    requires Sane(s) && s.checks == map[] && host != "" && host !in s.m.ipFailures
    requires NoSuccess(verify, s, turns, host)
    requires Guesses(verify, TakeTurns(verify, s, turns), last, host, false)
    requires var times := FailTimes(verify, s, turns + [last], host); Steady(times) && |times| == 5
    ensures var s' := TakeTurns(verify, s, turns + [last]);
      s'.checks == map[] && forall now :: now < s'.clock + 300_000 ==> s'.m.Blocked(host, now)
  {
    hide Sane, TakeTurn, Guesses, AllNoted, FailTime, Steady;
    var b, all := TakeTurns(verify, s, turns), turns + [last];
    assert all[..|all| - 1] == turns && all[|all| - 1] == last;
    var times, t4 := FailTimes(verify, s, all, host), FailTimes(verify, s, turns, host);
    GuessIsLine(verify, b, last, host);
    assert times == t4 + [FailTime(verify, b, last)];
    SteadyFront(t4, FailTime(verify, b, last));
    GuessesNoted(verify, s, turns, host);
    TurnsQuiet(verify, s, turns);
    TurnQuiet(verify, b, last);
    assert !Guesses(verify, b, last, host, true) by { OneVerdict(verify, b, last, host); }
    NotedStep(verify, b, last, t4, host);
  }

  lemma SteadyFront(times: seq<int>, t: int)
    requires Steady(times + [t])
    ensures Steady(times)
  {
    assert forall i :: 0 <= i < |times| ==> times[i] == (times + [t])[i];
  }

  lemma OneVerdict(verify: Verifier, s: System, t: Turn, host: string)
    requires Sane(s) && Guesses(verify, s, t, host, false)
    ensures !Guesses(verify, s, t, host, true)
  {
  }

  /** Without a guess in between the host's record stays as it is as long as no
      more than ten minutes have passed since its last failure. */
  lemma {:induction false} RecordSurvives(verify: Verifier, s: System, turns: seq<Turn>, host: string)
    requires Sane(s) && s.checks == map[] && host != "" && host in s.m.ipFailures
    requires forall k :: 0 <= k < |turns| ==> NoGuess(verify, TakeTurns(verify, s, turns[..k]), turns[k], host)
    requires TakeTurns(verify, s, turns).clock - s.m.ipFailures[host].lastFailure <= 600_000
    ensures RecordOf(TakeTurns(verify, s, turns), host) == RecordOf(s, host)
    decreases |turns|
  {
    hide Sane, TakeTurn, NoGuess;
    if turns != [] {
      var n := |turns| - 1;
      forall k | 0 <= k < n ensures NoGuess(verify, TakeTurns(verify, s, turns[..n][..k]), turns[..n][k], host) {
        assert turns[..n][..k] == turns[..k] && turns[..n][k] == turns[k];
      }
      var b := TakeTurns(verify, s, turns[..n]);
      TurnsQuiet(verify, s, turns[..n]);
      TurnTimes(verify, b, turns[n]);
      RecordSurvives(verify, s, turns[..n], host);
      NoGuessRecord(verify, b, turns[n], host);
    }
  }

  predicate NoGuess(verify: Verifier, s: System, t: Turn, host: string)
    requires Sane(s)
  {
    !Guesses(verify, s, t, host, true) && !Guesses(verify, s, t, host, false)
  }

  lemma NoGuessRecord(verify: Verifier, s: System, t: Turn, host: string)
    requires Sane(s) && s.checks == map[] && host != "" && NoGuess(verify, s, t, host)
    ensures RecordOf(TakeTurn(verify, s, t).0, host) == if SweptOut(s, t.e, host) then NoRecord else RecordOf(s, host)
  {
    hide Sane, TakeTurn, Guesses;
    TurnRecord(verify, s, t, host);
  }
}
