/** Particular runs of the login manager (cmd/muhan-server/login.go) that show
    where a property fails. */
module LoginScenes {
  import opened LoginText
  import opened CharacterCreation
  import opened Login
  import opened LoginRuns
  import opened LoginTurns

  predicate Same(line: string, hash: string) { line == hash }

  function OnePlayer(): World { World(map["a" := "p"], (t: string) => |t|, (t: string) => false) }

  /** A session of host "h" starts, gives its name and sends a line as password. */
  function Tries(id: Id, line: string): seq<Event> { [Start(id, "h"), Line(id, "a", 0, 0), Line(id, line, 0, 0)] }

  /** Session 2 gives a wrong password, blank, and is closed; n times. */
  function Rounds(n: nat): seq<Event> {
    if n == 0 then [] else Rounds(n - 1) + (Tries(2, "") + [Done(2, 0, 0, false, "")])
  }

  const ASKING := Session(Password("a", 0), "h")

  /** Nothing to sweep, and the time is 0. */
  ghost predicate Still(s: System) {
    && Sane(s) && s.w == OnePlayer() && s.clock == 0
    && forall h :: h in s.m.ipFailures ==> s.m.ipFailures[h].lastFailure == 0
  }

  /** n rounds later, with these other sessions and checks. */
  ghost predicate AfterRounds(s: System, sessions: map<Id, Session>, checks: map<Id, Check>, n: nat) {
    && Still(s) && s.m.sessions == sessions && s.checks == checks && 2 !in sessions && 2 !in checks
    && s.m.ipFailures ==
      if n == 0 then map[] else map["h" := if n < HOST_FAILURES then IpRecord(n, 0, 0) else IpRecord(0, 0, BLOCK_FOR)]
  }

  lemma NothingSwept(s: System)
    requires Still(s)
    ensures Cleaned(s.m.ipFailures, 0) == s.m.ipFailures && Kept(s.streaks, s.m.ipFailures) == s.streaks
  {
    hide RecordOk, SessionOk;
  }

  lemma Trimmed()
    ensures Trim("h") == "h" && Trim("a") == "a" && Trim("") == ""
  {
    hide Trim;
    TrimNothing("h");
    TrimNothing("a");
    TrimNothing("");
  }

  /** A session starts, gives its name and has a line checked. */
  lemma AskingSteps(s: System, id: Id, line: string)
    requires Still(s) && id !in s.checks && !s.m.Blocked("h", 0)
    ensures RunFrom(Same, s, Tries(id, line))
      == s.(m := s.m.With(id, ASKING), checks := s.checks[id := Verifying(line, "a", "p")])
  {
    hide Next, Sane, RunFrom;
    RunFromThree(Same, s, Start(id, "h"), Line(id, "a", 0, 0), Line(id, line, 0, 0));
    StartStep(s, id);
    var s1 := s.(m := s.m.With(id, Session(Name, "h")));
    NameStep(s1, id, "h");
    var s2 := s1.(m := s1.m.With(id, ASKING));
    AskStep(s2, id, line, "h");
    assert s2.m.sessions == s.m.sessions[id := ASKING];
  }

  lemma StartStep(s: System, id: Id)
    requires Still(s) && id !in s.checks
    ensures Next(Same, s, Start(id, "h")).0 == s.(m := s.m.With(id, Session(Name, "h")))
  {
    hide Trim, RecordOk, SessionOk;
    Trimmed();
  }

  lemma NameStep(s: System, id: Id, host: string)
    requires Still(s) && id !in s.checks && id in s.m.sessions && s.m.sessions[id] == Session(Name, host)
    ensures Next(Same, s, Line(id, "a", 0, 0)).0 == s.(m := s.m.With(id, ASKING.(host := host)))
    ensures Next(Same, s, Line(id, "a", 0, 0)).1 == Prompted
  {
    hide Cleaned, Kept, Trim, RecordOk, SessionOk;
    Trimmed();
    NothingSwept(s);
  }

  lemma AskStep(s: System, id: Id, line: string, host: string)
    requires Still(s) && id !in s.checks && id in s.m.sessions && s.m.sessions[id] == ASKING.(host := host)
    requires host == "" || !s.m.Blocked(host, 0)
    ensures Next(Same, s, Line(id, line, 0, 0)).0 == s.(checks := s.checks[id := Verifying(line, "a", "p")])
  {
    hide Cleaned, Kept, RecordOk, SessionOk;
    NothingSwept(s);
  }

  lemma OneRound(s: System, sessions: map<Id, Session>, checks: map<Id, Check>, n: nat)
    requires AfterRounds(s, sessions, checks, n) && n < HOST_FAILURES
    ensures AfterRounds(RunFrom(Same, s, Tries(2, "") + [Done(2, 0, 0, false, "")]), sessions, checks, n + 1)
  {
    hide RecordOk, SessionOk, RunFrom, Next, Tries;
    AskingSteps(s, 2, "");
    RunFromAppend(Same, s, Tries(2, ""), [Done(2, 0, 0, false, "")]);
    RunFromOne(Same, RunFrom(Same, s, Tries(2, "")), Done(2, 0, 0, false, ""));
    FailedStep(RunFrom(Same, s, Tries(2, "")), sessions, checks, n);
  }

  lemma FailedStep(s: System, sessions: map<Id, Session>, checks: map<Id, Check>, n: nat)
    requires Still(s) && n < HOST_FAILURES && 2 !in sessions && 2 !in checks
    requires s.checks == checks[2 := Verifying("", "a", "p")] && s.m.sessions == sessions[2 := ASKING]
    requires s.m.ipFailures == if n == 0 then map[] else map["h" := IpRecord(n, 0, 0)]
    ensures AfterRounds(Next(Same, s, Done(2, 0, 0, false, "")).0, sessions, checks, n + 1)
  {
    hide RecordOk, SessionOk, AfterVerify, Recount;
    FailedManager(s.m, sessions, n);
    assert s.checks - {2} == checks;
    StepSane(Same, s, Done(2, 0, 0, false, ""));
  }

  lemma FailedManager(m: Manager, sessions: map<Id, Session>, n: nat)
    requires n < HOST_FAILURES && 2 !in sessions && m.sessions == sessions[2 := ASKING]
    requires m.ipFailures == if n == 0 then map[] else map["h" := IpRecord(n, 0, 0)]
    ensures var x := if n + 1 < HOST_FAILURES then IpRecord(n + 1, 0, 0) else IpRecord(0, 0, BLOCK_FOR);
      AfterVerify(m, OnePlayer(), 2, "", false, 0, 0) == (Manager(sessions, map["h" := x]), Closed)
  {
    hide Trim;
    Trimmed();
    var x := NoteFailure(m.ipFailures, "h", 0, 0)["h"];
    assert m.ipFailures["h" := x] == map["h" := x];
    assert m.sessions - {2} == sessions;
  }

  lemma {:induction false} RoundsRun(s: System, n: nat)
    requires Still(s) && s.m.ipFailures == map[] && 2 !in s.m.sessions && 2 !in s.checks && n <= HOST_FAILURES
    ensures AfterRounds(RunFrom(Same, s, Rounds(n)), s.m.sessions, s.checks, n)
  {
    hide RunFrom, Next, Sane, Tries;
    if n == 0 {
      RunFromNone(Same, s);
    } else {
      hide AfterRounds;
      RoundsRun(s, n - 1);
      RunFromAppend(Same, s, Rounds(n - 1), Tries(2, "") + [Done(2, 0, 0, false, "")]);
      OneRound(RunFrom(Same, s, Rounds(n - 1)), s.m.sessions, s.checks, n - 1);
    }
  }

  // ----- lines handled while a check is in progress -----

  /** If lines were handled while a check is in progress, a block could end at
      once: session 1 is having the right password checked, five failures of
      session 2 block the host, and then the check of session 1 succeeds. */
  lemma OverlapLiftsBlock()
    ensures var s := Run(Same, OnePlayer(), Tries(1, "p") + Rounds(HOST_FAILURES));
      && s.m.Blocked("h", BLOCK_FOR - 1) && s.clock == 0
      && !Next(Same, s, Done(1, 0, 0, false, "")).0.m.Blocked("h", BLOCK_FOR - 1)
      && Next(Same, s, Done(1, 0, 0, false, "")).0.clock == 0
  {
    hide RunFrom, RecordOk, SessionOk, Trim, Tries;
    var s0 := Fresh(OnePlayer());
    AskingSteps(s0, 1, "p");
    RunFromAppend(Same, s0, Tries(1, "p"), Rounds(HOST_FAILURES));
    RoundsRun(RunFrom(Same, s0, Tries(1, "p")), HOST_FAILURES);
    var s := Run(Same, OnePlayer(), Tries(1, "p") + Rounds(HOST_FAILURES));
    ClockOn(Same, s, Done(1, 0, 0, false, ""));
    BlockLifted(Same, s, Done(1, 0, 0, false, ""), "h", BLOCK_FOR - 1);
  }

  // ----- a session turned away by a block -----

  function Plain(e: Event): Turn { Turn(e, 0, 0, false, "") }

  function TryTurns(id: Id, line: string): seq<Turn> {
    [Plain(Start(id, "h")), Plain(Line(id, "a", 0, 0)), Plain(Line(id, line, 0, 0))]
  }

  function TurnRounds(n: nat): seq<Turn> { if n == 0 then [] else TurnRounds(n - 1) + TryTurns(2, "") }

  lemma {:induction false} TurnsAppend(verify: Verifier, s: System, a: seq<Turn>, b: seq<Turn>)
    requires Sane(s)
    ensures TakeTurns(verify, s, a + b) == TakeTurns(verify, TakeTurns(verify, s, a), b)
    decreases |b|
  {
    hide TakeTurn, Sane;
    if b == [] {
      assert a + b == a;
    } else {
      assert (a + b)[..|a + b| - 1] == a + b[..|b| - 1];
      TurnsAppend(verify, s, a, b[..|b| - 1]);
    }
  }

  lemma TurnsOne(verify: Verifier, s: System, t: Turn)
    requires Sane(s)
    ensures TakeTurns(verify, s, [t]) == TakeTurn(verify, s, t).0
  {
    hide TakeTurn, Sane;
    assert [t][..0] == [];
  }

  lemma TurnsThree(verify: Verifier, s: System, a: Turn, b: Turn, c: Turn)
    requires Sane(s)
    ensures TakeTurns(verify, s, [a, b]) == TakeTurn(verify, TakeTurn(verify, s, a).0, b).0
    ensures TakeTurns(verify, s, [a, b, c]) == TakeTurn(verify, TakeTurns(verify, s, [a, b]), c).0
  {
    hide TakeTurn, TakeTurns, Sane;
    TurnsOne(verify, s, a);
    TurnsAppend(verify, s, [a], [b]);
    TurnsOne(verify, TakeTurn(verify, s, a).0, b);
    TurnsAppend(verify, s, [a, b], [c]);
    TurnsOne(verify, TakeTurns(verify, s, [a, b]), c);
    assert [a] + [b] == [a, b] && [a, b] + [c] == [a, b, c];
  }

  /** A turn that asks for no check is its event; another ends its check too. */
  lemma TurnIsEvents(s: System, e: Event)
    requires Sane(s)
    ensures !(e.Line? && e.id in Next(Same, s, e).0.checks) ==> TakeTurn(Same, s, Plain(e)) == Next(Same, s, e)
    ensures e.Line? && e.id in Next(Same, s, e).0.checks ==>
      && Sane(Next(Same, s, e).0)
      && TakeTurn(Same, s, Plain(e)) == Next(Same, Next(Same, s, e).0, Done(e.id, 0, 0, false, ""))
  {
    hide Next, Sane;
    StepSane(Same, s, e);
  }

  /** The start and the name, as turns. */
  lemma NamedTurns(s: System, id: Id)
    requires Still(s) && id !in s.checks
    ensures TakeTurns(Same, s, [Plain(Start(id, "h")), Plain(Line(id, "a", 0, 0))]) == s.(m := s.m.With(id, ASKING))
  {
    hide Next, Sane, TakeTurn, TakeTurns;
    var a, b := Start(id, "h"), Line(id, "a", 0, 0);
    TurnsThree(Same, s, Plain(a), Plain(b), Plain(b));
    StartStep(s, id);
    TurnIsEvents(s, a);
    StepSane(Same, s, a);
    var s1 := s.(m := s.m.With(id, Session(Name, "h")));
    NameStep(s1, id, "h");
    TurnIsEvents(s1, b);
    assert s1.m.With(id, ASKING).sessions == s.m.sessions[id := ASKING];
  }

  /** A round of turns is the round of events. */
  lemma RoundTurn(s: System)
    requires Still(s) && 2 !in s.checks && !s.m.Blocked("h", 0)
    ensures TakeTurns(Same, s, TryTurns(2, "")) == RunFrom(Same, s, Tries(2, "") + [Done(2, 0, 0, false, "")])
  {
    hide Next, Sane, TakeTurn, TakeTurns, RunFrom;
    var c := Line(2, "", 0, 0);
    TurnsThree(Same, s, Plain(Start(2, "h")), Plain(Line(2, "a", 0, 0)), Plain(c));
    NamedTurns(s, 2);
    var s2 := s.(m := s.m.With(2, ASKING));
    AskStep(s2, 2, "", "h");
    TurnIsEvents(s2, c);
    AskingSteps(s, 2, "");
    RunFromAppend(Same, s, Tries(2, ""), [Done(2, 0, 0, false, "")]);
    RunFromOne(Same, RunFrom(Same, s, Tries(2, "")), Done(2, 0, 0, false, ""));
  }

  lemma TurnsNone(verify: Verifier, s: System)
    requires Sane(s)
    ensures TakeTurns(verify, s, []) == s
  {
    hide Sane;
  }

  lemma StartStill()
    ensures Still(Fresh(OnePlayer()))
  {
  }

  lemma {:induction false} RoundsTurned(n: nat)
    requires n <= HOST_FAILURES
    ensures AfterRounds(TakeTurns(Same, Fresh(OnePlayer()), TurnRounds(n)), map[], map[], n)
  {
    hide TakeTurn, TakeTurns, Still, RunFrom, TryTurns, Tries;
    var s := Fresh(OnePlayer());
    if n == 0 {
      TurnsNone(Same, s);
      StartStill();
    } else {
      RoundsTurned(n - 1);
      TurnsAppend(Same, s, TurnRounds(n - 1), TryTurns(2, ""));
      var b := TakeTurns(Same, s, TurnRounds(n - 1));
      RoundTurn(b);
      OneRound(b, map[], map[], n - 1);
    }
  }

  /** The host is blocked and nothing is in progress. */
  ghost predicate Barred(s: System) {
    && Still(s) && s.checks == map[] && s.m.ipFailures == map["h" := IpRecord(0, 0, BLOCK_FOR)]
  }

  /** A session of the host is closed at its password and forgotten. */
  lemma TurnedAway(s: System)
    requires Barred(s) && s.m.sessions == map[]
    ensures TakeTurns(Same, s, TryTurns(1, "x")) == s
  {
    hide Next, Sane, TakeTurn, TakeTurns;
    var c := Line(1, "x", 0, 0);
    TurnsThree(Same, s, Plain(Start(1, "h")), Plain(Line(1, "a", 0, 0)), Plain(c));
    NamedTurns(s, 1);
    BarredStep(s.(m := s.m.With(1, ASKING)));
    TurnIsEvents(s.(m := s.m.With(1, ASKING)), c);
    assert map[1 := ASKING] - {1} == map[];
  }

  lemma BarredStep(s: System)
    requires Barred(s) && s.m.sessions == map[1 := ASKING]
    ensures Next(Same, s, Line(1, "x", 0, 0)) == (s.(m := s.m.Drop(1)), Closed)
  {
    hide Cleaned, Kept, RecordOk, SessionOk;
    NothingSwept(s);
  }

  /** An empty line starts it over, without a host. */
  lemma StartsOver(s: System)
    requires Barred(s) && s.m.sessions == map[]
    ensures TakeTurns(Same, s, [Plain(Line(1, "", 0, 0)), Plain(Line(1, "a", 0, 0))])
      == s.(m := s.m.With(1, ASKING.(host := "")))
  {
    hide Next, Sane, TakeTurn, TakeTurns;
    var a, b := Line(1, "", 0, 0), Line(1, "a", 0, 0);
    TurnsThree(Same, s, Plain(a), Plain(b), Plain(b));
    EmptyLineStep(s);
    TurnIsEvents(s, a);
    StepSane(Same, s, a);
    var s1 := s.(m := s.m.With(1, Session(Name, "")));
    NameStep(s1, 1, "");
    TurnIsEvents(s1, b);
    assert s1.m.With(1, ASKING.(host := "")).sessions == map[1 := ASKING.(host := "")];
  }

  lemma EmptyLineStep(s: System)
    requires Barred(s) && s.m.sessions == map[]
    ensures Next(Same, s, Line(1, "", 0, 0)).0 == s.(m := s.m.With(1, Session(Name, "")))
  {
    hide Cleaned, Kept, RecordOk, SessionOk;
    NothingSwept(s);
  }

  /** Then its password is checked. */
  lemma CheckedAfterAll(s: System)
    requires Barred(s) && s.m.sessions == map[1 := ASKING.(host := "")]
    ensures var (s', r) := TakeTurn(Same, s, Plain(Line(1, "p", 0, 0)));
      r == Actor("a") && s'.m.ipFailures == s.m.ipFailures && s'.clock == 0
  {
    hide Next, Sane, TakeTurn;
    AskStep(s, 1, "p", "");
    TurnIsEvents(s, Line(1, "p", 0, 0));
    RightPassword(s.(checks := map[1 := Verifying("p", "a", "p")]));
  }

  lemma RightPassword(s: System)
    requires Sane(s) && s.w == OnePlayer() && s.clock == 0
    requires s.checks == map[1 := Verifying("p", "a", "p")] && s.m.sessions == map[1 := ASKING.(host := "")]
    ensures var (s', r) := Next(Same, s, Done(1, 0, 0, false, ""));
      r == Actor("a") && s'.m.ipFailures == s.m.ipFailures && s'.clock == 0
  {
    hide Trim, RecordOk, SessionOk, NoteFailure;
  }

  /** Five failures block the host; a session of it is turned away at its
      password, sends an empty line and its name, and is logged in although the
      host is blocked all the while. */
  lemma BlockedHostLogsIn()
    ensures var s := TakeTurns(Same, Fresh(OnePlayer()), TurnRounds(HOST_FAILURES) + TryTurns(1, "x"));
      var s' := TakeTurns(Same, s, [Plain(Line(1, "", 0, 0)), Plain(Line(1, "a", 0, 0))]);
      var (s'', r) := TakeTurn(Same, s', Plain(Line(1, "p", 0, 0)));
      && 1 !in s.m.sessions && s.m.Blocked("h", BLOCK_FOR - 1)
      && r == Actor("a") && s''.m.Blocked("h", BLOCK_FOR - 1) && s''.clock == 0
  {
    hide TakeTurn, TakeTurns, TurnRounds, TryTurns, RecordOk, SessionOk;
    RoundsTurned(HOST_FAILURES);
    var s := TakeTurns(Same, Fresh(OnePlayer()), TurnRounds(HOST_FAILURES));
    TurnsAppend(Same, Fresh(OnePlayer()), TurnRounds(HOST_FAILURES), TryTurns(1, "x"));
    TurnedAway(s);
    StartsOver(s);
    CheckedAfterAll(s.(m := s.m.With(1, ASKING.(host := ""))));
  }
}
