/** The site password of cmd/muhan-server/login.go. */
module LoginSite {
  import opened LoginText
  import opened CharacterCreation
  import opened Login
  import opened LoginRuns

  /** The session waits for the site password or is gone. */
  predicate ShutOut(s: System, id: Id, password: string) {
    id !in s.checks && (id in s.m.sessions ==> s.m.sessions[id].step == SitePassword(password))
  }

  /** The line an unknown session would have to send is the empty one. */
  predicate OpensDoor(s: System, e: Event, id: Id, password: string) {
    && IsOf(e, id)
    && (e.Start? || (e.StartSite? && e.password != password)
        || (e.Line? && e.line == if id in s.m.sessions then password else ""))
  }

  /** A step lets a session past the site password if and only if it is the right
      line or a new start, and never further than to the question for the name. */
  lemma SiteStep(verify: Verifier, s: System, e: Event, id: Id, password: string)
    requires Sane(s) && ShutOut(s, id, password)
    ensures var (s', r) := Next(verify, s, e);
      && (ShutOut(s', id, password) <==> !OpensDoor(s, e, id, password))
      && (OpensDoor(s, e, id, password) ==> id in s'.m.sessions && (s'.m.sessions[id].step.Name? || s'.m.sessions[id].step.SitePassword?))
      && (IsOf(e, id) ==> !r.Actor? && !r.Verify?)
  {
    hide SessionOk, RecordOk, AfterVerify, AfterHash, Recount, Answer, Cleaned, Kept, Trim;
    if !e.Change? && e.id != id {
      hide Next;
      OthersKept(verify, s, e);
      ChecksAfter(verify, s, e);
      Untouched(s.m.sessions, Next(verify, s, e).0.m.sessions, e.id, id);
      Untouched(s.checks, Next(verify, s, e).0.checks, e.id, id);
    }
  }

  /** A session started with a site password stays shut out as long as neither
      that password nor an empty line is sent and it is not started again. */
  lemma {:induction false} SiteKeepsOut(verify: Verifier, s: System, id: Id, password: string, host: string, events: seq<Event>)
    requires Sane(s) && id !in s.checks
    requires forall e :: e in events && IsOf(e, id) ==> e.Done? || (e.Line? && e.line != password && e.line != "")
    ensures Sane(Next(verify, s, StartSite(id, password, host)).0)
    ensures ShutOut(RunFrom(verify, Next(verify, s, StartSite(id, password, host)).0, events), id, password)
  {
    hide Sane, Trim;
    var s0 := Next(verify, s, StartSite(id, password, host)).0;
    StepSane(verify, s, StartSite(id, password, host));
    if events != [] {
      var n := |events| - 1;
      SiteKeepsOut(verify, s, id, password, host, events[..n]);
      SiteStep(verify, RunFrom(verify, s0, events[..n]), events[n], id, password);
    }
  }

  /** The site password "pw" is never sent, and yet: once turned away the session
      has no record and gets past the question with an empty line. */
  lemma EmptyLineOpens(verify: Verifier, w: World)
    ensures Run(verify, w, [StartSite(1, "pw", "h"), Line(1, "x", 0, 0), Line(1, "", 0, 0)]).m.sessions
      == map[1 := Session(Name, "")]
  {
    hide RunFrom, Trim, Answer, Cleaned, Kept;
    RunFromThree(verify, Fresh(w), StartSite(1, "pw", "h"), Line(1, "x", 0, 0), Line(1, "", 0, 0));
  }
}
