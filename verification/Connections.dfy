/** The connection counters of `serve` in cmd/muhan-server/main.go: one accept
    loop and any number of ending sessions update an atomic total and a map of
    per-address counts, each update being one step. */
module Connections {

  const MAX_TOTAL: int := 256
  const MAX_PER_IP: int := 5

  datatype Ip = Ip(host: string)

  /** Where the accept loop stands between its updates. */
  datatype Acceptor =
    | Idle
    | Admitted(ip: Ip)    // the total was below its limit
    | Counted(ip: Ip)     // the address is counted, the total not yet
    | Serving(ip: Ip)     // both are
    | Releasing(ip: Ip)   // turned away: the total is given back, the address not yet
    | Stopped
  {
    /** The address the accept loop itself has counted. */
    function Holds(): multiset<Ip> {
      if Counted? || Serving? || Releasing? then multiset{ip} else multiset{}
    }
  }

  /** `running` and `leaving` hold the address of every session that runs, and
      of every one that has given back the total but not the address. */
  datatype Server = Server(active: int, ipConns: map<Ip, int>, acceptor: Acceptor,
                           running: multiset<Ip>, leaving: multiset<Ip>)

  datatype Event =
    | Accept(ip: Ip)
    | CheckIp
    | CountTotal
    | Spawn
    | TurnAway
    | FinishTurnAway(stop: bool)
    | Stop
    | SessionEnds(ip: Ip)
    | SessionLeaves(ip: Ip)

  function CountOf(m: map<Ip, int>, ip: Ip): int { if ip in m then m[ip] else 0 }

  /** `ipConns[ip]--`, deleting the entry at zero. */
  function Released(m: map<Ip, int>, ip: Ip): map<Ip, int> {
    var n := CountOf(m, ip) - 1;
    if n <= 0 then m - {ip} else m[ip := n]
  }

  /** One step; an event that cannot happen in a state leaves it alone. */
  function Next(s: Server, e: Event): Server {
    match e
    case Accept(ip) =>
      if s.acceptor.Idle? && s.active < MAX_TOTAL then s.(acceptor := Admitted(ip)) else s
    case CheckIp =>
      if !s.acceptor.Admitted? then s
      else
        var ip := s.acceptor.ip;
        if CountOf(s.ipConns, ip) >= MAX_PER_IP then s.(acceptor := Idle)
        else s.(ipConns := s.ipConns[ip := CountOf(s.ipConns, ip) + 1], acceptor := Counted(ip))
    case CountTotal =>
      if s.acceptor.Counted? then s.(active := s.active + 1, acceptor := Serving(s.acceptor.ip)) else s
    case Spawn =>
      if s.acceptor.Serving? then s.(acceptor := Idle, running := s.running + multiset{s.acceptor.ip}) else s
    case TurnAway =>
      if s.acceptor.Serving? then s.(active := s.active - 1, acceptor := Releasing(s.acceptor.ip)) else s
    case FinishTurnAway(stop) =>
      if s.acceptor.Releasing?
      then s.(ipConns := Released(s.ipConns, s.acceptor.ip), acceptor := if stop then Stopped else Idle) else s
    case Stop =>
      if s.acceptor.Idle? then s.(acceptor := Stopped) else s
    case SessionEnds(ip) =>
      if ip in s.running
      then s.(active := s.active - 1, running := s.running - multiset{ip}, leaving := s.leaving + multiset{ip}) else s
    case SessionLeaves(ip) =>
      if ip in s.leaving
      then s.(ipConns := Released(s.ipConns, ip), leaving := s.leaving - multiset{ip}) else s
  }

  const START := Server(0, map[], Idle, multiset{}, multiset{})

  function Run(events: seq<Event>): Server {
    if events == [] then START
    else Next(Run(events[..|events| - 1]), events[|events| - 1])
  }

  // ----- the invariant -----

  /** Everyone an address is counted for. */
  function CountedIn(s: Server): multiset<Ip> {
    s.running + s.leaving + s.acceptor.Holds()
  }

  /** Each address is counted once for everyone it belongs to. */
  ghost predicate CountsMatch(s: Server) {
    forall ip :: CountMatches(s, ip)
  }

  predicate CountMatches(s: Server, ip: Ip) {
    && CountOf(s.ipConns, ip) == CountedIn(s)[ip] <= MAX_PER_IP
    && (ip in s.ipConns ==> s.ipConns[ip] > 0)
  }

  ghost predicate Accurate(s: Server) {
    && s.active == |s.running| + (if s.acceptor.Serving? then 1 else 0)
    && s.active <= MAX_TOTAL
    && (s.acceptor.Admitted? || s.acceptor.Counted? ==> s.active < MAX_TOTAL)
    && CountsMatch(s)
  }

  lemma AcceptorCounts(s: Server, e: Event, ip: Ip)
    requires !e.SessionEnds? && !e.SessionLeaves? && CountMatches(s, ip)
    ensures CountMatches(Next(s, e), ip)
  {
    hide CountMatches, CountOf, Released, Next;
    if e.CheckIp? {
      CheckCounts(s, ip);
    } else if e.FinishTurnAway? {
      TurnAwayCounts(s, e.stop, ip);
    } else if e.Spawn? {
      SpawnCounts(s, ip);
    } else {
      CountsUntouched(s, e);
      SameCounts(s, Next(s, e), ip);
    }
  }

  lemma CountsUntouched(s: Server, e: Event)
    requires e.Accept? || e.CountTotal? || e.TurnAway? || e.Stop?
    ensures var s' := Next(s, e);
      && s'.ipConns == s.ipConns && s'.running == s.running && s'.leaving == s.leaving
      && s'.acceptor.Holds() == s.acceptor.Holds()
  {
    hide CountOf, Released;
  }

  lemma SameCounts(s: Server, s': Server, ip: Ip)
    requires s'.ipConns == s.ipConns && s'.running == s.running && s'.leaving == s.leaving
    requires s'.acceptor.Holds() == s.acceptor.Holds() && CountMatches(s, ip)
    ensures CountMatches(s', ip)
  {
  }

  lemma SpawnCounts(s: Server, ip: Ip)
    requires CountMatches(s, ip)
    ensures CountMatches(Next(s, Spawn), ip)
  {
    assert CountedIn(Next(s, Spawn))[ip] == CountedIn(s)[ip];
  }

  lemma CheckCounts(s: Server, ip: Ip)
    requires CountMatches(s, ip)
    ensures CountMatches(Next(s, CheckIp), ip)
  {
    var s' := Next(s, CheckIp);
    if s.acceptor.Admitted? && s'.acceptor.Counted? {
      assert CountedIn(s')[ip] == CountedIn(s)[ip] + if ip == s.acceptor.ip then 1 else 0;
    } else {
      assert CountedIn(s') == CountedIn(s);
    }
  }

  lemma TurnAwayCounts(s: Server, stop: bool, ip: Ip)
    requires CountMatches(s, ip)
    ensures CountMatches(Next(s, FinishTurnAway(stop)), ip)
  {
    var s' := Next(s, FinishTurnAway(stop));
    if s.acceptor.Releasing? {
      assert CountedIn(s')[ip] == CountedIn(s)[ip] - if ip == s.acceptor.ip then 1 else 0;
    }
  }

  lemma SessionEndsCounts(s: Server, x: Ip, ip: Ip)
    requires CountMatches(s, ip)
    ensures CountMatches(Next(s, SessionEnds(x)), ip)
  {
    var s' := Next(s, SessionEnds(x));
    assert x in s.running ==> s'.running[ip] + s'.leaving[ip] == s.running[ip] + s.leaving[ip];
    assert CountedIn(s')[ip] == CountedIn(s)[ip];
  }

  lemma SessionLeavesCounts(s: Server, x: Ip, ip: Ip)
    requires CountMatches(s, ip)
    ensures CountMatches(Next(s, SessionLeaves(x)), ip)
  {
    var s' := Next(s, SessionLeaves(x));
    assert x in s.leaving ==> s'.leaving[ip] == s.leaving[ip] - if ip == x then 1 else 0;
    assert x in s.leaving ==> CountedIn(s')[ip] == CountedIn(s)[ip] - if ip == x then 1 else 0;
  }

  lemma StepAccurate(s: Server, e: Event)
    requires Accurate(s)
    ensures Accurate(Next(s, e))
  {
    hide CountMatches, CountOf, Released;
    forall ip ensures CountMatches(Next(s, e), ip) {
      assert CountMatches(s, ip);
      match e
      case SessionEnds(x) => SessionEndsCounts(s, x, ip);
      case SessionLeaves(x) => SessionLeavesCounts(s, x, ip);
      case _ => AcceptorCounts(s, e, ip);
    }
  }

  lemma {:induction false} RunAccurate(events: seq<Event>)
    ensures Accurate(Run(events))
  {
    if events != [] {
      RunAccurate(events[..|events| - 1]);
      StepAccurate(Run(events[..|events| - 1]), events[|events| - 1]);
    }
  }

  // ----- sums -----

  ghost function Total(m: map<Ip, int>): int
    decreases |m|
  {
    if m == map[] then 0 else
      var k :| k in m;
      m[k] + Total(m - {k})
  }

  lemma {:induction false} TotalIsSize(m: map<Ip, int>, ms: multiset<Ip>)
    requires forall ip :: CountOf(m, ip) == ms[ip]
    ensures Total(m) == |ms|
    decreases |m|
  {
    if m == map[] {
      assert ms == multiset{} by {
        forall ip ensures ms[ip] == 0 { assert CountOf(m, ip) == ms[ip]; }
      }
    } else {
      var k :| k in m && Total(m) == m[k] + Total(m - {k});
      assert CountOf(m, k) == ms[k];
      var rest := ms[k := 0];
      forall ip ensures CountOf(m - {k}, ip) == rest[ip] { assert CountOf(m, ip) == ms[ip]; }
      TotalIsSize(m - {k}, rest);
      assert ms == rest[k := ms[k]];
    }
  }

  /** In every interleaving: the limits hold, no entry of the map is zero or less,
      and the per-address counts add up to at least the total, exactly to it
      when nobody is between the two updates. With nobody left, nothing is. */
  lemma Accounting(events: seq<Event>)
    ensures var s := Run(events);
      && 0 <= s.active <= MAX_TOTAL
      && s.active <= Total(s.ipConns)
      && (s.active == Total(s.ipConns)
          <==> s.leaving == multiset{} && !s.acceptor.Counted? && !s.acceptor.Releasing?)
      && (s.running == s.leaving == s.acceptor.Holds() == multiset{} ==> s.active == 0 && s.ipConns == map[])
    ensures forall ip :: ip in Run(events).ipConns ==> 1 <= Run(events).ipConns[ip] <= MAX_PER_IP
  {
    hide Run;
    RunAccurate(events);
    var s := Run(events);
    forall ip ensures ip in s.ipConns ==> 1 <= s.ipConns[ip] <= MAX_PER_IP {
      assert CountMatches(s, ip);
    }
    forall ip ensures CountOf(s.ipConns, ip) == CountedIn(s)[ip] { assert CountMatches(s, ip); }
    TotalIsSize(s.ipConns, CountedIn(s));
    assert |s.leaving| == 0 <==> s.leaving == multiset{};
    if s.running == s.leaving == s.acceptor.Holds() == multiset{} {
      assert s.ipConns == map[] by {
        forall ip ensures ip !in s.ipConns { assert CountMatches(s, ip); }
      }
    }
  }
  // ----- who is let in -----

  /** With nobody in between, a connection is served exactly if fewer than 256
      sessions run and fewer than five of its address run or are leaving; one that
      is not leaves no trace. */
  lemma Admission(s: Server, ip: Ip)
    requires Accurate(s) && s.acceptor.Idle?
    ensures Next(Next(Next(Next(s, Accept(ip)), CheckIp), CountTotal), Spawn) ==
      if |s.running| < 256 && (s.running + s.leaving)[ip] < 5
      then s.(active := s.active + 1, ipConns := s.ipConns[ip := (s.running + s.leaving)[ip] + 1],
              running := s.running + multiset{ip})
      else s
  {
    hide Released;
    assert CountMatches(s, ip);
    assert s.running + s.leaving + multiset{} == s.running + s.leaving;
  }
}
