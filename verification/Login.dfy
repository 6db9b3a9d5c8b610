/** The login manager of cmd/muhan-server/login.go. Lines of one session come
    one after the other; the password check runs outside the lock. Times are
    milliseconds; a section that reads the clock twice has two of them. */
module Login {
  import opened LoginText
  import opened CharacterCreation

  const MINUTE: int := 60_000
  const STALE_AFTER: int := 10 * MINUTE
  const BLOCK_FOR: int := 5 * MINUTE
  const SESSION_FAILURES: int := 3
  const HOST_FAILURES: int := 5
  const PASSWORD_MIN: int := 3
  const PASSWORD_MAX: int := 14

  type Id = nat

  /** The step of a session with the fields that step uses. */
  datatype Step =
    | SitePassword(expected: string)
    | Name
    | Password(player: string, failures: int)
    | Creating(stage: Stage, create: Create)

  datatype Session = Session(step: Step, host: string)

  /** What looking up an unknown session yields: the zero value. */
  const NO_SESSION := Session(SitePassword(""), "")

  datatype IpRecord = IpRecord(failures: int, lastFailure: int, blockedUntil: int)

  datatype Manager = Manager(sessions: map<Id, Session>, ipFailures: map<string, IpRecord>) {
    function Of(id: Id): Session { if id in sessions then sessions[id] else NO_SESSION }
    function With(id: Id, s: Session): Manager { this.(sessions := sessions[id := s]) }
    function Drop(id: Id): Manager { this.(sessions := sessions - {id}) }
    predicate Blocked(host: string, now: int) { host in ipFailures && now < ipFailures[host].blockedUntil }
  }

  /** The code this one calls and does not contain: the stored hash of each
      player, and the encoded length and path safety of a text. */
  datatype World = World(hashes: map<string, string>, encodedLength: string -> nat, pathUnsafe: string -> bool)

  /** Whether a line is the password of a hash. */
  type Verifier = (string, string) -> bool

  datatype Reply =
    | Prompted               // the dialogue goes on
    | Closed                 // the connection is closed
    | Verify(line: string, player: string, hash: string)  // unlock and check
    | Hash(line: string)     // unlock and hash a new password
    | Failed                 // an error
    | Actor(player: string)  // logged in

  // ----- under the lock, first part -----

  predicate Stale(r: IpRecord, now: int) { now - r.lastFailure > STALE_AFTER && now > r.blockedUntil }

  /** `cleanupIPFailuresLocked` */
  function Cleaned(f: map<string, IpRecord>, now: int): map<string, IpRecord> {
    map h | h in f && !Stale(f[h], now) :: f[h]
  }

  /** `handleName` */
  function AnswerName(m: Manager, w: World, id: Id, s: Session, line: string): (Manager, Reply) {
    var name := Trim(line);
    if name == "" then (m, Prompted)
    else if name !in w.hashes then
      if !NameAccepted(name) then (m, Prompted)
      else (m.With(id, s.(step := Creating(Confirm, NO_CREATE.(name := name)))), Prompted)
    else if w.pathUnsafe(name) then (m, Prompted)
    else if w.hashes[name] == "" then (m.Drop(id), Prompted)
    else (m.With(id, s.(step := Password(name, 0))), Prompted)
  }

  /** `HandleLine` up to the first unlock: old records are swept at one time,
      the block is looked at at a later one. */
  function Handle(m0: Manager, w: World, id: Id, line: string, swept: int, now: int): (Manager, Reply) {
    var m := m0.(ipFailures := Cleaned(m0.ipFailures, swept));
    var s := m.Of(id);
    match s.step
    case Password(player, _) =>
      if s.host != "" && m.Blocked(s.host, now) then (m.Drop(id), Closed)
      else if player !in w.hashes then (m.Drop(id), Prompted)
      else (m, Verify(line, player, w.hashes[player]))
    case Creating(NewPassword, _) =>
      if w.encodedLength(line) > PASSWORD_MAX || w.encodedLength(line) < PASSWORD_MIN then (m, Prompted)
      else (m, Hash(line))
    case SitePassword(expected) =>
      if line != expected then (m.Drop(id), Closed) else (m.With(id, s.(step := Name)), Prompted)
    case Creating(stage, create) =>
      (match Answer(stage, create, line)
       case At(g, c) => (m.With(id, s.(step := Creating(g, c))), Prompted)
       case BackToName => (m.With(id, s.(step := Name)), Prompted))
    case Name => AnswerName(m, w, id, s, line)
  }

  // ----- under the lock again -----

  function NoteFailure(f: map<string, IpRecord>, host: string, failed: int, now: int): map<string, IpRecord> {
    var r := if host in f then f[host] else IpRecord(0, 0, 0);
    f[host := if r.failures + 1 >= HOST_FAILURES then IpRecord(0, failed, now + BLOCK_FOR)
              else IpRecord(r.failures + 1, failed, r.blockedUntil)]
  }

  /** `handlePasswordAfterVerify` behind its guards in `HandleLine`. */
  function AfterVerify(m: Manager, w: World, id: Id, line: string, verified: bool, failed: int, now: int): (Manager, Reply) {
    if id !in m.sessions || !m.sessions[id].step.Password? then (m, Failed) else
      var s := m.sessions[id];
      if s.step.player !in w.hashes then (m.Drop(id), Prompted)
      else if verified then
        (m.Drop(id).(ipFailures := if s.host != "" then m.ipFailures - {s.host} else m.ipFailures), Actor(s.step.player))
      else
        var m' := if s.host == "" then m else m.(ipFailures := NoteFailure(m.ipFailures, s.host, failed, now));
        var n := s.step.failures + 1;
        if Trim(line) == "" || n >= SESSION_FAILURES then (m'.Drop(id), Closed)
        else (m'.With(id, s.(step := s.step.(failures := n))), Prompted)
  }

  /** `handleCreatePasswordAfterHash` behind its guards; `stored` tells whether
      the world took and saved the new player. */
  function AfterHash(m: Manager, id: Id, stored: bool): (Manager, Reply) {
    if id !in m.sessions || !(m.sessions[id].step.Creating? && m.sessions[id].step.stage == NewPassword) then (m, Failed)
    else
      match BuildCharacter(m.sessions[id].step.create)
      case Built(name) => if stored then (m.Drop(id), Actor(name)) else (m, Failed)
      case _ => (m, Failed)
  }

  /** `HandleLine` as a whole, with nothing else going on outside the lock. The
      times are those of the sweep, the look at the block, the failure and the
      block that begins. */
  datatype Times = Times(swept: int, now: int, failed: int, blocked: int)

  function HandleAlone(m: Manager, w: World, verify: Verifier, id: Id, line: string, ts: Times, stored: bool): (Manager, Reply) {
    var (m', r) := Handle(m, w, id, line, ts.swept, ts.now);
    match r
    case Verify(l, _, hash) => AfterVerify(m', w, id, l, verify(l, hash), ts.failed, ts.blocked)
    case Hash(_) => AfterHash(m', id, stored)
    case _ => (m', r)
  }

  // ----- the program -----

  class LoginManager {
    var sessions: map<Id, Session>
    var ipFailures: map<string, IpRecord>

    ghost function Abs(): Manager
      reads this
    {
      Manager(sessions, ipFailures)
    }

    constructor ()
      ensures Abs() == Manager(map[], map[])
    {
      sessions, ipFailures := map[], map[];
    }

    method Start(id: Id, remoteHost: string)
      modifies `sessions
      ensures Abs() == old(Abs()).With(id, Session(Name, Trim(remoteHost)))
    {
      hide Trim;
      sessions := sessions[id := Session(Name, Trim(remoteHost))];
    }

    method StartWithSitePassword(id: Id, password: string, remoteHost: string)
      modifies `sessions
      ensures Abs() == old(Abs()).With(id, Session(SitePassword(password), Trim(remoteHost)))
    {
      hide Trim;
      sessions := sessions[id := Session(SitePassword(password), Trim(remoteHost))];
    }

    method CleanupIPFailures(now: int)
      modifies `ipFailures
      ensures ipFailures == Cleaned(old(ipFailures), now)
    {
      var left := ipFailures.Keys;
      while left != {}
        invariant left <= old(ipFailures.Keys)
        invariant forall h :: h in ipFailures <==> h in old(ipFailures) && (h in left || !Stale(old(ipFailures)[h], now))
        invariant forall h :: h in ipFailures ==> ipFailures[h] == old(ipFailures)[h]
        decreases |left|
      {
        var ip :| ip in left;
        left := left - {ip};
        var rec := ipFailures[ip];
        if now - rec.lastFailure > STALE_AFTER && now > rec.blockedUntil {
          ipFailures := ipFailures - {ip};
        }
      }
    }

    /** Without other lines in between; `LoginRuns` lets other lines run
        between the two locked sections. */
    method HandleLine(w: World, verify: Verifier, id: Id, line: string, ts: Times, stored: bool) returns (reply: Reply)
      modifies this
      ensures (Abs(), reply) == HandleAlone(old(Abs()), w, verify, id, line, ts, stored)
    {
      hide Handle, AfterVerify, AfterHash;
      reply := HandleLocked(w, id, line, ts.swept, ts.now);
      if reply.Verify? {
        var verified := verify(reply.line, reply.hash);
        reply := HandlePasswordAfterVerify(w, id, reply.line, verified, ts.failed, ts.blocked);
      } else if reply.Hash? {
        reply := HandleCreatePasswordAfterHash(id, stored);
      }
    }

    method HandleLocked(w: World, id: Id, line: string, swept: int, now: int) returns (reply: Reply)
      modifies this
      ensures (Abs(), reply) == Handle(old(Abs()), w, id, line, swept, now)
    {
      hide Cleaned, Answer;
      CleanupIPFailures(swept);
      var s := if id in sessions then sessions[id] else NO_SESSION;
      match s.step
      case Password(player, _) =>
        if s.host != "" && s.host in ipFailures && now < ipFailures[s.host].blockedUntil {
          sessions := sessions - {id};
          return Closed;
        }
        if player !in w.hashes {
          sessions := sessions - {id};
          return Prompted;
        }
        reply := Verify(line, player, w.hashes[player]);
      case SitePassword(expected) =>
        if line != expected {
          sessions := sessions - {id};
          return Closed;
        }
        sessions := sessions[id := Session(Name, s.host)];
        reply := Prompted;
      case Name =>
        reply := HandleName(w, id, s, line);
      case Creating(stage, create) =>
        if stage == NewPassword {
          var n := w.encodedLength(line);
          if n > PASSWORD_MAX || n < PASSWORD_MIN {
            return Prompted;
          }
          return Hash(line);
        }
        var p := GiveAnswer(stage, create, line);
        match p {
          case At(g, c) => sessions := sessions[id := s.(step := Creating(g, c))];
          case BackToName => sessions := sessions[id := s.(step := Name)];
        }
        reply := Prompted;
    }

    method HandleName(w: World, id: Id, s: Session, line: string) returns (reply: Reply)
      modifies `sessions
      ensures (Abs(), reply) == AnswerName(old(Abs()), w, id, s, line)
    {
      var name := Trim(line);
      reply := Prompted;
      if name == "" {
        return;
      }
      if name !in w.hashes {
        if NameAccepted(name) {
          sessions := sessions[id := s.(step := Creating(Confirm, NO_CREATE.(name := name)))];
        }
        return;
      }
      if w.pathUnsafe(name) {
        return;
      }
      if w.hashes[name] == "" {
        sessions := sessions - {id};
        return;
      }
      sessions := sessions[id := s.(step := Password(name, 0))];
    }

    method CountFailure(host: string, failed: int, now: int)
      modifies `ipFailures
      ensures ipFailures == NoteFailure(old(ipFailures), host, failed, now)
    {
      var rec := if host in ipFailures then ipFailures[host] else IpRecord(0, 0, 0);
      rec := rec.(failures := rec.failures + 1, lastFailure := failed);
      if rec.failures >= HOST_FAILURES {
        rec := rec.(blockedUntil := now + BLOCK_FOR, failures := 0);
      }
      ipFailures := ipFailures[host := rec];
    }

    method HandlePasswordAfterVerify(w: World, id: Id, line: string, verified: bool, failed: int, now: int)
      returns (reply: Reply)
      modifies this
      ensures (Abs(), reply) == AfterVerify(old(Abs()), w, id, line, verified, failed, now)
    {
      hide NoteFailure, Trim;
      if id !in sessions || !sessions[id].step.Password? {
        return Failed;
      }
      var s := sessions[id];
      if s.step.player !in w.hashes {
        sessions := sessions - {id};
        return Prompted;
      }
      if verified {
        sessions := sessions - {id};
        if s.host != "" {
          ipFailures := ipFailures - {s.host};
        }
        return Actor(s.step.player);
      }
      if s.host != "" {
        CountFailure(s.host, failed, now);
      }
      s := s.(step := s.step.(failures := s.step.failures + 1));
      if Trim(line) == "" || s.step.failures >= SESSION_FAILURES {
        sessions := sessions - {id};
        return Closed;
      }
      sessions := sessions[id := s];
      return Prompted;
    }

    method HandleCreatePasswordAfterHash(id: Id, stored: bool) returns (reply: Reply)
      modifies this
      ensures (Abs(), reply) == AfterHash(old(Abs()), id, stored)
    {
      hide BuildCharacter;
      if id !in sessions {
        return Failed;
      }
      var step := sessions[id].step;
      if !step.Creating? || step.stage != NewPassword {
        return Failed;
      }
      var b := BuildCharacter(step.create);
      if !b.Built? || !stored {
        return Failed;
      }
      sessions := sessions - {id};
      return Actor(b.name);
    }
  }
}
