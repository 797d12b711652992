/**
 * The session objects the handler mutates and the poll session through
 * which it finds them by session-id.
 */
module Sessions {
  import opened NcTypes

  /** A NETCONF session; the handler reads its id and writes three of its fields. */
  class NcSession {
    const id: uint32
    var status: Status
    var termReason: TermReason
    var killedBy: uint32

    constructor (id: uint32, status: Status)
      ensures this.id == id && this.status == status
      ensures termReason == TermNone && killedBy == 0
    {
      this.id := id;
      this.status := status;
      termReason := TermNone;
      killedBy := 0;
    }

    /** The fields the handler writes, as a value. */
    function State(): SessionState
      reads this
    {
      SessionState(status, termReason, killedBy)
    }

    method SetStatus(s: Status)
      modifies this`status
      ensures status == s
    {
      status := s;
    }

    method SetTermReason(r: TermReason)
      modifies this`termReason
      ensures termReason == r
    {
      termReason := r;
    }

    method SetKilledBy(sid: uint32)
      modifies this`killedBy
      ensures killedBy == sid
    {
      killedBy := sid;
    }
  }

  /** The server's poll session: every registered session, by its id. */
  class PollSession {
    var sessions: map<uint32, NcSession>

    /** Each session is registered under its own id. */
    ghost predicate Valid()
      reads this
    {
      forall sid | sid in sessions :: sessions[sid].id == sid
    }

    /** The registered sessions as values. */
    ghost function Snapshot(): map<uint32, SessionState>
      reads this, sessions.Values
    {
      map sid | sid in sessions :: sessions[sid].State()
    }

    constructor ()
      ensures Valid() && sessions == map[]
    {
      sessions := map[];
    }

    /** The registered session with id `sid`, or null when there is none. */
    function GetSessionBySid(sid: uint32): (s: NcSession?)
      reads this
      requires Valid()
      ensures s != null <==> sid in sessions
      ensures s != null ==> s == sessions[sid] && s.id == sid
    {
      if sid in sessions then sessions[sid] else null
    }
  }
}
