/**
 * The NETCONF <kill-session> operation (section 7.9 of RFC 6241): session
 * `ncs` asks the server to end the session whose id the RPC carries.
 */
module OpKill {
  import opened NcTypes
  import opened KillSpec
  import opened Sessions

  /**
   * Serves one <kill-session> RPC sent on `ncs`. `perm` is sysrepo's answer
   * to the access-control check, `found` the nodes found for `session-id`
   * (None when the search itself failed) and `lastErr` the last logged
   * message. The reply and the registered sessions afterwards are those of
   * KillSession; only the target's three fields are written.
   */
  method OpKill(ps: PollSession, ncs: NcSession, perm: PermResult,
                found: Option<seq<FoundNode>>, lastErr: string) returns (reply: Reply)
    requires ps.Valid()
    modifies ps.sessions.Values
    ensures ps.sessions == old(ps.sessions) && ps.Valid()
    ensures var o := KillSession(old(ps.Snapshot()), ncs.id, perm, found, lastErr);
            reply == o.reply && ps.Snapshot() == o.sessions
    ensures unchanged(ncs)
    ensures forall s | s in ps.sessions.Values && !(reply.ReplyOk? && s.id == TargetId(found)) ::
              unchanged(s)
  {
    match Check(perm, found, ncs.id)
    case Return(r) =>
      reply := r;
    case GotoError(e) =>
      reply := ErrorReply(e, lastErr);
    case Lookup(killSid) =>
      var killSess := ps.GetSessionBySid(killSid);
      if killSess == null {
        reply := ErrorReply(Some(NotFoundError), lastErr);
        return;
      }
      killSess.SetStatus(Invalid);
      killSess.SetTermReason(TermKilled);
      killSess.SetKilledBy(ncs.id);
      reply := ReplyOk;
      assert ps.Snapshot() == old(ps.Snapshot())[killSid := Killed(old(ps.Snapshot())[killSid], ncs.id)];
  }
}
