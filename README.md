# kill-session handler of a NETCONF server

This project models the handler of the NETCONF `<kill-session>` operation
(section 7.9 of RFC 6241) in `server/op_kill.c`. A client session asks the
server to end another session, named by its `session-id`. The handler runs
these steps in order, and each one can end the call with a reply:

1. It asks sysrepo whether the requesting session may execute
   `/ietf-netconf:kill-session`. This is an access-control check in the style
   of NACM (RFC 8341). If the check itself fails, the reply is built from the
   sysrepo error. If the check denies access, the reply is the
   access-control error.
2. It extracts the single `session-id` leaf from the RPC. Anything else
   (no result, zero or several nodes, or a node that is not a leaf) is an
   internal error.
3. It rejects a request whose target is the requester's own session.
4. It looks up the target in the server's poll session, where every
   session is registered by its id.
5. It kills the target in place. It sets the target's status to INVALID,
   its termination reason to KILLED and its killed-by field to the
   requester's id, then replies `<ok/>`.

Steps 2 to 4 end at a shared error label. That label sends the error chosen
so far. If none was chosen, it sends `operation-failed` of type
`application`, with the last logged message and language `en`.

Files:

- `nc_types.dfy` (module `NcTypes`): session ids as `uint32`, session status
  and termination reason, the error tags and types of RFC 6241, replies,
  the answer of the permission check, and the nodes found for `session-id`.
- `kill_spec.dfy` (module `KillSpec`): the handler's decisions as pure
  functions. `Check` covers the guards before the lookup, `ErrorReply` the
  error label, and `KillSession` a whole call on a map from session-id to
  session state. `RunKills` applies a sequence of calls, and lemmas state
  what holds across calls.
- `sessions.dfy` (module `Sessions`): the session objects (`NcSession`, with
  setters for the three fields the handler writes) and the poll session
  (`PollSession`, a map from id to session object).
- `op_kill.dfy` (module `OpKill`): the handler as a method. It works on
  those objects and is proved to give the reply and the new session states
  that `KillSession` gives.

Points where the handler may surprise a reader:

- Authorization runs before the self-kill check. A denied request that
  names the requester's own session gets the access-control error, not the
  self-kill error.
- Nothing reads the target's status. A second kill that arrives before the
  session is removed also replies `<ok/>` and overwrites killed-by
  (`KillSpec.SecondKillSucceeds`).
- The handler does not remove the killed session from the poll session.
  The set of registered ids never changes here.
- A malformed `session-id` result is reported as `operation-failed` of
  type `application`. It does not stop the process.

## Model

| member | source | states |
|---|---|---|
| `KillSpec.Check` | server/op_kill.c:38-60 | Written with the helpers `SingleLeaf` (the well-formedness test at line 47) and `TargetId` (the leaf-value read at line 53). A failing permission check gives the sysrepo error. A denial gives the access-control error, whatever the target. A result that is not exactly one leaf jumps to the error label with no error set. A target equal to the requester's id jumps there with the invalid-value/protocol self-kill error. Only a permitted, well-formed, non-self request goes on to the lookup, with the leaf's id. Each case is an if-and-only-if. |
| `KillSpec.ErrorReply` | server/op_kill.c:76-81 | The error label always gives exactly one error reply: the error already chosen, or else operation-failed of type application with the last logged message and language "en". |
| `KillSpec.KillSession` | server/op_kill.c:24-82 | Built from `Check`, `ErrorReply`, the lookup, and the helper `Killed`, which is the three setters at lines 70-72 written as one value update. One call never changes the set of registered ids, and a call that does not reply ok changes no session. The errors are, in order of precedence: sysrepo error, access-control error, operation-failed/application with the last message, invalid-value/protocol "It is forbidden to kill own session.", and invalid-value/protocol `Session with the specified "session-id" not found.`. The reply is ok exactly when the request is permitted, well formed, not self-targeting and names a registered session. A successful kill sets the target to INVALID/KILLED/killed-by-requester, whatever its earlier state, and leaves every other session, the requester included, unchanged. |
| `KillSpec.RunKills` | server/op_kill.c:62-72 | After any sequence of calls the set of registered session ids is still the one before them. |
| `KillSpec.InvalidIsFinal` | server/op_kill.c:70-72 | A session whose status is INVALID is still INVALID after any sequence of calls. |
| `KillSpec.UntargetedUnchanged` | server/op_kill.c:46-72 | A registered session that no request in a sequence names keeps its state through all of them. |
| `KillSpec.SecondKillSucceeds` | server/op_kill.c:62-74 | Because the target's status is not checked, a second permitted kill of a session by another session also replies ok and records the second killer. |
| `Sessions.PollSession.GetSessionBySid` | server/op_kill.c:62-63 | The lookup gives null exactly when no session is registered under the id. Otherwise it gives the session registered under it, whose id is that id. |
| `Sessions.NcSession.SetStatus` | server/op_kill.c:70 | Sets the status and writes no other field. |
| `Sessions.NcSession.SetTermReason` | server/op_kill.c:71 | Sets the termination reason and writes no other field. |
| `Sessions.NcSession.SetKilledBy` | server/op_kill.c:72 | Sets killed-by and writes no other field. |
| `OpKill.OpKill` | server/op_kill.c:24-82 | The handler on session objects. Its reply and the registered sessions' states afterwards are exactly those of `KillSession` on the states before. The poll session's map is unchanged. The requesting session is unchanged. Every registered session except the target of a successful kill is unchanged. |

## Left out

- The permission check behind `sr_check_exec_permission` and its NACM rule evaluation are calls into sysrepo. The model takes their answer as the input `perm`.
- The contents of the replies built by `op_build_err_sr` and `op_build_err_nacm` are not part of this model. They appear as the opaque replies `SrErr` and `NacmErr`.
- The libyang search `lyd_find_path(rpc, "session-id")` and the freeing of its result set are not modelled. The search result is the input `found`, with `None` for a failed search.
- The text of the last logged message, and the logging of the internal error before it, are the opaque input `lastErr`.
- The libnetconf2 internals (`nc_session_get_data`, `nc_ps_get_session_by_sid`, the session setters and reply allocation) are modelled as a map lookup and field updates.
- Locking and threads are not modelled. Each call is one uninterrupted step on the sessions. So the model cannot show a target being closed and removed by its own thread between the lookup (op_kill.c:62) and the setters (op_kill.c:70-72).
- Session creation and removal belong to the session lifecycle, which is not part of this model.
