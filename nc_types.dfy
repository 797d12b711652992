/**
 * Values exchanged by the NETCONF <kill-session> handler: session
 * identifiers, the per-session status fields it writes, the answer of the
 * access-control check, the nodes found for the `session-id` leaf and the
 * reply it sends back.
 */
module NcTypes {

  /** A NETCONF session-id is an unsigned 32-bit integer. */
  newtype uint32 = x: int | 0 <= x < 0x1_0000_0000

  datatype Option<T> = None | Some(value: T)

  /** Status of a NETCONF session (libnetconf2's NC_STATUS values). */
  datatype Status = StatusErr | Starting | Closing | Invalid | Running

  /** Why a session ended (libnetconf2's NC_SESSION_TERM values). */
  datatype TermReason =
    | TermNone | TermClosed | TermKilled | TermDropped | TermTimeout | TermBadHello | TermOther

  /** The three fields of a session that <kill-session> writes. */
  datatype SessionState = SessionState(status: Status, termReason: TermReason, killedBy: uint32)

  /** The error-tag values of RFC 6241, Appendix A, that this handler produces. */
  datatype ErrTag = InvalidValue | OperationFailed

  /** The error-type values of RFC 6241, section 4.3: the layer an error belongs to. */
  datatype ErrType = Transport | Rpc | Protocol | Application

  /** An <rpc-error> built by the handler itself. */
  datatype NcError = NcError(tag: ErrTag, errType: ErrType, msg: string, lang: string)

  /**
   * The reply to the RPC: <ok/>, an error built here, or the errors whose
   * construction is delegated (from a sysrepo failure, from an access-control
   * denial) and whose content is not part of this model.
   */
  datatype Reply =
    | ReplyOk
    | ReplyError(err: NcError)
    | SrErr
    | NacmErr

  /** The result of asking sysrepo whether the session may execute the RPC. */
  datatype PermResult = PermErr | PermOk(permitted: bool)

  /**
   * A data node found under the RPC for the path `session-id`: a leaf
   * carrying its uint32 value, or a node of any other schema node type.
   */
  datatype FoundNode = LeafNode(value: uint32) | OtherNode
}
