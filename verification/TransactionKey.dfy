/** How a SIP message finds its transaction (RFC 3261, sections 17.1.3 and 17.2.3). */
module TransactionKey {

  import opened Wrappers

  const MAGIC_COOKIE: string := "z9hG4bK"

  datatype Method = Invite | Ack | Other(name: string)

  datatype Role = ServerSide | ClientSide

  /** The headers a key is made of; the branch is a parameter of the topmost Via. */
  datatype Headers = Headers(branch: Option<string>, sentBy: string, cseq: nat, verb: Method,
                             fromTag: Option<string>, callId: string)

  datatype Key =
    | Rfc3261(role: Role, branch: string, verb: Option<Method>)
    | Rfc2543(role: Role, verb: Option<Method>, cseq: nat, fromTag: string, callId: string, sentBy: string)

  /** INVITE and its ACK count as one method. */
  function FilterMethod(m: Method): (r: Option<Method>) {
    if m.Other? then Some(m) else None
  }

  predicate HasCookie(h: Headers) {
    MAGIC_COOKIE <= h.branch.GetOr("")
  }

  /** None if an old key needs the From tag and there is none. */
  function FromHeaders(h: Headers, role: Role): (r: Option<Key>) {
    if HasCookie(h) then Some(Rfc3261(role, h.branch.GetOr(""), FilterMethod(h.verb)))
    else if h.fromTag.None? then None
    else Some(Rfc2543(role, FilterMethod(h.verb), h.cseq, h.fromTag.value, h.callId, h.sentBy))
  }

  /** The ACK keeps Via, From, Call-ID and the CSeq number of its INVITE. */
  function AckHeaders(invite: Headers): (r: Headers) {
    invite.(verb := Ack)
  }

  /** An INVITE and its ACK share one key, or both have none, whatever the branch; another method does not. */
  lemma AckSharesKey(invite: Headers, role: Role)
    requires invite.verb == Invite
    ensures FromHeaders(AckHeaders(invite), role) == FromHeaders(invite, role)
    ensures forall m: Method :: m.Other? && FromHeaders(invite, role).Some? ==>
              FromHeaders(invite.(verb := m), role) != FromHeaders(invite, role)
  {
  }
}
