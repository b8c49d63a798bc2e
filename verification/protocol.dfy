/**
 The wire vocabulary of the hub: who an event is addressed to and which
 client-side handler it invokes with which arguments.
 */
module Protocol {
  import opened Registry

  /** An offer, answer or ICE candidate as the client sent it. The hub forwards it
      verbatim and never looks inside. */
  datatype Payload = Payload(content: string)

  /** `Clients.Client(id)`, `Clients.Caller` and `Clients.All`. */
  datatype Target = Client(id: ConnectionId) | Caller | All

  datatype Message =
    | UserListUpdated(users: Users)
    | ReceivePrivateMessage(senderName: string, text: string)
    | IncomingCall(callerId: ConnectionId, callerName: string, offer: Payload)
    | CallAccepted(calleeId: ConnectionId)
    | CallRejected(reason: string)
    | CallEnded
    | ReceiveAnswer(answer: Payload)
    | ReceiveIceCandidate(senderId: ConnectionId, candidate: Payload)

  /** One `SendAsync` call: an event name with its arguments, addressed to a target. */
  datatype Event = Event(target: Target, message: Message)

  /** The only rejection text `SendOffer` produces, whether the receiver is unknown, busy or DND. */
  const BusyReason: string := "User is busy or in Do Not Disturb"

  /** The default value of `RejectCall`'s `reason` parameter. */
  const DefaultRejectReason: string := "Rejected"

  /** `BroadcastUserList`: one `UserListUpdated` to every client, carrying a copy of
      the registry that is equal to it. */
  function BroadcastUserList(users: Users): (e: Event)
    ensures e == Event(All, UserListUpdated(users))
  {
    var copy := Snapshot(users);
    assert copy == users;
    Event(All, UserListUpdated(copy))
  }
}
