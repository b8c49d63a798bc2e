/**
 The hub methods of `CallHub`, one pure step each. A step takes the registry as it
 stands before the call and the caller's connection id (`Context.ConnectionId`),
 and yields the registry afterwards together with the events sent, in order.
 */
module Hub {
  import opened Wrappers
  import opened Text
  import opened Registry
  import opened Protocol

  datatype Step = Step(users: Users, outbox: seq<Event>)

  /** `Register` also hands the caller its own connection id. */
  datatype Reply = Reply(step: Step, connectionId: ConnectionId)

  /** `ToggleDnd(enabled)`: a registered caller sets its own do-not-disturb flag and the
      new presence is broadcast; for anyone else nothing happens. */
  function ToggleDnd(users: Users, caller: ConnectionId, enabled: bool): (r: Step)
    ensures r.users.Keys == users.Keys
    ensures SameExcept(users, r.users, {caller})
    ensures caller in users ==>
      && r.users[caller] == UserInfo(users[caller].name, enabled, users[caller].isInCall)
      && r.outbox == [Event(All, UserListUpdated(r.users))]
    ensures caller !in users ==> r == Step(users, [])
  {
    if caller in users then
      var users' := users[caller := users[caller].(isDoNotDisturb := enabled)];
      Step(users', [BroadcastUserList(users')])
    else
      Step(users, [])
  }

  /** `SendPrivateMessage(receiverId, message)`: a non-blank message between two
      registered connections goes to the receiver and is echoed to the sender. */
  function SendPrivateMessage(users: Users, caller: ConnectionId, receiverId: ConnectionId,
                              message: Option<string>): (r: Step)
    ensures r.users == users
    ensures r.outbox == [] <==>
      IsNullOrWhiteSpace(message) || caller !in users || receiverId !in users
    ensures !IsNullOrWhiteSpace(message) && caller in users && receiverId in users ==>
      var m := ReceivePrivateMessage(users[caller].name, message.value);
      r.outbox == [Event(Client(receiverId), m), Event(Caller, m)]
  {
    if IsNullOrWhiteSpace(message) then Step(users, [])
    else if caller !in users then Step(users, [])
    else if receiverId !in users then Step(users, [])
    else
      var senderName := users[caller].name;
      Step(users, [Event(Client(receiverId), ReceivePrivateMessage(senderName, message.value)),
                   Event(Caller, ReceivePrivateMessage(senderName, message.value))])
  }

  /** `SendOffer(receiverId, offer)`: an unknown, DND or busy receiver is refused with
      the busy text before the caller's own registration is looked at; an available
      receiver is rung only when the caller is registered. */
  function SendOffer(users: Users, caller: ConnectionId, receiverId: ConnectionId,
                     offer: Option<Payload>): (r: Step)
    ensures r.users == users
    ensures offer.None? ==> r.outbox == []
    ensures offer.Some? && !Available(users, receiverId) ==>
      r.outbox == [Event(Caller, CallRejected(BusyReason))]
    ensures offer.Some? && Available(users, receiverId) && caller !in users ==>
      r.outbox == []
    ensures offer.Some? && Available(users, receiverId) && caller in users ==>
      r.outbox == [Event(Client(receiverId), IncomingCall(caller, users[caller].name, offer.value))]
  {
    if offer.None? then Step(users, [])
    else if receiverId !in users || users[receiverId].isDoNotDisturb || users[receiverId].isInCall then
      Step(users, [Event(Caller, CallRejected(BusyReason))])
    else if caller !in users then Step(users, [])
    else
      Step(users, [Event(Client(receiverId), IncomingCall(caller, users[caller].name, offer.value))])
  }

  /** `AcceptCall(callerId)`: when both parties are registered both are marked in a
      call, the presence is broadcast and the caller learns who accepted. */
  function AcceptCall(users: Users, caller: ConnectionId, callerId: ConnectionId): (r: Step)
    ensures r.users.Keys == users.Keys
    ensures SameExcept(users, r.users, {caller, callerId})
    ensures caller in users && callerId in users ==>
      && SameProfile(users, r.users, caller) && r.users[caller].isInCall
      && SameProfile(users, r.users, callerId) && r.users[callerId].isInCall
      && r.outbox == [Event(All, UserListUpdated(r.users)), Event(Client(callerId), CallAccepted(caller))]
    ensures caller !in users || callerId !in users ==> r == Step(users, [])
  {
    if caller !in users || callerId !in users then Step(users, [])
    else
      var users' := SetInCall(SetInCall(users, caller, true), callerId, true);
      Step(users', [BroadcastUserList(users'), Event(Client(callerId), CallAccepted(caller))])
  }

  /** `RejectCall(callerId, reason = "Rejected")`: the reason, or its default when the
      argument is omitted, goes to a registered caller. */
  function RejectCall(users: Users, callerId: ConnectionId, reason: Option<string>): (r: Step)
    ensures r.users == users
    ensures callerId !in users ==> r.outbox == []
    ensures callerId in users && reason.None? ==>
      r.outbox == [Event(Client(callerId), CallRejected(DefaultRejectReason))]
    ensures callerId in users && reason.Some? ==>
      r.outbox == [Event(Client(callerId), CallRejected(reason.value))]
  {
    var text := reason.GetOr(DefaultRejectReason);
    if callerId in users then Step(users, [Event(Client(callerId), CallRejected(text))])
    else Step(users, [])
  }

  /** `EndCall(peerId)`: whichever of the two parties is registered leaves the call;
      the presence is broadcast and both sides are told, registered or not. */
  function EndCall(users: Users, caller: ConnectionId, peerId: ConnectionId): (r: Step)
    ensures r.users.Keys == users.Keys
    ensures SameExcept(users, r.users, {caller, peerId})
    ensures caller in users ==> SameProfile(users, r.users, caller) && !r.users[caller].isInCall
    ensures peerId in users ==> SameProfile(users, r.users, peerId) && !r.users[peerId].isInCall
    ensures r.outbox == [Event(All, UserListUpdated(r.users)),
                         Event(Client(peerId), CallEnded),
                         Event(Caller, CallEnded)]
  {
    var users' := SetInCall(SetInCall(users, caller, false), peerId, false);
    Step(users', [BroadcastUserList(users'), Event(Client(peerId), CallEnded), Event(Caller, CallEnded)])
  }

  /** `SendAnswer(callerId, answer)`: a non-null answer is forwarded to a registered caller. */
  function SendAnswer(users: Users, callerId: ConnectionId, answer: Option<Payload>): (r: Step)
    ensures r.users == users
    ensures r.outbox != [] <==> answer.Some? && callerId in users
    ensures r.outbox != [] ==> r.outbox == [Event(Client(callerId), ReceiveAnswer(answer.value))]
  {
    if answer.Some? && callerId in users then
      Step(users, [Event(Client(callerId), ReceiveAnswer(answer.value))])
    else
      Step(users, [])
  }

  /** `SendIceCandidate(targetId, candidate)`: a non-null candidate is forwarded to a
      registered target, tagged with the sender's id. */
  function SendIceCandidate(users: Users, caller: ConnectionId, targetId: ConnectionId,
                            candidate: Option<Payload>): (r: Step)
    ensures r.users == users
    ensures r.outbox != [] <==> candidate.Some? && targetId in users
    ensures r.outbox != [] ==>
      r.outbox == [Event(Client(targetId), ReceiveIceCandidate(caller, candidate.value))]
  {
    if candidate.Some? && targetId in users then
      Step(users, [Event(Client(targetId), ReceiveIceCandidate(caller, candidate.value))])
    else
      Step(users, [])
  }

  /** `OnDisconnectedAsync`: the caller's entry, if any, is dropped (a call partner's
      in-call flag is left as it was) and the presence is broadcast. */
  function OnDisconnected(users: Users, caller: ConnectionId): (r: Step)
    ensures r.users.Keys == users.Keys - {caller}
    ensures SameExcept(users, r.users, {caller})
    ensures r.outbox == [Event(All, UserListUpdated(r.users))]
  {
    var users' := users - {caller};
    Step(users', [BroadcastUserList(users')])
  }

  /** `OnConnectedAsync`: the registry is broadcast as it is, before the new
      connection has registered. */
  function OnConnected(users: Users, caller: ConnectionId): (r: Step)
    ensures r.users == users
    ensures r.outbox == [Event(All, UserListUpdated(users))]
  {
    Step(users, [BroadcastUserList(users)])
  }

  /** `Register(name)`: the caller's entry is created or replaced with the normalised
      name and both flags cleared, the presence is broadcast, and the caller's id
      is returned. */
  function Register(users: Users, caller: ConnectionId, name: Option<string>): (r: Reply)
    ensures r.connectionId == caller
    ensures r.step.users.Keys == users.Keys + {caller}
    ensures SameExcept(users, r.step.users, {caller})
    ensures IsNullOrWhiteSpace(name) ==> r.step.users[caller].name == GuestName
    ensures !IsNullOrWhiteSpace(name) ==> r.step.users[caller].name == Trim(name.value)
    ensures !r.step.users[caller].isDoNotDisturb && !r.step.users[caller].isInCall
    ensures r.step.outbox == [Event(All, UserListUpdated(r.step.users))]
  {
    var info := UserInfo(NormalizeName(name), false, false);
    var users' := users[caller := info];
    Reply(Step(users', [BroadcastUserList(users')]), caller)
  }
}
