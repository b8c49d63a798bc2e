/**
 Every hub entry point behind one `Apply`, so that properties shared by all of
 them can be stated once, and a run of the hub as a sequence of such calls.
 */
module Dispatch {
  import opened Wrappers
  import opened Text
  import opened Registry
  import opened Protocol
  import Hub

  /** One hub invocation: a client-invoked method with its arguments, or a
      connection lifecycle notification from the transport. */
  datatype Invocation =
    | Connect
    | Disconnect
    | Register(name: Option<string>)
    | ToggleDnd(enabled: bool)
    | SendPrivateMessage(receiverId: ConnectionId, message: Option<string>)
    | SendOffer(receiverId: ConnectionId, offer: Option<Payload>)
    | AcceptCall(callerId: ConnectionId)
    | RejectCall(callerId: ConnectionId, reason: Option<string>)
    | EndCall(peerId: ConnectionId)
    | SendAnswer(callerId: ConnectionId, answer: Option<Payload>)
    | SendIceCandidate(targetId: ConnectionId, candidate: Option<Payload>)

  /** The step `caller` takes by invoking `inv` on the registry `users`. */
  function Apply(users: Users, caller: ConnectionId, inv: Invocation): Hub.Step {
    match inv
    case Connect => Hub.OnConnected(users, caller)
    case Disconnect => Hub.OnDisconnected(users, caller)
    case Register(name) => Hub.Register(users, caller, name).step
    case ToggleDnd(enabled) => Hub.ToggleDnd(users, caller, enabled)
    case SendPrivateMessage(receiverId, message) => Hub.SendPrivateMessage(users, caller, receiverId, message)
    case SendOffer(receiverId, offer) => Hub.SendOffer(users, caller, receiverId, offer)
    case AcceptCall(callerId) => Hub.AcceptCall(users, caller, callerId)
    case RejectCall(callerId, reason) => Hub.RejectCall(users, callerId, reason)
    case EndCall(peerId) => Hub.EndCall(users, caller, peerId)
    case SendAnswer(callerId, answer) => Hub.SendAnswer(users, callerId, answer)
    case SendIceCandidate(targetId, candidate) => Hub.SendIceCandidate(users, caller, targetId, candidate)
  }

  /** Only `Register` and a disconnection change which connections are registered,
      and each of them only adds or removes the caller. */
  lemma MembershipChangesOnlyByRegisterOrDisconnect(users: Users, caller: ConnectionId, inv: Invocation)
    ensures inv.Register? ==> Apply(users, caller, inv).users.Keys == users.Keys + {caller}
    ensures inv.Disconnect? ==> Apply(users, caller, inv).users.Keys == users.Keys - {caller}
    ensures !inv.Register? && !inv.Disconnect? ==> Apply(users, caller, inv).users.Keys == users.Keys
  {
  }

  /** Nobody changes another connection's name or do-not-disturb flag, or removes it. */
  lemma OnlyTheOwnerChangesItsProfile(users: Users, caller: ConnectionId, inv: Invocation, id: ConnectionId)
    requires id in users && id != caller
    ensures SameProfile(users, Apply(users, caller, inv).users, id)
  {
  }

  /** A connection enters a call only by accepting one or by having its own call accepted. */
  lemma InCallOnlyThroughAccept(users: Users, caller: ConnectionId, inv: Invocation, id: ConnectionId)
    requires id in Apply(users, caller, inv).users && Apply(users, caller, inv).users[id].isInCall
    requires !(id in users && users[id].isInCall)
    ensures inv.AcceptCall? && (id == caller || id == inv.callerId)
  {
  }

  /** A connection leaves a call only through `EndCall`, as the caller or the named peer,
      or by registering again; a partner's disconnection does not clear it. */
  lemma InCallClearedOnlyByEndOrRegister(users: Users, caller: ConnectionId, inv: Invocation, id: ConnectionId)
    requires id in users && users[id].isInCall
    requires id in Apply(users, caller, inv).users && !Apply(users, caller, inv).users[id].isInCall
    ensures (inv.EndCall? && (id == caller || id == inv.peerId)) || (inv.Register? && id == caller)
  {
  }

  /** Forwarding operations never touch the registry. */
  lemma RelayingLeavesRegistryAlone(users: Users, caller: ConnectionId, inv: Invocation)
    requires inv.Connect? || inv.SendPrivateMessage? || inv.SendOffer? || inv.RejectCall?
          || inv.SendAnswer? || inv.SendIceCandidate?
    ensures Apply(users, caller, inv).users == users
  {
  }

  /** Every presence broadcast carries the registry as the step leaves it, and any
      step that changes the registry opens its outbox with such a broadcast. */
  lemma PresenceIsBroadcastAfterEveryChange(users: Users, caller: ConnectionId, inv: Invocation)
    ensures var r := Apply(users, caller, inv);
      forall i :: 0 <= i < |r.outbox| && r.outbox[i].message.UserListUpdated? ==>
        r.outbox[i] == Event(All, UserListUpdated(r.users))
    ensures var r := Apply(users, caller, inv);
      r.users != users ==> |r.outbox| > 0 && r.outbox[0] == Event(All, UserListUpdated(r.users))
  {
  }

  /** An incoming call rings only a receiver that was available, and only on behalf of a
      registered caller whose id and name it carries. */
  lemma CallsRingOnlyAvailableReceivers(users: Users, caller: ConnectionId, inv: Invocation, i: nat)
    requires i < |Apply(users, caller, inv).outbox|
    requires Apply(users, caller, inv).outbox[i].message.IncomingCall?
    ensures var e := Apply(users, caller, inv).outbox[i];
      && e.target.Client? && Available(users, e.target.id)
      && caller in users && e.message.callerId == caller && e.message.callerName == users[caller].name
  {
  }

  /** Every hub step keeps every stored name a valid display name. */
  lemma ApplyPreservesWellFormed(users: Users, caller: ConnectionId, inv: Invocation)
    ensures WellFormed(users) ==> WellFormed(Apply(users, caller, inv).users)
  {
    if WellFormed(users) {
      var r := Apply(users, caller, inv);
      forall id | id in r.users ensures IsDisplayName(r.users[id].name) {
        if id != caller {
          OnlyTheOwnerChangesItsProfile(users, caller, inv, id);
        }
      }
    }
  }

  /** A hub invocation made on behalf of one connection. */
  datatype Call = Call(connection: ConnectionId, invocation: Invocation)

  /** The registry after the calls of `trace` have been served one after another,
      starting from `users`. */
  function Run(users: Users, trace: seq<Call>): (final: Users)
    ensures WellFormed(users) ==> WellFormed(final)
  {
    if trace == [] then users
    else
      var before := Run(users, trace[..|trace| - 1]);
      var last := trace[|trace| - 1];
      ApplyPreservesWellFormed(before, last.connection, last.invocation);
      Apply(before, last.connection, last.invocation).users
  }

  /** Whether the latest `Register` or disconnection of `id` in `trace` was a
      registration; `None` when there was neither. */
  function LastMembership(trace: seq<Call>, id: ConnectionId): Option<bool> {
    if trace == [] then None
    else
      var last := trace[|trace| - 1];
      if last.connection == id && last.invocation.Register? then Some(true)
      else if last.connection == id && last.invocation.Disconnect? then Some(false)
      else LastMembership(trace[..|trace| - 1], id)
  }

  /** A connection is registered after a run exactly when its latest membership call
      was a registration, or it made none and was registered before the run. */
  lemma {:induction false} RegisteredIffLastMembershipIsRegister(users: Users, trace: seq<Call>, id: ConnectionId)
    ensures id in Run(users, trace) <==> LastMembership(trace, id).GetOr(id in users)
    decreases |trace|
  {
    if trace != [] {
      var before := Run(users, trace[..|trace| - 1]);
      var last := trace[|trace| - 1];
      RegisteredIffLastMembershipIsRegister(users, trace[..|trace| - 1], id);
      MembershipChangesOnlyByRegisterOrDisconnect(before, last.connection, last.invocation);
    }
  }
}
