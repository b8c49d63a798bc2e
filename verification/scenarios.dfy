/**
 Properties that relate several hub steps: operations that undo each other,
 re-registration, and the documented consequences of the call flags.
 */
module Scenarios {
  import opened Wrappers
  import opened Text
  import opened Registry
  import opened Protocol
  import opened Hub

  /** Null, empty and white-space-only names become the guest name. */
  lemma BlankNamesBecomeGuest()
    ensures NormalizeName(None) == "Guest"
    ensures NormalizeName(Some("")) == "Guest"
    ensures NormalizeName(Some("   ")) == "Guest"
  {
    var spaces := "   ";
    assert forall i :: 0 <= i < |spaces| ==> spaces[i] == ' ';
    assert IsNullOrWhiteSpace(Some(spaces));
  }

  /** Any other name loses its surrounding white space. */
  lemma NamesAreTrimmed()
    ensures NormalizeName(Some("  Bob  ")) == "Bob"
  {
    var bob := "  Bob  ";
    assert bob[0] == ' ' && bob[1] == ' ' && bob[2] == 'B' && bob[4] == 'b' && bob[5] == ' ' && bob[6] == ' ';
    assert !IsNullOrWhiteSpace(Some(bob)) by { assert !IsWhiteSpace(bob[2]); }
    assert bob[2..5] == "Bob";
    TrimIsUnique(bob, 2, 5);
  }

  /** Registering a second time with the same name leaves the registry as the
      first registration left it: one entry for the caller, flags cleared. */
  lemma RegisterIsIdempotent(users: Users, caller: ConnectionId, name: Option<string>)
    ensures var once := Register(users, caller, name).step.users;
      Register(once, caller, name).step.users == once
  {
  }

  /** Re-registering while in a call, or in do-not-disturb, clears both flags and
      keeps the entry count. */
  lemma ReRegisterResetsFlags(users: Users, caller: ConnectionId, name: Option<string>)
    requires caller in users
    ensures var after := Register(users, caller, name).step.users;
      |after| == |users| && !after[caller].isInCall && !after[caller].isDoNotDisturb
  {
  }

  /** Switching do-not-disturb back to its previous value restores the registry. */
  lemma ToggleDndIsUndone(users: Users, caller: ConnectionId, enabled: bool)
    requires caller in users
    ensures ToggleDnd(ToggleDnd(users, caller, enabled).users, caller, users[caller].isDoNotDisturb).users == users
  {
  }

  /** Ending an accepted call, from either side, restores the registry as it was
      before the call was accepted, provided neither party was in a call then. */
  lemma EndCallUndoesAcceptCall(users: Users, callee: ConnectionId, callerId: ConnectionId, ender: ConnectionId)
    requires callee in users && callerId in users
    requires !users[callee].isInCall && !users[callerId].isInCall
    requires ender == callee || ender == callerId
    ensures var accepted := AcceptCall(users, callee, callerId).users;
      EndCall(accepted, ender, if ender == callee then callerId else callee).users == users
  {
  }

  /** A connection that registers and then disconnects leaves no trace in the registry. */
  lemma DisconnectUndoesFirstRegister(users: Users, caller: ConnectionId, name: Option<string>)
    requires caller !in users
    ensures OnDisconnected(Register(users, caller, name).step.users, caller).users == users
  {
  }

  /** After a call is accepted, an offer to either party from anyone is refused with
      the busy text, and that party is not rung. */
  lemma OffersToPartiesInCallAreRefused(users: Users, callee: ConnectionId, callerId: ConnectionId,
                                        other: ConnectionId, receiver: ConnectionId, offer: Payload)
    requires callee in users && callerId in users
    requires receiver == callee || receiver == callerId
    ensures SendOffer(AcceptCall(users, callee, callerId).users, other, receiver, Some(offer)).outbox
            == [Event(Caller, CallRejected(BusyReason))]
  {
  }

  /** When one party of an accepted call disconnects, the other stays marked in a call:
      the hub does not look for the partner. */
  lemma DisconnectLeavesPartnerInCall(users: Users, callee: ConnectionId, callerId: ConnectionId)
    requires callee in users && callerId in users && callee != callerId
    ensures var gone := OnDisconnected(AcceptCall(users, callee, callerId).users, callerId).users;
      callerId !in gone && callee in gone && gone[callee].isInCall
  {
  }

  /** A connection's first broadcast, sent when it connects, does not list it; the one
      its registration sends does. */
  lemma FirstBroadcastPrecedesRegistration(users: Users, caller: ConnectionId, name: Option<string>)
    requires caller !in users
    ensures var connected := OnConnected(users, caller);
      caller !in connected.outbox[0].message.users
      && caller in Register(connected.users, caller, name).step.outbox[0].message.users
  {
  }

  /** `EndCall` does not check that the caller is the peer's partner: any connection,
      registered or not, takes the peer out of its call. */
  lemma AnyoneCanEndAPeersCall(users: Users, stranger: ConnectionId, peerId: ConnectionId)
    requires peerId in users && users[peerId].isInCall
    ensures var ended := EndCall(users, stranger, peerId).users;
      peerId in ended && !ended[peerId].isInCall
  {
  }
}
