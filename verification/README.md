# CallHub signalling core in Dafny

A model of `CallHub`, the SignalR hub of a peer-to-peer calling app. The hub keeps a
process-wide registry mapping each connection id to a `UserInfo` record. The record holds
a display name and two flags, do-not-disturb and in-call. The hub's methods do four things:

- register connections and normalise their names;
- relay call signalling (offer, accept, reject, end, answer, ICE candidate) and private
  messages between connections;
- apply the busy / do-not-disturb admission rule to offers;
- broadcast the registry to every client whenever presence changes.

Each hub method is modelled as a pure step. It takes the registry before the call and the
caller's connection id (`Context.ConnectionId`), and returns the registry after the call
together with the ordered list of events it sends. Each event is a target (`Client(id)`,
`Caller` or `All`), an event name and the event's arguments. A C# `null` argument is
`None` in an `Option`.

Modules, leaf first:

- `Wrappers`: `Option`.
- `Text`: `Char.IsWhiteSpace`, `string.IsNullOrWhiteSpace`, `string.Trim()`, and the name
  normalisation `Register` applies. `Trim` is proved to be the only way to strip white space
  from both ends so that what remains is trimmed. From that follow idempotence and "trims to
  empty iff blank".
- `Registry`: `UserInfo`, the registry map, the admission predicate `Available`, the
  snapshot copy, and the "nothing else changes" frame predicates.
- `Protocol`: targets, the eight server-to-client events, the two fixed reason strings, and
  `BroadcastUserList`.
- `Hub`: one function per hub method, each with a contract covering every branch.
- `Dispatch`: every entry point behind one `Apply`. It proves the facts that hold across all
  operations:
  - only `Register` and disconnection change the key set;
  - nobody changes another connection's name or do-not-disturb flag;
  - in-call is only ever set by `AcceptCall`, and only cleared by `EndCall` or a
    re-registration;
  - every broadcast carries the post-step registry, and every change is broadcast;
  - an incoming call only rings an available receiver;
  - names stay well formed.

  `Dispatch` also defines runs of many calls. After a run, a connection is registered
  exactly when its latest membership call was a registration.
- `Scenarios`: properties of several steps together. These cover operations that undo each
  other (DND toggle, accept then end, register then disconnect), idempotent re-registration,
  refusal of offers to parties in a call, and the stale in-call flag after a partner
  disconnects.

The hub keeps no "ringing" state. An offer changes nothing in the registry. `AcceptCall`
only checks that both parties are registered, not that an offer was ever made. The model
follows the code on this point. Likewise `EndCall` does not check that the caller is the
peer's call partner. Any connection, registered or not, clears the in-call flag of the
`peerId` it names (CallHub.cs:122-123).

## Model

| member | source | states |
|---|---|---|
| Text.LeadingWhiteSpace | CallHub.cs:166 | the count of leading white-space characters: everything before it is white space and the character at it is not |
| Text.TrailingWhiteSpace | CallHub.cs:166 | the count of trailing white-space characters: everything after the cut is white space and the character before it is not |
| Text.Trim | CallHub.cs:166 | the result is trimmed at both ends and is a slice of the input with only white space outside it |
| Text.TrimIsUnique | CallHub.cs:166 | any slice that is trimmed and has only white space around it is exactly what `Trim` returns |
| Text.TrimIsIdempotent | CallHub.cs:166 | trimming a trimmed name changes nothing |
| Text.TrimEmptyIffBlank | CallHub.cs:161-166 | `Trim` yields the empty string exactly when the string is white space only, so a non-blank name never trims to empty |
| Text.IsNullOrWhiteSpace | CallHub.cs:73 | `string.IsNullOrWhiteSpace` holds exactly when the string is null or trims to the empty string |
| Text.WhiteSpaceAgreesWithCharIsWhiteSpace | CallHub.cs:161 | the white-space set is `Char.IsWhiteSpace`'s: tab to carriage return, U+0085, and every Unicode space separator (U+0020, U+00A0, U+1680, all of U+2000 to U+200A, U+202F, U+205F, U+3000) and the line and paragraph separators are in it; NUL, U+001F, U+180E, zero-width space, word joiner and BOM are not |
| Text.NormalizeName | CallHub.cs:161-166 | a null, empty or white-space name becomes "Guest"; any other name becomes its trimmed form; either way the stored name is non-empty and trimmed |
| Registry.Snapshot | CallHub.cs:180-187 | the copy has the registry's keys and, for each key, the same name and flags |
| Registry.SetInCall | CallHub.cs:119-123 | the in-call flag of a registered id is set and its name and DND kept; an unregistered id leaves the registry unchanged; no other entry changes |
| Protocol.BroadcastUserList | CallHub.cs:178-190 | one UserListUpdated event to all clients whose snapshot equals the registry |
| Hub.ToggleDnd | CallHub.cs:62-69 | a registered caller's DND becomes `enabled`, its name and in-call flag stay, no other entry changes, one broadcast of the new registry; an unregistered caller changes nothing and sends nothing |
| Hub.SendPrivateMessage | CallHub.cs:71-81 | registry unchanged; nothing sent iff the message is blank or either party is unregistered; otherwise ReceivePrivateMessage(sender name, message) to the receiver, then the same echoed to the caller |
| Hub.SendOffer | CallHub.cs:83-98 | registry unchanged; a null offer sends nothing; an unknown, DND or in-call receiver yields one CallRejected with the busy text to the caller, even when the caller is unregistered; an available receiver gets IncomingCall(caller id, caller name, offer) only if the caller is registered |
| Hub.AcceptCall | CallHub.cs:100-109 | with both parties registered both are in a call with names and DND kept and no other entry changed, then a broadcast and CallAccepted(accepter id) to the caller; otherwise no change and no events |
| Hub.RejectCall | CallHub.cs:111-115 | registry unchanged; a registered caller gets exactly one CallRejected carrying the given reason or "Rejected" when omitted; an unregistered one gets nothing |
| Hub.EndCall | CallHub.cs:117-130 | the in-call flag is cleared on caller and peer wherever they are registered, every other field and entry kept; always a broadcast, then CallEnded to the peer, then CallEnded to the caller |
| Hub.SendAnswer | CallHub.cs:132-136 | registry unchanged; exactly one ReceiveAnswer(answer) to the target iff the answer is non-null and the target registered |
| Hub.SendIceCandidate | CallHub.cs:138-142 | registry unchanged; exactly one ReceiveIceCandidate(sender id, candidate) to the target iff the candidate is non-null and the target registered |
| Hub.OnDisconnected | CallHub.cs:144-149 | exactly the caller's key is removed (no-op if absent), all other entries kept as they were, then one broadcast of the new registry |
| Hub.OnConnected | CallHub.cs:153-157 | registry unchanged; one broadcast of the current registry |
| Hub.Register | CallHub.cs:159-176 | the caller's entry is created or replaced with the normalised name and both flags false; no other entry changes; one broadcast of the new registry; the caller's id is returned |
| Dispatch.MembershipChangesOnlyByRegisterOrDisconnect | CallHub.cs:144-176 | Register adds exactly the caller's key, disconnection removes exactly it, and every other operation keeps the key set |
| Dispatch.OnlyTheOwnerChangesItsProfile | CallHub.cs:62-69 | no operation removes another connection or changes its name or DND flag |
| Dispatch.InCallOnlyThroughAccept | CallHub.cs:100-109 | an entry newly marked in a call got there by AcceptCall, as the accepter or the accepted caller |
| Dispatch.InCallClearedOnlyByEndOrRegister | CallHub.cs:117-130 | an in-call flag that is cleared on an entry that stays registered was cleared by EndCall, as the caller or the named peer, or by that connection registering again |
| Dispatch.RelayingLeavesRegistryAlone | CallHub.cs:71-142 | connecting, private messages, offers, rejections, answers and ICE candidates never change the registry |
| Dispatch.PresenceIsBroadcastAfterEveryChange | CallHub.cs:62-176 | every UserListUpdated carries the registry as the step leaves it, and a step that changes the registry starts with such a broadcast |
| Dispatch.CallsRingOnlyAvailableReceivers | CallHub.cs:83-98 | every IncomingCall goes to a registered, non-DND, not-in-call receiver, on behalf of a registered caller whose id and name it carries |
| Dispatch.ApplyPreservesWellFormed | CallHub.cs:159-171 | if every stored name is non-empty and trimmed before a step, it is after it |
| Dispatch.Run | CallHub.cs:58 | serving a sequence of calls from a well-formed registry yields a well-formed registry |
| Dispatch.RegisteredIffLastMembershipIsRegister | CallHub.cs:144-176 | after any run, a connection is registered iff its latest Register/disconnect was a Register, or it had none and was registered at the start |
| Scenarios.BlankNamesBecomeGuest | CallHub.cs:161-162 | null, "" and "   " are stored as "Guest" |
| Scenarios.NamesAreTrimmed | CallHub.cs:166 | "  Bob  " is stored as "Bob" |
| Scenarios.RegisterIsIdempotent | CallHub.cs:159-176 | registering twice with the same name leaves the registry as one registration does |
| Scenarios.ReRegisterResetsFlags | CallHub.cs:164-171 | re-registering keeps the number of entries and clears in-call and DND even if they were set |
| Scenarios.ToggleDndIsUndone | CallHub.cs:62-69 | toggling DND and then back to its old value restores the registry |
| Scenarios.EndCallUndoesAcceptCall | CallHub.cs:100-130 | ending an accepted call from either side restores the registry when neither party was in a call before |
| Scenarios.DisconnectUndoesFirstRegister | CallHub.cs:144-176 | registering a new connection and then disconnecting it restores the registry |
| Scenarios.OffersToPartiesInCallAreRefused | CallHub.cs:83-109 | after an accept, any offer to either party is answered with the busy rejection only |
| Scenarios.DisconnectLeavesPartnerInCall | CallHub.cs:144-149 | when one party of an accepted call disconnects, its entry is gone and the partner stays marked in a call |
| Scenarios.FirstBroadcastPrecedesRegistration | CallHub.cs:153-175 | the broadcast sent when a new connection connects does not list it; the broadcast its registration sends does |
| Scenarios.AnyoneCanEndAPeersCall | CallHub.cs:117-130 | any connection, registered or not, that calls EndCall naming an in-call peer takes that peer out of its call |

## Left out

- The commented-out earlier hub at the top of `CallHub.cs` is dead code and is not modelled.
- Message delivery: `SendAsync` calls are modelled as appended outbox events. Delivery, delivery failure and per-recipient isolation of a broadcast belong to the SignalR transport. The calls to `base.OnConnectedAsync` / `base.OnDisconnectedAsync` are transport too.
- `async`/`await` and concurrent access to the unsynchronised static dictionary are left out. Each hub call is one atomic step on the registry.
- The exception argument of `OnDisconnectedAsync` is only passed on to the base class (CallHub.cs:148), which is transport, so it is not modelled.
- Offer, answer and ICE payloads are opaque `Payload` values. Only whether they are null matters, and they are forwarded verbatim.
- Null connection-id arguments are not modelled. A null id that reaches a dictionary lookup makes it throw. Several calls return before that lookup, with no change and no events: `SendPrivateMessage` with a blank message or an unregistered sender (CallHub.cs:73-74), `SendOffer` with a null offer (CallHub.cs:85), `AcceptCall` from an unregistered caller (CallHub.cs:102), and `SendAnswer` or `SendIceCandidate` with a null payload (CallHub.cs:134, CallHub.cs:140).
- Hub.EndCall: a null `peerId` is not modelled. In that case the code first clears the caller's in-call flag (CallHub.cs:119-120) and then throws at the lookup on CallHub.cs:122. No `UserListUpdated` or `CallEnded` is sent, so the other clients go on seeing the caller as in a call.
- Hub.RejectCall: `None` stands for an omitted `reason`, which takes the default "Rejected". An explicitly passed null reason, which the code would forward as null, is not modelled.
- Strings are sequences of Unicode scalar values rather than UTF-16 code units. The white-space set is the one `Char.IsWhiteSpace` uses, and all of it lies in the Basic Multilingual Plane.
