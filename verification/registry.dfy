/**
 The connection registry: the hub's process-wide map from connection id to the
 user's display name and availability flags.
 */
module Registry {
  import opened Text

  /** Opaque identifier the transport assigns to a live connection. */
  type ConnectionId = string

  datatype UserInfo = UserInfo(name: string, isDoNotDisturb: bool, isInCall: bool)

  type Users = map<ConnectionId, UserInfo>

  /** The admission rule for a call offer: registered, not do-not-disturb, not in a call. */
  predicate Available(users: Users, id: ConnectionId) {
    id in users && !users[id].isDoNotDisturb && !users[id].isInCall
  }

  /** Every stored name is one that `Register` can produce. */
  predicate WellFormed(users: Users) {
    forall id :: id in users ==> IsDisplayName(users[id].name)
  }

  /** Every entry of `users` whose id is not in `ids` is still present, unchanged, in `users'`. */
  predicate SameExcept(users: Users, users': Users, ids: set<ConnectionId>) {
    forall id :: id in users && id !in ids ==> id in users' && users'[id] == users[id]
  }

  /** `id` is present in both maps with the same name and do-not-disturb flag. */
  predicate SameProfile(users: Users, users': Users, id: ConnectionId) {
    && id in users && id in users'
    && users'[id].name == users[id].name
    && users'[id].isDoNotDisturb == users[id].isDoNotDisturb
  }

  /** The field-by-field copy of every entry that is handed to the broadcast. */
  function Snapshot(users: Users): (copy: Users)
    ensures copy.Keys == users.Keys
    ensures forall id :: id in copy ==> copy[id] == users[id]
  {
    map id | id in users :: UserInfo(users[id].name, users[id].isDoNotDisturb, users[id].isInCall)
  }

  /** Sets the in-call flag of `id` when it is registered; no-op otherwise. */
  function SetInCall(users: Users, id: ConnectionId, inCall: bool): (users': Users)
    ensures users'.Keys == users.Keys
    ensures SameExcept(users, users', {id})
    ensures id in users ==> SameProfile(users, users', id) && users'[id].isInCall == inCall
    ensures id !in users ==> users' == users
  {
    if id in users then users[id := users[id].(isInCall := inCall)] else users
  }
}
