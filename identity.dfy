/** `getUserIdFromFirebaseUid`, the helper that the transaction, category and payment-method
    controllers each define identically: the external identity reference to the internal id. */
module Identity {
  import opened Fields
  import opened Tables
  import opened Schema
  import opened Store

  /** The user row with this firebase_uid, first in primary-key order. */
  function UserWithUid(users: map<nat, User>, next: nat, uid: string): (r: Option<User>)
    requires Keyed(users, next, (u: User) => u.id)
    ensures r.Some? ==> r.value.id in users && users[r.value.id] == r.value && r.value.firebaseUid == uid
    ensures r.None? <==> forall k :: k in users ==> users[k].firebaseUid != uid
  {
    FirstWhere(RowsBelow(users, next), (u: User) => u.firebaseUid == uid)
  }

  /** A falsy uid resolves to null whatever the table holds; otherwise the id of the one user
      carrying that uid, or null when there is none. */
  function ResolveUser(users: map<nat, User>, next: nat, uid: Field<string>): (r: Option<nat>)
    requires Keyed(users, next, (u: User) => u.id)
    requires UniqueUids(users)
    ensures Falsy(uid, "") ==> r == None
    ensures r.Some? ==> r.value in users && users[r.value].firebaseUid == uid.value
    ensures r.Some? ==> forall k :: k in users && users[k].firebaseUid == uid.value ==> k == r.value
    ensures !Falsy(uid, "") && r.None? ==> forall k :: k in users ==> users[k].firebaseUid != uid.value
  {
    if Falsy(uid, "") then None
    else
      match UserWithUid(users, next, uid.value)
      case Some(u) => Some(u.id)
      case None => None
  }

  /** The user id a request resolves to, against the current users table. */
  function Caller(db: Database, uid: Field<string>): (r: Option<nat>)
    reads db
    requires db.Valid()
  {
    ResolveUser(db.users, db.nextUserId, uid)
  }
}
