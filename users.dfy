/** userController.js: the users table mirrors the identity provider's accounts, keyed by the
    external firebase_uid. `syncUser` is an upsert on that uid. */
module Users {
  import opened Fields
  import opened Ordering
  import opened Tables
  import opened Schema
  import opened Http
  import opened Store
  import opened Identity

  const SyncRequired: string := "firebase_uid and email are required"
  const UidRequired: string := "firebase_uid is required"
  const EmailRequired: string := "email is required"
  const NotFound: string := "User not found"
  const UpdatedMessage: string := "User updated successfully"
  const CreatedMessage: string := "User created successfully"

  // ----- syncUser -----

  datatype SyncRequest = SyncRequest(
    firebaseUid: Field<string>,
    email: Field<string>,
    displayName: Field<string>,
    photoUrl: Field<string>,
    emailVerified: Field<bool>)

  /** The users table and its counter after a sync, with the reply. */
  datatype Sync = Sync(users: map<nat, User>, next: nat, response: Response<User>)

  /** The profile columns a sync writes: falsy names and photos become NULL, a falsy
      email_verified false. */
  function Profile(u: User, req: SyncRequest, now: nat): (r: User)
    requires !Falsy(req.email, "")
    ensures r.id == u.id && r.firebaseUid == u.firebaseUid && r.createdAt == u.createdAt && r.updatedAt == now
    ensures r.email == req.email.value
    ensures r.displayName == OrNull(req.displayName, "") && r.photoUrl == OrNull(req.photoUrl, "")
    ensures r.emailVerified == (req.emailVerified == Given(true))
  {
    OrFalse(req.emailVerified);
    u.(email := req.email.value, displayName := OrNull(req.displayName, ""), photoUrl := OrNull(req.photoUrl, ""),
       emailVerified := Or(req.emailVerified, false, false), updatedAt := now)
  }

  /** Rewriting a user's profile keeps the table keyed and the uids unique. */
  lemma RewriteKeepsTable(users: map<nat, User>, next: nat, u: User, req: SyncRequest, now: nat)
    requires Keyed(users, next, (u: User) => u.id) && UniqueUids(users)
    requires u.id in users && users[u.id] == u && !Falsy(req.email, "")
    ensures Keyed(users[u.id := Profile(u, req, now)], next, (u: User) => u.id)
    ensures UniqueUids(users[u.id := Profile(u, req, now)])
  {
  }

  /** Inserting a user under the counter, with a uid nobody has, keeps the table keyed and the
      uids unique. */
  lemma InsertKeepsTable(users: map<nat, User>, next: nat, u: User)
    requires Keyed(users, next, (u: User) => u.id) && UniqueUids(users)
    requires u.id == next && forall k :: k in users ==> users[k].firebaseUid != u.firebaseUid
    ensures Keyed(users[next := u], next + 1, (u: User) => u.id)
    ensures UniqueUids(users[next := u])
  {
  }

  /** syncUser over the users table: 400 without a uid or email; otherwise the user with that
      uid is rewritten in place (200), or a new one is inserted under the next id (201). */
  function Synced(users: map<nat, User>, next: nat, req: SyncRequest, now: nat): (s: Sync)
    requires Keyed(users, next, (u: User) => u.id) && UniqueUids(users)
    ensures Keyed(s.users, s.next, (u: User) => u.id) && UniqueUids(s.users)
    ensures Falsy(req.firebaseUid, "") || Falsy(req.email, "") ==>
      s == Sync(users, next, Fail(400, SyncRequired))
    ensures !Falsy(req.firebaseUid, "") && !Falsy(req.email, "") ==>
      match UserWithUid(users, next, req.firebaseUid.value)
      case Some(u) =>
        && s.next == next
        && s.users == users[u.id := Profile(u, req, now)]
        && s.response == Response(200, Single(Some(UpdatedMessage), s.users[u.id]))
      case None =>
        && s.next == next + 1
        && next !in users
        && s.users == users[next := Profile(User(next, req.firebaseUid.value, "", None, None, false, now, now), req, now)]
        && s.response == Response(201, Single(Some(CreatedMessage), s.users[next]))
  {
    if Falsy(req.firebaseUid, "") || Falsy(req.email, "") then Sync(users, next, Fail(400, SyncRequired))
    else
      var uid := req.firebaseUid.value;
      match UserWithUid(users, next, uid)
      case Some(u) =>
        RewriteKeepsTable(users, next, u, req, now);
        var users' := users[u.id := Profile(u, req, now)];
        Sync(users', next, Response(200, Single(Some(UpdatedMessage), users'[u.id])))
      case None =>
        var u := Profile(User(next, uid, "", None, None, false, now, now), req, now);
        InsertKeepsTable(users, next, u);
        var users' := users[next := u];
        Sync(users', next + 1, Response(201, Single(Some(CreatedMessage), u)))
  }

  /** After a successful sync exactly one user carries the uid, and it is the user returned. */
  lemma SyncLeavesOneUser(users: map<nat, User>, next: nat, req: SyncRequest, now: nat)
    requires Keyed(users, next, (u: User) => u.id) && UniqueUids(users)
    requires !Falsy(req.firebaseUid, "") && !Falsy(req.email, "")
    ensures var s := Synced(users, next, req, now);
      && s.response.body.Single?
      && ResolveUser(s.users, s.next, req.firebaseUid) == Some(s.response.body.item.id)
      && s.response.body.item in s.users.Values
  {
    var s := Synced(users, next, req, now);
    var id := s.response.body.item.id;
    assert id in s.users && s.users[id].firebaseUid == req.firebaseUid.value;
  }

  /** A sync touches no user other than the one with the uid: every other row keeps its values,
      and an update adds no row. */
  lemma SyncTouchesOnlyItsUser(users: map<nat, User>, next: nat, req: SyncRequest, now: nat)
    requires Keyed(users, next, (u: User) => u.id) && UniqueUids(users)
    ensures var s := Synced(users, next, req, now);
      forall k :: k in users && (req.firebaseUid.Given? ==> users[k].firebaseUid != req.firebaseUid.value) ==>
        k in s.users && s.users[k] == users[k]
    ensures var s := Synced(users, next, req, now);
      s.response.status == 200 ==> s.users.Keys == users.Keys
    ensures var s := Synced(users, next, req, now);
      s.response.status == 201 ==> s.users.Keys == users.Keys + {next}
  {
  }

  /** Repeating a sync changes nothing but updated_at: the second call rewrites the row the first
      produced, with the same values, and answers 200. */
  lemma SyncIdempotent(users: map<nat, User>, next: nat, req: SyncRequest, t1: nat, t2: nat)
    requires Keyed(users, next, (u: User) => u.id) && UniqueUids(users)
    requires !Falsy(req.firebaseUid, "") && !Falsy(req.email, "")
    ensures var s1 := Synced(users, next, req, t1);
      var s2 := Synced(s1.users, s1.next, req, t2);
      var id := s1.response.body.item.id;
      && s1.response.body.Single?
      && s2.next == s1.next
      && s2.users == s1.users[id := s1.users[id].(updatedAt := t2)]
      && s2.response.status == 200
  {
    var s1 := Synced(users, next, req, t1);
    var id := s1.response.body.item.id;
    SyncLeavesOneUser(users, next, req, t1);
    var found := UserWithUid(s1.users, s1.next, req.firebaseUid.value);
    assert found.Some? && found.value.id == id;
  }

  /** The two outcomes of a sync that passed the check, each spelled out. */
  lemma SyncedOutcome(users: map<nat, User>, next: nat, req: SyncRequest, now: nat)
    requires Keyed(users, next, (u: User) => u.id) && UniqueUids(users)
    requires !Falsy(req.firebaseUid, "") && !Falsy(req.email, "")
    ensures var found := UserWithUid(users, next, req.firebaseUid.value);
      found.Some? ==>
        var users' := users[found.value.id := Profile(found.value, req, now)];
        Synced(users, next, req, now) == Sync(users', next, Response(200, Single(Some(UpdatedMessage), users'[found.value.id])))
    ensures var found := UserWithUid(users, next, req.firebaseUid.value);
      found.None? ==>
        var u := Profile(User(next, req.firebaseUid.value, "", None, None, false, now, now), req, now);
        Synced(users, next, req, now) == Sync(users[next := u], next + 1, Response(201, Single(Some(CreatedMessage), u)))
  {
  }

  method SyncUser(db: Database, req: SyncRequest, now: nat) returns (r: Response<User>)
    requires db.Valid()
    modifies db`users, db`nextUserId
    ensures db.Valid()
    ensures var s := Synced(old(db.users), old(db.nextUserId), req, now);
      db.users == s.users && db.nextUserId == s.next && r == s.response
  {
    if Falsy(req.firebaseUid, "") || Falsy(req.email, "") {
      return Fail(400, SyncRequired);
    }
    SyncedOutcome(db.users, db.nextUserId, req, now);
    var existing := UserWithUid(db.users, db.nextUserId, req.firebaseUid.value);
    if existing.Some? {
      var u := existing.value;
      RewriteKeepsTable(db.users, db.nextUserId, u, req, now);
      UsersGrow(db.users, db.users[u.id := Profile(u, req, now)], db.categories, db.transactions);
      db.users := db.users[u.id := Profile(u, req, now)];
      r := Response(200, Single(Some(UpdatedMessage), db.users[u.id]));
    } else {
      var id := db.nextUserId;
      var u := Profile(User(id, req.firebaseUid.value, "", None, None, false, now, now), req, now);
      InsertKeepsTable(db.users, db.nextUserId, u);
      UsersGrow(db.users, db.users[id := u], db.categories, db.transactions);
      db.users := db.users[id := u];
      db.nextUserId := db.nextUserId + 1;
      r := Response(201, Single(Some(CreatedMessage), db.users[id]));
    }
  }

  // ----- getUserByFirebaseUid, getUserByEmail -----

  function GetUserByFirebaseUid(db: Database, uid: string): (r: Response<User>)
    reads db
    requires db.Valid()
    ensures uid == "" ==> r == Fail(400, UidRequired)
    ensures uid != "" && (forall k :: k in db.users ==> db.users[k].firebaseUid != uid) ==> r == Fail(404, NotFound)
    ensures r.Success() ==>
      && r.status == 200 && r.body.Single?
      && r.body.item in db.users.Values && r.body.item.firebaseUid == uid
    ensures uid != "" && (exists k :: k in db.users && db.users[k].firebaseUid == uid) ==> r.Success()
  {
    if uid == "" then Fail(400, UidRequired)
    else
      match UserWithUid(db.users, db.nextUserId, uid)
      case None => Fail(404, NotFound)
      case Some(u) => Response(200, Single(None, u))
  }

  /** emails are not unique: without ORDER BY the first match is taken in primary-key order */
  function GetUserByEmail(db: Database, email: string): (r: Response<User>)
    reads db
    requires db.Valid()
    ensures email == "" ==> r == Fail(400, EmailRequired)
    ensures email != "" && (forall k :: k in db.users ==> db.users[k].email != email) ==> r == Fail(404, NotFound)
    ensures r.Success() ==>
      && r.status == 200 && r.body.Single?
      && r.body.item in db.users.Values && r.body.item.email == email
    ensures email != "" && (exists k :: k in db.users && db.users[k].email == email) ==> r.Success()
  {
    if email == "" then Fail(400, EmailRequired)
    else
      var rows := RowsBelow(db.users, db.nextUserId);
      match FirstWhere(rows, (u: User) => u.email == email)
      case None => Fail(404, NotFound)
      case Some(u) => Response(200, Single(None, u))
  }

  // ----- getAllUsers -----

  /** The columns getAllUsers selects: every column but photo_url. */
  datatype PublicUser = PublicUser(
    id: nat,
    firebaseUid: string,
    email: string,
    displayName: Option<string>,
    emailVerified: bool,
    createdAt: nat,
    updatedAt: nat)

  function Public(u: User): (v: PublicUser)
    ensures v.id == u.id && v.firebaseUid == u.firebaseUid && v.email == u.email
    ensures v.displayName == u.displayName && v.emailVerified == u.emailVerified
    ensures v.createdAt == u.createdAt && v.updatedAt == u.updatedAt
  {
    PublicUser(u.id, u.firebaseUid, u.email, u.displayName, u.emailVerified, u.createdAt, u.updatedAt)
  }

  /** ORDER BY created_at DESC */
  function Key(u: User): (r: seq<int>) {
    [-(u.createdAt as int)]
  }

  predicate NewestFirst(vs: seq<PublicUser>) {
    forall i, j | 0 <= i < j < |vs| :: vs[i].createdAt >= vs[j].createdAt
  }

  function PublicAll(rows: seq<User>): (vs: seq<PublicUser>)
    ensures |vs| == |rows|
    ensures forall i :: 0 <= i < |rows| ==> vs[i] == Public(rows[i])
  {
    seq(|rows|, i requires 0 <= i < |rows| => Public(rows[i]))
  }

  lemma PublicAllOrdered(rows: seq<User>)
    requires SortedBy(rows, Key) && Distinct(rows)
    ensures NewestFirst(PublicAll(rows))
  {
    var vs := PublicAll(rows);
    forall i, j | 0 <= i < j < |vs|
      ensures vs[i].createdAt >= vs[j].createdAt
    {
      KeyLeCons(-(rows[i].createdAt as int), [], -(rows[j].createdAt as int), []);
    }
  }

  function GetAllUsers(db: Database): (r: Response<PublicUser>)
    reads db
    requires db.Valid()
    ensures r.status == 200 && r.body.Listing?
    ensures r.body.count == |r.body.items| == |db.users|
    ensures NewestFirst(r.body.items)
    ensures forall v :: v in r.body.items ==> exists k :: k in db.users && v == Public(db.users[k])
    ensures forall k :: k in db.users ==> Public(db.users[k]) in r.body.items
  {
    var rows := Select(db.users, db.nextUserId, (u: User) => u.id, (u: User) => true, Key);
    PublicAllOrdered(rows);
    PublicAllMembers(db.users, rows);
    KeyedCount(db.users, db.nextUserId, rows);
    Response(200, Listing(|rows|, PublicAll(rows)))
  }

  lemma PublicAllMembers(users: map<nat, User>, rows: seq<User>)
    requires forall u :: u in rows <==> u in users.Values
    ensures forall v :: v in PublicAll(rows) ==> exists k :: k in users && v == Public(users[k])
    ensures forall k :: k in users ==> Public(users[k]) in PublicAll(rows)
  {
    var vs := PublicAll(rows);
    forall v | v in vs
      ensures exists k :: k in users && v == Public(users[k])
    {
      var i :| 0 <= i < |vs| && vs[i] == v;
      assert rows[i] in users.Values;
      var k :| k in users && users[k] == rows[i];
    }
    forall k | k in users
      ensures Public(users[k]) in vs
    {
      assert users[k] in users.Values;
      var i :| 0 <= i < |rows| && rows[i] == users[k];
      assert vs[i] == Public(users[k]);
    }
  }

  /** A listing of every row of a keyed table, each once, has as many entries as the table. */
  lemma KeyedCount(users: map<nat, User>, next: nat, rows: seq<User>)
    requires Keyed(users, next, (u: User) => u.id)
    requires Distinct(rows)
    requires forall u :: u in rows <==> u in users.Values
    ensures |rows| == |users|
  {
    var ids := set u | u in rows :: u.id;
    assert ids == users.Keys by {
      forall k | k in users ensures k in ids {
        assert users[k] in users.Values;
      }
    }
    forall i, j | 0 <= i < |rows| && 0 <= j < |rows| && rows[i].id == rows[j].id
      ensures i == j
    {
      assert rows[i] in users.Values && rows[j] in users.Values;
      assert rows[i] == users[rows[i].id] == rows[j];
    }
    DistinctIds(rows);
  }

  lemma {:induction false} DistinctIds(rows: seq<User>)
    requires Distinct(rows)
    requires forall i, j :: 0 <= i < |rows| && 0 <= j < |rows| && rows[i].id == rows[j].id ==> i == j
    ensures |set u | u in rows :: u.id| == |rows|
  {
    if rows != [] {
      var rest := rows[1..];
      DistinctIds(rest);
      var ids := set u | u in rest :: u.id;
      assert (set u | u in rows :: u.id) == ids + {rows[0].id};
      assert rows[0].id !in ids;
    }
  }
}
