/** Users: the account records mirrored from Clerk, found by Clerk id and
    kept at one record per Clerk account. */
module Users {
  import opened Common
  import opened Domain

  /** Each record is stored under its own document id. */
  predicate Keyed(users: map<Id, User>) {
    forall k :: k in users ==> users[k].docId == k
  }

  /** No two records share a Clerk account. */
  predicate UniqueClerks(users: map<Id, User>) {
    forall a, b :: a in users && b in users && users[a].clerkId == users[b].clerkId ==> a == b
  }

  predicate HasClerk(users: map<Id, User>, clerkId: Id) {
    exists k :: k in users && users[k].clerkId == clerkId
  }

  /** The profile fields `upsertUser` writes. */
  datatype Profile = Profile(
    firstName: Option<string>, lastName: Option<string>, email: string,
    imageUrl: Option<string>, bio: Option<string>, lastSignInAt: Option<int>)

  predicate Shows(u: User, p: Profile) {
    && u.firstName == p.firstName && u.lastName == p.lastName && u.email == p.email
    && u.imageUrl == p.imageUrl && u.bio == p.bio && u.lastSignInAt == p.lastSignInAt
  }

  function WithProfile(u: User, p: Profile, now: int): User {
    u.(firstName := p.firstName, lastName := p.lastName, email := p.email, imageUrl := p.imageUrl,
       bio := p.bio, lastSignInAt := p.lastSignInAt, updatedAt := now)
  }

  /** `getUserByClerkId`: the record of the Clerk account, if any. */
  method GetUserByClerkId(db: Db, clerkId: Id) returns (r: Option<User>)
    ensures r.Some? <==> HasClerk(db.users, clerkId)
    ensures r.Some? ==> r.value.clerkId == clerkId && r.value in db.users.Values
  {
    if k :| k in db.users && db.users[k].clerkId == clerkId {
      return Some(db.users[k]);
    }
    r := None;
  }

  /** The table `upsertUser` leaves: the account's record shows the
      profile, stamped now; an existing record keeps its id and creation
      time, otherwise one record is added under the fresh id; every other
      record is untouched. Absent optional fields clear the stored ones. */
  ghost function Upserted(users: map<Id, User>, clerkId: Id, p: Profile, now: int, freshDocId: Id): (r: map<Id, User>)
    requires Keyed(users) && UniqueClerks(users) && freshDocId !in users
    ensures Keyed(r) && UniqueClerks(r) && HasClerk(r, clerkId)
    ensures r.Keys == if HasClerk(users, clerkId) then users.Keys else users.Keys + {freshDocId}
    ensures forall k :: k in users && users[k].clerkId != clerkId ==> r[k] == users[k]
    ensures forall k :: k in r && r[k].clerkId == clerkId ==>
      && Shows(r[k], p) && r[k].updatedAt == now
      && r[k].createdAt == (if k in users then users[k].createdAt else now)
  {
    if HasClerk(users, clerkId) then
      var k :| k in users && users[k].clerkId == clerkId;
      var r := users[k := WithProfile(users[k], p, now)];
      assert k in r && r[k].clerkId == clerkId;
      r
    else
      var r := users[freshDocId := User(freshDocId, clerkId, p.firstName, p.lastName, p.email, p.imageUrl, p.bio, now, now, p.lastSignInAt)];
      assert freshDocId in r && r[freshDocId].clerkId == clerkId;
      r
  }

  /** A second upsert for the same account adds no record: it rewrites the
      same one, and only its update time moves. */
  lemma UpsertTwice(users: map<Id, User>, clerkId: Id, p: Profile, now: int, freshDocId: Id, now2: int, freshDocId2: Id)
    requires Keyed(users) && UniqueClerks(users) && freshDocId !in users
    requires freshDocId2 !in Upserted(users, clerkId, p, now, freshDocId)
    ensures var once := Upserted(users, clerkId, p, now, freshDocId);
      var twice := Upserted(once, clerkId, p, now2, freshDocId2);
      && twice.Keys == once.Keys
      && forall k :: k in once ==> twice[k] == if once[k].clerkId == clerkId then once[k].(updatedAt := now2) else once[k]
  {
  }

  /** `upsertUser`: patches the account's record or inserts the first one.
      Only the insert returns an id, that of the new record; the patch
      returns nothing. */
  method UpsertUser(db: Db, clerkId: Id, p: Profile, now: int, freshDocId: Id) returns (r: Option<Id>)
    requires Keyed(db.users) && UniqueClerks(db.users) && freshDocId !in db.users
    modifies db`users
    ensures db.users == Upserted(old(db.users), clerkId, p, now, freshDocId)
    ensures r == if HasClerk(old(db.users), clerkId) then None else Some(freshDocId)
    ensures r.Some? ==> r.value in db.users && db.users[r.value].clerkId == clerkId
  {
    if k :| k in db.users && db.users[k].clerkId == clerkId {
      db.users := db.users[k := WithProfile(db.users[k], p, now)];
      r := None;
    } else {
      db.users := db.users[freshDocId := User(freshDocId, clerkId, p.firstName, p.lastName, p.email,
                                              p.imageUrl, p.bio, now, now, p.lastSignInAt)];
      r := Some(freshDocId);
    }
  }

  /** `updateLastSignIn`: stamps the account's record; an unknown account
      is left alone. */
  method UpdateLastSignIn(db: Db, clerkId: Id, now: int)
    requires UniqueClerks(db.users)
    modifies db`users
    ensures db.users.Keys == old(db.users).Keys
    ensures forall k :: k in db.users ==>
      db.users[k] == if old(db.users)[k].clerkId == clerkId
                     then old(db.users)[k].(lastSignInAt := Some(now), updatedAt := now)
                     else old(db.users)[k]
  {
    if k :| k in db.users && db.users[k].clerkId == clerkId {
      db.users := db.users[k := db.users[k].(lastSignInAt := Some(now), updatedAt := now)];
    }
  }

  /** `deleteUser`: removes the record with the document id. */
  method DeleteUser(db: Db, docId: Id)
    modifies db`users
    ensures db.users == old(db.users) - {docId}
  {
    db.users := db.users - {docId};
  }

  /** The table without the account's record. */
  function WithoutClerk(users: map<Id, User>, clerkId: Id): (r: map<Id, User>)
    ensures !HasClerk(r, clerkId)
    ensures forall k :: k in users && users[k].clerkId != clerkId ==> k in r && r[k] == users[k]
    ensures forall k :: k in r ==> k in users
  {
    map k | k in users && users[k].clerkId != clerkId :: users[k]
  }

  /** `deleteUserByClerkId`: removes the account's record; an unknown
      account is left alone. */
  method DeleteUserByClerkId(db: Db, clerkId: Id)
    requires UniqueClerks(db.users)
    modifies db`users
    ensures db.users == WithoutClerk(old(db.users), clerkId)
    ensures !HasClerk(old(db.users), clerkId) ==> db.users == old(db.users)
  {
    if k :| k in db.users && db.users[k].clerkId == clerkId {
      db.users := db.users - {k};
      assert db.users == WithoutClerk(old(db.users), clerkId);
    } else {
      assert db.users == WithoutClerk(old(db.users), clerkId);
    }
  }
}
