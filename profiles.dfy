/** The user-profile handlers of convex/profiles.ts: a lookup-before-insert
    `create` and a lookup `get`, both on index `by_user_id`. */
module Profiles {
  import opened Common
  import opened Tables
  import opened Schema
  import opened Database

  /** Index `by_user_id`. */
  function WithUserId(userId: string): User -> bool {
    (u: User) => u.userId == userId
  }

  /** At most one profile per external user id. */
  ghost predicate UniqueUsers(users: Table<User>) {
    forall a, b :: a in users && b in users && users[a].userId == users[b].userId ==> a == b
  }

  /** The profile `create` inserts for a user id it has not seen. */
  function NewUser(userId: string, displayName: Option<string>): User {
    User(userId, "", "", displayName, false, None, None, None)
  }

  /** `get`: a profile with the given user id (the oldest), or null. */
  function Get(users: Table<User>, userId: string): (r: Option<(Id, User)>)
    ensures r.None? <==> forall k :: k in users ==> users[k].userId != userId
    ensures r.Some? ==> r.value.0 in users && users[r.value.0] == r.value.1 && r.value.1.userId == userId
  {
    match First(users, WithUserId(userId))
    case None => None
    case Some(k) => Some((k, users[k]))
  }

  /** What `create` does to the table and returns, `newId` being the id an
      insert would use. */
  function CreateStep(users: Table<User>, userId: string, displayName: Option<string>, newId: Id)
    : (r: (Table<User>, Id))
    requires newId !in users
    ensures (exists k :: k in users && users[k].userId == userId) ==>
              r.0 == users && r.1 in users && users[r.1].userId == userId
    ensures (forall k :: k in users ==> users[k].userId != userId) ==>
              r.1 == newId && r.0 == users[newId := NewUser(userId, displayName)]
    ensures forall k :: k in users ==> k in r.0 && r.0[k] == users[k]
    ensures r.1 in r.0 && r.0[r.1].userId == userId
  {
    match First(users, WithUserId(userId))
    case Some(k) => (users, k)
    case None => (users[newId := NewUser(userId, displayName)], newId)
  }

  /** `create`: returns the existing profile's id, or inserts a new one. */
  method Create(db: Db, userId: string, displayName: Option<string>) returns (id: Id)
    requires db.Valid()
    modifies db`users, db`nextId
    ensures db.Valid()
    ensures (db.users, id) == CreateStep(old(db.users), userId, displayName, old(db.nextId))
  {
    var existing := First(db.users, WithUserId(userId));
    if existing.Some? {
      return existing.value;
    }
    id := db.NewId();
    db.users := db.users[id := NewUser(userId, displayName)];
  }

  /** `create` keeps the table free of duplicate user ids. */
  lemma CreateKeepsUnique(users: Table<User>, userId: string, displayName: Option<string>, newId: Id)
    requires newId !in users && UniqueUsers(users)
    ensures UniqueUsers(CreateStep(users, userId, displayName, newId).0)
  {
    var r := CreateStep(users, userId, displayName, newId);
    if r.0 != users {
      assert forall k :: k in users ==> users[k].userId != userId;
      assert r.0 == users[newId := NewUser(userId, displayName)];
    }
  }

  /** A second `create` for the same user id returns the same id and changes
      nothing, whatever display name it is given. */
  lemma CreateIdempotent(users: Table<User>, userId: string, d1: Option<string>, d2: Option<string>,
                         f1: Id, f2: Id)
    requires f1 !in users
    requires f2 !in CreateStep(users, userId, d1, f1).0
    ensures var (u1, id1) := CreateStep(users, userId, d1, f1);
            CreateStep(u1, userId, d2, f2) == (u1, id1)
  {
    var (u1, id1) := CreateStep(users, userId, d1, f1);
    if forall k :: k in users ==> users[k].userId != userId {
      assert Select(u1, WithUserId(userId)) == map[f1 := u1[f1]];
    } else {
      assert u1 == users;
    }
  }

  /** After `create(u)`, `get(u)` finds exactly the profile `create` returned. */
  lemma GetAfterCreate(users: Table<User>, userId: string, displayName: Option<string>, newId: Id)
    requires newId !in users
    ensures var (u1, id) := CreateStep(users, userId, displayName, newId);
            Get(u1, userId) == Some((id, u1[id]))
  {
    var (u1, id) := CreateStep(users, userId, displayName, newId);
    if forall k :: k in users ==> users[k].userId != userId {
      assert Select(u1, WithUserId(userId)) == map[newId := u1[newId]];
    }
  }
}
