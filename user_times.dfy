/** The lap-time handlers of convex/userTimes.ts. None of them consults the
    caller, and nothing stops a user from logging the same corner twice. */
module UserTimes {
  import opened Common
  import opened Tables
  import opened Schema
  import opened Database

  /** Index `by_corner_and_user`. */
  function ForCornerAndUser(cornerId: Id, userId: string): UserTime -> bool {
    (t: UserTime) => t.cornerId == cornerId && t.userId == userId
  }

  /** Index `by_user_id`. */
  function ByUser(userId: string): UserTime -> bool {
    (t: UserTime) => t.userId == userId
  }

  /** `listByCorner`: the given user's times on the given corner. */
  function ListByCorner(times: Table<UserTime>, cornerId: Id, userId: string): (r: Table<UserTime>)
    ensures forall k :: k in r <==> k in times && times[k].cornerId == cornerId && times[k].userId == userId
    ensures forall k :: k in r ==> r[k] == times[k]
  {
    Select(times, ForCornerAndUser(cornerId, userId))
  }

  /** `listByUser`: all of the given user's times. */
  function ListByUser(times: Table<UserTime>, userId: string): (r: Table<UserTime>)
    ensures forall k :: k in r <==> k in times && times[k].userId == userId
    ensures forall k :: k in r ==> r[k] == times[k]
  {
    Select(times, ByUser(userId))
  }

  /** `create`: the arguments are stored as they are, under a fresh id. */
  method Create(db: Db, caller: Option<Identity>, time: UserTime) returns (id: Id)
    requires db.Valid()
    modifies db`userTimes, db`nextId
    ensures db.Valid()
    ensures id !in old(db.userTimes)
    ensures db.userTimes == old(db.userTimes)[id := time]
  {
    id := db.NewId();
    db.userTimes := db.userTimes[id := time];
  }

  /** `remove`: deletes the time whatever the caller; the database refuses
      an id that names no time. */
  method Remove(db: Db, caller: Option<Identity>, id: Id) returns (r: Result<()>)
    requires db.Valid()
    modifies db`userTimes
    ensures db.Valid()
    ensures r.Ok? <==> id in old(db.userTimes)
    ensures r.Err? ==> r.error == NonexistentDocument && db.userTimes == old(db.userTimes)
    ensures r.Ok? ==> db.userTimes == old(db.userTimes) - {id}
  {
    if id !in db.userTimes {
      return Err(NonexistentDocument);
    }
    db.userTimes := db.userTimes - {id};
    r := Ok(());
  }

  /** With no uniqueness check, a created time always adds exactly one entry
      to its own (corner, user) listing and to its user's listing, and
      changes no other listing. */
  lemma CreateAddsOne(times: Table<UserTime>, f: Id, t: UserTime, cornerId: Id, userId: string)
    requires f !in times
    ensures |ListByCorner(times[f := t], cornerId, userId)|
              == |ListByCorner(times, cornerId, userId)|
                 + (if t.cornerId == cornerId && t.userId == userId then 1 else 0)
    ensures |ListByUser(times[f := t], userId)| == |ListByUser(times, userId)| + (if t.userId == userId then 1 else 0)
    ensures t.userId != userId ==> ListByUser(times[f := t], userId) == ListByUser(times, userId)
    ensures (t.cornerId, t.userId) != (cornerId, userId) ==>
              ListByCorner(times[f := t], cornerId, userId) == ListByCorner(times, cornerId, userId)
  {
    SelectInsert(times, ForCornerAndUser(cornerId, userId), f, t);
    SelectInsert(times, ByUser(userId), f, t);
  }

  /** A removed time leaves its own listings, one entry fewer, and no
      other user's listing changes. */
  lemma RemoveDropsOne(times: Table<UserTime>, id: Id, cornerId: Id, userId: string)
    requires id in times
    ensures ListByCorner(times - {id}, cornerId, userId) == ListByCorner(times, cornerId, userId) - {id}
    ensures ListByUser(times - {id}, userId) == ListByUser(times, userId) - {id}
    ensures |ListByUser(times - {id}, userId)| == |ListByUser(times, userId)| - (if times[id].userId == userId then 1 else 0)
    ensures times[id].userId != userId ==> ListByUser(times - {id}, userId) == ListByUser(times, userId)
  {
    SelectRemove(times, ForCornerAndUser(cornerId, userId), id);
    SelectRemove(times, ByUser(userId), id);
  }
}
