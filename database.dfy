/** The document store the handlers run against: one table per collection
    and the counter the store draws fresh ids from. Handlers read and
    assign the table fields directly, as `ctx.db.get`, `insert`, `patch`
    and `delete` do. */
module Database {
  import opened Common
  import opened Tables
  import opened Schema

  class Db {
    var users: Table<User>
    var tracks: Table<Track>
    var corners: Table<Corner>
    var userTimes: Table<UserTime>
    var trackComments: Table<TrackComment>
    var trackStars: Table<TrackStar>
    var savedTracks: Table<SavedTrack>
    var nextId: Id

    /** Every id in use was handed out before `nextId`. */
    ghost predicate Valid()
      reads this
    {
      && (forall k :: k in users ==> k < nextId)
      && (forall k :: k in tracks ==> k < nextId)
      && (forall k :: k in corners ==> k < nextId)
      && (forall k :: k in userTimes ==> k < nextId)
      && (forall k :: k in trackComments ==> k < nextId)
      && (forall k :: k in trackStars ==> k < nextId)
      && (forall k :: k in savedTracks ==> k < nextId)
    }

    constructor ()
      ensures Valid()
      ensures users == map[] && tracks == map[] && corners == map[] && userTimes == map[]
      ensures trackComments == map[] && trackStars == map[] && savedTracks == map[]
    {
      users, tracks, corners, userTimes := map[], map[], map[], map[];
      trackComments, trackStars, savedTracks := map[], map[], map[];
      nextId := 0;
    }

    /** The id `insert` gives a new document: used by no table. */
    method NewId() returns (id: Id)
      requires Valid()
      modifies this`nextId
      ensures Valid()
      ensures id == old(nextId) && nextId == id + 1
      ensures id !in users && id !in tracks && id !in corners && id !in userTimes
      ensures id !in trackComments && id !in trackStars && id !in savedTracks
    {
      id := nextId;
      nextId := nextId + 1;
    }
  }
}
