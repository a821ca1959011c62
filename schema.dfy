/** The documents of the tables the handlers touch, one datatype per table
    of convex/schema.ts. A JavaScript `number` is a `real` (a timestamp is
    whole milliseconds, an `int`); an optional field is an `Option`. */
module Schema {
  import opened Common

  datatype User = User(
    userId: string,
    email: string,
    name: string,
    displayName: Option<string>,
    isPro: bool,
    proSince: Option<int>,
    lemonSqueezyCustomerId: Option<string>,
    lemonSqueezyOrderId: Option<string>)

  datatype Track = Track(
    userId: string,
    userName: string,
    name: string,
    location: string,
    carModel: string,
    lengthKm: real,
    mapImageId: Option<string>,
    createdAt: int)

  datatype Corner = Corner(
    trackId: Id,
    cornerNumber: real,
    name: string,
    targetTime: real,
    targetSpeed: real,
    targetGear: real,
    youtubeUrl: Option<string>,
    positionX: real,
    positionY: real)

  datatype SavedTrack = SavedTrack(userId: string, trackId: Id, savedAt: int)

  datatype UserTime = UserTime(cornerId: Id, userId: string, userTime: real, notes: Option<string>)

  datatype TrackComment = TrackComment(trackId: Id, userId: string, userName: string, content: string)

  datatype TrackStar = TrackStar(userId: string, trackId: Id)
}
