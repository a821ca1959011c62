/** The track handlers of convex/tracks.ts: track CRUD behind an ownership
    guard, a star toggle, comments, and saved tracks. Mutations are methods
    on the store; queries are functions of the tables they read. */
module Tracks {
  import opened Common
  import opened Tables
  import opened Schema
  import opened Database
  import Corners

  // ------------------------------------------------------------------
  // The ownership guard

  /** The guard in front of `update`, `remove` and `deleteComment`: no
      identity, then no such document (`owner` is None), then a caller who
      is not the owner. Each failure excludes the ones after it. */
  function Authorize(caller: Option<Identity>, owner: Option<string>, missing: Error): (r: Result<()>)
    requires missing == TrackNotFound || missing == CommentNotFound
    ensures r == Err(NotAuthenticated) <==> caller.None?
    ensures r == Err(missing) <==> caller.Some? && owner.None?
    ensures r == Err(Unauthorized) <==> caller.Some? && owner.Some? && owner.value != caller.value.subject
    ensures r.Ok? <==> caller.Some? && owner == Some(caller.value.subject)
  {
    if caller.None? then Err(NotAuthenticated)
    else if owner.None? then Err(missing)
    else if owner.value != caller.value.subject then Err(Unauthorized)
    else Ok(())
  }

  /** `ctx.db.get(id)` followed by the owner field: the owner, or None when
      no document has that id. */
  function OwnerOf<R>(m: Table<R>, id: Id, owner: R -> string): (r: Option<string>)
    ensures r.Some? <==> id in m
    ensures r.Some? ==> r.value == owner(m[id])
  {
    if id in m then Some(owner(m[id])) else None
  }

  /** The owner field of a track. */
  function TrackUser(t: Track): string { t.userId }

  /** The author field of a comment. */
  function CommentUser(c: TrackComment): string { c.userId }

  // ------------------------------------------------------------------
  // create, update, remove

  /** The optional arguments of `update`. */
  datatype TrackPatch = TrackPatch(
    name: Option<string>,
    location: Option<string>,
    carModel: Option<string>,
    lengthKm: Option<real>,
    mapImageId: Option<string>)

  /** `db.patch(id, updates)`: each supplied field replaces the stored one;
      the owner, the owner's name and the creation time never change. */
  function PatchTrack(t: Track, p: TrackPatch): (r: Track)
    ensures r.userId == t.userId && r.userName == t.userName && r.createdAt == t.createdAt
    ensures p.name.None? ==> r.name == t.name
    ensures p.name.Some? ==> r.name == p.name.value
    ensures p.location.None? ==> r.location == t.location
    ensures p.location.Some? ==> r.location == p.location.value
    ensures p.carModel.None? ==> r.carModel == t.carModel
    ensures p.carModel.Some? ==> r.carModel == p.carModel.value
    ensures p.lengthKm.None? ==> r.lengthKm == t.lengthKm
    ensures p.lengthKm.Some? ==> r.lengthKm == p.lengthKm.value
    ensures p.mapImageId.None? ==> r.mapImageId == t.mapImageId
    ensures p.mapImageId.Some? ==> r.mapImageId == p.mapImageId
    ensures p == TrackPatch(None, None, None, None, None) ==> r == t
  {
    t.(name := if p.name.Some? then p.name.value else t.name,
       location := if p.location.Some? then p.location.value else t.location,
       carModel := if p.carModel.Some? then p.carModel.value else t.carModel,
       lengthKm := if p.lengthKm.Some? then p.lengthKm.value else t.lengthKm,
       mapImageId := if p.mapImageId.Some? then p.mapImageId else t.mapImageId)
  }

  /** `update`: only the owner may patch a track; a failure changes nothing. */
  method Update(db: Db, caller: Option<Identity>, id: Id, patch: TrackPatch) returns (r: Result<()>)
    requires db.Valid()
    modifies db`tracks
    ensures db.Valid()
    ensures r == Authorize(caller, OwnerOf(old(db.tracks), id, TrackUser), TrackNotFound)
    ensures r.Err? ==> db.tracks == old(db.tracks)
    ensures r.Ok? ==> db.tracks == old(db.tracks)[id := PatchTrack(old(db.tracks)[id], patch)]
  {
    if caller.None? {
      return Err(NotAuthenticated);
    }
    if id !in db.tracks {
      return Err(TrackNotFound);
    }
    var track := db.tracks[id];
    if track.userId != caller.value.subject {
      return Err(Unauthorized);
    }
    db.tracks := db.tracks[id := PatchTrack(track, patch)];
    r := Ok(());
  }

  /** `remove`: only the owner may delete a track. Only the track row goes:
      the frame leaves its corners, comments, stars and saves in place. */
  method Remove(db: Db, caller: Option<Identity>, id: Id) returns (r: Result<()>)
    requires db.Valid()
    modifies db`tracks
    ensures db.Valid()
    ensures r == Authorize(caller, OwnerOf(old(db.tracks), id, TrackUser), TrackNotFound)
    ensures r.Err? ==> db.tracks == old(db.tracks)
    ensures r.Ok? ==> db.tracks == old(db.tracks) - {id}
  {
    if caller.None? {
      return Err(NotAuthenticated);
    }
    if id !in db.tracks {
      return Err(TrackNotFound);
    }
    var track := db.tracks[id];
    if track.userId != caller.value.subject {
      return Err(Unauthorized);
    }
    db.tracks := db.tracks - {id};
    r := Ok(());
  }

  /** The arguments of `create`. The owner is an argument. */
  datatype NewTrackArgs = NewTrackArgs(
    name: string,
    location: string,
    carModel: string,
    lengthKm: real,
    mapImageId: Option<string>,
    userId: string)

  /** The document `create` inserts at time `now`: the owner is taken from
      the arguments and the owner's name from the caller, whoever that is. */
  function NewTrack(args: NewTrackArgs, caller: Option<Identity>, now: int): (r: Track)
    ensures r.userId == args.userId && r.userName == DisplayName(caller) && r.createdAt == now
  {
    Track(args.userId, DisplayName(caller), args.name, args.location, args.carModel,
          args.lengthKm, args.mapImageId, now)
  }

  /** `create`: needs no identity and checks nothing. */
  method Create(db: Db, caller: Option<Identity>, args: NewTrackArgs, now: int) returns (id: Id)
    requires db.Valid()
    modifies db`tracks, db`nextId
    ensures db.Valid()
    ensures id !in old(db.tracks)
    ensures db.tracks == old(db.tracks)[id := NewTrack(args, caller, now)]
  {
    var userName := DisplayName(caller);
    id := db.NewId();
    db.tracks := db.tracks[id := Track(args.userId, userName, args.name, args.location,
                                       args.carModel, args.lengthKm, args.mapImageId, now)];
  }

  /** Whoever creates a track, the guard then admits exactly the user named
      in the arguments: the creator is locked out unless that is them. */
  lemma CreatedTrackOwnedByArgument(tracks: Table<Track>, f: Id, args: NewTrackArgs,
                                    creator: Option<Identity>, now: int, other: Identity)
    requires f !in tracks
    ensures Authorize(Some(other), OwnerOf(tracks[f := NewTrack(args, creator, now)], f, TrackUser), TrackNotFound)
              == if other.subject == args.userId then Ok(()) else Err(Unauthorized)
  {
  }

  // ------------------------------------------------------------------
  // Track queries

  /** `get`: the track joined with its corners, or null. */
  datatype TrackDetail = TrackDetail(track: Track, corners: Table<Corner>)

  function Get(tracks: Table<Track>, corners: Table<Corner>, id: Id): (r: Option<TrackDetail>)
    ensures r.None? <==> id !in tracks
    ensures r.Some? ==> r.value.track == tracks[id]
    ensures r.Some? ==> forall c :: c in r.value.corners <==> c in corners && corners[c].trackId == id
    ensures r.Some? ==> forall c :: c in r.value.corners ==> r.value.corners[c] == corners[c]
  {
    if id !in tracks then None
    else Some(TrackDetail(tracks[id], Corners.ListByTrack(corners, id)))
  }

  /** An entry of `list`: the track, its corners and how many there are. */
  datatype TrackListing = TrackListing(track: Track, corners: Table<Corner>, cornerCount: nat)

  function TrackBy(userId: string): Track -> bool {
    (t: Track) => t.userId == userId
  }

  /** `list`: the given user's tracks, each with its corners. */
  function List(tracks: Table<Track>, corners: Table<Corner>, userId: string): (r: map<Id, TrackListing>)
    ensures forall k :: k in r <==> k in tracks && tracks[k].userId == userId
    ensures forall k :: k in r ==> r[k].track == tracks[k] && r[k].cornerCount == |r[k].corners|
    ensures forall k :: k in r ==> r[k].corners == Corners.ListByTrack(corners, k)
  {
    var mine := Select(tracks, TrackBy(userId));
    map k | k in mine ::
      var cs := Corners.ListByTrack(corners, k);
      TrackListing(mine[k], cs, |cs|)
  }

  /** An entry of `getAllTracks`. */
  datatype TrackSummary = TrackSummary(track: Track, starCount: nat, commentCount: nat)

  /** `getAllTracks`: every track with its star and comment counts. */
  function GetAllTracks(tracks: Table<Track>, stars: Table<TrackStar>, comments: Table<TrackComment>)
    : (r: map<Id, TrackSummary>)
    ensures r.Keys == tracks.Keys
    ensures forall k :: k in r ==> r[k].track == tracks[k]
    ensures forall k :: k in r ==> r[k].starCount == GetStarCount(stars, k)
    ensures forall k :: k in r ==> r[k].commentCount == |GetComments(comments, k)|
  {
    map k | k in tracks :: TrackSummary(tracks[k], GetStarCount(stars, k), |GetComments(comments, k)|)
  }

  // ------------------------------------------------------------------
  // Stars

  /** Index `by_user_id_and_track_id`. */
  function StarBy(subject: string, trackId: Id): TrackStar -> bool {
    (s: TrackStar) => s.userId == subject && s.trackId == trackId
  }

  /** Index `by_track_id`. */
  function StarOn(trackId: Id): TrackStar -> bool {
    (s: TrackStar) => s.trackId == trackId
  }

  predicate HasStar(stars: Table<TrackStar>, subject: string, trackId: Id) {
    Any(stars, StarBy(subject, trackId))
  }

  /** At most one star row per (user, track) pair. */
  ghost predicate UniqueStars(stars: Table<TrackStar>) {
    forall a, b :: a in stars && b in stars && stars[a] == stars[b] ==> a == b
  }

  /** `getStarCount`: the number of star rows of the track. */
  function GetStarCount(stars: Table<TrackStar>, trackId: Id): (n: nat)
    ensures n == |set s | s in stars && stars[s].trackId == trackId|
  {
    var m := Select(stars, StarOn(trackId));
    assert m.Keys == set s | s in stars && stars[s].trackId == trackId;
    |m|
  }

  /** `isTrackStarred`: false without an identity. */
  function IsTrackStarred(stars: Table<TrackStar>, caller: Option<Identity>, trackId: Id): (r: bool)
    ensures r <==> caller.Some? && exists k :: k in stars && stars[k] == TrackStar(caller.value.subject, trackId)
  {
    caller.Some? && HasStar(stars, caller.value.subject, trackId)
  }

  /** What `starTrack` does to the star table and returns as `isStarred`,
      `newId` being the id an insert would use: it deletes the pair's row
      when there is one and inserts one otherwise. */
  function ToggleStar(stars: Table<TrackStar>, subject: string, trackId: Id, newId: Id)
    : (r: (Table<TrackStar>, bool))
    requires newId !in stars
    ensures r.1 <==> !HasStar(stars, subject, trackId)
    ensures r.1 ==> r.0 == stars[newId := TrackStar(subject, trackId)]
    ensures !r.1 ==> exists k :: k in stars && stars[k] == TrackStar(subject, trackId) && r.0 == stars - {k}
  {
    match First(stars, StarBy(subject, trackId))
    case Some(k) => (stars - {k}, false)
    case None => (stars[newId := TrackStar(subject, trackId)], true)
  }

  /** `starTrack` moves the track's star count by one, up when it reports
      `isStarred` and down otherwise, and no other track's count. */
  lemma ToggleStarCount(stars: Table<TrackStar>, subject: string, trackId: Id, newId: Id, other: Id)
    requires newId !in stars
    ensures var (after, isStarred) := ToggleStar(stars, subject, trackId, newId);
            GetStarCount(after, other)
              == if other != trackId then GetStarCount(stars, other)
                 else if isStarred then GetStarCount(stars, other) + 1
                 else GetStarCount(stars, other) - 1
  {
    var (after, isStarred) := ToggleStar(stars, subject, trackId, newId);
    if isStarred {
      SelectInsert(stars, StarOn(other), newId, TrackStar(subject, trackId));
    } else {
      var k :| k in stars && stars[k] == TrackStar(subject, trackId) && after == stars - {k};
      SelectRemove(stars, StarOn(other), k);
    }
  }

  /** `starTrack` keeps at most one row per pair, and then the pair is
      starred afterwards exactly when it reports `isStarred`. */
  lemma ToggleKeepsUnique(stars: Table<TrackStar>, subject: string, trackId: Id, newId: Id)
    requires newId !in stars && UniqueStars(stars)
    ensures var (after, isStarred) := ToggleStar(stars, subject, trackId, newId);
            UniqueStars(after) && HasStar(after, subject, trackId) == isStarred
  {
    var (after, isStarred) := ToggleStar(stars, subject, trackId, newId);
    if isStarred {
      assert after[newId] == TrackStar(subject, trackId);
      assert newId in Select(after, StarBy(subject, trackId));
    } else {
      var k :| k in stars && stars[k] == TrackStar(subject, trackId) && after == stars - {k};
      assert Select(after, StarBy(subject, trackId)) == map[];
    }
  }

  /** `starTrack`. */
  method StarTrack(db: Db, caller: Option<Identity>, trackId: Id) returns (r: Result<bool>)
    requires db.Valid()
    modifies db`trackStars, db`nextId
    ensures db.Valid()
    ensures caller.None? ==> r == Err(NotAuthenticated) && db.trackStars == old(db.trackStars)
    ensures caller.Some? ==>
              var (after, isStarred) := ToggleStar(old(db.trackStars), caller.value.subject, trackId, old(db.nextId));
              r == Ok(isStarred) && db.trackStars == after
  {
    if caller.None? {
      return Err(NotAuthenticated);
    }
    var subject := caller.value.subject;
    var existing := First(db.trackStars, StarBy(subject, trackId));
    if existing.Some? {
      db.trackStars := db.trackStars - {existing.value};
      r := Ok(false);
    } else {
      var id := db.NewId();
      db.trackStars := db.trackStars[id := TrackStar(subject, trackId)];
      r := Ok(true);
    }
  }

  /** With one row per pair, `isTrackStarred` after `starTrack` agrees with
      the `isStarred` it returned. */
  lemma StarredAfterToggle(stars: Table<TrackStar>, caller: Identity, trackId: Id, newId: Id)
    requires newId !in stars && UniqueStars(stars)
    ensures var (after, isStarred) := ToggleStar(stars, caller.subject, trackId, newId);
            IsTrackStarred(after, Some(caller), trackId) == isStarred
  {
    ToggleKeepsUnique(stars, caller.subject, trackId, newId);
  }

  /** With one row per pair, two `starTrack` calls in a row flip the answer
      twice and give back the original presence and star count; starting
      unstarred they give back the very same table. */
  lemma ToggleTwiceRestores(stars: Table<TrackStar>, subject: string, trackId: Id, f1: Id, f2: Id)
    requires UniqueStars(stars) && f1 !in stars
    requires f2 !in ToggleStar(stars, subject, trackId, f1).0
    ensures var (s1, b1) := ToggleStar(stars, subject, trackId, f1);
            var (s2, b2) := ToggleStar(s1, subject, trackId, f2);
            && b2 == !b1
            && HasStar(s2, subject, trackId) == HasStar(stars, subject, trackId)
            && GetStarCount(s2, trackId) == GetStarCount(stars, trackId)
            && (!HasStar(stars, subject, trackId) ==> s2 == stars)
  {
    var (s1, b1) := ToggleStar(stars, subject, trackId, f1);
    var (s2, b2) := ToggleStar(s1, subject, trackId, f2);
    ToggleKeepsUnique(stars, subject, trackId, f1);
    ToggleStarCount(stars, subject, trackId, f1, trackId);
    ToggleStarCount(s1, subject, trackId, f2, trackId);
    if b1 {
      var k :| k in s1 && s1[k] == TrackStar(subject, trackId) && s2 == s1 - {k};
      assert s1[f1] == TrackStar(subject, trackId);
      assert k == f1;
      assert s2 == stars;
    }
  }

  /** `starTrack` moves exactly one track's star count in `getAllTracks`,
      by one, and leaves every other summary as it was. */
  lemma ToggleMovesOneSummary(tracks: Table<Track>, stars: Table<TrackStar>, comments: Table<TrackComment>,
                              subject: string, trackId: Id, newId: Id)
    requires newId !in stars
    ensures var (after, isStarred) := ToggleStar(stars, subject, trackId, newId);
            var before, now := GetAllTracks(tracks, stars, comments), GetAllTracks(tracks, after, comments);
            && (forall k :: k in now && k != trackId ==> now[k] == before[k])
            && (trackId in now ==>
                  now[trackId].starCount == if isStarred then before[trackId].starCount + 1
                                            else before[trackId].starCount - 1)
  {
    var (after, isStarred) := ToggleStar(stars, subject, trackId, newId);
    forall k ensures GetStarCount(after, k) == if k != trackId then GetStarCount(stars, k)
                                               else if isStarred then GetStarCount(stars, k) + 1
                                               else GetStarCount(stars, k) - 1
    {
      ToggleStarCount(stars, subject, trackId, newId, k);
    }
  }

  // ------------------------------------------------------------------
  // Comments

  /** Index `by_track_id` on comments. */
  function CommentOn(trackId: Id): TrackComment -> bool {
    (c: TrackComment) => c.trackId == trackId
  }

  /** `getComments`: exactly the comments of the track. */
  function GetComments(comments: Table<TrackComment>, trackId: Id): (r: Table<TrackComment>)
    ensures forall k :: k in r <==> k in comments && comments[k].trackId == trackId
    ensures forall k :: k in r ==> r[k] == comments[k]
  {
    Select(comments, CommentOn(trackId))
  }

  /** `addComment`: any signed-in caller may comment, on any track id. */
  method AddComment(db: Db, caller: Option<Identity>, trackId: Id, content: string) returns (r: Result<()>)
    requires db.Valid()
    modifies db`trackComments, db`nextId
    ensures db.Valid()
    ensures r.Err? <==> caller.None?
    ensures r.Err? ==> r.error == NotAuthenticated && db.trackComments == old(db.trackComments)
    ensures r.Ok? ==>
              && old(db.nextId) !in old(db.trackComments)
              && db.trackComments == old(db.trackComments)[old(db.nextId) :=
                   TrackComment(trackId, caller.value.subject, DisplayName(caller), content)]
  {
    if caller.None? {
      return Err(NotAuthenticated);
    }
    var userName := DisplayName(caller);
    var id := db.NewId();
    db.trackComments := db.trackComments[id := TrackComment(trackId, caller.value.subject, userName, content)];
    r := Ok(());
  }

  /** A new comment shows up under its own track only, one more than before. */
  lemma AddedCommentListed(comments: Table<TrackComment>, f: Id, c: TrackComment, trackId: Id)
    requires f !in comments
    ensures GetComments(comments[f := c], trackId)
              == if c.trackId == trackId then GetComments(comments, trackId)[f := c] else GetComments(comments, trackId)
    ensures |GetComments(comments[f := c], trackId)|
              == |GetComments(comments, trackId)| + (if c.trackId == trackId then 1 else 0)
  {
    SelectInsert(comments, CommentOn(trackId), f, c);
  }

  /** `deleteComment`: only the author may delete a comment. */
  method DeleteComment(db: Db, caller: Option<Identity>, commentId: Id) returns (r: Result<()>)
    requires db.Valid()
    modifies db`trackComments
    ensures db.Valid()
    ensures r == Authorize(caller, OwnerOf(old(db.trackComments), commentId, CommentUser), CommentNotFound)
    ensures r.Err? ==> db.trackComments == old(db.trackComments)
    ensures r.Ok? ==> db.trackComments == old(db.trackComments) - {commentId}
  {
    if caller.None? {
      return Err(NotAuthenticated);
    }
    if commentId !in db.trackComments {
      return Err(CommentNotFound);
    }
    var comment := db.trackComments[commentId];
    if comment.userId != caller.value.subject {
      return Err(Unauthorized);
    }
    db.trackComments := db.trackComments - {commentId};
    r := Ok(());
  }

  /** A deleted comment leaves its track's list, one fewer than before. */
  lemma DeletedCommentUnlisted(comments: Table<TrackComment>, id: Id, trackId: Id)
    requires id in comments
    ensures GetComments(comments - {id}, trackId) == GetComments(comments, trackId) - {id}
    ensures |GetComments(comments - {id}, trackId)|
              == |GetComments(comments, trackId)| - (if comments[id].trackId == trackId then 1 else 0)
  {
    SelectRemove(comments, CommentOn(trackId), id);
  }

  // ------------------------------------------------------------------
  // Saved tracks

  /** Index `by_user_and_track`. */
  function SaveBy(subject: string, trackId: Id): SavedTrack -> bool {
    (s: SavedTrack) => s.userId == subject && s.trackId == trackId
  }

  /** Index `by_user_id` on saves. */
  function SavedBy(subject: string): SavedTrack -> bool {
    (s: SavedTrack) => s.userId == subject
  }

  predicate HasSave(saved: Table<SavedTrack>, subject: string, trackId: Id) {
    Any(saved, SaveBy(subject, trackId))
  }

  /** At most one save row per (user, track) pair. */
  ghost predicate UniqueSaves(saved: Table<SavedTrack>) {
    forall a, b ::
      a in saved && b in saved && saved[a].userId == saved[b].userId && saved[a].trackId == saved[b].trackId
      ==> a == b
  }

  /** What `saveTrack` does to the save table at time `now`, `newId` being
      the id an insert would use. */
  function SaveStep(tracks: Table<Track>, saved: Table<SavedTrack>, caller: Option<Identity>,
                    trackId: Id, newId: Id, now: int): (r: Result<Table<SavedTrack>>)
    requires newId !in saved
    ensures r == Err(NotAuthenticated) <==> caller.None?
    ensures r == Err(TrackNotFound) <==> caller.Some? && trackId !in tracks
    ensures r == Err(CannotSaveOwnTrack) <==>
              caller.Some? && trackId in tracks && tracks[trackId].userId == caller.value.subject
    ensures r == Err(TrackAlreadySaved) <==>
              && caller.Some? && trackId in tracks && tracks[trackId].userId != caller.value.subject
              && HasSave(saved, caller.value.subject, trackId)
    ensures r.Ok? <==>
              && caller.Some? && trackId in tracks && tracks[trackId].userId != caller.value.subject
              && !HasSave(saved, caller.value.subject, trackId)
    ensures r.Ok? ==> r.value == saved[newId := SavedTrack(caller.value.subject, trackId, now)]
    ensures r.Ok? && UniqueSaves(saved) ==> UniqueSaves(r.value)
  {
    if caller.None? then Err(NotAuthenticated)
    else if trackId !in tracks then Err(TrackNotFound)
    else if tracks[trackId].userId == caller.value.subject then Err(CannotSaveOwnTrack)
    else if First(saved, SaveBy(caller.value.subject, trackId)).Some? then Err(TrackAlreadySaved)
    else
      var after := saved[newId := SavedTrack(caller.value.subject, trackId, now)];
      assert after[newId].userId == caller.value.subject && after[newId].trackId == trackId;
      Ok(after)
  }

  /** `saveTrack`. */
  method SaveTrack(db: Db, caller: Option<Identity>, trackId: Id, now: int) returns (r: Result<()>)
    requires db.Valid()
    modifies db`savedTracks, db`nextId
    ensures db.Valid()
    ensures var step := SaveStep(old(db.tracks), old(db.savedTracks), caller, trackId, old(db.nextId), now);
            && (step.Ok? ==> r == Ok(()) && db.savedTracks == step.value)
            && (step.Err? ==> r == Err(step.error) && db.savedTracks == old(db.savedTracks))
  {
    if caller.None? {
      return Err(NotAuthenticated);
    }
    if trackId !in db.tracks {
      return Err(TrackNotFound);
    }
    var track := db.tracks[trackId];
    if track.userId == caller.value.subject {
      return Err(CannotSaveOwnTrack);
    }
    var existing := First(db.savedTracks, SaveBy(caller.value.subject, trackId));
    if existing.Some? {
      return Err(TrackAlreadySaved);
    }
    var id := db.NewId();
    db.savedTracks := db.savedTracks[id := SavedTrack(caller.value.subject, trackId, now)];
    r := Ok(());
  }

  /** What `unsaveTrack` does to the save table. */
  function UnsaveStep(saved: Table<SavedTrack>, caller: Option<Identity>, trackId: Id)
    : (r: Result<Table<SavedTrack>>)
    ensures r == Err(NotAuthenticated) <==> caller.None?
    ensures r == Err(TrackNotSaved) <==> caller.Some? && !HasSave(saved, caller.value.subject, trackId)
    ensures r.Ok? <==> caller.Some? && HasSave(saved, caller.value.subject, trackId)
    ensures r.Ok? ==>
              exists k :: && k in saved && saved[k].userId == caller.value.subject
                          && saved[k].trackId == trackId && r.value == saved - {k}
    ensures r.Ok? && UniqueSaves(saved) ==>
              UniqueSaves(r.value) && !HasSave(r.value, caller.value.subject, trackId)
  {
    if caller.None? then Err(NotAuthenticated)
    else match First(saved, SaveBy(caller.value.subject, trackId))
      case None => Err(TrackNotSaved)
      case Some(k) =>
        assert UniqueSaves(saved) ==> Select(saved, SaveBy(caller.value.subject, trackId)) == map[k := saved[k]];
        Ok(saved - {k})
  }

  /** `unsaveTrack`. */
  method UnsaveTrack(db: Db, caller: Option<Identity>, trackId: Id) returns (r: Result<()>)
    requires db.Valid()
    modifies db`savedTracks
    ensures db.Valid()
    ensures var step := UnsaveStep(old(db.savedTracks), caller, trackId);
            && (step.Ok? ==> r == Ok(()) && db.savedTracks == step.value)
            && (step.Err? ==> r == Err(step.error) && db.savedTracks == old(db.savedTracks))
  {
    if caller.None? {
      return Err(NotAuthenticated);
    }
    var existing := First(db.savedTracks, SaveBy(caller.value.subject, trackId));
    if existing.None? {
      return Err(TrackNotSaved);
    }
    db.savedTracks := db.savedTracks - {existing.value};
    r := Ok(());
  }

  /** `isTrackSaved`: false without an identity. */
  function IsTrackSaved(saved: Table<SavedTrack>, caller: Option<Identity>, trackId: Id): (r: bool)
    ensures r <==> caller.Some? &&
                   exists k :: k in saved && saved[k].userId == caller.value.subject && saved[k].trackId == trackId
  {
    caller.Some? && HasSave(saved, caller.value.subject, trackId)
  }

  /** A successful `saveTrack` followed by `unsaveTrack` gives back the very
      same table; in between the track reads as saved. */
  lemma SaveThenUnsaveRestores(tracks: Table<Track>, saved: Table<SavedTrack>, caller: Option<Identity>,
                               trackId: Id, newId: Id, now: int)
    requires newId !in saved
    requires SaveStep(tracks, saved, caller, trackId, newId, now).Ok?
    ensures var s1 := SaveStep(tracks, saved, caller, trackId, newId, now).value;
            IsTrackSaved(s1, caller, trackId) && UnsaveStep(s1, caller, trackId) == Ok(saved)
  {
    var s1 := SaveStep(tracks, saved, caller, trackId, newId, now).value;
    var subject := caller.value.subject;
    assert s1[newId] == SavedTrack(subject, trackId, now);
    assert !HasSave(saved, subject, trackId);
    assert Select(s1, SaveBy(subject, trackId)) == map[newId := s1[newId]];
    assert First(s1, SaveBy(subject, trackId)) == Some(newId);
    assert s1 - {newId} == saved;
  }

  /** Saving is not idempotent: once saved, saving again fails with "Track
      already saved", whatever the time. */
  lemma SaveTwiceFails(tracks: Table<Track>, saved: Table<SavedTrack>, caller: Option<Identity>,
                       trackId: Id, f1: Id, f2: Id, t1: int, t2: int)
    requires f1 !in saved
    requires SaveStep(tracks, saved, caller, trackId, f1, t1).Ok?
    requires f2 !in SaveStep(tracks, saved, caller, trackId, f1, t1).value
    ensures SaveStep(tracks, SaveStep(tracks, saved, caller, trackId, f1, t1).value, caller, trackId, f2, t2)
              == Err(TrackAlreadySaved)
  {
    var s1 := SaveStep(tracks, saved, caller, trackId, f1, t1).value;
    assert f1 in Select(s1, SaveBy(caller.value.subject, trackId));
  }

  /** An entry of `getSavedTracks`. */
  datatype SavedTrackView = SavedTrackView(trackId: Id, track: Track, starCount: nat, commentCount: nat, savedAt: int)

  /** `getSavedTracks`: the caller's saves whose track still exists, each
      with the track and its star and comment counts; keyed by save id. */
  function GetSavedTracks(caller: Option<Identity>, saved: Table<SavedTrack>, tracks: Table<Track>,
                          stars: Table<TrackStar>, comments: Table<TrackComment>): (r: map<Id, SavedTrackView>)
    ensures caller.None? ==> r == map[]
    ensures caller.Some? ==>
              forall k :: k in r <==> k in saved && saved[k].userId == caller.value.subject && saved[k].trackId in tracks
    ensures forall k :: k in r ==>
              && k in saved && r[k].trackId == saved[k].trackId && r[k].savedAt == saved[k].savedAt
              && r[k].trackId in tracks && r[k].track == tracks[r[k].trackId]
              && r[k].starCount == GetStarCount(stars, r[k].trackId)
              && r[k].commentCount == |GetComments(comments, r[k].trackId)|
  {
    if caller.None? then map[]
    else
      var mine := Select(saved, SavedBy(caller.value.subject));
      map k | k in mine && mine[k].trackId in tracks ::
        SavedTrackView(mine[k].trackId, tracks[mine[k].trackId], GetStarCount(stars, mine[k].trackId),
                       |GetComments(comments, mine[k].trackId)|, mine[k].savedAt)
  }

  /** Deleting a track does not delete its saves: `isTrackSaved` reads the
      save table alone, so the track still reads as saved, yet
      `getSavedTracks` silently drops it and keeps every other entry as it
      was. */
  lemma RemovedTrackOrphansSaves(caller: Option<Identity>, saved: Table<SavedTrack>, tracks: Table<Track>,
                                 stars: Table<TrackStar>, comments: Table<TrackComment>, trackId: Id)
    requires trackId in tracks
    ensures var before, after := GetSavedTracks(caller, saved, tracks, stars, comments),
                                 GetSavedTracks(caller, saved, tracks - {trackId}, stars, comments);
            && (forall k :: k in after <==> k in before && before[k].trackId != trackId)
            && (forall k :: k in after ==> after[k] == before[k])
  {
  }
}
