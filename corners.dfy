/** The corner handlers of convex/corners.ts. None of them consults the
    caller: every handler takes the caller's identity, as every Convex
    handler receives it, and no contract below depends on it. */
module Corners {
  import opened Common
  import opened Tables
  import opened Schema
  import opened Database

  /** Index `by_track`. */
  function OnTrack(trackId: Id): Corner -> bool {
    (c: Corner) => c.trackId == trackId
  }

  /** `listByTrack`: exactly the corners of the given track. */
  function ListByTrack(corners: Table<Corner>, trackId: Id): (r: Table<Corner>)
    ensures forall k :: k in r <==> k in corners && corners[k].trackId == trackId
    ensures forall k :: k in r ==> r[k] == corners[k]
  {
    Select(corners, OnTrack(trackId))
  }

  /** `get`: the stored corner, or null. */
  function Get(corners: Table<Corner>, id: Id): (r: Option<Corner>)
    ensures r.Some? <==> id in corners
    ensures r.Some? ==> r.value == corners[id]
  {
    if id in corners then Some(corners[id]) else None
  }

  /** The optional arguments of `update`. There is no `trackId` among them. */
  datatype CornerPatch = CornerPatch(
    cornerNumber: Option<real>,
    name: Option<string>,
    targetTime: Option<real>,
    targetSpeed: Option<real>,
    targetGear: Option<real>,
    youtubeUrl: Option<string>,
    positionX: Option<real>,
    positionY: Option<real>)

  /** `db.patch(id, updates)`: each supplied field replaces the stored one,
      every other field keeps its value; the track never changes. */
  function PatchCorner(c: Corner, p: CornerPatch): (r: Corner)
    ensures r.trackId == c.trackId
    ensures p.cornerNumber.None? ==> r.cornerNumber == c.cornerNumber
    ensures p.cornerNumber.Some? ==> r.cornerNumber == p.cornerNumber.value
    ensures p.name.None? ==> r.name == c.name
    ensures p.name.Some? ==> r.name == p.name.value
    ensures p.targetTime.None? ==> r.targetTime == c.targetTime
    ensures p.targetTime.Some? ==> r.targetTime == p.targetTime.value
    ensures p.targetSpeed.None? ==> r.targetSpeed == c.targetSpeed
    ensures p.targetSpeed.Some? ==> r.targetSpeed == p.targetSpeed.value
    ensures p.targetGear.None? ==> r.targetGear == c.targetGear
    ensures p.targetGear.Some? ==> r.targetGear == p.targetGear.value
    ensures p.youtubeUrl.None? ==> r.youtubeUrl == c.youtubeUrl
    ensures p.youtubeUrl.Some? ==> r.youtubeUrl == p.youtubeUrl
    ensures p.positionX.None? ==> r.positionX == c.positionX
    ensures p.positionX.Some? ==> r.positionX == p.positionX.value
    ensures p.positionY.None? ==> r.positionY == c.positionY
    ensures p.positionY.Some? ==> r.positionY == p.positionY.value
    ensures p == CornerPatch(None, None, None, None, None, None, None, None) ==> r == c
  {
    Corner(
      c.trackId,
      if p.cornerNumber.Some? then p.cornerNumber.value else c.cornerNumber,
      if p.name.Some? then p.name.value else c.name,
      if p.targetTime.Some? then p.targetTime.value else c.targetTime,
      if p.targetSpeed.Some? then p.targetSpeed.value else c.targetSpeed,
      if p.targetGear.Some? then p.targetGear.value else c.targetGear,
      if p.youtubeUrl.Some? then p.youtubeUrl else c.youtubeUrl,
      if p.positionX.Some? then p.positionX.value else c.positionX,
      if p.positionY.Some? then p.positionY.value else c.positionY)
  }

  /** `create`: the arguments are stored as they are, under a fresh id. */
  method Create(db: Db, caller: Option<Identity>, corner: Corner) returns (id: Id)
    requires db.Valid()
    modifies db`corners, db`nextId
    ensures db.Valid()
    ensures id !in old(db.corners)
    ensures db.corners == old(db.corners)[id := corner]
  {
    id := db.NewId();
    db.corners := db.corners[id := corner];
  }

  /** `update`: patches the corner whatever the caller; the database refuses
      an id that names no corner. */
  method Update(db: Db, caller: Option<Identity>, id: Id, patch: CornerPatch) returns (r: Result<()>)
    requires db.Valid()
    modifies db`corners
    ensures db.Valid()
    ensures r.Ok? <==> id in old(db.corners)
    ensures r.Err? ==> r.error == NonexistentDocument && db.corners == old(db.corners)
    ensures r.Ok? ==> db.corners == old(db.corners)[id := PatchCorner(old(db.corners)[id], patch)]
  {
    if id !in db.corners {
      return Err(NonexistentDocument);
    }
    db.corners := db.corners[id := PatchCorner(db.corners[id], patch)];
    r := Ok(());
  }

  /** `remove`: deletes the corner whatever the caller. Its user times stay
      (the frame leaves `userTimes` alone). */
  method Remove(db: Db, caller: Option<Identity>, id: Id) returns (r: Result<()>)
    requires db.Valid()
    modifies db`corners
    ensures db.Valid()
    ensures r.Ok? <==> id in old(db.corners)
    ensures r.Err? ==> r.error == NonexistentDocument && db.corners == old(db.corners)
    ensures r.Ok? ==> db.corners == old(db.corners) - {id}
  {
    if id !in db.corners {
      return Err(NonexistentDocument);
    }
    db.corners := db.corners - {id};
    r := Ok(());
  }

  /** A created corner is listed under its own track and nowhere else. */
  lemma CreateListsUnderOwnTrack(corners: Table<Corner>, f: Id, c: Corner, t: Id)
    requires f !in corners
    ensures ListByTrack(corners[f := c], t)
              == if t == c.trackId then ListByTrack(corners, t)[f := c] else ListByTrack(corners, t)
    ensures |ListByTrack(corners[f := c], t)|
              == |ListByTrack(corners, t)| + (if t == c.trackId then 1 else 0)
  {
    SelectInsert(corners, OnTrack(t), f, c);
  }

  /** An update never moves a corner to another track's listing. */
  lemma UpdateKeepsListing(corners: Table<Corner>, id: Id, p: CornerPatch, t: Id)
    requires id in corners
    ensures ListByTrack(corners[id := PatchCorner(corners[id], p)], t).Keys == ListByTrack(corners, t).Keys
  {
    var after := corners[id := PatchCorner(corners[id], p)];
    forall k ensures k in ListByTrack(after, t) <==> k in ListByTrack(corners, t) {
      if k == id {
        assert after[k].trackId == corners[k].trackId;
      }
    }
  }

  /** A removed corner leaves its track's listing and only that one. */
  lemma RemoveUnlists(corners: Table<Corner>, id: Id, t: Id)
    requires id in corners
    ensures ListByTrack(corners - {id}, t) == ListByTrack(corners, t) - {id}
    ensures |ListByTrack(corners - {id}, t)|
              == |ListByTrack(corners, t)| - (if corners[id].trackId == t then 1 else 0)
  {
    SelectRemove(corners, OnTrack(t), id);
  }
}
