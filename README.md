# Touge track dashboard: backend handlers and profile statistics

This project models the backend of a dashboard where drivers publish
mountain-pass tracks, mark corners on a track map with target times, and log
their own corner times. Other users can star, save and comment on tracks. The
backend is a set of Convex query and mutation handlers over a document store:

- `convex/tracks.ts`: track create/update/remove behind an ownership guard,
  the track queries, the star toggle, comments, and saved tracks.
- `convex/profiles.ts`: lookup-before-insert profile creation, and lookup.
- `convex/corners.ts`: corner CRUD, with no guard at all.
- `convex/userTimes.ts`: logged times, with no guard at all.

The project also models the statistics block of the profile header
(`src/app/profile/_components/ProfileHeader.tsx`). It is a pure fold over a
user's logged times.

The parts of the model:

- **Store.** `Database.Db` is a class with one `map<Id, Row>` per table
  (`users`, `tracks`, `corners`, `userTimes`, `trackComments`, `trackStars`,
  `savedTracks`). It also holds a counter, `nextId`, from which `insert` draws
  fresh ids. `Valid()` states that every id in use lies below the counter.
- **Database calls.** `ctx.db.get`, `insert`, `patch` and `delete` become reads
  and assignments of those fields.
- **Index reads.** `withIndex(eq …).collect()` is `Tables.Select`, a sub-map
  keyed by document id. `.first()` is `Tables.First`, the oldest matching
  document (the one with the smallest id).
- **Mutations.** Each mutation is a method taking the store. Its field frame
  (`modifies db`trackStars, db`nextId`) says which tables it may touch. The
  frame alone shows that nothing else changes, and that `remove` does not
  cascade.
- **Pure step functions.** The star toggle, save/unsave and profile creation
  have their own step functions on table values (`ToggleStar`, `SaveStep`,
  `UnsaveStep`, `CreateStep`). The methods are proved equal to them. Lemmas
  about several calls in a row are stated over these functions.
- **Queries.** Queries are functions of the tables they read.
- **Caller.** The caller is an `Option<Identity>` with a subject and an
  optional name and nickname.
- **Errors.** Failures are `Result` values whose `Error` has a `Message()`
  holding the literal text the handler throws.

## Model

| member | source | states |
|---|---|---|
| `Common.DisplayName` | convex/tracks.ts:55 | The display name is never empty. A truthy name wins, then a truthy nickname, then "Unknown User". The empty string counts as absent, as with JavaScript `\|\|`. |
| `Tables.Select` | convex/corners.ts:7-10 | An index read returns exactly the documents that match, each under its own id and unchanged. |
| `Tables.First` | convex/profiles.ts:10-13 | `.first()` returns none exactly when nothing matches. Otherwise it returns a matching document that is older than every other match. |
| `Database.Db.NewId` | convex/tracks.ts:186-189 | `insert` takes an id that no table uses yet. The store stays valid afterwards. |
| `Tracks.Authorize` | convex/tracks.ts:14-19 | The guard has three failures, checked in order. It fails with "Not authenticated" exactly when there is no identity. It fails with "not found" exactly when there is an identity and no document. It fails with "Unauthorized" exactly when the document's owner differs from the subject. It passes exactly when the owner is the caller. |
| `Tracks.OwnerOf` | convex/tracks.ts:17 | A document read gives the owner field of the document under that id, and none exactly when no document has the id. It serves both the track owner and the comment author. |
| `Tracks.PatchTrack` | convex/tracks.ts:21-22 | Each supplied field is replaced and each omitted field is kept. The owner, the owner's name and `createdAt` never change. An empty patch is the identity. |
| `Tracks.Update` | convex/tracks.ts:4-23 | The outcome is exactly the guard's verdict. Any failure leaves the table as it was. On success, only that track is patched. |
| `Tracks.Remove` | convex/tracks.ts:26-37 | The same guard applies. On success, only the track row is deleted. The frame keeps corners, comments, stars and saves, so nothing cascades. |
| `Tracks.NewTrack` | convex/tracks.ts:57-66 | The new track's owner comes from the `userId` argument. Its owner name comes from the caller's display name, and `createdAt` is the given clock value. |
| `Tracks.Create` | convex/tracks.ts:44-69 | No identity is needed and nothing is checked. Exactly one new track is inserted under a fresh id. |
| `Tracks.CreatedTrackOwnedByArgument` | convex/tracks.ts:63 | Whoever creates a track, the guard then lets in exactly the user named in the arguments. Anyone else gets "Unauthorized", including the creator. |
| `Tracks.Get` | convex/tracks.ts:71-94 | The result is null exactly when the track is missing. Otherwise it holds the stored track and exactly the corners whose `trackId` is that track. |
| `Tracks.List` | convex/tracks.ts:97-131 | The result holds exactly the given user's tracks. Each one comes with the corners of that track and a `cornerCount` equal to their number. |
| `Tracks.GetAllTracks` | convex/tracks.ts:134-168 | There is one entry per track. Its star and comment counts are the numbers of star and comment rows carrying that track id. |
| `Tracks.GetStarCount` | convex/tracks.ts:212-222 | The result is the number of star rows whose `trackId` is the argument. |
| `Tracks.IsTrackStarred` | convex/tracks.ts:196-209 | The result is false without an identity. Otherwise it is true exactly when a (subject, track) star row exists. |
| `Tracks.ToggleStar` | convex/tracks.ts:177-191 | `isStarred` is true exactly when no row exists for the pair. In that case one row is inserted under the fresh id. Otherwise one matching row is deleted. |
| `Tracks.ToggleStarCount` | convex/tracks.ts:182-190 | A toggle moves the toggled track's star count up by one when it reports starred, and down by one otherwise. No other track's count changes. |
| `Tracks.ToggleKeepsUnique` | convex/tracks.ts:177-191 | With at most one row per (user, track) before, there is at most one after. The pair is then starred exactly when the toggle said so. |
| `Tracks.StarTrack` | convex/tracks.ts:171-193 | Without an identity it fails with "Not authenticated" and changes nothing. Otherwise the new star table and the result are those of `ToggleStar`. |
| `Tracks.StarredAfterToggle` | convex/tracks.ts:196-209 | With one row per pair, `isTrackStarred` after `starTrack` equals the `isStarred` that `starTrack` returned. |
| `Tracks.ToggleTwiceRestores` | convex/tracks.ts:177-191 | With one row per pair, two toggles return opposite answers. They restore the presence of the star and the track's star count. Starting unstarred, they restore the identical table. |
| `Tracks.ToggleMovesOneSummary` | convex/tracks.ts:140-159 | After a toggle, `getAllTracks` changes only the toggled track's `starCount`, by exactly one. |
| `Tracks.GetComments` | convex/tracks.ts:246-257 | The result holds exactly the comments whose `trackId` is the argument, unchanged. |
| `Tracks.AddComment` | convex/tracks.ts:225-243 | It fails with "Not authenticated" exactly when there is no identity. Otherwise it inserts one comment under a fresh id, carrying the caller's subject and display name. The track is not checked to exist. |
| `Tracks.AddedCommentListed` | convex/tracks.ts:236-241 | A new comment joins its own track's comment list, which grows by exactly one. Every other track's list is unchanged. |
| `Tracks.DeleteComment` | convex/tracks.ts:260-272 | The guard applies against the comment's author, with "Comment not found". A failure changes nothing. Success deletes exactly that comment. |
| `Tracks.DeletedCommentUnlisted` | convex/tracks.ts:270 | A deleted comment leaves its track's list, which shrinks by exactly one. Other tracks' lists are unchanged. |
| `Tracks.SaveStep` | convex/tracks.ts:277-304 | There are four failures, checked in order, each an exact iff: no identity, track missing, caller is the owner ("You cannot save your own track"), already saved. It succeeds exactly when none of the four applies. On success exactly one (subject, track, now) row is inserted. One row per pair is preserved. |
| `Tracks.SaveTrack` | convex/tracks.ts:274-306 | The result and the new save table are those of `SaveStep`. A failure changes nothing. |
| `Tracks.UnsaveStep` | convex/tracks.ts:311-324 | It fails with "Not authenticated" exactly when there is no identity. It fails with "Track not saved" exactly when no row exists. It succeeds exactly when a row exists, and then deletes one matching row. With one row per pair, the pair is then no longer saved. |
| `Tracks.UnsaveTrack` | convex/tracks.ts:308-326 | The result and the new save table are those of `UnsaveStep`. A failure changes nothing. |
| `Tracks.IsTrackSaved` | convex/tracks.ts:328-341 | The result is false without an identity. Otherwise it is true exactly when a (subject, track) save row exists. |
| `Tracks.SaveThenUnsaveRestores` | convex/tracks.ts:298-324 | After a successful save the track reads as saved. The next unsave succeeds and gives back the identical save table. |
| `Tracks.SaveTwiceFails` | convex/tracks.ts:289-296 | Saving is not idempotent: after a successful save, saving again fails with "Track already saved". |
| `Tracks.GetSavedTracks` | convex/tracks.ts:343-387 | The result is empty without an identity. Otherwise it holds exactly the caller's saves whose track still exists. Each carries that track, its `savedAt`, and star and comment counts equal to the numbers of rows with that track id. |
| `Tracks.RemovedTrackOrphansSaves` | convex/tracks.ts:354-385 | After a track is deleted, `getSavedTracks` silently drops exactly the entries for that track and keeps every other entry unchanged. The save rows themselves stay, and `isTrackSaved`, which reads only the save table, still reports the track saved. |
| `Profiles.Get` | convex/profiles.ts:29-37 | The result is null exactly when no profile has the user id. Otherwise it is a stored profile with that user id. |
| `Profiles.CreateStep` | convex/profiles.ts:9-26 | If a profile with the user id exists, its id is returned and the table is unchanged. Otherwise one row is inserted, with email "", name "" and isPro false, and its fresh id is returned. No existing row is ever modified. |
| `Profiles.Create` | convex/profiles.ts:4-27 | The new users table and the returned id are those of `CreateStep`. |
| `Profiles.CreateKeepsUnique` | convex/profiles.ts:10-25 | With at most one profile per user id before `create`, there is at most one after. |
| `Profiles.CreateIdempotent` | convex/profiles.ts:10-25 | A second `create` with the same user id returns the same id and leaves the table as it was, whatever display name it is given. |
| `Profiles.GetAfterCreate` | convex/profiles.ts:29-36 | After `create(u)`, `get(u)` returns exactly the profile whose id `create` returned. |
| `Corners.ListByTrack` | convex/corners.ts:4-12 | The result holds exactly the corners whose `trackId` is the argument, unchanged. |
| `Corners.Get` | convex/corners.ts:14-19 | The result is the stored corner, or null exactly when the id is absent. |
| `Corners.PatchCorner` | convex/corners.ts:51-52 | Each supplied field is replaced and each omitted field is kept. `trackId` can never change. An empty patch is the identity. |
| `Corners.Create` | convex/corners.ts:21-36 | The arguments are stored unchanged under a fresh id. Other corners are untouched. No caller check is made. |
| `Corners.Update` | convex/corners.ts:38-54 | It succeeds exactly when the corner exists, whatever the caller. It then patches only that corner. A missing id changes nothing. |
| `Corners.Remove` | convex/corners.ts:56-61 | It succeeds exactly when the corner exists, whatever the caller. It deletes only that corner. The frame keeps its user times. |
| `Corners.CreateListsUnderOwnTrack` | convex/corners.ts:34 | A created corner joins its own track's listing, which grows by one. Other listings are unchanged. |
| `Corners.UpdateKeepsListing` | convex/corners.ts:51-52 | An update never moves a corner into or out of any track's listing. |
| `Corners.RemoveUnlists` | convex/corners.ts:59 | A removed corner leaves its track's listing, which shrinks by one. Other listings are unchanged. |
| `UserTimes.ListByCorner` | convex/userTimes.ts:4-15 | The result holds exactly the rows whose `cornerId` and `userId` both equal the arguments. |
| `UserTimes.ListByUser` | convex/userTimes.ts:17-25 | The result holds exactly the rows whose `userId` equals the argument. |
| `UserTimes.Create` | convex/userTimes.ts:27-37 | The arguments are stored unchanged under a fresh id. There is no uniqueness check and no caller check. |
| `UserTimes.Remove` | convex/userTimes.ts:39-44 | It succeeds exactly when the row exists, whatever the caller. It deletes only that row. |
| `UserTimes.CreateAddsOne` | convex/userTimes.ts:34-35 | A new time grows its own (corner, user) listing and its user's listing by exactly one. It leaves every other listing unchanged. |
| `UserTimes.RemoveDropsOne` | convex/userTimes.ts:41-42 | A removed time leaves its listings, which shrink by one. Other users' listings are unchanged. |
| `ProfileStats.TotalTimes` | src/app/profile/_components/ProfileHeader.tsx:47 | The count is zero exactly when there are no times. |
| `ProfileStats.MinTime` | src/app/profile/_components/ProfileHeader.tsx:48 | The minimum of a non-empty list is one of its times and no greater than any of them. |
| `ProfileStats.BestTime` | src/app/profile/_components/ProfileHeader.tsx:48 | The best time is 0 for an empty list. Otherwise it is one of the logged times and no greater than any of them. |
| `ProfileStats.SumBounds` | src/app/profile/_components/ProfileHeader.tsx:49 | When every time lies in [lo, hi], the `reduce` sum lies in [n·lo, n·hi]. |
| `ProfileStats.AvgTime` | src/app/profile/_components/ProfileHeader.tsx:49 | The average is 0 for an empty list. Otherwise it is sum / count, which lies between the smallest and the largest time. |
| `ProfileStats.RecentTimes` | src/app/profile/_components/ProfileHeader.tsx:50 | The count is at most the total. It equals the total exactly when every time was logged within 24 h of `now`. It is 0 exactly when none was. |
| `ProfileStats.TargetsAchieved` | src/app/profile/_components/ProfileHeader.tsx:52 | The count is at most the total. It equals the total exactly when every time is at or under its corner's target. It is 0 exactly when none is. |
| `ProfileStats.TrackIds` | src/app/profile/_components/ProfileHeader.tsx:53 | The set holds exactly the track ids of the entries, and it is no larger than the list. |
| `ProfileStats.UniqueTracks` | src/app/profile/_components/ProfileHeader.tsx:53 | The number of distinct tracks is at most the total, and at least 1 when there is any time. |
| `ProfileStats.Shown` | src/app/profile/_components/ProfileHeader.tsx:71 | A value is shown exactly when it is > 0. Otherwise it reads "N/A". |
| `ProfileStats.ZeroTimeShownAsNA` | src/app/profile/_components/ProfileHeader.tsx:71 | A logged time of 0 (or less) makes the best time read "N/A". If every time is 0, the average reads "N/A" as well. |
| `ProfileStats.PositiveTimesShown` | src/app/profile/_components/ProfileHeader.tsx:78 | When the list is non-empty and every time is positive, both the best and the average are shown as numbers. |

## Left out

- Blob storage is not modelled: `generateUploadUrl` (convex/tracks.ts:40-42) and the `mapImageUrl` resolved through `ctx.storage.getUrl` are foreign calls into the storage service. The views carry the stored `mapImageId` only.
- The identity provider is not modelled. The caller's identity is a parameter of every handler.
- The clock is not modelled. `Date.now()` is the parameter `now`, in integer milliseconds.
- Result ordering is not modelled. `.order("desc")` and the order of `collect()` are dropped, and every list result is a map keyed by document id.
- `.first()` is read as "the oldest matching document". The handlers only rely on it returning some match when one exists.
- Concurrency is not modelled. The `Promise.all` fan-outs become plain maps. The check-then-act race in `starTrack` and `saveTrack` is not modelled. The race is why a table can hold two rows for one (user, track) pair.
- The one-row-per-pair properties of stars, saves and profiles are stated as preserved invariants. They are not part of `Db.Valid()`.
- `Tracks.ToggleTwiceRestores`, `Tracks.ToggleKeepsUnique` and `Tracks.StarredAfterToggle` assume one star row per pair. With duplicates, which only the race can create, a toggle can report "unstarred" while a row remains.
- JavaScript numbers are modelled as `real`, so IEEE rounding in the mean and the NaN/Infinity behaviour of `Math.min` are not captured.
- The database's own failure on `patch` or `delete` of a missing id is modelled as `NonexistentDocument` in `Corners.Update`, `Corners.Remove` and `UserTimes.Remove`. Its message text belongs to the database platform, so `Message()` gives a placeholder for it.
- Tables outside the handlers here (`codeExecutions`, `snippets`, `snippetComments`, `stars`) are not modelled. The billing fields of a profile (`proSince`, `lemonSqueezyCustomerId`, `lemonSqueezyOrderId`) are carried in `User`, but no modelled handler writes them.
- `listByUserWithDetails`, which joins times with their corner and track, does not exist in `convex/userTimes.ts` and is not modelled.
- The reference-video URL parser and the per-corner delta-to-target shown by the pages are not modelled. Both are presentation code outside these handlers.
- Rendering (JSX, styling, animation) is not modelled. Of `ProfileHeader.tsx`, only the statistics and their "N/A" guards are modelled.
