# Playlist repository model

A Dafny model of the playlist back end of a small media-list web service. The model covers the
playlist routes of `backend/index.js` and the Mongoose document rules of
`backend/models/Playlist.js`.

Every route takes an identity claim: the `username` request header, trusted as given, and
refuses a missing or empty claim. The single-playlist routes then find the one playlist that
has both the requested `_id` and the caller's username. Update, add-item and remove-item edit
that document in place and save it. Saving runs the schema validation and a pre-save hook that
stamps `updatedAt`. The exceptions:

- list (`GET /playlists`) runs `find({ username })` and sorts; it looks nothing up by id and
  changes nothing;
- create (`POST /playlists`) builds a new document and saves it, with no lookup;
- get (`GET /playlists/:id`) only looks the playlist up;
- delete (`DELETE /playlists/:id`) removes the found document with `deleteOne()` and does not
  save it.

The model is an in-memory store, `PlaylistStore.Store`. It is a class holding the playlist
records in insertion order (`playlists: seq<Playlist>`) and a counter that hands out fresh ids
(`nextId`). It has one method per route. The clock (`Date.now`) is an explicit `now: nat`
argument. The `:id` route parameter is a `RouteId`: either an id the store's cast accepts or a
malformed one. The `name` and `description` body fields are `Option<string>`, where `None`
stands for a field that was not sent. The item body is an `ItemBody` of `Option<Json>` fields,
a `Json` being a string or a non-negative integer below 2^53, and the item's String paths cast
each field on assignment.

Modules, one per concern:

- `Outcomes` (outcomes.dfy): `Option`, the error kinds (`Unauthenticated`, `NotFound`,
  `Duplicate`, `ServerError`) and `Outcome`.
- `Trimming` (trim.dfy): ECMAScript `String.prototype.trim`. The whitespace set is the one
  the ECMAScript standard defines: WhiteSpace plus LineTerminator.
- `PlaylistSchema` (schema.dfy): the `Item` and `Playlist` documents. It holds `required`,
  `trim` and `enum` as predicates, the defaults, and `Save` (validation, then the pre-save hook).
- `Items` (items.dfy): the duplicate test (`some`) and the removal filter over `items`.
- `Queries` (queries.dfy): `find({ username })`, its `sort({ updatedAt: -1 })`, and
  `findOne({ _id, username })`.
- `Documents` (documents.dfy): what create, update, add-item and remove-item do to the one
  document they hold, up to the end of `save()`.
- `PlaylistStore` (store.dfy): the store invariant, the route methods, the isolation lemmas and
  a client session (create, add, duplicate add, remove, delete, look up).

The store invariant `Consistent` says four things:
- ids are unique, and each is below `nextId`;
- every record passed the schema;
- both trimmed paths hold trimmed values;
- no two items of a playlist share a `mediaId`. This holds for the model's add-item, which
  compares the mediaId after Mongoose's String cast. The code as written compares it before
  the cast and can store a duplicate (see "## Findings").

Every route method preserves it. Every mutating route also ensures `OthersUnchanged`: every
other user's view of the store (`find({ username })`) is the same before and after.

Three behaviours of the code a reader might not expect:

- A playlist whose name is missing or blank after trimming fails schema validation at `save()`.
  The handler's `catch` turns that into a 500, not a 400 validation error. The same holds for
  an item with a missing `mediaId` or `title`, or a `mediaType` outside `movie`/`tv`. The model
  reports `ServerError` for all of these.
- A malformed `:id` makes `findOne` throw a cast error, which also becomes a 500 (`ServerError`).
  This is checked after the identity check and before the ownership lookup.
- RemoveItem always succeeds on a playlist the caller owns, and it stamps `updatedAt` even when
  nothing matched.

## Model

| member | source | states |
|---|---|---|
| `Trimming.TrimStart` | backend/models/Playlist.js:4-12 | the result is a suffix of the input, starts with a non-space, and only spaces were dropped |
| `Trimming.TrimEnd` | backend/models/Playlist.js:4-12 | the result is a prefix of the input, ends with a non-space, and only spaces were dropped |
| `Trimming.Trim` | backend/models/Playlist.js:4-12 | `trim`: the input is the result padded with spaces on both sides, and the result has no space at either end |
| `Trimming.TrimStartStops` | backend/models/Playlist.js:4-12 | leading spaces are dropped up to the first non-space and no further |
| `Trimming.TrimEndStops` | backend/models/Playlist.js:4-12 | trailing spaces are dropped back to the last non-space and no further |
| `Trimming.TrimUnpads` | backend/models/Playlist.js:4-12 | trim is determined by its contract: trimming a space-padded tight string gives that string back |
| `Trimming.TrimIdempotent` | backend/models/Playlist.js:4-12 | trimming twice equals trimming once |
| `PlaylistSchema.SetTrimmedIdempotent` | backend/models/Playlist.js:4-12 | assigning a trimmed path's stored value to it again changes nothing |
| `PlaylistSchema.Required` | backend/models/Playlist.js:4-8 | `required: true` on a String path: the value is set and is not the empty string |
| `PlaylistSchema.SetTrimmed` | backend/models/Playlist.js:4-12 | assigning to a `trim: true` path: an absent value stays absent, a given string is stored with no whitespace at either end and only whitespace removed |
| `PlaylistSchema.ValidItem` | backend/models/Playlist.js:17-31 | the item sub-schema: `mediaId`, `title` and `mediaType` set and non-empty, `mediaType` one of `movie` and `tv`; `poster` unconstrained |
| `PlaylistSchema.ValidPlaylist` | backend/models/Playlist.js:3-45 | the playlist schema: `name` and `username` set and non-empty, and every item passes the item sub-schema; `description` unconstrained |
| `PlaylistSchema.NewItem` | backend/index.js:198-203 | a pushed item carries the sent fields with `addedAt` defaulted to the clock; it validates exactly when `mediaId` and `title` are non-empty and `mediaType` is in the enum |
| `PlaylistSchema.NewPlaylist` | backend/index.js:104-109 | `new Playlist({...})`: the id, owner and no items, `createdAt` = `updatedAt` = the clock, name and description set through the trimming setter (so both tight, absent stays absent); it validates exactly when the owner is non-empty and the trimmed name is non-empty |
| `PlaylistSchema.CastString` | backend/models/Playlist.js:18-20 | the String cast on assignment: absent stays absent, a string is kept, a number becomes `Decimal` of it |
| `PlaylistSchema.Decimal` | backend/models/Playlist.js:18-20 | `String(n)` inside the cast: a non-empty string of decimal digits that denotes exactly `n`, with no leading zero except for `"0"` itself |
| `PlaylistSchema.CastBody` | backend/index.js:198-203 | the pushed fields as the item's String paths (backend/models/Playlist.js:18-31) hold them: each of the four cast with `CastString` |
| `PlaylistSchema.Save` | backend/models/Playlist.js:3-51 | save succeeds exactly when the document passes the schema; on success only `updatedAt` changes, and it becomes the clock value; otherwise it is a server error |
| `Items.HasMedia` | backend/index.js:193 | the duplicate test holds exactly when some item has the given mediaId |
| `Items.StrictlyEqual` | backend/index.js:193 | `===` between a stored String and the mediaId as sent: absent equals absent, a string equals the same string, a number equals no string |
| `Items.HasSentMedia` | backend/index.js:193 | the duplicate test as written: some stored item's mediaId is strictly equal to the mediaId as sent |
| `Items.SentStringMatchesCast` | backend/index.js:193 | for a mediaId sent as a string or not at all, the uncast strict comparison and the comparison after the cast find the same items |
| `Items.WithoutMedia` | backend/index.js:230-232 | the filter keeps exactly the items whose mediaId differs |
| `Items.WithoutMediaCounts` | backend/index.js:230-232 | each kept item occurs exactly as often as before; items with the mediaId occur zero times |
| `Items.WithoutMediaConcat` | backend/index.js:230-232 | the filter preserves order: filtering a concatenation filters each part in place |
| `Items.WithoutAbsentMedia` | backend/index.js:230-234 | removing a mediaId that no item has leaves the items unchanged |
| `Items.WithoutMediaIdempotent` | backend/index.js:230-232 | removing a mediaId twice equals removing it once |
| `Items.RemoveUndoesAppend` | backend/index.js:193-203 | removing the mediaId of a newly appended, non-duplicate item restores the earlier items |
| `Items.AppendKeepsDistinct` | backend/index.js:193-203 | appending an item whose mediaId is not yet present keeps mediaIds pairwise distinct |
| `Items.WithoutMediaKeepsDistinct` | backend/index.js:230-232 | the filter keeps mediaIds pairwise distinct |
| `Items.RemovesAtMostOne` | backend/index.js:230-232 | when mediaIds are distinct, the filter drops at most one item |
| `Queries.OwnedBy` | backend/index.js:63 | `find({ username })` returns exactly the records owned by that user |
| `Queries.OwnedByCounts` | backend/index.js:63 | each owned record occurs as often as it is stored; other users' records do not occur |
| `Queries.OwnedByConcat` | backend/index.js:63 | the owner query distributes over a split of the store |
| `Queries.OwnedByReplace` | backend/index.js:137-139 | replacing another user's record does not change what a user sees |
| `Queries.OwnedByRemove` | backend/index.js:165 | removing another user's record does not change what a user sees |
| `Queries.OwnedByAppend` | backend/index.js:104-111 | adding another user's record does not change what a user sees |
| `Queries.FindOwned` | backend/index.js:79-82 | `findOne({ _id, username })` returns a position holding a record with both the id and the owner, and returns none exactly when no such record exists |
| `Queries.NewestFirstOrders` | backend/index.js:63 | in a newest-first listing, every record is at least as recent as any later one |
| `Queries.InsertByRecency` | backend/index.js:63 | inserting into a newest-first listing keeps it newest-first and adds exactly that record |
| `Queries.SortByRecency` | backend/index.js:63 | `sort({ updatedAt: -1 })` returns a permutation of its input ordered by `updatedAt`, non-increasing |
| `Queries.NewestLeads` | backend/index.js:63 | in any newest-first permutation, a record strictly newer than all others comes first |
| `Documents.CreateDoc` | backend/index.js:103-111 | create succeeds exactly when the caller is named and the trimmed name is non-empty; the result has the given id, the caller as owner, no items, `createdAt` = `updatedAt` = now, the name trimmed and the description trimmed when given; otherwise it is a server error |
| `Documents.UpdateDoc` | backend/index.js:137-139 | update replaces name and description wholesale (absent means unset), trimming them; it succeeds exactly when the new trimmed name is non-empty; id, owner, items and `createdAt` stay; `updatedAt` = now |
| `Documents.AddItemDoc` | backend/index.js:190-205 | on the fields as the item paths hold them: a present mediaId gives Duplicate; otherwise the add succeeds exactly when the new item passes the item schema; it appends one item at the end with the given fields and `addedAt` = now; earlier items and the other fields stay; `updatedAt` = now |
| `Documents.RemoveItemDoc` | backend/index.js:230-234 | remove always succeeds on a valid playlist and keeps exactly the items with another mediaId; the other fields stay; `updatedAt` = now |
| `Documents.AddItemAsWritten` | backend/index.js:190-205 | the add as written: a mediaId strictly equal, uncast, to a stored one gives Duplicate; otherwise the add succeeds exactly when the cast item passes the item schema, and then the result is the playlist with that item appended at the end and `updatedAt` = now, nothing else changed |
| `Documents.NumericIdDuplicates` | backend/index.js:193-203 | as written, a mediaId sent as a number whose digits an item already has is accepted and stored twice, breaking distinct mediaIds |
| `Documents.NumericIdExample` | backend/index.js:193-203 | a film stored as `"550"` and sent again as `550` is stored twice as written, and refused as Duplicate by the cast comparison |
| `Documents.AddItemCast` | backend/index.js:190-205 | the add with the duplicate test on the cast mediaId: it is `AddItemDoc` on the cast fields, so a stored cast mediaId gives Duplicate and a success appends the item at the end with `updatedAt` = now and the other fields kept; a success keeps mediaIds distinct; it equals the code as written whenever the mediaId is sent as a string or not at all |
| `Documents.AddItemKeepsDistinct` | backend/index.js:193-205 | a successful add keeps the mediaIds of the playlist pairwise distinct |
| `Documents.RemoveItemKeepsDistinct` | backend/index.js:230-234 | a remove keeps the mediaIds of the playlist pairwise distinct |
| `Documents.RemoveItemIdempotent` | backend/index.js:230-234 | a second removal of the same mediaId leaves the items unchanged and only moves `updatedAt` |
| `Documents.RemoveAbsentItem` | backend/index.js:230-234 | removing a mediaId not in the playlist succeeds and changes nothing but `updatedAt` |
| `Documents.RemoveUndoesAdd` | backend/index.js:198-205 | removing the item just added restores the earlier items |
| `Documents.SecondAddIsDuplicate` | backend/index.js:193-196 | adding the same mediaId a second time gives Duplicate |
| `PlaylistStore.Locate` | backend/index.js:74-86 | a missing or empty identity gives Unauthenticated before any lookup; then a malformed id gives a server error; NotFound exactly when no record has both the id and the caller as owner; when such a record exists the lookup succeeds with the position of one |
| `PlaylistStore.Authenticated` | backend/index.js:59-62 | `if (!username)` lets the request through exactly when the header is present and not empty |
| `PlaylistStore.AppendKeepsConsistent` | backend/index.js:104-111 | a stored record under the next id keeps the store invariant |
| `PlaylistStore.RemoveKeepsConsistent` | backend/index.js:165 | dropping a record keeps the store invariant |
| `PlaylistStore.RemoveDropsExactlyId` | backend/index.js:165 | dropping the record at a position drops exactly the records with its id |
| `PlaylistStore.Store.constructor` | backend/models/Playlist.js:53 | the playlist collection starts empty, with the invariant holding |
| `PlaylistStore.Store.List` | backend/index.js:57-69 | without identity: Unauthenticated; otherwise exactly the caller's playlists, as a permutation, with `updatedAt` non-increasing; the store is not changed |
| `PlaylistStore.Store.Get` | backend/index.js:72-93 | the outcome of the lookup; on success, the stored record with that id and the caller as owner; the store is not changed |
| `PlaylistStore.Store.Create` | backend/index.js:96-117 | without identity: Unauthenticated with no change; otherwise the outcome of `CreateDoc` under the next id; on success the store is the old store plus the new record, whose id no stored record had; other users' views are unchanged |
| `PlaylistStore.Store.Insert` | backend/index.js:111 | adds a saved new record at the end under the next id and keeps the invariant |
| `PlaylistStore.Store.Put` | backend/index.js:139 | writes a saved document over its own record; nothing else changes and the invariant holds |
| `PlaylistStore.Store.Update` | backend/index.js:120-146 | a failed lookup returns its error with no change; otherwise the outcome of `UpdateDoc` on the matched record, which replaces that record only on success; other users' views are unchanged |
| `PlaylistStore.Store.Delete` | backend/index.js:149-171 | a failed lookup returns its error with no change; otherwise exactly the matched record is removed, order kept; the remaining records are exactly those with another id |
| `PlaylistStore.Store.AddItem` | backend/index.js:174-211 | a failed lookup returns its error with no change; otherwise the outcome of `AddItemCast` on the matched record, which replaces that record only on success (Duplicate leaves it unchanged) |
| `PlaylistStore.Store.RemoveItem` | backend/index.js:214-240 | a failed lookup returns its error with no change; otherwise the removal succeeds and replaces the matched record with the outcome of `RemoveItemDoc` |
| `PlaylistStore.OwnerFindsOwn` | backend/index.js:79-82 | the owner looking up a stored playlist by its id finds exactly that record |
| `PlaylistStore.ForeignPlaylistNotFound` | backend/index.js:79-86 | another user looking up a stored playlist by its id gets NotFound |
| `PlaylistStore.LookupSeesOnlyOwn` | backend/index.js:79-86 | a lookup depends only on the caller's own playlists: same failure or same record against the whole store as against the caller's part |
| `PlaylistStore.EditedListedFirst` | backend/index.js:63 | after an update, add or remove stamped later than every stored playlist, the edited playlist heads its owner's listing |
| `PlaylistStore.CreatedListedFirst` | backend/index.js:63 | after a create stamped later than every stored playlist, the new playlist heads its owner's listing |
| `PlaylistStore.TightNameCreates` | backend/index.js:103-111 | creating with a non-empty name that has no surrounding spaces succeeds and stores the name as given |
| `PlaylistStore.SessionCreate` | backend/index.js:96-117 | alice creates one playlist with no items; bob's lookup of it by its id returns NotFound |
| `PlaylistStore.SessionItems` | backend/index.js:174-240 | adding an item, then adding it again, which returns Duplicate, then removing it leaves alice's playlist with no items |
| `PlaylistStore.EndToEnd` | backend/index.js:149-171 | after the create and item session, alice deletes her playlist and her own lookup of it then gives NotFound |

## Findings

| source | as written | input that shows it | evidently intended | confidence | as-written member | corrected member |
|---|---|---|---|---|---|---|
| backend/index.js:193-203 | the duplicate test compares the stored mediaIds with the mediaId as sent, by `===` and uncast; the push then casts it to a String | an item stored with mediaId `"550"`, then `POST /playlists/:id/items` with `"mediaId": 550` (a JSON number; any non-negative integer below 2^53 behaves alike): the test finds no match and a second item with mediaId `"550"` is saved | compare the value the push will store, so a playlist never holds two items with the same mediaId | medium, not executed | `Documents.NumericIdDuplicates` | `Documents.AddItemCast` |

## Left out

- Signup and login (`backend/index.js:23-53`): these depend on `bcrypt`, a foreign password-hashing library. `models/User.js`, which holds username uniqueness, is not part of this model.
- Server setup (`backend/index.js:1-20`, `242-244`): Express, CORS, environment loading, the database connection and `listen` are I/O plumbing.
- Status codes, response messages and `console.error` logging: failures are the four `Error` kinds.
- Concurrency: each handler is one atomic step. The race between the duplicate test and `save()` in add-item is not modelled.
- Database failures other than schema validation and id casts (lost connection, timeouts): they would also surface as a 500; they are not modelled.
- `Date.now` and ObjectId generation: time is a `now` argument, and ids come from a counter that advances only on a successful create. Whether a failed create consumes an id cannot be observed.
- ObjectId syntax: which strings cast to an id is abstracted into `RouteId`.
- `PlaylistStore.Store.AddItem`: runs the duplicate test on the cast mediaId (`Documents.AddItemCast`), not as written. `Documents.AddItemAsWritten` models the code as written, and the two agree whenever the mediaId is sent as a string or not at all.
- `PlaylistSchema.CastString`: numbers are modelled only as non-negative integers below 2^53 (`SafeInteger`). `JSON.parse` rounds larger integers, and from 10^21 on `String()` writes an exponent form (`"1e+21"`), so for those the decimal digits would not be what the server stores. The row under "## Findings" is claimed for this range only.
- Mongoose's casting of other non-string body values: booleans, `null`, objects and negative or fractional numbers are not modelled, and neither is any cast of `name` and `description`, which are optional strings. `null` is treated like an absent field.
- The automatic `_id` of each embedded item and the document version key `__v`: nothing in the routes reads them.
- `Store.List`: among playlists with equal `updatedAt` the order is unspecified, as in the database. The contract states only the order and the permutation. The body returns one particular order.
- Trimming uses the Unicode space separators (category Zs) as of Unicode 15. Later additions to that category are not included.
