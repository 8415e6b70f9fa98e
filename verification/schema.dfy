/** The playlist document and its embedded items, as the Mongoose schema of
    backend/models/Playlist.js declares them: which paths are required, which are
    trimmed, the closed set of media types, the defaults, and the pre-save hook. */
module PlaylistSchema {
  import opened Outcomes
  import opened Trimming

  /** The values the `mediaType` enum admits. */
  const MediaTypes: set<string> := {"movie", "tv"}

  /** An embedded item. Every string path may be unset in a document that has not
      passed validation yet; `addedAt` defaults to the clock when the item is built. */
  datatype Item = Item(
    mediaId: Option<string>,
    title: Option<string>,
    poster: Option<string>,
    mediaType: Option<string>,
    addedAt: nat)

  /** The fields of POST /playlists/:id/items as String paths hold them, each absent when not sent. */
  datatype ItemFields = ItemFields(
    mediaId: Option<string>,
    title: Option<string>,
    poster: Option<string>,
    mediaType: Option<string>)

  /** A JSON value sent in a request body, as far as the item handler tells them apart:
      a string, or a non-negative integer such as a numeric media id. */
  datatype Json = JStr(s: string) | JNum(n: SafeInteger)

  /** The non-negative integers `JSON.parse` reads exactly: those below 2^53. */
  type SafeInteger = n: nat | n < 0x20_0000_0000_0000

  /** The body of POST /playlists/:id/items as it arrives, before any cast. */
  datatype ItemBody = ItemBody(
    mediaId: Option<Json>,
    title: Option<Json>,
    poster: Option<Json>,
    mediaType: Option<Json>)

  /** The number a string of decimal digits denotes, most significant digit first. */
  function DigitsValue(s: string): nat
    requires forall k :: 0 <= k < |s| ==> '0' <= s[k] <= '9'
  {
    if s == [] then 0 else 10 * DigitsValue(s[..|s| - 1]) + (s[|s| - 1] as int - 48)
  }

  /** `String(n)` for a non-negative integer: its decimal digits, most significant first. */
  function Decimal(n: nat): (r: string)
    ensures r != [] && forall k :: 0 <= k < |r| ==> '0' <= r[k] <= '9'
    ensures DigitsValue(r) == n
    ensures r[0] == '0' ==> r == "0"
  {
    if n < 10 then [(48 + n) as char] else Decimal(n / 10) + [(48 + n % 10) as char]
  }

  /** The cast of a `type: String` path on assignment: a string is kept, a number
      becomes its decimal digits, an absent value stays absent. */
  function CastString(v: Option<Json>): (r: Option<string>)
    ensures r.None? <==> v.None?
    ensures v.Some? && v.value.JStr? ==> r == Some(v.value.s)
    ensures v.Some? && v.value.JNum? ==> r == Some(Decimal(v.value.n))
  {
    match v
    case None => None
    case Some(JStr(s)) => Some(s)
    case Some(JNum(n)) => Some(Decimal(n))
  }

  /** The item fields after Mongoose has cast each one to a String path. */
  function CastBody(b: ItemBody): ItemFields {
    ItemFields(CastString(b.mediaId), CastString(b.title), CastString(b.poster), CastString(b.mediaType))
  }

  /** A playlist document. `id` is the store-assigned `_id`; times are clock ticks. */
  datatype Playlist = Playlist(
    id: nat,
    name: Option<string>,
    description: Option<string>,
    username: string,
    items: seq<Item>,
    createdAt: nat,
    updatedAt: nat)

  /** Mongoose's `required` on a String path: the value is set and is not the empty string. */
  predicate Required(v: Option<string>) {
    v.Some? && v.value != ""
  }

  /** Assigning to a `trim: true` path: a string is stored trimmed, an absent value stays absent. */
  function SetTrimmed(v: Option<string>): (r: Option<string>)
    ensures r.None? <==> v.None?
    ensures Trimmed(r)
    ensures r.Some? ==> exists i: nat :: PaddedAt(v.value, r.value, i)
  {
    match v
    case None => None
    case Some(s) => Some(Trim(s))
  }

  /** A `trim: true` path holds no leading or trailing space. */
  predicate Trimmed(v: Option<string>) {
    v.None? || Tight(v.value)
  }

  /** The item sub-schema: `mediaId`, `title` and `mediaType` required, `mediaType` in the enum; `poster` free. */
  predicate ValidItem(it: Item) {
    Required(it.mediaId) && Required(it.title) && Required(it.mediaType) && it.mediaType.value in MediaTypes
  }

  /** The playlist schema: `name` and `username` required, every item valid; `description` free. */
  predicate ValidPlaylist(p: Playlist) {
    Required(p.name) && p.username != "" && forall it :: it in p.items ==> ValidItem(it)
  }

  /** The two trimmed paths hold trimmed values. */
  predicate Normalized(p: Playlist) {
    Trimmed(p.name) && Trimmed(p.description)
  }

  /** An item pushed onto `items`: the given fields, `addedAt` defaulted to the clock. */
  function NewItem(f: ItemFields, now: nat): (it: Item)
    ensures it.mediaId == f.mediaId && it.title == f.title && it.poster == f.poster && it.mediaType == f.mediaType
    ensures it.addedAt == now
    ensures ValidItem(it) <==> Required(f.mediaId) && Required(f.title) && f.mediaType.Some? && f.mediaType.value in MediaTypes
  {
    Item(f.mediaId, f.title, f.poster, f.mediaType, now)
  }

  /** `new Playlist({ name, description, username, items: [] })`: the trimming setters run,
      `createdAt` and `updatedAt` take their defaults. */
  function NewPlaylist(id: nat, name: Option<string>, description: Option<string>, username: string, now: nat): (r: Playlist)
    ensures ValidPlaylist(r) <==> username != "" && name.Some? && Trim(name.value) != ""
    ensures Normalized(r)
    ensures r.name == SetTrimmed(name) && r.description == SetTrimmed(description)
    ensures r.id == id && r.username == username && r.items == []
    ensures r.createdAt == now && r.updatedAt == now
  {
    Playlist(id, SetTrimmed(name), SetTrimmed(description), username, [], now, now)
  }

  /** `doc.save()`: schema validation, then the pre-save hook that stamps `updatedAt`.
      A document that fails validation is not written; the handler reports a server error. */
  function Save(doc: Playlist, now: nat): (r: Outcome<Playlist>)
    ensures r.Ok? <==> ValidPlaylist(doc)
    ensures r.Fail? ==> r.error == ServerError
    ensures r.Ok? ==> r.value.updatedAt == now && r.value.(updatedAt := doc.updatedAt) == doc
  {
    if ValidPlaylist(doc) then Ok(doc.(updatedAt := now)) else Fail(ServerError)
  }

  /** Assigning a trimmed path's own value back to it changes nothing. */
  lemma SetTrimmedIdempotent(v: Option<string>)
    ensures SetTrimmed(SetTrimmed(v)) == SetTrimmed(v)
  {
    if v.Some? {
      TrimIdempotent(v.value);
    }
  }
}
