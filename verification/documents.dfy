/** What each mutating handler of backend/index.js does to the one document it holds,
    from building or fetching it to the end of `save()`. A failed save writes nothing. */
module Documents {
  import opened Outcomes
  import opened Trimming
  import opened PlaylistSchema
  import opened Items

  /** POST /playlists after the identity check: `new Playlist({...})`, then `save()`.
      It succeeds exactly when the caller is named and the name is not blank. */
  function CreateDoc(id: nat, user: string, name: Option<string>, description: Option<string>, now: nat): (r: Outcome<Playlist>)
    ensures r.Ok? <==> user != "" && name.Some? && Trim(name.value) != ""
    ensures r.Fail? ==> r.error == ServerError
    ensures r.Ok? ==> r.value.id == id && r.value.username == user && r.value.items == []
    ensures r.Ok? ==> r.value.createdAt == now && r.value.updatedAt == now
    ensures r.Ok? ==> r.value.name == Some(Trim(name.value))
    ensures r.Ok? ==> (r.value.description.None? <==> description.None?)
    ensures r.Ok? && description.Some? ==> r.value.description == Some(Trim(description.value))
    ensures r.Ok? ==> ValidPlaylist(r.value) && Normalized(r.value)
  {
    Save(NewPlaylist(id, name, description, user, now), now)
  }

  /** PUT /playlists/:id on the fetched document: `name` and `description` are replaced
      wholesale (an absent field unsets the path), then `save()`. */
  function UpdateDoc(p: Playlist, name: Option<string>, description: Option<string>, now: nat): (r: Outcome<Playlist>)
    ensures ValidPlaylist(p) ==> (r.Ok? <==> name.Some? && Trim(name.value) != "")
    ensures r.Fail? ==> r.error == ServerError
    ensures r.Ok? ==> name.Some? && r.value.name == Some(Trim(name.value))
    ensures r.Ok? ==> (r.value.description.None? <==> description.None?)
    ensures r.Ok? && description.Some? ==> r.value.description == Some(Trim(description.value))
    ensures r.Ok? ==> r.value.id == p.id && r.value.username == p.username && r.value.items == p.items
    ensures r.Ok? ==> r.value.createdAt == p.createdAt && r.value.updatedAt == now
    ensures r.Ok? ==> ValidPlaylist(r.value) && Normalized(r.value)
  {
    Save(p.(name := SetTrimmed(name), description := SetTrimmed(description)), now)
  }

  /** POST /playlists/:id/items on the fetched document, given the fields as String paths
      hold them: refuse a mediaId already present, otherwise push the new item, then `save()`. */
  function AddItemDoc(p: Playlist, f: ItemFields, now: nat): (r: Outcome<Playlist>)
    ensures HasMedia(p.items, f.mediaId) ==> r == Fail(Duplicate)
    ensures !HasMedia(p.items, f.mediaId) && ValidPlaylist(p) ==> (r.Ok? <==> ValidItem(NewItem(f, now)))
    ensures !HasMedia(p.items, f.mediaId) ==> r.Fail? ==> r.error == ServerError
    ensures r.Ok? ==> |r.value.items| == |p.items| + 1 && r.value.items[..|p.items|] == p.items
    ensures r.Ok? ==> var added := r.value.items[|p.items|];
      && added.mediaId == f.mediaId && added.title == f.title && added.poster == f.poster
      && added.mediaType == f.mediaType && added.addedAt == now
    ensures r.Ok? ==> r.value.id == p.id && r.value.name == p.name && r.value.description == p.description
    ensures r.Ok? ==> r.value.username == p.username && r.value.createdAt == p.createdAt && r.value.updatedAt == now
    ensures r.Ok? ==> ValidPlaylist(r.value)
  {
    if HasMedia(p.items, f.mediaId) then Fail(Duplicate)
    else
      var items := p.items + [NewItem(f, now)];
      assert items[..|p.items|] == p.items;
      Save(p.(items := items), now)
  }

  /** POST /playlists/:id/items as written: the duplicate test compares the stored mediaIds
      with the mediaId as sent, uncast, while the push stores the cast value. */
  function AddItemAsWritten(p: Playlist, b: ItemBody, now: nat): (r: Outcome<Playlist>)
    ensures HasSentMedia(p.items, b.mediaId) ==> r == Fail(Duplicate)
    ensures !HasSentMedia(p.items, b.mediaId) && ValidPlaylist(p) ==> (r.Ok? <==> ValidItem(NewItem(CastBody(b), now)))
    ensures !HasSentMedia(p.items, b.mediaId) ==> r.Fail? ==> r.error == ServerError
    ensures r.Ok? ==> r.value == p.(items := p.items + [NewItem(CastBody(b), now)], updatedAt := now)
  {
    if HasSentMedia(p.items, b.mediaId) then Fail(Duplicate)
    else Save(p.(items := p.items + [NewItem(CastBody(b), now)]), now)
  }

  /** As written, a numeric mediaId passes the duplicate test against an item stored with its
      digits, and the push stores those digits a second time. */
  lemma NumericIdDuplicates(p: Playlist, b: ItemBody, n: SafeInteger, now: nat)
    requires ValidPlaylist(p) && HasMedia(p.items, Some(Decimal(n)))
    requires b.mediaId == Some(JNum(n)) && ValidItem(NewItem(CastBody(b), now))
    ensures AddItemAsWritten(p, b, now).Ok?
    ensures !DistinctMediaIds(AddItemAsWritten(p, b, now).value.items)
  {
    var k :| 0 <= k < |p.items| && p.items[k].mediaId == Some(Decimal(n));
    var items := AddItemAsWritten(p, b, now).value.items;
    assert items[k] == p.items[k] && items[|p.items|].mediaId == Some(Decimal(n));
  }

  /** The case at hand: a film stored with mediaId "550" is sent again as the number 550.
      The code as written stores it twice; the cast comparison refuses it. */
  lemma NumericIdExample(p: Playlist, now: nat)
    requires ValidPlaylist(p) && p.items == [Item(Some("550"), Some("Fight Club"), None, Some("movie"), 0)]
    ensures var b := ItemBody(Some(JNum(550)), Some(JStr("Fight Club")), None, Some(JStr("movie")));
      && AddItemAsWritten(p, b, now).Ok?
      && AddItemAsWritten(p, b, now).value.items[1].mediaId == Some("550")
      && AddItemCast(p, b, now) == Fail(Duplicate)
  {
    var b := ItemBody(Some(JNum(550)), Some(JStr("Fight Club")), None, Some(JStr("movie")));
    assert Decimal(5) == ['5'];
    assert Decimal(55) == Decimal(5) + ['5'];
    assert Decimal(550) == Decimal(55) + ['0'];
    assert Decimal(550) == "550";
    assert p.items[0].mediaId == Some(Decimal(550));
    NumericIdDuplicates(p, b, 550, now);
  }

  /** The add with the duplicate test run on the cast mediaId, the value the push stores:
      the behaviour the duplicate test is there for. It agrees with the code as written
      whenever the mediaId is sent as a string or not at all. */
  function AddItemCast(p: Playlist, b: ItemBody, now: nat): (r: Outcome<Playlist>)
    ensures HasMedia(p.items, CastString(b.mediaId)) ==> r == Fail(Duplicate)
    ensures DistinctMediaIds(p.items) && r.Ok? ==> DistinctMediaIds(r.value.items)
    ensures b.mediaId.None? || b.mediaId.value.JStr? ==> r == AddItemAsWritten(p, b, now)
    ensures r == AddItemDoc(p, CastBody(b), now)
  {
    SentStringMatchesCast(p.items, b.mediaId);
    if DistinctMediaIds(p.items) then
      AddItemKeepsDistinct(p, CastBody(b), now);
      AddItemDoc(p, CastBody(b), now)
    else AddItemDoc(p, CastBody(b), now)
  }

  /** DELETE /playlists/:id/items/:mediaId on the fetched document: keep the items with
      another mediaId, then `save()`, whether or not anything matched. */
  function RemoveItemDoc(p: Playlist, mediaId: string, now: nat): (r: Outcome<Playlist>)
    ensures ValidPlaylist(p) ==> r.Ok?
    ensures r.Fail? ==> r.error == ServerError
    ensures r.Ok? ==> forall it :: it in r.value.items <==> it in p.items && it.mediaId != Some(mediaId)
    ensures r.Ok? ==> r.value.items == WithoutMedia(p.items, Some(mediaId))
    ensures r.Ok? ==> r.value.id == p.id && r.value.name == p.name && r.value.description == p.description
    ensures r.Ok? ==> r.value.username == p.username && r.value.createdAt == p.createdAt && r.value.updatedAt == now
  {
    Save(p.(items := WithoutMedia(p.items, Some(mediaId))), now)
  }

  /** Adding keeps the mediaIds of a playlist pairwise distinct. */
  lemma AddItemKeepsDistinct(p: Playlist, f: ItemFields, now: nat)
    requires DistinctMediaIds(p.items)
    ensures AddItemDoc(p, f, now).Ok? ==> DistinctMediaIds(AddItemDoc(p, f, now).value.items)
  {
    if !HasMedia(p.items, f.mediaId) {
      AppendKeepsDistinct(p.items, NewItem(f, now));
    }
  }

  /** Removing keeps the mediaIds of a playlist pairwise distinct. */
  lemma RemoveItemKeepsDistinct(p: Playlist, mediaId: string, now: nat)
    requires DistinctMediaIds(p.items)
    ensures RemoveItemDoc(p, mediaId, now).Ok? ==> DistinctMediaIds(RemoveItemDoc(p, mediaId, now).value.items)
  {
    WithoutMediaKeepsDistinct(p.items, Some(mediaId));
  }

  /** Removing a mediaId twice leaves the items as removing it once did; only `updatedAt` moves. */
  lemma RemoveItemIdempotent(p: Playlist, mediaId: string, now: nat, later: nat)
    requires ValidPlaylist(p)
    ensures var once := RemoveItemDoc(p, mediaId, now).value;
      RemoveItemDoc(once, mediaId, later) == Ok(once.(updatedAt := later))
  {
    WithoutMediaIdempotent(p.items, Some(mediaId));
  }

  /** Removing a mediaId that is not in the playlist succeeds and keeps the items unchanged. */
  lemma RemoveAbsentItem(p: Playlist, mediaId: string, now: nat)
    requires ValidPlaylist(p) && !HasMedia(p.items, Some(mediaId))
    ensures RemoveItemDoc(p, mediaId, now) == Ok(p.(updatedAt := now))
  {
    WithoutAbsentMedia(p.items, Some(mediaId));
  }

  /** Removing the item just added restores the items from before the add. */
  lemma RemoveUndoesAdd(p: Playlist, f: ItemFields, mediaId: string, now: nat, later: nat)
    requires f.mediaId == Some(mediaId)
    requires AddItemDoc(p, f, now).Ok?
    ensures RemoveItemDoc(AddItemDoc(p, f, now).value, mediaId, later).value.items == p.items
  {
    RemoveUndoesAppend(p.items, NewItem(f, now));
  }

  /** A second add of the same mediaId is refused, whatever the rest of the request says. */
  lemma SecondAddIsDuplicate(p: Playlist, f: ItemFields, g: ItemFields, now: nat, later: nat)
    requires AddItemDoc(p, f, now).Ok? && g.mediaId == f.mediaId
    ensures AddItemDoc(AddItemDoc(p, f, now).value, g, later) == Fail(Duplicate)
  {
    var q := AddItemDoc(p, f, now).value;
    assert q.items[|p.items|].mediaId == g.mediaId;
  }
}
