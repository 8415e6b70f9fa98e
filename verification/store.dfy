/** The playlist routes of backend/index.js as methods on an in-memory store. Every
    handler checks the `username` header first. The single-playlist handlers then look
    the playlist up by id and owner; get returns it, delete removes it, and update and
    the two item handlers edit that one document and save it. Each handler is one atomic
    step; the clock reading (`now`) is passed in and ids are handed out by a counter. */
module PlaylistStore {
  import opened Outcomes
  import opened Trimming
  import opened PlaylistSchema
  import opened Items
  import opened Queries
  import opened Documents

  /** The `:id` route parameter: an id the store's cast accepts, or one it rejects. */
  datatype RouteId = WellFormed(id: nat) | Malformed

  /** `if (!username)` lets the request through: the header is present and not empty. */
  predicate Authenticated(user: Option<string>) {
    user.Some? && user.value != ""
  }

  /** The common opening of the single-playlist handlers: identity check, id cast, then
      `findOne({ _id, username })`. Another user's playlist looks exactly like a missing one. */
  function Locate(ps: seq<Playlist>, user: Option<string>, id: RouteId): (r: Outcome<nat>)
    ensures !Authenticated(user) ==> r == Fail(Unauthenticated)
    ensures Authenticated(user) && id.Malformed? ==> r == Fail(ServerError)
    ensures r.Ok? ==> Authenticated(user) && id.WellFormed? && r.value < |ps| && Owns(ps[r.value], id.id, user.value)
    ensures r == Fail(NotFound) <==>
      Authenticated(user) && id.WellFormed? && forall k :: 0 <= k < |ps| ==> !Owns(ps[k], id.id, user.value)
    ensures Authenticated(user) && id.WellFormed? && (exists k :: 0 <= k < |ps| && Owns(ps[k], id.id, user.value)) ==> r.Ok?
  {
    if !Authenticated(user) then Fail(Unauthenticated)
    else if id.Malformed? then Fail(ServerError)
    else match FindOwned(ps, id.id, user.value)
      case None => Fail(NotFound)
      case Some(i) => Ok(i)
  }

  /** What every stored playlist satisfies: it passed the schema, its trimmed paths are
      trimmed, and no two of its items share a mediaId. */
  ghost predicate Stored(p: Playlist) {
    ValidPlaylist(p) && Normalized(p) && DistinctMediaIds(p.items)
  }

  /** The store invariant: ids are unique and below the next id to hand out; every record is stored well. */
  ghost predicate Consistent(ps: seq<Playlist>, nextId: nat) {
    && (forall i, j :: 0 <= i < j < |ps| ==> ps[i].id != ps[j].id)
    && (forall i :: 0 <= i < |ps| ==> ps[i].id < nextId && Stored(ps[i]))
  }

  /** Per-user isolation: every user other than `user` sees the same playlists, in the same order, before and after. */
  ghost predicate OthersUnchanged(before: seq<Playlist>, after: seq<Playlist>, user: Option<string>) {
    forall v :: user != Some(v) ==> OwnedBy(after, v) == OwnedBy(before, v)
  }

  /** A new record under the next id, stored well, keeps the store consistent. */
  lemma AppendKeepsConsistent(ps: seq<Playlist>, nextId: nat, p: Playlist)
    requires Consistent(ps, nextId) && p.id == nextId && Stored(p)
    ensures Consistent(ps + [p], nextId + 1)
  {
    var after := ps + [p];
    forall i, j | 0 <= i < j < |after|
      ensures after[i].id != after[j].id
    {
      if j == |ps| {
        assert after[i] == ps[i];
      }
    }
  }

  /** Dropping one record keeps the store consistent. */
  lemma RemoveKeepsConsistent(ps: seq<Playlist>, nextId: nat, i: nat)
    requires Consistent(ps, nextId) && i < |ps|
    ensures Consistent(ps[..i] + ps[i + 1..], nextId)
  {
    var after := ps[..i] + ps[i + 1..];
    assert forall k :: 0 <= k < |after| ==> after[k] == if k < i then ps[k] else ps[k + 1];
  }

  /** Dropping the record at `i` drops exactly the records with its id: no other has it. */
  lemma RemoveDropsExactlyId(ps: seq<Playlist>, nextId: nat, i: nat)
    requires Consistent(ps, nextId) && i < |ps|
    ensures forall p :: p in ps[..i] + ps[i + 1..] <==> p in ps && p.id != ps[i].id
  {
    var rest := ps[..i] + ps[i + 1..];
    forall p
      ensures p in rest <==> p in ps && p.id != ps[i].id
    {
      if p in ps && p.id != ps[i].id {
        var k :| 0 <= k < |ps| && ps[k] == p;
        if k < i {
          assert rest[k] == p;
        } else {
          assert rest[k - 1] == p;
        }
      }
      if p in rest {
        var k :| 0 <= k < |rest| && rest[k] == p;
        if k < i {
          assert ps[k] == p && ps[k].id != ps[i].id;
        } else {
          assert ps[k + 1] == p && ps[i].id != ps[k + 1].id;
        }
      }
    }
  }

  class Store {
    var playlists: seq<Playlist>
    var nextId: nat

    ghost predicate Valid()
      reads this
    {
      Consistent(playlists, nextId)
    }

    constructor ()
      ensures Valid() && playlists == [] && nextId == 0
    {
      playlists := [];
      nextId := 0;
    }

    /** GET /playlists: the caller's playlists, most recently updated first. */
    method List(user: Option<string>) returns (r: Outcome<seq<Playlist>>)
      ensures r.Fail? <==> !Authenticated(user)
      ensures r.Fail? ==> r.error == Unauthenticated
      ensures r.Ok? ==> multiset(r.value) == multiset(OwnedBy(playlists, user.value))
      ensures r.Ok? ==> forall p :: p in r.value <==> p in playlists && p.username == user.value
      ensures r.Ok? ==> NewestFirst(r.value)
    {
      if !Authenticated(user) {
        return Fail(Unauthenticated);
      }
      var mine := OwnedBy(playlists, user.value);
      var sorted := SortByRecency(mine);
      forall p
        ensures p in sorted <==> p in mine
      {
        assert p in sorted <==> p in multiset(sorted);
      }
      r := Ok(sorted);
    }

    /** GET /playlists/:id: the caller's playlist with that id. */
    method Get(user: Option<string>, id: RouteId) returns (r: Outcome<Playlist>)
      ensures match Locate(playlists, user, id)
        case Ok(i) => r == Ok(playlists[i])
        case Fail(e) => r == Fail(e)
      ensures r.Ok? ==> r.value in playlists && id.WellFormed? && r.value.id == id.id
      ensures r.Ok? ==> Authenticated(user) && r.value.username == user.value
    {
      var found := Locate(playlists, user, id);
      match found
      case Fail(e) => r := Fail(e);
      case Ok(i) => r := Ok(playlists[i]);
    }

    /** POST /playlists: a new, empty playlist owned by the caller, under a fresh id. */
    method Create(user: Option<string>, name: Option<string>, description: Option<string>, now: nat)
      returns (r: Outcome<Playlist>)
      requires Valid()
      modifies this
      ensures Valid()
      ensures !Authenticated(user) ==> r == Fail(Unauthenticated)
      ensures Authenticated(user) ==> r == CreateDoc(old(nextId), user.value, name, description, now)
      ensures r.Ok? ==> playlists == old(playlists) + [r.value] && nextId == old(nextId) + 1
      ensures r.Ok? ==> forall k :: 0 <= k < |old(playlists)| ==> old(playlists)[k].id != r.value.id
      ensures r.Fail? ==> playlists == old(playlists) && nextId == old(nextId)
      ensures OthersUnchanged(old(playlists), playlists, user)
    {
      if !Authenticated(user) {
        return Fail(Unauthenticated);
      }
      r := CreateDoc(nextId, user.value, name, description, now);
      if r.Ok? {
        assert r.value.items == [];
        Insert(r.value);
      }
    }

    /** Adds a saved new document under the next id. */
    method Insert(p: Playlist)
      requires Valid() && p.id == nextId && Stored(p)
      modifies this
      ensures Valid() && nextId == old(nextId) + 1
      ensures playlists == old(playlists) + [p]
      ensures OthersUnchanged(old(playlists), playlists, Some(p.username))
    {
      forall v | Some(p.username) != Some(v)
        ensures OwnedBy(playlists + [p], v) == OwnedBy(playlists, v)
      {
        OwnedByAppend(playlists, p, v);
      }
      assert OthersUnchanged(playlists, playlists + [p], Some(p.username));
      AppendKeepsConsistent(playlists, nextId, p);
      playlists := playlists + [p];
      nextId := nextId + 1;
    }

    /** Writes a saved document back over the record it was read from. */
    method Put(i: nat, p: Playlist)
      requires Valid() && i < |playlists|
      requires p.id == playlists[i].id && p.username == playlists[i].username && Stored(p)
      modifies this
      ensures Valid() && nextId == old(nextId)
      ensures playlists == old(playlists)[i := p]
      ensures OthersUnchanged(old(playlists), playlists, Some(p.username))
    {
      forall v | v != p.username
        ensures OwnedBy(playlists[i := p], v) == OwnedBy(playlists, v)
      {
        OwnedByReplace(playlists, i, p, v);
      }
      assert OthersUnchanged(playlists, playlists[i := p], Some(p.username));
      playlists := playlists[i := p];
    }

    /** PUT /playlists/:id: replaces the caller's playlist's name and description. */
    method Update(user: Option<string>, id: RouteId, name: Option<string>, description: Option<string>, now: nat)
      returns (r: Outcome<Playlist>)
      requires Valid()
      modifies this
      ensures Valid() && nextId == old(nextId)
      ensures match Locate(old(playlists), user, id)
        case Fail(e) => r == Fail(e) && playlists == old(playlists)
        case Ok(i) =>
          && r == UpdateDoc(old(playlists)[i], name, description, now)
          && playlists == if r.Ok? then old(playlists)[i := r.value] else old(playlists)
      ensures OthersUnchanged(old(playlists), playlists, user)
    {
      var found := Locate(playlists, user, id);
      if found.Fail? {
        return Fail(found.error);
      }
      var i := found.value;
      r := UpdateDoc(playlists[i], name, description, now);
      if r.Ok? {
        Put(i, r.value);
      }
    }

    /** DELETE /playlists/:id: removes the caller's playlist with that id, and nothing else. */
    method Delete(user: Option<string>, id: RouteId) returns (r: Outcome<()>)
      requires Valid()
      modifies this
      ensures Valid() && nextId == old(nextId)
      ensures match Locate(old(playlists), user, id)
        case Fail(e) => r == Fail(e) && playlists == old(playlists)
        case Ok(i) => r == Ok(()) && playlists == old(playlists)[..i] + old(playlists)[i + 1..]
      ensures r.Ok? ==> id.WellFormed? && |playlists| == |old(playlists)| - 1
      ensures r.Ok? ==> forall p :: p in playlists <==> p in old(playlists) && p.id != id.id
      ensures OthersUnchanged(old(playlists), playlists, user)
    {
      var found := Locate(playlists, user, id);
      if found.Fail? {
        return Fail(found.error);
      }
      var i := found.value;
      var ps := playlists;
      var rest := ps[..i] + ps[i + 1..];
      forall v | user != Some(v)
        ensures OwnedBy(rest, v) == OwnedBy(ps, v)
      {
        OwnedByRemove(ps, i, v);
      }
      assert OthersUnchanged(ps, rest, user);
      RemoveDropsExactlyId(ps, nextId, i);
      RemoveKeepsConsistent(ps, nextId, i);
      playlists := rest;
      r := Ok(());
    }

    /** POST /playlists/:id/items: appends an item unless its mediaId, as the item path
        stores it, is already there. */
    method AddItem(user: Option<string>, id: RouteId, b: ItemBody, now: nat) returns (r: Outcome<Playlist>)
      requires Valid()
      modifies this
      ensures Valid() && nextId == old(nextId)
      ensures match Locate(old(playlists), user, id)
        case Fail(e) => r == Fail(e) && playlists == old(playlists)
        case Ok(i) =>
          && r == AddItemCast(old(playlists)[i], b, now)
          && playlists == if r.Ok? then old(playlists)[i := r.value] else old(playlists)
      ensures OthersUnchanged(old(playlists), playlists, user)
    {
      var found := Locate(playlists, user, id);
      if found.Fail? {
        return Fail(found.error);
      }
      var i := found.value;
      r := AddItemCast(playlists[i], b, now);
      if r.Ok? {
        Put(i, r.value);
      }
    }

    /** DELETE /playlists/:id/items/:mediaId: drops every item with that mediaId; succeeds
        and refreshes `updatedAt` even when none matched. */
    method RemoveItem(user: Option<string>, id: RouteId, mediaId: string, now: nat) returns (r: Outcome<Playlist>)
      requires Valid()
      modifies this
      ensures Valid() && nextId == old(nextId)
      ensures match Locate(old(playlists), user, id)
        case Fail(e) => r == Fail(e) && playlists == old(playlists)
        case Ok(i) =>
          && r == RemoveItemDoc(old(playlists)[i], mediaId, now)
          && r.Ok?
          && playlists == old(playlists)[i := r.value]
      ensures OthersUnchanged(old(playlists), playlists, user)
    {
      var found := Locate(playlists, user, id);
      if found.Fail? {
        return Fail(found.error);
      }
      var i := found.value;
      r := RemoveItemDoc(playlists[i], mediaId, now);
      RemoveItemKeepsDistinct(playlists[i], mediaId, now);
      Put(i, r.value);
    }
  }

  /** The owner of a stored playlist finds it by its id, and finds no other. */
  lemma OwnerFindsOwn(ps: seq<Playlist>, nextId: nat, i: nat)
    requires Consistent(ps, nextId) && i < |ps|
    ensures Locate(ps, Some(ps[i].username), WellFormed(ps[i].id)) == Ok(i)
  {
    var r := Locate(ps, Some(ps[i].username), WellFormed(ps[i].id));
    assert Owns(ps[i], ps[i].id, ps[i].username);
    assert r.Ok?;
  }

  /** Another user asking for a stored playlist by its id gets NotFound. */
  lemma ForeignPlaylistNotFound(ps: seq<Playlist>, nextId: nat, i: nat, user: string)
    requires Consistent(ps, nextId) && i < |ps|
    requires user != "" && user != ps[i].username
    ensures Locate(ps, Some(user), WellFormed(ps[i].id)) == Fail(NotFound)
  {
    forall k | 0 <= k < |ps|
      ensures !Owns(ps[k], ps[i].id, user)
    {
      if k < i {
        assert ps[k].id != ps[i].id;
      } else if k > i {
        assert ps[i].id != ps[k].id;
      }
    }
  }

  /** A lookup only ever depends on the caller's own playlists: it finds the same record,
      or fails the same way, against the whole store and against the caller's part of it. */
  lemma LookupSeesOnlyOwn(ps: seq<Playlist>, nextId: nat, user: string, id: RouteId)
    requires Consistent(ps, nextId)
    ensures var whole := Locate(ps, Some(user), id);
            var own := OwnedBy(ps, user);
            var part := Locate(own, Some(user), id);
            && (whole.Fail? <==> part.Fail?)
            && (whole.Fail? ==> whole == part)
            && (whole.Ok? ==> ps[whole.value] == own[part.value])
  {
    var whole := Locate(ps, Some(user), id);
    var own := OwnedBy(ps, user);
    var part := Locate(own, Some(user), id);
    if user != "" && id.WellFormed? {
      if whole.Ok? {
        assert ps[whole.value] in own;
        var j :| 0 <= j < |own| && own[j] == ps[whole.value];
        assert Owns(own[j], id.id, user);
        assert part.Ok?;
        var q := own[part.value];
        assert q in ps;
        var k :| 0 <= k < |ps| && ps[k] == q;
        assert k == whole.value;
      }
      if part.Ok? {
        var q := own[part.value];
        assert q in ps;
        var k :| 0 <= k < |ps| && ps[k] == q;
        assert Owns(ps[k], id.id, user);
      }
    }
  }

  /** After an edit stamped later than every stored playlist, the edited playlist heads
      its owner's listing. */
  lemma EditedListedFirst(ps: seq<Playlist>, i: nat, p: Playlist, listing: seq<Playlist>)
    requires i < |ps| && forall k :: 0 <= k < |ps| ==> ps[k].updatedAt < p.updatedAt
    requires multiset(listing) == multiset(OwnedBy(ps[i := p], p.username)) && NewestFirst(listing)
    ensures listing != [] && listing[0] == p
  {
    var after := ps[i := p];
    var own := OwnedBy(after, p.username);
    assert after[i] == p;
    forall q | q in own && q != p
      ensures q.updatedAt < p.updatedAt
    {
      var k :| 0 <= k < |after| && after[k] == q;
      assert k != i && after[k] == ps[k];
    }
    NewestLeads(own, p, listing);
  }

  /** After a create stamped later than every stored playlist, the new playlist heads
      its owner's listing. */
  lemma CreatedListedFirst(ps: seq<Playlist>, p: Playlist, listing: seq<Playlist>)
    requires forall k :: 0 <= k < |ps| ==> ps[k].updatedAt < p.updatedAt
    requires multiset(listing) == multiset(OwnedBy(ps + [p], p.username)) && NewestFirst(listing)
    ensures listing != [] && listing[0] == p
  {
    var after := ps + [p];
    var own := OwnedBy(after, p.username);
    assert after[|ps|] == p;
    forall q | q in own && q != p
      ensures q.updatedAt < p.updatedAt
    {
      var k :| 0 <= k < |after| && after[k] == q;
      assert k < |ps| && after[k] == ps[k];
    }
    NewestLeads(own, p, listing);
  }

  /** A name without surrounding spaces is stored as given, so creating with it succeeds. */
  lemma TightNameCreates(id: nat, user: string, name: string, description: Option<string>, now: nat)
    requires user != "" && name != "" && Tight(name)
    ensures CreateDoc(id, user, Some(name), description, now).Ok?
    ensures CreateDoc(id, user, Some(name), description, now).value.name == Some(name)
  {
    assert [] + name + [] == name;
    TrimUnpads([], name, []);
  }

  /** A client session, first part: alice creates "Favorites"; bob cannot see it. */
  method SessionCreate() returns (store: Store, id: RouteId, bob: Outcome<Playlist>)
    ensures fresh(store) && store.Valid()
    ensures bob == Fail(NotFound)
    ensures |store.playlists| == 1 && id == WellFormed(store.playlists[0].id)
    ensures store.playlists[0].username == "alice" && store.playlists[0].items == []
  {
    store := new Store();
    var name := "Favorites";
    assert Tight(name);
    TightNameCreates(0, "alice", name, Some(""), 1);
    var created := store.Create(Some("alice"), Some(name), Some(""), 1);
    assert created.Ok? && created.value.items == [];
    id := WellFormed(created.value.id);
    ForeignPlaylistNotFound(store.playlists, store.nextId, 0, "bob");
    bob := store.Get(Some("bob"), id);
  }

  /** Second part: alice adds an item, is refused the same item again, and removes it. */
  method SessionItems(store: Store, id: RouteId) returns (again: Outcome<Playlist>)
    requires store.Valid() && |store.playlists| == 1 && id == WellFormed(store.playlists[0].id)
    requires store.playlists[0].username == "alice" && store.playlists[0].items == []
    modifies store
    ensures store.Valid() && |store.playlists| == 1 && id == WellFormed(store.playlists[0].id)
    ensures store.playlists[0].username == "alice" && store.playlists[0].items == []
    ensures again == Fail(Duplicate)
  {
    var alice := Some("alice");
    var movie := ItemBody(Some(JStr("tt001")), Some(JStr("Movie A")), None, Some(JStr("movie")));
    OwnerFindsOwn(store.playlists, store.nextId, 0);
    var added := store.AddItem(alice, id, movie, 2);
    assert added.Ok? && |added.value.items| == 1 && store.playlists == [added.value];

    OwnerFindsOwn(store.playlists, store.nextId, 0);
    again := store.AddItem(alice, id, movie, 3);
    assert again == Fail(Duplicate) && store.playlists == [added.value];

    OwnerFindsOwn(store.playlists, store.nextId, 0);
    var removed := store.RemoveItem(alice, id, "tt001", 4);
    RemoveUndoesAppend([], NewItem(CastBody(movie), 2));
    assert removed.Ok? && removed.value.items == [] && store.playlists == [removed.value];
  }

  /** The whole session: after the item round trip alice deletes the playlist and can no longer find it. */
  method EndToEnd() returns (gone: Outcome<Playlist>)
    ensures gone == Fail(NotFound)
  {
    var store, id, _ := SessionCreate();
    var _ := SessionItems(store, id);
    OwnerFindsOwn(store.playlists, store.nextId, 0);
    var deleted := store.Delete(Some("alice"), id);
    assert deleted.Ok? && store.playlists == [];
    gone := store.Get(Some("alice"), id);
    assert gone == Fail(NotFound);
  }
}
