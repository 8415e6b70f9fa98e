/** The store queries the handlers issue: `find({ username }).sort({ updatedAt: -1 })`
    and `findOne({ _id, username })`. Records are kept in insertion order. */
module Queries {
  import opened Outcomes
  import opened PlaylistSchema

  /** `p` is the playlist `findOne({ _id: id, username: user })` matches. */
  predicate Owns(p: Playlist, id: nat, user: string) {
    p.id == id && p.username == user
  }

  /** `find({ username: user })`: the caller's playlists, in store order. */
  function OwnedBy(ps: seq<Playlist>, user: string): (r: seq<Playlist>)
    ensures |r| <= |ps|
    ensures forall p :: p in r <==> p in ps && p.username == user
  {
    if ps == [] then []
    else
      var rest := OwnedBy(ps[1..], user);
      if ps[0].username == user then [ps[0]] + rest else rest
  }

  /** The query returns each of the caller's records exactly as often as it is stored. */
  lemma {:induction false} OwnedByCounts(ps: seq<Playlist>, user: string, p: Playlist)
    ensures multiset(OwnedBy(ps, user))[p] == if p.username == user then multiset(ps)[p] else 0
    decreases |ps|
  {
    if ps != [] {
      assert ps == [ps[0]] + ps[1..];
      OwnedByCounts(ps[1..], user, p);
    }
  }

  /** The query distributes over a split of the store. */
  lemma {:induction false} OwnedByConcat(a: seq<Playlist>, b: seq<Playlist>, user: string)
    ensures OwnedBy(a + b, user) == OwnedBy(a, user) + OwnedBy(b, user)
    decreases |a|
  {
    if a == [] {
      assert a + b == b;
    } else {
      var head := if a[0].username == user then [a[0]] else [];
      assert (a + b)[0] == a[0] && (a + b)[1..] == a[1..] + b;
      assert OwnedBy(a + b, user) == head + OwnedBy(a[1..] + b, user);
      OwnedByConcat(a[1..], b, user);
      assert head + (OwnedBy(a[1..], user) + OwnedBy(b, user))
          == (head + OwnedBy(a[1..], user)) + OwnedBy(b, user);
    }
  }

  /** Replacing another user's record by another user's record does not change what `user` sees. */
  lemma OwnedByReplace(ps: seq<Playlist>, i: nat, p: Playlist, user: string)
    requires i < |ps| && ps[i].username != user && p.username != user
    ensures OwnedBy(ps[i := p], user) == OwnedBy(ps, user)
  {
    var pre, post := ps[..i], ps[i + 1..];
    assert ps == pre + ([ps[i]] + post);
    assert ps[i := p] == pre + ([p] + post);
    OwnedByConcat(pre, [ps[i]] + post, user);
    OwnedByConcat(pre, [p] + post, user);
    OwnedByConcat([ps[i]], post, user);
    OwnedByConcat([p], post, user);
  }

  /** Dropping another user's record does not change what `user` sees. */
  lemma OwnedByRemove(ps: seq<Playlist>, i: nat, user: string)
    requires i < |ps| && ps[i].username != user
    ensures OwnedBy(ps[..i] + ps[i + 1..], user) == OwnedBy(ps, user)
  {
    var pre, post := ps[..i], ps[i + 1..];
    assert ps == pre + ([ps[i]] + post);
    OwnedByConcat(pre, [ps[i]] + post, user);
    OwnedByConcat([ps[i]], post, user);
    OwnedByConcat(pre, post, user);
  }

  /** Adding another user's record does not change what `user` sees. */
  lemma OwnedByAppend(ps: seq<Playlist>, p: Playlist, user: string)
    requires p.username != user
    ensures OwnedBy(ps + [p], user) == OwnedBy(ps, user)
  {
    OwnedByConcat(ps, [p], user);
  }

  /** `findOne({ _id: id, username: user })`: the position of the first record owned by
      `user` with that id, or nothing when there is none. */
  function FindOwned(ps: seq<Playlist>, id: nat, user: string): (r: Option<nat>)
    ensures r.Some? ==> r.value < |ps| && Owns(ps[r.value], id, user)
    ensures r.None? <==> forall k :: 0 <= k < |ps| ==> !Owns(ps[k], id, user)
  {
    if ps == [] then None
    else if Owns(ps[0], id, user) then Some(0)
    else
      assert forall k :: 1 <= k < |ps| ==> ps[k] == ps[1..][k - 1];
      match FindOwned(ps[1..], id, user)
      case None => None
      case Some(k) => Some(k + 1)
  }

  /** Ordered by `updatedAt`, most recent first: no record is newer than the one before it.
      Equal stamps may come in any order. */
  predicate NewestFirst(ps: seq<Playlist>) {
    forall i :: 0 < i < |ps| ==> ps[i - 1].updatedAt >= ps[i].updatedAt
  }

  /** In a newest-first sequence every record is at least as recent as any later one. */
  lemma {:induction false} NewestFirstOrders(ps: seq<Playlist>, i: nat, j: nat)
    requires NewestFirst(ps) && i <= j < |ps|
    ensures ps[i].updatedAt >= ps[j].updatedAt
    decreases j - i
  {
    if i < j {
      NewestFirstOrders(ps, i, j - 1);
    }
  }

  /** Puts `p` in front of the first record that is not more recent than it. */
  function InsertByRecency(p: Playlist, ps: seq<Playlist>): (r: seq<Playlist>)
    requires NewestFirst(ps)
    ensures NewestFirst(r)
    ensures multiset(r) == multiset(ps) + multiset{p}
    ensures |r| == |ps| + 1 && (r[0] == p || (ps != [] && r[0] == ps[0]))
  {
    if ps == [] || p.updatedAt >= ps[0].updatedAt then [p] + ps
    else
      assert ps == [ps[0]] + ps[1..];
      [ps[0]] + InsertByRecency(p, ps[1..])
  }

  /** `.sort({ updatedAt: -1 })`: a rearrangement of `ps`, most recently updated first. */
  function SortByRecency(ps: seq<Playlist>): (r: seq<Playlist>)
    ensures NewestFirst(r)
    ensures multiset(r) == multiset(ps)
  {
    if ps == [] then []
    else
      assert ps == [ps[0]] + ps[1..];
      InsertByRecency(ps[0], SortByRecency(ps[1..]))
  }

  /** In any newest-first arrangement, a record strictly more recent than all others comes first. */
  lemma NewestLeads(ps: seq<Playlist>, p: Playlist, r: seq<Playlist>)
    requires p in ps && forall q :: q in ps && q != p ==> q.updatedAt < p.updatedAt
    requires multiset(r) == multiset(ps) && NewestFirst(r)
    ensures r != [] && r[0] == p
  {
    assert p in multiset(r);
    var j :| 0 <= j < |r| && r[j] == p;
    assert r[0] in multiset(ps);
    NewestFirstOrders(r, 0, j);
  }
}
